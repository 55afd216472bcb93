# NetBufs, verified

NetBufs sends trees of groups, attributes and arrays between two programs that number their names independently. It is built
from four layers: a buffered byte stream, a CBOR codec (RFC 7049), the NetBufs protocol with its dictionaries of names, and,
beside them, allocators and growing containers. The benchmark adds a printer and a parser for the text that BIRD dumps.
This project models each layer in the form the C code has, and proves what the layers promise, alone and stacked.

## How the model is built

Every layer has two faces. Pure functions on byte sequences and tree values say what the code reads, writes and refuses;
the theorems are about them. Classes and methods with the fields, loops and fast paths of the C code are proved equal to
those functions, on success and on every error.

| file | contents |
|---|---|
| `Prelude.dfy` | machine integers, the error codes, results, C strings |
| `Wire.dfy` | headers: argument widths, network byte order, canonical form, two's complement |
| `Cbor.dfy`, `CborRoundTrip.dfy` | items, encoder and decoder as functions; which items are encoded, and the round trip |
| `CborReads.dfy` | the octets of RFC 7049, the calls that read one value, and what every call answers to other inputs |
| `CborGrammar.dfy`, `CborReadings.dfy` | the decoder against a grammar in the terms of RFC 7049, on every input; which accepted inputs are strict, what the encoder writes, what items count for |
| `CborStream.dfy`, `CborCalls.dfy` | `struct cbor_stream`: block stack, encoder and decoder over the buffer; blocks and chunked strings written through the begin and end calls |
| `Buffer.dfy`, `BufferRuns.dfy` | `struct nb_buffer` with the memory backend; runs of reads and writes |
| `NetBufs.dfy`, `NetBufsTransfer.dfy`, `NetBufsRuns.dfy`, `NetBufsIsCbor.dfy` | the protocol as functions; end-to-end transfer; keys over whole sessions; sender output as CBOR |
| `NetBufsDialogue.dfy` | values in both directions between two parties |
| `NetBufsReads.dfy` | what is sent, octet by octet; which inputs the receiving calls accept, and what they answer to a wrong group or name |
| `NetBufsLookups.dfy`, `NetBufsNames.dfy` | what every pID reads as after any key insertions; why groups need different names |
| `Nb.dfy`, `NbApplication.dfy`, `NbConversation.dfy`, `NbRebinding.dfy`, `NbNames.dfy` | `struct nb`; applications that send and receive trees through it; both ends over one buffer; two programs from `nb_init` on; names bound again in between; which names any calls leave |
| `GrowArray.dfy`, `Stack.dfy` | doubling arrays and the stack of blocks |
| `Mempool.dfy`, `MempoolMemory.dfy` | the memory pool as a value, and in a memory with headers, trailers and freed areas |
| `Diag.dfy`, `DiagPoints.dfy`, `DiagDecoder.dfy` | the indentation of the diagnostic output: the calls that go with the bytes of an input, exactly when they go below zero, and the decoder that makes them |
| `BirdText.dfy`, `BirdRoundTrip.dfy`, `BirdCutOff.dfy`, `BirdStreams.dfy` | BIRD text: printer and parser as functions, their round trip, dumps that are cut off, and both over buffers |
| `BirdGrammar.dfy`, `BirdPrinted.dfy` | the parser against a grammar of the text, on every input; the printed text in terms of characters |

## Main results

- **Transfer** (`ValueReceived`, `Session`, `Converse`, `ConverseInRounds`, `DialogueUnderstood`): a tree sent under one
  numbering of the names arrives under any other as the same tree, with every id renamed by its name, if and only if it is not
  an array that comes before any attribute. Nothing but the names is agreed beforehand: `Converse` starts at `nb_init` with two
  lists of bindings, and dictionary agreement is kept by every id, insertion and group, by names that the sender binds again in
  between, and by values that go the other way.
- **Receiving** (`IdReadIff`, `GroupReadIff`, `GroupIsChecked`, `ReceivedFits`, `NamesAreBound`): for every input, `recv_id` and
  `nb_recv_group` accept exactly the bytes of key insertions, the key 0 and the expected group; between agreeing parties that is
  the group of the name that was sent, and any other is refused; whatever arrives fits the types expected. Names are those in
  the calls of `nb_group` and `nb_bind`, the last one for each id.
- **Keys** (`SessionDefinesOnce`, `SentPidsPersist`): over any session from any state, every pID that was given out stays, the
  insertions on the wire are exactly one per newly used id, and no pID is used before its insertion.
- **Round trip** (`EncodesIff`, `RoundTrip`, `IdentityRoundTrip`): exactly which items are encoded, and which error the others
  give; an exact outcome of decoding for every one of them, tags included, and the exact condition under which the item itself
  comes back.
- **Grammar** (`DecodesTheGrammar`, `AcceptedIsStrict`, `EncodedIsDerived`): on every input, tags and chunked strings included,
  the decoder accepts exactly the sentences of a grammar and returns what they denote; exactly which of them are strict;
  exactly which items are encoded as sentences. `HeadErrors`, `ItemErrors`: which error every other input gives.
- **Typed calls** (`IntReadIff`, `BoolReadIff`, `UintReadIff`, `StringReadIff`): what each call that reads one value accepts, on
  every input, and what it then returns, in terms of the item there or of the octets.
- **Streams** (`WriteThenRead`, `EndIsPermanent`): the window over a growing memory is a byte sequence; its end is final.
- **Memory pool** (`PoolSeparates`, `FragmentationBound`, `BlocksOfPool`, `MempoolDelete`, `Lifetime`): regions never overlap
  each other, the trailers or the header of the pool inside itself; waste is bounded; exactly the requests for more than half a
  block have blocks of their own; every block is freed exactly once.
- **Containers** (`GrowthIsAmortised`, `ContentsSurvive`, `StackIsIdeal`): linear copying, contents kept, zero-filled slots.
- **Diagnostics** (`CallsLevelOut`, `StreamUnderflowsIff`, `DecodeItem`, `DumpStream`): for every input, whether decoding
  succeeds or fails, the level follows the calls for its bytes; it goes below zero exactly where the level that the open blocks
  call for and the drift up to there do; and without chunked strings it returns to zero exactly when tags in maps are paired.
- **BIRD text** (`ParsesTheGrammar`, `TableRoundTrip`, `ExactRoundTrip`, `CutTableFails`): on every input the parser accepts
  exactly the tables of a grammar, and returns what they say; what is printed is parsed back, and exactly when it is not; a dump
  that breaks off in a path fails an assert.

## Where the code differs from what one would expect

The model follows the code. These are the places where the intended statement is false, each with its exact condition.

- `cbor_encode_uint64` passes values above 23 through a 32-bit parameter (`src/include/cbor.h:220-234`), so that wider
  values arrive as their low 32 bits: `WideUIntIsLost`, `IdentityRoundTrip`, `SentBackUnchanged`. Through `EncodeUint`
  all 64 bits are sent.
- The end of a definite block is not checked on encoding: the comparison with the announced length is commented out
  (`src/encode.c:202-204`), so `WriteBlock` succeeds whatever was announced. `WrittenBlockDecodes`: what is written is read
  back if and only if the announced length counts its items and their tags, no block inside holds a tag directly at a
  definite length, and either no item is missing or a break follows. For a block without tags: if and only if the announced
  length is its item count.
- A tag and the item it tags both count (`src/decode.c:171`). What the encoder writes of a block of definite length that
  directly holds a tag is therefore rejected (`RoundTrip`). `DefiniteBlockAccepted`: on any input, a block of definite length
  is accepted if and only if its items are, in pairs for a map, and count as many as announced; items without chunked strings
  count one each and one more per tag. So a tag can make up for an item that a break leaves out, and the break stays:
  `LaxInputsAreAccepted`.
- The length of a definite map is doubled modulo 2^64 (`src/decode.c:390-391`, `src/decode.c:651`), and simple values below
  32 are accepted in two bytes: `LaxInputsAreAccepted`. `AcceptedIsStrict`: an accepted input is a sentence of the strict
  grammar if and only if it is `Regular`, a scan of its heads: no map header of 2^63 or more, no small simple value in two bytes,
  no string in chunks, no tag directly in a block of definite length.
- The encoder emits the reserved simple values 24 to 31. `EncodedIsDerived`: what it writes of an item is a strict sentence if
  and only if the item is tag-safe and has none of them; with one, no input at all is a strict sentence for it
  (`NoReservedValue`).
- The chunk loop of an indefinite-length string leaves the break in the input (`src/decode.c:529-536`): `DecodeStream`. A
  string written in chunks through the begin and end calls is read with its break left over, and without any chunk, text
  writes its NUL through a null pointer, which the model reports as an error: `ChunkedRoundTrip`.
- `decode_uint` looks at the argument only (`src/decode.c:256-265`), so that -1 is read as 0 (`NegativeReadAsZero`).
  `UintIsItem`: the number it returns is the item in the input if and only if the initial byte has the major type of
  unsigned integers.
- `nb_init` leaves `cur_attr` unset, `nb_recv_array` copies it into the block, and `nb_recv_array_end` asserts that it is there
  and uses it (`src/receive.c:19`, `src/receive.c:229-234`). `FirstArrayFails`: an empty array as the first thing received.
  `ValueReceived`: a conforming value arrives if and only if it is no array or an attribute was received before; `Session`,
  `ArraysLaterIff`: a run of trees arrives if and only if every array has a group with attributes somewhere before it.
- The chunks of a string count as items, but make no diagnostic calls. An odd number of tags in an indefinite map leaves the
  output indented, and a string in an odd number of chunks shifts it: up where the count of the map is odd, as for a value,
  and down where it is even, as for a key (`CallsLevelOut`). That can fail the assert of the dedent on an input that decodes
  (`ChunkedValueUnderflows`). `StreamUnderflowsIff`: it fails if and only if there is a point of the scan where the level that
  the open blocks call for and the drift up to there are below zero together. The former alone never is (`LevelsAreDepths`),
  and the drift never is if no such string comes at an even count (`CalmStreamsClimb`), in particular on no input that is
  `Regular` (`RegularIsCalm`).
- Binding an id again takes away the pID of a name that was sent: `BindLeavesGap`, if and only if. The sender can go on as long
  as the pIDs fit in the 32 bits that are sent: `BindKeepsValid`, if and only if, and `RoomIsPlenty`, which is so until 2^31 of
  them have been given out.
- Two groups of one name are one group to a receiver, but numbered separately by the sender. `SharedNameIsMisread`: the third
  of three trees arrives with the attribute of the other group.
- Entries of `pid_to_lid` that were skipped read as 0, not as unknown (`src/receive.c:57-76`, `src/array.c:35`), and the
  bound in front of the access is one too large. `UnlearnedReadsAsZero`: after any run of insertions a pID that was not in
  it reads as 0 up to the number of entries, right behind them is an access outside the array if and only if they fill it,
  and is reported only further on; `UnlearnedPidsOnTheWire` has inputs. No stream of a sender ever makes a receiver read such
  an entry: `IdReceived`.
- A stack created with no slots cannot grow (`src/stack.c:36-40`): `NoSlotsNoPush`.
- In BIRD text a local preference is printed with a sign and read without one, a netmask is printed as a byte, and an empty
  value is read as none: `HighPreferenceIsLost`, `ExactRoundTrip`. Negative times do come back (`TimeParsed`).
- A path at the very end of the input fails an assert, because the end is put back (`benchmark/src/parser.c:371`).
  `PathAtEndIff`: on an input without the byte 0xFF, if and only if all of it is digits, blanks and braces. `CutTableFails`: so
  does parsing a whole dump that breaks off anywhere in a path, and no other text behind the key of one.

## Reading the contracts

`error()` and `parse_error` never return in this repository, so an error is a final outcome (`Err`), and what the state is
afterwards is left open. `ErrAssert` is a failed `assert` and `ErrUndefined` an access that C leaves undefined. Pointers to
groups are indexes. Addresses that `malloc` answers with are parameters, with its promise as the precondition. `CStr` is
what the C string functions see of a buffer.

## Model

| member | source | states |
|---|---|---|
| `Wire.HeaderRoundTrip` | src/encode.c:55-98 | for every major type and every 64-bit argument, reading the header that `write_hdr_u64` emits gives the argument back and stops right behind it |
| `Wire.HeaderIsCanonical` | src/encode.c:55-98 | among all headers that decode to a given major type and argument, the emitted one is the shortest, and the only one of its length |
| `Wire.ReadArgIsHeader` | src/decode.c:65-85 | whatever `decode_u64` takes off the input is, with its initial byte, a header of the argument it returns |
| `Wire.HeadersAreRead` | src/decode.c:65-85 | `decode_u64` accepts exactly the headers of RFC 7049, section 2.1, which are defined by the value of the argument and its width: additional information 28 to 30 and short arguments are refused, and nothing else |
| `Wire.BigEndianRoundTrip` | src/encode.c:55-98 | k big-endian bytes determine every number below 256^k |
| `Wire.FromBigEndianRoundTrip` | src/decode.c:65-85 | the converse: every run of bytes is the big-endian form of its value |
| `Wire.BigEndianSuffix` | src/encode.c:55-98 | the last k of the eight network-order bytes are the number on k bytes, which is what the encoder cuts out |
| `Wire.LeadingZeros` | src/decode.c:65-85 | reading k bytes into the low end of eight zeros has the value of the k bytes |
| `Wire.NegArg` | src/encode.c:131-134 | `i64_to_u64` maps negative int64 into 0..2^63-1, and `u64_to_i64` maps it back |
| `Wire.NegArgOfNegValue` | src/decode.c:89-97 | the other direction: the two maps are inverse bijections |
| `CborRoundTrip.RoundTrip` | src/decode.c:663-722 | for every representable item that `Encodable` holds of, tags included: decoding encode(t) followed by any bytes gives the item back up to the fields that the encoder ignores, counts it with its tags and stops behind it, if it is tag-safe, and otherwise fails with a count mismatch |
| `CborRoundTrip.EncodesIff` | src/encode.c:343-423 | an item is encoded if and only if no simple value in it is above 255 and every map directly holds an even number of tags; otherwise the error is that of the first part, in the order of sending, that is not: a range error for a simple value, an item count error for a map |
| `CborRoundTrip.IdentityRoundTrip` | src/decode.c:663-722 | of the items that are encoded: the item comes back identical if and only if unsigned values are below 2^32, other integers negative, strings definite and NUL-free, tag fields zero, and the item is tag-safe |
| `CborRoundTrip.WideUIntIsLost` | src/include/cbor.h:220-234 | 2^32 is encoded by `cbor_encode_uint64` so that it is read back as 0 |
| `CborRoundTrip.ReceivedUnchanged` | src/encode.c:400-423 | exactly which items the encoding loses nothing of |
| `CborRoundTrip.RoundTripBlock` | src/decode.c:608-660 | the array and map step of the round trip, for definite and indefinite length |
| `CborRoundTrip.RoundTripTag` | src/encode.c:390-397 | the tag number is read from one field and written to another, reduced to 32 bits |
| `CborRoundTrip.EndWritten` | src/decode.c:397-419 | a block as written ends: the break is there, or the announced count matches |
| `CborGrammar.DecodesTheGrammar` | src/decode.c:155-234 | for every input: the decoder succeeds with t, counts n and leaves rest if and only if the bytes consumed are a derivation of t, counting n, in the lax grammar, given whether rest starts with a break |
| `CborGrammar.Complete` | src/decode.c:663-722 | every derivation, strict or lax, in any allowed header length, is decoded, and decoding stops behind it |
| `CborGrammar.Sound` | src/decode.c:608-722 | every successful decoding is a lax derivation of its result, and a strict one if the input is regular |
| `CborReadings.LaxInputsAreAccepted` | src/decode.c:378-394 | the deviations from the strict reading occur: 2^63 announced pairs are read as none, because the length is doubled modulo 2^64; a small simple value is accepted in two bytes; and 82 C1 01 FF is an array of one tagged number, in front of a break that stays |
| `CborReadings.EncodedIsDerived` | src/encode.c:400-423 | of the items that are encoded: the encoding is a sentence of the grammar for it, whatever follows, if and only if the item is tag-safe, and a strict one if and only if it also has no reserved simple value |
| `CborReadings.NoReservedValue` | src/encode.c:303-320 | no bytes whatever are a strict sentence for an item that holds a reserved simple value |
| `CborReadings.AcceptedIsStrict` | src/decode.c:155-234 | among the inputs that are accepted, the strict sentences are exactly the regular ones |
| `CborReadings.DecodedCount` | src/decode.c:155-234 | a decoded item counts for one and for each of its tags, unless it has strings in chunks; decoded maps hold whole pairs |
| `CborReadings.DefiniteBlockAccepted` | src/decode.c:397-419 | on any input behind any head of a definite array or map: accepted if and only if its items are, in pairs for a map, and their count is the announced one; without chunked strings that count is the number of items and their tags |
| `CborReads.HeaderOctets` | src/encode.c:55-98 | the headers of the grammar, octet by octet as in RFC 7049, section 2.1: 32 times the major type plus the argument, 24, 25, 26 or 27, and one, two, four or eight octets |
| `CborReads.MajorTypes` | src/decode.c:155-234 | what each of the eight major types stands for, by its number, and -1-n for major type 1 |
| `CborReads.HeadErrors` | src/decode.c:155-234 | every input has a head that is read, or the error that its first octets call for: end of input, bad additional information, indefinite length where there is none, a float, a negative number below the 64-bit range |
| `CborReads.ItemErrors` | src/decode.c:608-722 | and behind a head that is read, which error a whole item gives: a string cut short, a wide tag, the items inside, an odd map, a count that does not match |
| `CborReads.SvalReadIff` | src/decode.c:359-364 | `cbor_decode_sval` succeeds exactly where the decoder of items finds a simple value, with the same value and rest |
| `CborReads.BoolReadIff` | src/decode.c:367-375 | for every input: true if and only if the head is F5 or F8 15, false if and only if it is F4 or F8 14, and what is behind that head is left |
| `CborReads.IntReadIff` | src/decode.c:269-300 | `decode_int` succeeds exactly where the decoder of items finds an integer in the range, of either sign |
| `CborReads.IntReadErrors` | src/decode.c:269-300 | an item of any other major type is an item error, an integer outside the range a range error |
| `CborReads.StringReadIff` | src/decode.c:548-597 | the string calls succeed exactly where the decoder of items finds a string of that type, in one piece or in chunks |
| `CborReads.UintReadIff` | src/decode.c:256-265 | `decode_uint` succeeds exactly on the heads with an argument in the range: of any definite length, tag, number or simple value |
| `CborReads.OpenIff` | src/decode.c:378-394 | an array or a map of definite length is opened exactly by a header of its major type, with that count |
| `CborReads.OpenIndefIff` | src/decode.c:378-394 | and one of indefinite length exactly by the octet 9F or BF |
| `CborReads.OpenErrors` | src/decode.c:378-394 | another item or a break is an item error, the other kind of length an error of its own |
| `CborReads.CallErrors` | src/decode.c:246-375 | which error each call that reads one value gives behind a head that it can read |
| `CborReads.NoHead` | src/decode.c:155-234 | and that every one of them gives the error of a head that it cannot read |
| `CborReads.ChunkErrors` | src/decode.c:516-537 | the chunk loop fails at the first chunk that is not one of its type in one piece, behind any number that are |
| `CborStreams.CborStream.constructor` | src/cbor.c:49-64 | the block stack starts with the sentinel block |
| `CborStreams.CborStream.WriteHdrU64` | src/encode.c:55-98 | one more item in the innermost block, and the buffer has grown by the header |
| `CborStreams.CborStream.EncodeUint` | src/encode.c:101-128 | the general path: the whole 64-bit argument is written |
| `CborStreams.CborStream.EncodeUint32` | src/include/cbor.h:196-210 | the inline path writes the same bytes and counts the same as the general one |
| `CborStreams.CborStream.EncodeUint64` | src/include/cbor.h:220-234 | only the low 32 bits of a value above 23 are written |
| `CborStreams.CborStream.EncodeInt` | src/encode.c:137-167 | sign decides the major type; -1-n is sent for negative numbers |
| `CborStreams.CborStream.StartBlock` | src/encode.c:170-185 | the block is counted outside and pushed with its length and the group of the block around it; strings can be opened for chunks |
| `CborStreams.CborStream.EndBlock` | src/encode.c:188-209 | the sentinel is never popped; the type has to match; an indefinite block gets a break; the announced length is not compared with anything |
| `CborStreams.CborStream.EncodeMapEnd` | src/encode.c:242-248 | an odd number of items is an error, otherwise the map ends |
| `CborStreams.CborStream.EncodeString` | src/encode.c:251-263 | header with the length, then the bytes |
| `CborStreams.CborStream.EncodeText` | src/encode.c:278-282 | the bytes before the first NUL are sent |
| `CborStreams.CborStream.EncodeSval` | src/encode.c:303-320 | values up to 23 in one byte, up to 255 in two, others are an error |
| `CborStreams.CborStream.EncodeItems` | src/encode.c:329-339 | the loop writes the encodings in order and counts every item and tag |
| `CborStreams.CborStream.EncodeBlock` | src/encode.c:343-387 | arrays and maps refine the specification of the encoder, errors included, and restore the stack |
| `CborStreams.CborStream.EncodeTagged` | src/encode.c:390-397 | the tag and the item it tags are counted separately |
| `CborStreams.CborStream.EncodeItem` | src/encode.c:400-423 | the buffer grows by exactly the encoding; the enclosing count rises by one plus the tags; all other blocks are untouched |
| `CborStreams.CborStream.ReadStream` | src/decode.c:56-62 | a short read is an error, otherwise the bytes are taken |
| `CborStreams.CborStream.IsBreak` | src/include/cbor.h:182-185 | true at a break, false at anything else and at the end of the input, and nothing is consumed |
| `CborStreams.CborStream.DecodeU64` | src/decode.c:65-85 | all argument widths; additional information above 27 is an error |
| `CborStreams.CborStream.Predecode` | src/decode.c:155-234 | the head of any item; all but a break count |
| `CborStreams.CborStream.DecodeItemMajor7` | src/decode.c:116-152 | simple values; floats are unsupported; the rest is an error |
| `CborStreams.CborStream.PredecodeCheck` | src/decode.c:246-253 | an item of another type is an error |
| `CborStreams.CborStream.DecodeUint` | src/decode.c:256-265 | the argument of the next item if it is in range, whatever its major type |
| `CborStreams.CborStream.DecodeUint64` | src/include/cbor.h:263-279 | the inline path has the same outcome, rest and count as the general one |
| `CborStreams.CborStream.DecodeInt` | src/decode.c:269-300 | signed integers in a range, from either major type |
| `CborStreams.CborStream.DecodeSval` | src/decode.c:359-364 | simple values |
| `CborStreams.CborStream.DecodeBool` | src/decode.c:367-375 | 20 and 21 only |
| `CborStreams.CborStream.DecodeBlockStart` | src/decode.c:378-394 | the block is pushed with the announced count, doubled for maps modulo 2^64; the kind of length has to match |
| `CborStreams.CborStream.DecodeBlockEnd` | src/decode.c:397-419 | a block of the right type is popped after its break or on a matching count; the sentinel is never popped |
| `CborStreams.CborStream.DecodeStream` | src/decode.c:516-537 | the chunk loop concatenates the chunks and leaves the break as the next byte |
| `CborStreams.CborStream.DecodeString` | src/decode.c:548-597 | byte and text strings in both forms |
| `CborStreams.CborStream.DecodeItems` | src/decode.c:608-637 | the loop with doubling room returns the items up to the limit or the break |
| `CborStreams.CborStream.DecodeBlock` | src/decode.c:684-710 | arrays and maps, with the odd-map error |
| `CborStreams.CborStream.DecodeTagged` | src/decode.c:712-716 | tag numbers are 32 bits |
| `CborStreams.CborStream.DecodeItem` | src/decode.c:663-722 | refines the decoder specification on every input, success or error; the lower blocks are restored and the enclosing count rises by the item and its tags |
| `CborCalls.WriteBlock` | src/encode.c:170-209 | the begin call, the items and the end call of a definite block: no length that is announced makes them fail, and the bytes are the header and the encodings |
| `CborCalls.WrittenBlockDecodes` | src/encode.c:188-209 | what these calls write is read back as the block if and only if the announced length counts the items and their tags, the items are tag-safe, and no item is missing or a break follows; without tags in the block: if and only if the length is the number of tag-safe items |
| `CborCalls.WriteChunks` | src/encode.c:266-294 | a string sent in chunks through the begin and end calls counts once, and its bytes are those of the opening, the chunks and the break |
| `CborCalls.ChunksAreRead` | src/decode.c:516-537 | the chunk loop joins any chunks that were written, and counts them |
| `CborCalls.ChunkedRoundTrip` | src/decode.c:516-597 | such a string is read back with its flag and its contents, the break is left in the input, and text without chunks is an undefined access |
| `CborCalls.NegativeReadAsZero` | src/decode.c:256-265 | `decode_uint` reads -1 as 0 |
| `CborCalls.UintIsItem` | src/decode.c:256-265 | what `decode_uint` returns is the item in the input if and only if its initial byte has major type 0 |
| `Buffer.NbBuffer.GrowMemory` | src/buffer-memory.c:85-98 | a larger memory with the old contents in front |
| `Buffer.NbBuffer.MemFlush` | src/buffer-memory.c:85-98 | the single growth step always makes room for the window, and the memory stays within the larger of the window size and twice its contents |
| `Buffer.NbBuffer.Flush` | src/buffer.c:41-51 | written bytes stay readable; an unread part of the window is dropped |
| `Buffer.NbBuffer.Fill` | src/buffer.c:54-59 | the window gets the next stored bytes; it reports failure only at the end |
| `Buffer.NbBuffer.ReadSlow` | src/buffer.c:63-98 | the first count bytes of what is left, fewer only at the end |
| `Buffer.NbBuffer.Read` | src/include/buffer.h:49-69 | the inline path has the outcome of the slow one |
| `Buffer.NbBuffer.WriteSlow` | src/buffer.c:137-169 | what was written and what is left to read grow by the bytes |
| `Buffer.NbBuffer.Write` | src/include/buffer.h:26-46 | the inline path has the outcome of the slow one; the written total is the length of all writes |
| `Buffer.NbBuffer.Getc` | src/include/buffer.h:71-77 | the next byte is taken, or the end reported |
| `Buffer.NbBuffer.Ungetc` | src/include/buffer.h:79-83 | the byte is in front of what is left again |
| `Buffer.NbBuffer.Peek` | src/include/buffer.h:85-91 | nothing is consumed |
| `Buffer.NbBuffer.IsEof` | src/buffer.c:172-185 | true if and only if nothing is left |
| `BufferRuns.WriteAll` | src/buffer.c:131-134 | any mix of inline and slow writes, then a flush, leaves the concatenation to be read |
| `BufferRuns.ReadAll` | src/buffer.c:125-128 | any mix of reads, getc, peek and end tests has the outcomes it has on a plain byte sequence |
| `BufferRuns.ReturnedIsTaken` | src/buffer.c:63-98 | over a run, the bytes handed out are the bytes taken off the input, in order |
| `BufferRuns.WriteThenRead` | src/buffer.c:41-98 | write phase, flush, read phase: outcomes are those on the concatenation of the writes |
| `BufferRuns.EndIsPermanent` | src/buffer.c:62-98 | once a short read, getc, peek or end test has reported the end, every later one does |
| `NetBufs.AssignKeepsValid` | src/send.c:35-53 | giving a name the next pID keeps the pIDs from 2 to max distinct, one for each used id, with enough of them left below 2^32; and without gaps, if there were none |
| `NetBufs.LidToPid` | src/send.c:35-53 | a bound id gets a pID from 2 on that fits in 32 bits and is recorded; the dictionary stays a valid numbering, and what was learned is untouched |
| `NetBufsTransfer.ValueReceived` | src/receive.c:15-235 | every well-nested tree, sent from any state, is received by any agreeing party as the same tree with each id renamed by its name, with all its bytes and nothing else consumed and agreement again, if and only if it is no array or the receiver has a current attribute; otherwise its end is an undefined access |
| `NetBufsTransfer.FreshPartiesAgree` | src/netbufs.c:116-143 | before anything is sent, any two parties agree, whatever ids they gave to the names |
| `NetBufsTransfer.InsertionReceived` | src/receive.c:30-53 | receiving a key insertion makes the dictionaries agree on the new pID |
| `NetBufsTransfer.IdReceived` | src/receive.c:57-76 | an id behind its insertion, if there is one, is read as the receiver's id of the same name, without reading an unlearned entry |
| `NetBufsTransfer.GroupIdReceived` | src/receive.c:101-126 | the same for the id of a group, with the key 0 in between |
| `NetBufsTransfer.LearnedLookup` | src/receive.c:43-52 | learning a pID defines that entry and changes no other that can be looked up |
| `NetBufsTransfer.GroupUpdateKeepsAgreement` | src/send.c:35-53 | an update of the dictionaries of one group leaves the agreement of all others |
| `NetBufsTransfer.GroupStartReceived` | src/receive.c:101-126 | the start of a group is recognised, and agreement in the groups namespace is kept |
| `NetBufsTransfer.AttrIdReceived` | src/receive.c:79-98 | so is every attribute id inside a group |
| `NetBufsTransfer.RenamedBack` | src/receive.c:30-53 | with unique names the renaming of ids has an inverse |
| `NetBufsTransfer.SentBackUnchanged` | src/send.c:165-169 | a tree that is sent back is the original if and only if no 64-bit unsigned value in it needs more than 32 bits |
| `NetBufsDialogue.DialogueUnderstood` | src/receive.c:15-235 | two parties that agree in both directions understand every value of every dialogue, whoever speaks when, if and only if no side receives an array before an attribute |
| `NetBufsDialogue.PreparedDialogue` | src/netbufs.c:41-143 | so do two parties from `nb_init` on, whatever they bind, if no side has two groups of one name |
| `NetBufsDialogue.SendingKeepsReceived` | src/send.c:25-191 | sending any value changes no pID that was received, and not the current attribute |
| `NetBufsDialogue.ReceivingKeepsSent` | src/receive.c:24-235 | receiving from any input gives out no pID and takes none back |
| `NetBufsIsCbor.SentIsItem` | src/send.c:25-106 | every value, with the insertions inside it, is one well-formed item of RFC 7049: arrays hold what they announce and maps hold pairs |
| `NetBufsIsCbor.SentIsDecoded` | src/send.c:65-191 | the plain CBOR decoder reads it as that item and stops behind it |
| `NetBufsIsCbor.AttrItemsArePairs` | src/send.c:25-76 | key insertions come in pairs of items, so item counts of groups stay even |
| `NetBufsIsCbor.InsertedOnce` | src/send.c:35-53 | in one dictionary: an id that has its pID inserts nothing again and keeps it, whatever run of ids is used in between, and no other id has the same pID |
| `NetBufsRuns.SessionDefinesOnce` | src/send.c:25-191 | over any trees from any state: the bytes sent are certain keys, uses of pIDs and other bytes in order; given pIDs stay; the keys are, each once, exactly the ids that get a pID in the session; every use has the pID the id had before, or stands behind its key |
| `NetBufsRuns.SentPidsPersist` | src/send.c:35-53 | no send changes a pID that was given out, in the groups namespace or in any group |
| `NetBufsRuns.AllTokensAccount` | src/send.c:25-191 | the bytes of a session are those of its pieces, and the sender ends in the state that the pieces lead to |
| `NetBufsRuns.KeysAreNew` | src/send.c:35-53 | a key on the wire is of an id that had no pID, and no later key is of the same id |
| `NetBufsRuns.UsesAreDefined` | src/send.c:35-76 | a pID on the wire was known before, or its key stands in front of it |
| `NetBufsRuns.SendingKeepsGapless` | src/send.c:35-53 | sending any tree leaves the pIDs of every group without gaps if they were: the numbers from 2 on, as many as ids were used |
| `NetBufsLookups.UnlearnedReadsAsZero` | src/receive.c:30-76 | for every pID after every run of insertions into a new dictionary: the local id of the name it was given last; otherwise 0 up to the number of entries, an access outside the array right behind them if they fill it, and the undefined-id error further on |
| `NetBufsLookups.LearnedSlots` | src/array.c:74-85 | the array after any run of insertions: which runs are accepted, its entries, its doubled slots, and the contents of each |
| `NetBufsLookups.KeysReceived` | src/receive.c:57-76 | `recv_id` on the bytes of any insertions and a pID is that run and then that lookup |
| `NetBufsLookups.UnlearnedPidsOnTheWire` | src/receive.c:57-76 | behind the insertion of pID 3, pID 2 is local id 0 and pID 4 outside the array; behind that of pID 4, pID 5 is local id 0 and pID 6 an error |
| `NetBufsReads.ScalarOctets` | src/send.c:109-178 | F4 and F5 for the booleans, headers of major type 0 for n and of major type 1 for -1-n, 64-bit unsigned values modulo 2^32, text as a header of major type 3 and its bytes |
| `NetBufsReads.SendableRanges` | src/send.c:116-169 | the ranges of the C types in decimal |
| `NetBufsReads.KeyOctets` | src/send.c:25-53 | an id without a pID gets the next one, and its key is sent as 01 BF, the name, the pID and FF; an id with one sends nothing and changes nothing |
| `NetBufsReads.GroupStartOctets` | src/send.c:79-97 | a group starts with BF, the key of its name if it is new, 00, and its pID |
| `NetBufsReads.IdReadIff` | src/receive.c:57-76 | for every input: `recv_id` takes key insertions, as many as there are and in any form of their headers, and one pID other than 1; the id is what that pID stands for after learning them in order |
| `NetBufsReads.GroupReadIff` | src/receive.c:101-126 | for every input: `nb_recv_group` takes a map of indefinite length, an id that stands for 0, and one that stands for the group expected, which is bound |
| `NetBufsReads.GroupIsChecked` | src/receive.c:101-126 | between agreeing parties, for every group expected: it is accepted if and only if it is the receiver's id of the name that was sent; otherwise the error is `NB_ERR_OTHER`, or a failed assert if the receiver has not bound that name |
| `NetBufsReads.OtherGroupIsRefused` | src/receive.c:101-126 | the same of a whole tree: a receiver that expects another group reads nothing of it |
| `NetBufsReads.FirstKeyIsChecked` | src/receive.c:106-110 | a first key that stands for anything but 0 is `NB_ERR_OTHER`, whatever group is expected |
| `NetBufsReads.AttrReadIff` | src/receive.c:79-98 | for every input: `nb_recv_attr` takes an id that stands for a bound attribute of the group, learns the keys in front of it, and makes it the current one |
| `NetBufsReads.AttrIsChecked` | src/receive.c:79-98 | between agreeing parties an attribute is accepted if and only if the receiver has bound its name in the group, and otherwise an assert fails |
| `NetBufsReads.ScalarReadIff` | src/receive.c:149-219 | for every input: the integer calls accept what the decoder of items finds there in the range of the C type, `nb_recv_bool` F4, F5, F8 14 and F8 15, unsigned ones any argument in the range, and strings end at their first NUL |
| `NetBufsReads.ReceivedFits` | src/receive.c:15-235 | whatever the input, a tree that is received has the types expected, numbers in their ranges, and only bound groups and attributes |
| `NetBufsNames.SharedNameIsMisread` | src/receive.c:30-53 | if two groups of the sender have the same name, and attributes with different ones, then of one tree of each and the first again the last arrives with the attribute of the other group |
| `NbParty.Nb.constructor` | src/netbufs.c:41-66 | no groups, no pIDs, pID 0 known, and no attribute that was received |
| `NbParty.BindKeepsValid` | src/netbufs.c:130-143 | binding an id, again or for the first time, leaves a numbering that can go on if and only if the pIDs that may be needed fit below 2^32 |
| `NbParty.BindLeavesGap` | src/netbufs.c:130-143 | and one without gaps if and only if no name of that id has been sent |
| `NbParty.RoomIsPlenty` | src/netbufs.c:130-143 | there is room for any id until 2^31 pIDs have been given out |
| `NbParty.Nb.AddGroup` | src/netbufs.c:116-127 | the id has the given name, with no attributes and an empty dictionary, and no other id changes; the party can go on if and only if there is room for its pIDs |
| `NbParty.Nb.Bind` | src/netbufs.c:130-143 | the id has the given name in its group only, replacing what it named before, sent or not, and no other id changes; the party can go on under the same condition |
| `NbParty.Nb.SendIkg` | src/send.c:25-32 | the insertion is written and counts as two items |
| `NbParty.Nb.LidToPid` | src/send.c:35-53 | refines the specification of the dictionary, with the bytes of the insertion |
| `NbParty.Nb.SendId` | src/send.c:65-76 | a negative id sends nothing, others send insertion and pID |
| `NbParty.Nb.SendGroup` | src/send.c:79-97 | the map is open with its group active in the new top block |
| `NbParty.Nb.SendGroupEnd` | src/send.c:100-106 | the map ends, and the group of the block around it is active again |
| `NbParty.Nb.SendField` | src/send.c:109-178 | scalars of every width are written as the specification says |
| `NbParty.Nb.SendArray` | src/send.c:181-185 | the array is open with its announced size |
| `NbParty.Nb.SendArrayEnd` | src/send.c:188-191 | the block has to be an array; its count is not compared with the announced one |
| `NbParty.Nb.FindName` | src/receive.c:36-42 | the first bound local id with that name, if there is one |
| `NbParty.Nb.RecvKeys` | src/receive.c:30-53 | refines the specification on every input: which entries are learned, or which error |
| `NbParty.Nb.RecvId` | src/receive.c:57-76 | the retry loop learns any number of insertions before the id |
| `NbParty.Nb.RecvAttr` | src/receive.c:79-98 | the next attribute id, which becomes the current one, or the end of the group |
| `NbParty.Nb.RecvGroup` | src/receive.c:101-126 | checks the group that arrives against the expected one and makes it active |
| `NbParty.Nb.RecvGroupEnd` | src/receive.c:130-146 | the active group is again that of the top block |
| `NbParty.Nb.RecvField` | src/receive.c:149-219 | scalars of every width with their range checks |
| `NbParty.Nb.RecvArray` | src/receive.c:15-21 | the announced size; the array is open, with the current attribute in its block, if there is one |
| `NbParty.Nb.RecvArrayEnd` | src/receive.c:222-235 | an undefined access if the block has no attribute; otherwise the array ends if it is one and its count matches |
| `NbApplication.SendValue` | src/send.c:65-191 | the calls for a tree write exactly what the specification sends, insertions included, and leave the stack as it was but for the items counted; the end of every group succeeds because its item count is even |
| `NbApplication.SendGroupValue` | src/send.c:79-106 | the same for a group: active group and stack are as before |
| `NbApplication.SendArrayValue` | src/send.c:181-191 | the same for an array |
| `NbApplication.RecvValue` | src/receive.c:15-235 | the receive loop returns what `Recv` says of the bytes, error or not, arrays without an attribute included |
| `NbApplication.RecvElements` | src/receive.c:222-235 | the elements of an array in order |
| `NbApplication.RecvAttributes` | src/receive.c:79-98 | the attributes of a group up to its break |
| `NbApplication.Exchange` | src/receive.c:15-235 | end to end over one buffer: an array before any attribute fails; any other tree arrives renamed, every byte is consumed, the parties agree again; the bytes and the state of the sender are those of the specification |
| `NbApplication.Session` | src/send.c:65-191 | any number of trees in a row, with the bytes of the whole session: all of them arrive, or it fails, if and only if some array comes before the first attribute |
| `NbApplication.ArraysLaterIff` | src/receive.c:222-235 | that is: for every array there was an attribute at the start, or some group before it has attributes |
| `NbConversation.BindingKeepsUntouched` | src/netbufs.c:17-24 | binding any name, again or for the first time, gives out no pID and learns nothing |
| `NbConversation.PreparedPartiesAgree` | src/netbufs.c:41-66 | after `nb_init` and any two lists of bindings the parties agree, if no two groups of the sender have the same name; that is part of agreement, and `SharedNameIsMisread` shows that it has to be |
| `NbConversation.Converse` | src/netbufs.c:41-143 | from `nb_init`: both parties bind their names, then any trees go over one buffer; every one arrives renamed if no array comes before the first attribute, and it fails otherwise; the bytes define every key once, in front of its first use |
| `NbConversation.FirstArrayFails` | src/receive.c:222-235 | the byte 80, an empty array, as the first thing received is an undefined access; with a current attribute it is read |
| `NbRebinding.BindingKeepsLinked` | src/netbufs.c:116-143 | whatever the sender binds, again or for the first time, every pID it has given out and not taken back still reads as the name it stands for |
| `NbRebinding.RebindingKeepsAgreement` | src/netbufs.c:116-143 | after any bindings of the sender in between, the parties agree if and only if its groups have different names |
| `NbRebinding.Continue` | src/netbufs.c:116-143 | names bound in the middle of a conversation, and the trees sent under them |
| `NbRebinding.ConverseInRounds` | src/netbufs.c:41-143 | any number of such rounds from `nb_init` on: the receiver hears every tree under the names of its round, up to an array that comes before any attribute |
| `NbNames.NamesAreBound` | src/netbufs.c:116-143 | after any list of `nb_group` and `nb_bind` calls on any party: a group id has the name in the last call for it, or else the one it had; an attribute id the name in the last call for it behind the last one for its group, or none if there is no such call; or else the one it had |
| `NbNames.PreparedNames` | src/netbufs.c:116-143 | from `nb_init` on: just the names in the list, and every other id has none |
| `NbNames.PidsAreKept` | src/netbufs.c:116-143 | what is bound has no pID, a new group has given out none and received none, and every other pID, the largest one of each group, everything received and the current attribute stay |
| `GrowArrays.GrowArray.Resize` | src/array.c:16-40 | old slots keep their contents, new ones are zero |
| `GrowArrays.GrowArray.EnsureIndex` | src/array.c:74-85 | the index is inside afterwards; count and capacity as the specification says |
| `GrowArrays.GrowArray.Push` | src/array.c:57-71 | the count rises, and there is room |
| `GrowArrays.GrowArray.Perform` | src/array.c:57-85 | any run of operations on the object has the result of the run on values |
| `GrowArrays.GrowthIsAmortised` | src/array.c:57-85 | all resizes of a run together copy fewer slots than twice the final item count |
| `GrowArrays.ContentsSurvive` | src/array.c:16-40 | every slot holds the last value written to it, its old contents, or zero, whether the slots written to count as items or not |
| `Stacks.Stack.Push` | src/stack.c:34-42 | the item is on top; the slots double when full |
| `Stacks.Stack.Pop` | src/stack.c:45-49 | the top item is taken |
| `Stacks.StackIsIdeal` | src/stack.c:8-49 | every run with at least one initial slot is a run on an unbounded stack and fails only on popping too much; the slots copied are exactly the slots added |
| `Stacks.NoSlotsNoPush` | src/stack.c:34-42 | a stack created with no slots fails its first push |
| `Mempools.PoolSeparates` | src/mempool.c:73-138 | over every run: regions are pairwise disjoint, each in the usable part of one block, clear of every trailer and of the header of the pool; only an empty request can get the null pointer |
| `Mempools.FragmentationBound` | src/mempool.c:107-138 | the blocks for small objects but the last are at most twice the bytes requested for small objects |
| `Mempools.MallocKeepsValid` | src/mempool.c:121-138 | the four fields of each chain describe its blocks, and all blocks are disjoint, after every request |
| `Mempools.HandedIsHoused` | src/mempool.c:107-118 | a region is null exactly when nothing is asked for and there is no small block yet; otherwise it is below the free part of its block |
| `Mempools.HandedIsApart` | src/mempool.c:107-118 | it does not overlap a region handed out earlier |
| `Mempools.StaysHoused` | src/mempool.c:73-104 | regions handed out earlier keep their place |
| `Mempools.MallocStaysDense` | src/mempool.c:121-138 | one request keeps more than half of every retired block in use |
| `Mempools.MallocPlaces` | src/mempool.c:107-138 | one request: more than half a block takes a block of just its size, anything else the free memory of the last small block if it fits there, and else the start of a new block of the usual size; every block costs 24 bytes more |
| `Mempools.BlocksOfPool` | src/mempool.c:121-192 | over a whole life: the big blocks are those of the requests for more than half a block, one each, of just that size and in order, where the header of 112 bytes is the first request; every other block has the size of the pool |
| `MempoolMemory.Memory.NewBlock` | src/mempool.c:73-104 | the trailer is stored behind the usable part and linked to the previous block |
| `MempoolMemory.Memory.Serve` | src/mempool.c:121-138 | the chosen chain, the address and the memory after a request |
| `MempoolMemory.Memory.MempoolMalloc` | src/mempool.c:121-138 | the pool in memory is in the state the specification gives; nothing else in memory changes but for a new block |
| `MempoolMemory.Memory.MempoolNew` | src/mempool.c:185-190 | a header on the stack serves the request for its own copy |
| `MempoolMemory.Memory.FreeChain` | src/mempool.c:54-70 | every block of the chain is freed once, last one first; no trailer is read after it is freed |
| `MempoolMemory.Memory.MempoolDelete` | src/mempool.c:193-198 | exactly the blocks of both chains are freed, each once; the header goes with its block |
| `MempoolMemory.Memory.Lifetime` | src/mempool.c:121-198 | from creation over any requests to deletion, the heap is as before, and the addresses handed out do not overlap |
| `DiagDecoders.LevelCounted` | src/include/cbor.h:237-260 | what more items do to the level that the open blocks call for |
| `Diagnostics.LevelPushed` | src/decode.c:422-480 | opening a block is one level more, whatever the parity of the enclosing map |
| `Diagnostics.NoLeakIff` | src/decode.c:483-496 | the level is right after an item without chunked strings if and only if in every map an even number of tags stand directly in front of keys and values |
| `Diagnostics.CallsLevelOut` | src/decode.c:422-722 | for every input: decoding an item changes the level by what its block calls for and by the drift of the item; if no string in an odd number of chunks comes where a map expects a key, the calls never take it below where it was, up to the result or the error |
| `Diagnostics.DriftIsLeak` | src/decode.c:483-496 | without chunked strings the drift of the bytes is the leak of the item they decode to, and the assert never fails |
| `Diagnostics.RegularIsCalm` | src/decode.c:516-537 | a regular input, accepted or not, has no string in chunks where a map expects a key, so that the calls stay at or above the level that was there |
| `Diagnostics.ChunkedValueUnderflows` | src/decode.c:516-537 | BF C1 01 5F 41 61 FF decodes, and fails the assert of the dedent |
| `Diagnostics.CalmStreamsClimb` | src/diag.c:283-295 | over a whole stream of items, up to its end or an error, the level never drops below zero if none has a chunked key |
| `Diagnostics.StreamLeaks` | src/diag.c:283-295 | a stream without chunked strings ends at the sum of the leaks, at zero if and only if all tags in maps are paired |
| `DiagnosticPoints.CallsSinkIff` | src/decode.c:422-722 | for every input and any start: the calls for it take the level below zero if and only if at some point of the scan the level called for by the open blocks and the drift so far come to less than zero |
| `DiagnosticPoints.StreamUnderflowsIff` | src/diag.c:283-295 | over a whole stream, up to its end or its first error, exactly when the assert of the dedent fails |
| `DiagnosticPoints.LevelsAreDepths` | src/include/cbor.h:237-260 | what the open blocks call for is never below zero, at any point of any input |
| `DiagDecoders.Diag.SwitchLines` | src/diag.c:89-104 | the level goes along to the other line |
| `DiagDecoders.Diag.DumpLine` | src/diag.c:107-128 | the level stays, whether the other line was empty or not |
| `DiagDecoders.Diag.LogRaw` | src/diag.c:137-147 | the level stays across a pending end of line |
| `DiagDecoders.Diag.Dedent` | src/diag.c:39-43 | with the condition that the code asserts |
| `DiagDecoders.DiagDecoder.FinishItem` | src/include/cbor.h:237-260 | one call in a map, by the parity of its count; the assert fails exactly at level zero |
| `DiagDecoders.DiagDecoder.ReadHead` | src/decode.c:155-234 | the head of the next item, with the call that goes with a number, a simple value or a tag |
| `DiagDecoders.DiagDecoder.BlockStart` | src/decode.c:378-480 | one level up, and as far above what the open blocks call for as before; if the next item is another one, the error, at the level after the calls of that item |
| `DiagDecoders.DiagDecoder.BlockEnd` | src/decode.c:397-496 | the end calls take the level down once and finish the item outside; on a block of another type the error, at the same level; on an item in place of the break the error, at the level after the calls of that item |
| `DiagDecoders.DiagDecoder.DecodeLeaf` | src/decode.c:663-722 | integers, strings of both forms and simple values, with one call for a whole string |
| `DiagDecoders.DiagDecoder.DecodeTagged` | src/decode.c:712-716 | the calls of the tag, then those of the item |
| `DiagDecoders.DiagDecoder.DecodeBlock` | src/decode.c:684-710 | the calls of a block, also when its items, its pairs or its end fail |
| `DiagDecoders.DiagDecoder.DecodeItem` | src/decode.c:663-722 | for every input: the result and rest of the plain decoder, and the level after the calls for the bytes, up to the error if there is one; or a failed assert, exactly when those calls underflow |
| `DiagDecoders.DiagDecoder.DumpStream` | src/diag.c:283-295 | for every stream: a failed assert if and only if a point of it sinks below zero; otherwise its items or its first error, at the level its calls lead to; without chunked strings the level is zero if and only if all tags in maps are paired |
| `BirdRoundTrip.TableRoundTrip` | benchmark/src/parser.c:617-630 | every legal table is read back with all entries and attributes in order; netmasks are cut to a byte and empty free values become absent; it fails if and only if a local preference is 2^31 or more |
| `BirdRoundTrip.ExactRoundTrip` | benchmark/src/serialize-bird.c:270-283 | a legal table comes back identical if and only if preferences are below 2^31, netmasks below 256, and no free value is empty |
| `BirdRoundTrip.RteParsed` | benchmark/src/parser.c:550-614 | one entry, whatever follows it |
| `BirdRoundTrip.HeadParsed` | benchmark/src/serialize-bird.c:231-261 | its first line, with padding, uplink and source |
| `BirdRoundTrip.AttrsParsed` | benchmark/src/parser.c:455-514 | its attributes, or the failure at the first preference that is too high |
| `BirdRoundTrip.AttrParsed` | benchmark/src/parser.c:455-514 | one attribute line with its flag |
| `BirdRoundTrip.HighPreferenceIsLost` | benchmark/src/serialize-bird.c:116-120 | a preference of 2^31 or more is printed with a minus sign and not read |
| `BirdRoundTrip.ValueParsed` | benchmark/src/serialize-bird.c:63-182 | every kind of value behind its key |
| `BirdRoundTrip.PathParsed` | benchmark/src/parser.c:345-376 | paths of any 32-bit numbers and braces |
| `BirdRoundTrip.FlagsParsed` | benchmark/src/parser.c:401-425 | community flags |
| `BirdRoundTrip.TypeWordsParsed` | benchmark/src/parser.c:299-319 | all sixteen sets of type words |
| `BirdRoundTrip.UplinkParsed` | benchmark/src/parser.c:576-593 | both forms of the uplink bracket |
| `BirdRoundTrip.OriginsParsed` | benchmark/src/parser.c:595-609 | the metric is skipped up to the bracket, and the source read |
| `BirdRoundTrip.TimeParsed` | benchmark/src/parser.c:276-296 | any three 32-bit fields, negative ones through their unsigned form |
| `BirdRoundTrip.IpParsed` | benchmark/src/parser.c:258-273 | addresses |
| `BirdRoundTrip.ScanDecimal` | benchmark/src/parser.c:145-165 | the digit loop, in 32 bits, inverts the decimal form of every 32-bit number |
| `BirdCutOff.PathAtEndIff` | benchmark/src/parser.c:345-376 | on an input without 0xFF the assert of `nb_buffer_ungetc` fails if and only if all of it is digits, blanks and braces |
| `BirdCutOff.CutTableFails` | benchmark/src/parser.c:617-630 | a whole legal dump with a last line that breaks off behind the key of a path: a failed assert if what is there is all path, otherwise a parse error |
| `BirdGrammar.ParsesTheGrammar` | benchmark/src/parser.c:617-630 | for every input, bytes 0xFF included: the parser returns a table if and only if the input is a sentence of the grammar for that table |
| `BirdGrammar.SkipsIff` | benchmark/src/parser.c:93-104 | blanks end at the first other character, at the end, or at a byte 0xFF, which is lost |
| `BirdGrammar.AccumIff` | benchmark/src/parser.c:180-203 | a word is the longest run of its class, which ends the same way |
| `BirdGrammar.MatchIff` | benchmark/src/parser.c:107-118 | a literal matches exactly its characters |
| `BirdGrammar.NumberIff` | benchmark/src/parser.c:145-177 | a number is a run of at least one digit, and is worth its decimal value modulo 2^32 |
| `BirdGrammar.TypeLineIff` | benchmark/src/parser.c:299-319 | the type is the set of its words, in any order, repeated or not, and no other word is allowed |
| `BirdGrammar.PathIff` | benchmark/src/parser.c:345-376 | a path is any sequence of numbers and braces, with or without blanks, before the end of the input |
| `BirdGrammar.PathAtEnd` | benchmark/src/parser.c:345-376 | for every input: the assert of `nb_buffer_ungetc` fails if and only if all of it reads as a path |
| `BirdGrammar.FlagsIff` | benchmark/src/parser.c:401-425 | communities are any pairs of numbers in parentheses, as far as the next other character |
| `BirdGrammar.ValueIff` | benchmark/src/parser.c:496-504 | each value under the key of its kind, and a free one under any other key |
| `BirdGrammar.KeyIff` | benchmark/src/parser.c:482-494 | a key, the flag `[t]` if a bracket follows, and a colon |
| `BirdGrammar.OriginsIff` | benchmark/src/parser.c:595-609 | everything up to a bracket is skipped; without one the source has no number and is internal |
| `BirdGrammar.UplinkIff` | benchmark/src/parser.c:576-593 | `static1` with a time, or `uplink` with a time and an address |
| `BirdGrammar.RteIff` | benchmark/src/parser.c:550-614 | an entry is its first line and any lines behind tabulators: the last type line counts, and all attributes, in order |
| `BirdPrinted.PrintedIsTable` | benchmark/src/serialize-bird.c:270-283 | what is printed of a legal table is a sentence of the grammar for what comes back of it, if and only if its preferences are below 2^31 |
| `BirdPrinted.OriginWords` | benchmark/src/parser.c:322-342 | where an origin is expected, `IGP`, `EGP` and `Incomplete` are Igp, Egp and Incomplete, and any other word is an error |
| `BirdPrinted.PrintedOrigins` | benchmark/src/serialize-bird.c:69-84 | and these are the words that are printed |
| `BirdPrinted.DecimalValue` | benchmark/src/serialize-bird.c:12-23 | a number is printed as digits of its value, without a zero in front |
| `BirdPrinted.DecimalUnique` | benchmark/src/serialize-bird.c:12-23 | which no other digits are |
| `BirdPrinted.TwoDigitsValue` | benchmark/src/serialize-bird.c:35-38 | the fields of a time have their value and at least two digits |
| `BirdPrinted.SignedValue` | benchmark/src/serialize-bird.c:116-120 | 32 bits printed as signed and unsigned numbers, by their values |
| `BirdPrinted.ViaColumn` | benchmark/src/serialize-bird.c:231-239 | blanks up to column 18, and ` via ` there, or right behind a longer network |
| `BirdPrinted.PrintedHead` | benchmark/src/serialize-bird.c:231-261 | the first line of an example, word by word |
| `BirdPrinted.PrintedLines` | benchmark/src/serialize-bird.c:63-130 | and the lines behind it: the type, an origin, a path, a preference, communities |
| `BirdPrinted.PrintedPlaces` | benchmark/src/serialize-bird.c:108-152 | the next hop, the aggregator, and a free value |
| `BirdStreams.Parser.SkipWs` | benchmark/src/parser.c:93-104 | blanks are skipped; a byte 0xFF ends the run and is lost |
| `BirdStreams.Parser.Take` | benchmark/src/parser.c:107-118 | the word is matched one character at a time |
| `BirdStreams.Parser.TryTakeInt` | benchmark/src/parser.c:145-165 | digits, with wrap-around at 2^32 |
| `BirdStreams.Parser.TryTakeWord` | benchmark/src/parser.c:180-203 | the longest run of the class |
| `BirdStreams.Parser.TakeIp` | benchmark/src/parser.c:258-273 | the loop over four bytes |
| `BirdStreams.Parser.TakeType` | benchmark/src/parser.c:299-319 | the word loop of the type line |
| `BirdStreams.Parser.TakePath` | benchmark/src/parser.c:345-376 | the two nested loops over numbers and braces; a failed assert at the end of the input |
| `BirdStreams.Parser.TakeFlags` | benchmark/src/parser.c:401-425 | the loop over the flags |
| `BirdStreams.Parser.TakeOther` | benchmark/src/parser.c:442-452 | the rest of the line as a C string |
| `BirdStreams.Parser.TakeKey` | benchmark/src/parser.c:482-494 | key, flag and colon |
| `BirdStreams.Parser.TakeAttrs` | benchmark/src/parser.c:455-514 | the attribute loop, ending at the next entry |
| `BirdStreams.Parser.TakeSource` | benchmark/src/parser.c:517-547 | the number and kind of the source |
| `BirdStreams.Parser.TakeUplink` | benchmark/src/parser.c:576-593 | both forms |
| `BirdStreams.Parser.TakeRte` | benchmark/src/parser.c:550-614 | one entry |
| `BirdStreams.Parser.ParseTable` | benchmark/src/parser.c:617-630 | the parser over the buffered stream returns what the specification says of the bytes, success or error |
| `BirdStreams.StrBuf.PutIp` | benchmark/src/serialize-bird.c:12-23 | four bytes with dots, and the length |
| `BirdStreams.StrBuf.PutPadding` | benchmark/src/serialize-bird.c:237-238 | blanks up to column 18 |
| `BirdStreams.StrBuf.PutPath` | benchmark/src/serialize-bird.c:87-105 | the path loop |
| `BirdStreams.StrBuf.PutFlags` | benchmark/src/serialize-bird.c:123-130 | the flag loop |
| `BirdStreams.StrBuf.PutRte` | benchmark/src/serialize-bird.c:231-267 | one entry with all attributes |
| `BirdStreams.StrBuf.PutTable` | benchmark/src/serialize-bird.c:270-283 | the banner and all entries |
| `BirdStreams.SerializeAndParse` | benchmark/src/parser.c:617-630 | over a real buffer: serialize, flush, parse gives the table back, or fails exactly on a high preference |

## Left out

- CborRoundTrip.RoundTrip: an indefinite string comes back definite, since encoding a string item ignores the flag; strings in chunks are in `ChunkedRoundTrip`.
- DiagDecoders.DiagDecoder.DecodeItem: only the level of the CBOR column is modelled; the text in the columns, `print_json`, commas and the protocol column are not. A disabled `struct diag` makes every call empty.
- NbParty.Nb.AddGroup: requires that no open block refers to the id, because the model names the active group by its id where the code keeps a pointer to the group that is replaced.
- BirdStreams.Parser.ParseTable: line and column numbers, which only serve the error message, are not kept; neither is the state after an error.
- Items of type float or break handed to the encoder are caller errors; the decoder reports floats as unsupported, which is modelled.
- `item->u64`, `item->len` and the other fields that a decoded `struct cbor_item` repeats; the model returns the tree.
- BirdCutOff.PathAtEndIff: covers inputs without the byte 0xFF, which a `char` cannot tell from the end; `BirdGrammar.PathAtEnd` covers all.
- The fields `err`, `peeking` and `reqd`, and error strings, which no result here depends on; of the attribute that is the current one, only which id it has.
- The diagnostics of `struct nb` itself, which are compiled in on demand (`DIAG_ENABLE`).
- Failing allocations, sizes that overflow the address space, alignment and `nb_free`, `array_reset`, `array_last`.
- The block stack of `CborStreams` is a sequence; that `src/stack.c` is one is shown separately in `Stacks`.
- Files as buffers (`src/buffer-file.c`), `nb_buffer_tell`, the test helper `last_read_len`, and reading and writing one buffer without a flush in between.
- `mempool_memcpy` and `mempool_strdup` beyond the request that they make; the chain of unused blocks, which nothing uses.
- The sizes of `struct mempool` and `struct mempool_block` are those of a 64-bit platform.
- Command-line programs (`src/nbdiag.c`, `benchmark/src/benchmark.c`) and `src/test-adhoc.c`, which no longer fits the interface.
- The benchmark's binary, CBOR, NetBufs, XML and protobuf serializers: fixed lists of fields, generated code and foreign libraries.
