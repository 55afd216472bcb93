/** Arrays, maps and strings that are written piece by piece through the begin and end calls of the encoder
    (`src/encode.c`), and what the decoder makes of them. */
module CborCalls {
  import opened Prelude
  import opened Wire
  import opened Cbor
  import opened CborRoundTrip
  import opened CborGrammar
  import opened CborReadings
  import opened Buffer
  import opened CborStreams

  // ---------- blocks of definite length ----------

  function Block(major: int, ts: seq<Item>): Item
    requires MAJOR_ARRAY <= major <= MAJOR_MAP
  {
    if major == MAJOR_MAP then Map(false, ts) else Array(false, ts)
  }

  /** `cbor_encode_array_begin` or `cbor_encode_map_begin`, some items, and the end call: the announced length is never
      compared with the items. */
  method WriteBlock(cs: CborStream, major: int, announced: u64, ts: seq<Item>) returns (r: Result<()>)
    requires cs.EncReady() && MAJOR_ARRAY <= major <= MAJOR_MAP && AllRepresentable(ts)
    modifies cs, cs.buf, cs.buf.Repr
    ensures cs.Valid() && fresh(cs.buf.Repr - old(cs.buf.Repr))
    ensures r == if EncodeAll(ts).Err? then Err(EncodeAll(ts).error)
                 else if major == MAJOR_MAP && CountAll(ts) % 2 != 0 then Err(ErrNitems)
                 else Ok(())
    ensures r.Ok? ==> cs.EncReady() && cs.blocks == Counted(old(cs.blocks), 1)
    ensures r.Ok? ==> Grew(old(cs.buf.Abs), cs.buf.Abs, Header(major, announced) + EncodeAll(ts).value)
  {
    hide NbBuffer.Valid, Counted, Pushed, Popped, EncodeAll, AllRepresentable, CountAll, Header;
    ghost var outer, a0 := Counted(cs.blocks, 1), cs.buf.Abs;
    cs.StartBlock(major, false, announced);
    ghost var a1 := cs.buf.Abs;
    var items := cs.EncodeItems(ts);
    if items.Err? {
      return items;
    }
    ghost var a2 := cs.buf.Abs;
    TopOfBody(outer, major, false, announced, CountAll(ts));
    if major == MAJOR_MAP {
      r := cs.EncodeMapEnd();
    } else {
      r := cs.EndBlock(major);
    }
    if r.Ok? {
      GrewTwice(a0, a1, a2, Header(major, announced), EncodeAll(ts).value);
      GrewTwice(a0, a2, cs.buf.Abs, Header(major, announced) + EncodeAll(ts).value, []);
      assert Header(major, announced) + EncodeAll(ts).value + [] == Header(major, announced) + EncodeAll(ts).value;
    }
  }

  /** Such a block is read back as what was written exactly when its items are, the announced length is the number of
      items with their tags (and a map has whole pairs), and, if there are tags, a break follows. Without tags: if and
      only if the announced length is the number of items. */
  lemma WrittenBlockDecodes(major: int, announced: u64, ts: seq<Item>, w: seq<byte>, rest: seq<byte>)
    requires MAJOR_ARRAY <= major <= MAJOR_MAP && AllRepresentable(ts) && EncodeAll(ts) == Ok(w)
    ensures var len := BlockLen(Head(major, false, announced));
            Decode(Header(major, announced) + w + rest) == Ok(Decoded(Block(major, AllReceived(ts)), 1, rest)) <==>
            AllTagSafe(ts) && CountAll(ts) == len && (|ts| == len || AtBreak(rest)) &&
              (major == MAJOR_MAP ==> |ts| % 2 == 0)
    ensures CountAll(ts) == |ts| ==>
              (Decode(Header(major, announced) + w + rest) == Ok(Decoded(Block(major, AllReceived(ts)), 1, rest)) <==>
               AllTagSafe(ts) && |ts| == BlockLen(Head(major, false, announced)))
  {
    hide Decode, DecodeItems, EncodeAll, AllRepresentable, CountAll, Header, FinishBlock, BlockLen, AllTagSafe;
    var h := Head(major, false, announced);
    var len := BlockLen(h);
    var b := w + rest;
    assert Header(major, announced) + w + rest == Header(major, announced) + b;
    DecodeBlock(major, false, announced, b);
    CountsItems(ts);
    assert Close(false) + rest == rest;
    MapLengthIsEven(h);
    if && AllTagSafe(ts) && CountAll(ts) == len && (|ts| == len || AtBreak(rest))
       && (major == MAJOR_MAP ==> |ts| % 2 == 0) {
      RoundTripAll(ts, w, rest, Some(len));
      FinishWritten(h, AllReceived(ts), CountAll(ts), rest);
    }
    if Decode(Header(major, announced) + b) == Ok(Decoded(Block(major, AllReceived(ts)), 1, rest)) {
      var xs := DecodeItems(b, Some(len)).value;
      FinishedBlock(h, xs);
      assert xs.rest == rest && xs.items == AllReceived(ts);
      ItemsReadBack(ts, w, rest, Some(len));
      var _ := SoundAll(b, Some(len), true);
    }
  }

  lemma MapLengthIsEven(h: Head)
    requires h.Head?
    ensures h.major == MAJOR_MAP ==> BlockLen(h) % 2 == 0
  {}

  lemma {:induction false} CountsItems(ts: seq<Item>)
    ensures CountAll(ts) >= |ts|
  {}

  /** If the decoder finds just the items that were written, they are tag-safe, and it counted them and their tags. */
  lemma {:induction false} ItemsReadBack(ts: seq<Item>, w: seq<byte>, rest: seq<byte>, limit: Option<nat>)
    requires AllRepresentable(ts) && EncodeAll(ts) == Ok(w)
    requires DecodeItems(w + rest, limit).Ok?
    requires var xs := DecodeItems(w + rest, limit).value; xs.items == AllReceived(ts) && xs.rest == rest
    ensures AllTagSafe(ts) && DecodeItems(w + rest, limit).value.count == CountAll(ts)
    decreases ts
  {
    hide Decode, Encode, Received, TagSafe, DecodeItems;
    ItemsRead(w + rest, limit);
    if ts != [] {
      var w0 := Encode(ts[0]).value;
      var ws := EncodeAll(ts[1..]).value;
      assert w + rest == w0 + (ws + rest);
      assert AllReceived(ts)[0] == Received(ts[0]) && AllReceived(ts)[1..] == AllReceived(ts[1..]);
      RoundTripOf(ts[0], w0, ws + rest);
      var more := DecodeItems(ws + rest, OneLess(limit)).value;
      assert ([Received(ts[0])] + more.items)[1..] == more.items;
      ItemsReadBack(ts[1..], ws, rest, OneLess(limit));
    } else {
      assert w + rest == rest;
    }
  }

  // ---------- strings in chunks ----------

  function Joined(chunks: seq<seq<byte>>): seq<byte> {
    if chunks == [] then [] else chunks[0] + Joined(chunks[1..])
  }

  function ChunkBytes(major: int, chunks: seq<seq<byte>>): seq<byte>
    requires MAJOR_BYTES <= major <= MAJOR_TEXT && forall i :: 0 <= i < |chunks| ==> |chunks[i]| < TWO_64
  {
    if chunks == [] then [] else Header(major, |chunks[0]|) + chunks[0] + ChunkBytes(major, chunks[1..])
  }

  /** `cbor_encode_bytes_begin_indef`, one call for every chunk, and `cbor_encode_bytes_end`; the same for text. */
  method WriteChunks(cs: CborStream, major: int, chunks: seq<seq<byte>>) returns (r: Result<()>)
    requires cs.EncReady() && MAJOR_BYTES <= major <= MAJOR_TEXT
    requires forall i :: 0 <= i < |chunks| ==> |chunks[i]| < TWO_64
    modifies cs, cs.buf, cs.buf.Repr
    ensures r == Ok(()) && cs.EncReady() && fresh(cs.buf.Repr - old(cs.buf.Repr))
    ensures cs.blocks == Counted(old(cs.blocks), 1)
    ensures Grew(old(cs.buf.Abs), cs.buf.Abs, Open(major, true, 0) + (ChunkBytes(major, chunks) + [BREAK]))
  {
    hide NbBuffer.Valid, Counted, Pushed, Popped, Header;
    ghost var outer, a0 := Counted(cs.blocks, 1), cs.buf.Abs;
    cs.StartBlock(major, true, 0);
    ghost var a1, inner := cs.buf.Abs, cs.blocks;
    ghost var sent: seq<byte> := [];
    CountedTwice(inner, 0, 0);
    assert chunks[0..] == chunks;
    var i := 0;
    while i < |chunks|
      invariant 0 <= i <= |chunks| && cs.EncReady() && fresh(cs.buf.Repr - old(cs.buf.Repr))
      invariant cs.blocks == Counted(inner, i) && Grew(a1, cs.buf.Abs, sent)
      invariant sent + ChunkBytes(major, chunks[i..]) == ChunkBytes(major, chunks)
    {
      ghost var a2 := cs.buf.Abs;
      assert chunks[i..][1..] == chunks[i + 1..];
      ghost var chunk := Header(major, |chunks[i]|) + chunks[i];
      cs.EncodeString(major, chunks[i]);
      GrewTwice(a1, a2, cs.buf.Abs, sent, chunk);
      CountedTwice(inner, i, 1);
      assert sent + (chunk + ChunkBytes(major, chunks[i + 1..])) == sent + chunk + ChunkBytes(major, chunks[i + 1..]);
      sent := sent + chunk;
      i := i + 1;
    }
    assert sent + ChunkBytes(major, chunks[i..]) == sent;
    TopOfBody(outer, major, true, 0, i);
    ghost var a3 := cs.buf.Abs;
    r := cs.EndBlock(major);
    GrewTwice(a1, a3, cs.buf.Abs, sent, [BREAK]);
    GrewTwice(a0, a1, cs.buf.Abs, Open(major, true, 0), sent + [BREAK]);
  }

  lemma {:induction false} ChunksAreRead(major: int, chunks: seq<seq<byte>>, rest: seq<byte>)
    requires MAJOR_BYTES <= major <= MAJOR_TEXT && forall i :: 0 <= i < |chunks| ==> |chunks[i]| < TWO_64
    requires AtBreak(rest)
    ensures ReadChunks(major, ChunkBytes(major, chunks) + rest) == Ok(StringRead(Joined(chunks), |chunks|, rest))
    decreases |chunks|
  {
    hide ReadChunks, Header;
    if chunks == [] {
      assert ChunkBytes(major, chunks) + rest == rest;
      ReadNoChunk(major, rest);
    } else {
      var w := Header(major, |chunks[0]|) + chunks[0];
      var b := ChunkBytes(major, chunks[1..]) + rest;
      assert ChunkBytes(major, chunks) + rest == w + b;
      WrittenStringIsDerived(major, chunks[0]);
      ReadFirstChunk(major, chunks[0], w, b);
      ChunksAreRead(major, chunks[1..], rest);
    }
  }

  /** What was written in chunks is read back in one piece, with the break still in the input; text that has no chunk is
      the exception. */
  lemma ChunkedRoundTrip(major: int, chunks: seq<seq<byte>>, rest: seq<byte>)
    requires MAJOR_BYTES <= major <= MAJOR_TEXT && forall i :: 0 <= i < |chunks| ==> |chunks[i]| < TWO_64
    ensures var w := Open(major, true, 0) + (ChunkBytes(major, chunks) + [BREAK]);
            Decode(w + rest) ==
            if major == MAJOR_TEXT && chunks == [] then Err(ErrUndefined)
            else Ok(Decoded(if major == MAJOR_BYTES then Bytes(true, Joined(chunks)) else Text(true, Joined(chunks)),
                            1 + |chunks|, [BREAK] + rest))
  {
    hide ReadChunks, Header, ChunkBytes, Joined, Predecode, Major, LowBits;
    var first, tail := Open(major, true, 0), [BREAK] + rest;
    var b := ChunkBytes(major, chunks) + tail;
    assert first + (ChunkBytes(major, chunks) + [BREAK]) + rest == first + b;
    assert (first + b)[1..] == b && (first + b)[0] == first[0];
    OpeningByte(first[0], major);
    PredecodeIndef(first + b, major);
    ChunksAreRead(major, chunks, tail);
  }

  // ---------- unsigned numbers from any item ----------

  /** `decode_uint` takes the argument of any item for a number: here that of -1, as zero. */
  lemma NegativeReadAsZero(rest: seq<byte>)
    ensures ReadUint([0x20] + rest, 255) == Ok(NumberRead(0, rest))
    ensures Decode([0x20] + rest) == Ok(Decoded(Int(-1), 1, rest))
  {
    assert ([0x20] + rest)[1..] == rest;
  }

  /** What it returns is the item that is there exactly when that is an unsigned integer. */
  lemma UintIsItem(b: seq<byte>, max: u64, n: u64, rest: seq<byte>)
    requires ReadUint(b, max) == Ok(NumberRead(n, rest))
    ensures Decode(b) == Ok(Decoded(UInt(n), 1, rest)) <==> Major(b[0]) == MAJOR_UINT
  {
    hide Major, LowBits, DecodeItems, Cbor.DecodeString;
    if Major(b[0]) == MAJOR_UINT {
      UintDecodes(b, n, rest);
    } else if Decode(b) == Ok(Decoded(UInt(n), 1, rest)) {
      UintOnly(b);
    }
  }

  lemma UintDecodes(b: seq<byte>, n: u64, rest: seq<byte>)
    requires Predecode(b) == Ok(Predecoded(Head(MAJOR_UINT, false, n), rest))
    ensures Decode(b) == Ok(Decoded(UInt(n), 1, rest))
  {
    hide Predecode, DecodeItems;
  }

  lemma UintOnly(b: seq<byte>)
    requires Decode(b).Ok? && Decode(b).value.item.UInt?
    ensures Major(b[0]) == MAJOR_UINT
  {
    hide Decode;
    var d := Decode(b).value;
    var w := Sound(b, true);
    DerivedUint(d.item, w, d.count, AtBreak(d.rest));
    assert b[0] == w[0];
  }

  lemma DerivedUint(t: Item, w: seq<byte>, n: nat, follow: bool)
    requires t.UInt? && Derives(t, w, n, true, follow)
    ensures w != [] && Major(w[0]) == MAJOR_UINT
  {
    hide IsHeader;
    HeaderStart(w, MAJOR_UINT, t.u);
  }
}
