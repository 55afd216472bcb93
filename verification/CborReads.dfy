/** The typed calls of the decoder, and the octets behind the constants: in terms of RFC 7049 and of what the decoder of
    whole items makes of the same input. */
module CborReads {
  import opened Prelude
  import opened Wire
  import opened Cbor
  import opened CborRoundTrip
  import opened CborGrammar
  import opened CborStreams

  // ---------- octets ----------

  /** The octet of `n` with the weight 256^k. */
  function Octet(n: nat, k: nat): byte {
    if k == 0 then n % 256 else Octet(n / 256, k - 1)
  }

  lemma {:induction false} OctetAt(n: nat, k: nat, i: nat)
    requires i < k
    ensures BigEndian(n, k)[i] == Octet(n, k - 1 - i)
  {
    if i < k - 1 {
      OctetAt(n / 256, k - 1, i);
    }
  }

  /** RFC 7049, section 2.1: the headers of an argument, octet by octet. */
  lemma HeaderOctets(h: seq<byte>, major: int, n: u64)
    requires 0 <= major <= 7
    ensures IsHeader(h, major, n) <==>
            || (n < 24 && h == [32 * major + n])
            || (n < 0x100 && h == [32 * major + 24, Octet(n, 0)])
            || (n < 0x1_0000 && h == [32 * major + 25, Octet(n, 1), Octet(n, 0)])
            || (n < 0x1_0000_0000 &&
                h == [32 * major + 26, Octet(n, 3), Octet(n, 2), Octet(n, 1), Octet(n, 0)])
            || h == [32 * major + 27, Octet(n, 7), Octet(n, 6), Octet(n, 5), Octet(n, 4),
                     Octet(n, 3), Octet(n, 2), Octet(n, 1), Octet(n, 0)]
  {
    hide BigEndian, Octet, Pow256;
    Pow256Values();
    OctetsOf(n);
    LongHeaderIff(h, major, 24, n);
    LongHeaderIff(h, major, 25, n);
    LongHeaderIff(h, major, 26, n);
    LongHeaderIff(h, major, 27, n);
  }

  lemma LongHeaderIff(h: seq<byte>, major: int, lbits: int, n: u64)
    requires 0 <= major <= 7 && 24 <= lbits <= 27
    ensures IsLongHeader(h, major, lbits, n) <==>
            n < Pow256(ArgBytes(lbits)) && h == [32 * major + lbits] + BigEndian(n, ArgBytes(lbits))
  {
    hide BigEndian, Pow256;
  }

  lemma OctetsOf(n: nat)
    ensures BigEndian(n, 1) == [Octet(n, 0)]
    ensures BigEndian(n, 2) == [Octet(n, 1), Octet(n, 0)]
    ensures BigEndian(n, 4) == [Octet(n, 3), Octet(n, 2), Octet(n, 1), Octet(n, 0)]
    ensures BigEndian(n, 8) == [Octet(n, 7), Octet(n, 6), Octet(n, 5), Octet(n, 4),
                                Octet(n, 3), Octet(n, 2), Octet(n, 1), Octet(n, 0)]
  {
    hide BigEndian, Octet;
    forall k: nat, i: nat | i < k
      ensures BigEndian(n, k)[i] == Octet(n, k - 1 - i)
    {
      OctetAt(n, k, i);
    }
  }

  /** RFC 7049, section 2.1: what the major types stand for. */
  lemma MajorTypes(h: seq<byte>, n: u64, rest: seq<byte>)
    ensures IsHeader(h, 0, n) ==> Decode(h + rest) == Ok(Decoded(UInt(n), 1, rest))
    ensures n < 0x8000_0000_0000_0000 && IsHeader(h, 1, n) ==> Decode(h + rest) == Ok(Decoded(Int(-1 - n), 1, rest))
    ensures IsHeader(h, 2, n) && n <= |rest| ==>
              Decode(h + rest) == Ok(Decoded(Bytes(false, rest[..n]), 1, rest[n..]))
    ensures IsHeader(h, 3, n) && n <= |rest| ==>
              Decode(h + rest) == Ok(Decoded(Text(false, rest[..n]), 1, rest[n..]))
    ensures IsHeader(h, 4, 0) ==> Decode(h + rest) == Ok(Decoded(Array(false, []), 1, rest))
    ensures IsHeader(h, 5, 0) ==> Decode(h + rest) == Ok(Decoded(Map(false, []), 1, rest))
    ensures n < 0x1_0000_0000 && IsHeader(h, 6, n) && Decode(rest).Ok? ==>
              var x := Decode(rest).value;
              Decode(h + rest) == Ok(Decoded(Tag(n, 0, x.item), 1 + x.count, x.rest))
    ensures n < 24 ==> Decode([0xE0 + n] + rest) == Ok(Decoded(Sval(n), 1, rest))
    ensures n < 256 ==> Decode([0xF8, n] + rest) == Ok(Decoded(Sval(n), 1, rest))
  {
    hide IsHeader, Predecode, Decode, DecodeBody;
    if IsHeader(h, 0, n) { NumberDecoded(h, 0, n, rest); }
    if n < 0x8000_0000_0000_0000 && IsHeader(h, 1, n) { NumberDecoded(h, 1, n, rest); }
    if IsHeader(h, 2, n) && n <= |rest| { StringDecoded(h, 2, n, rest); }
    if IsHeader(h, 3, n) && n <= |rest| { StringDecoded(h, 3, n, rest); }
    if IsHeader(h, 4, 0) { EmptyDecoded(h, 4, rest); }
    if IsHeader(h, 5, 0) { EmptyDecoded(h, 5, rest); }
    if n < 0x1_0000_0000 && IsHeader(h, 6, n) { TagDecoded(h, n, rest); }
    if n < 24 { RoundTripSval(n, rest); }
    if n < 256 { LongSvalDecoded(n, rest); }
  }

  lemma NumberDecoded(h: seq<byte>, major: int, n: u64, rest: seq<byte>)
    requires 0 <= major <= 1 && IsHeader(h, major, n) && (major == 1 ==> n < 0x8000_0000_0000_0000)
    ensures Decode(h + rest) == Ok(Decoded(if major == 0 then UInt(n) else Int(-1 - n), 1, rest))
  {
    hide IsHeader, Predecode, Decode;
    HeadDecoded(h, major, n, rest);
  }

  lemma EmptyDecoded(h: seq<byte>, major: int, rest: seq<byte>)
    requires 4 <= major <= 5 && IsHeader(h, major, 0)
    ensures Decode(h + rest) == Ok(Decoded(if major == 4 then Array(false, []) else Map(false, []), 1, rest))
  {
    hide IsHeader, Predecode, Decode, DecodeItems;
    HeadDecoded(h, major, 0, rest);
    NothingDecoded(rest);
  }

  lemma TagDecoded(h: seq<byte>, n: nat, rest: seq<byte>)
    requires n < 0x1_0000_0000 && IsHeader(h, 6, n)
    ensures Decode(rest).Ok? ==>
              var x := Decode(rest).value;
              Decode(h + rest) == Ok(Decoded(Tag(n, 0, x.item), 1 + x.count, x.rest))
  {
    hide IsHeader, Predecode, Decode;
    HeadDecoded(h, 6, n, rest);
  }

  lemma NothingDecoded(b: seq<byte>)
    ensures DecodeItems(b, Some(0)) == Ok(DecodedItems([], 0, b))
  {}

  lemma HeadDecoded(h: seq<byte>, major: int, n: u64, rest: seq<byte>)
    requires 0 <= major <= 6 && major != 2 && major != 3 && IsHeader(h, major, n)
    requires major == 1 ==> n < 0x8000_0000_0000_0000
    ensures Decode(h + rest) == DecodeBody(Head(major, false, n), rest)
  {
    hide IsHeader, Predecode, Decode, DecodeBody;
    PredecodeHeader(h, major, n, rest);
    HeaderStart(h, major, n);
    DecodeOpened(h, Head(major, false, n), rest);
  }

  lemma StringDecoded(h: seq<byte>, major: int, n: u64, rest: seq<byte>)
    requires 2 <= major <= 3 && IsHeader(h, major, n) && n <= |rest|
    ensures ReadString(major, h + rest) == Ok(StringRead(rest[..n], 1, rest[n..]))
    ensures Decode(h + rest) ==
            Ok(Decoded(if major == 2 then Bytes(false, rest[..n]) else Text(false, rest[..n]), 1, rest[n..]))
  {
    hide IsHeader, Predecode, Major, LowBits;
    PredecodeHeader(h, major, n, rest);
    HeaderStart(h, major, n);
  }

  lemma LongSvalDecoded(n: nat, rest: seq<byte>)
    requires n < 256
    ensures Decode([0xF8, n] + rest) == Ok(Decoded(Sval(n), 1, rest))
  {
    var b := [0xF8, n] + rest;
    assert b[1..] == [n] + rest;
    assert ([n] + rest)[..1] == [n] && ([n] + rest)[1..] == rest;
    assert FromBigEndian([n]) == n;
  }

  // ---------- typed calls ----------

  /** The major type that an item is decoded from. */
  function MajorTypeOf(t: Item): int {
    match t
    case UInt(_) => 0
    case Int(_) => 1
    case Bytes(_, _) => 2
    case Text(_, _) => 3
    case Array(_, _) => 4
    case Map(_, _) => 5
    case Tag(_, _, _) => 6
    case Sval(_) => 7
  }

  lemma DecodedMajor(b: seq<byte>)
    requires Decode(b).Ok?
    ensures b != [] && b[0] != 0xFF && MajorTypeOf(Decode(b).value.item) == b[0] / 32
  {
    hide Predecode, LowBits, ReadString, DecodeItems;
  }

  /** `cbor_decode_sval`: exactly where the decoder of items finds a simple value. */
  lemma SvalReadIff(b: seq<byte>, v: nat, rest: seq<byte>)
    ensures ReadSval(b) == Ok(NumberRead(v, rest)) <==> Decode(b) == Ok(Decoded(Sval(v), 1, rest))
  {
    hide Predecode, LowBits, Decode;
    DecodeByMajor(b);
    if Decode(b).Ok? {
      DecodedMajor(b);
    }
  }

  /** `decode_int`: exactly where it finds an integer in the range, of either sign. */
  lemma IntReadIff(b: seq<byte>, min: i64, max: i64, n: int, rest: seq<byte>)
    ensures ReadInt(b, min, max) == Ok(NumberRead(n, rest)) <==>
            min <= n <= max && (Decode(b) == Ok(Decoded(if n >= 0 then UInt(n) else Int(n), 1, rest)))
  {
    hide Predecode, LowBits, Decode;
    DecodeByMajor(b);
    if Decode(b).Ok? {
      DecodedMajor(b);
    }
  }

  /** And what it answers to any other item: another type is an error of its own. */
  lemma IntReadErrors(b: seq<byte>, min: i64, max: i64)
    requires Decode(b).Ok?
    ensures var t := Decode(b).value.item;
            ReadInt(b, min, max).Err? ==>
              ReadInt(b, min, max).error == if t.UInt? || t.Int? then ErrRange else ErrItem
  {
    hide Decode, LowBits;
    DecodedMajor(b);
    HeadOfDecoded(b);
  }

  lemma HeadOfDecoded(b: seq<byte>)
    requires Decode(b).Ok?
    ensures Predecode(b).Ok? && Predecode(b).value.head.Head?
  {
    hide Predecode, DecodeBody, LowBits;
  }

  /** `cbor_decode_text` and `cbor_decode_bytes`: exactly where it finds a string of that type, in either form. */
  lemma StringReadIff(major: int, b: seq<byte>, bs: seq<byte>, n: nat, rest: seq<byte>)
    requires 2 <= major <= 3
    ensures ReadString(major, b) == Ok(StringRead(bs, n, rest)) <==>
            exists indef :: Decode(b) == Ok(Decoded(if major == 2 then Bytes(indef, bs) else Text(indef, bs), n, rest))
  {
    hide Decode, LowBits, ReadStream, Predecode;
    DecodeByMajor(b);
    if Decode(b).Ok? {
      DecodedMajor(b);
    }
    if ReadString(major, b) == Ok(StringRead(bs, n, rest)) {
      var indef := LowBits(b[0]) == LBITS_INDEFINITE;
      assert Decode(b) == Ok(Decoded(if major == 2 then Bytes(indef, bs) else Text(indef, bs), n, rest));
    }
  }

  /** `decode_uint`: the argument of the head that comes next, whatever its major type, if it has one. */
  lemma UintReadIff(b: seq<byte>, max: u64, n: nat, rest: seq<byte>)
    ensures ReadUint(b, max) == Ok(NumberRead(n, rest)) <==>
            n <= max && exists h: seq<byte> :: b == h + rest && IsArgument(h, n)
  {
    hide IsHeader, ReadArg, Major, LowBits;
    if ReadUint(b, max) == Ok(NumberRead(n, rest)) {
      var h := PredecodedHeader(b);
      SimpleHead(b, h);
      assert b == h + rest && IsArgument(h, n);
    }
    if n <= max && exists h: seq<byte> :: b == h + rest && IsArgument(h, n) {
      var h: seq<byte> :| b == h + rest && IsArgument(h, n);
      ArgumentRead(h, n, rest);
    }
  }

  /** Heads with an argument: of a number, a definite length or a tag, or of a simple value. */
  ghost predicate IsArgument(h: seq<byte>, n: u64) {
    || (exists major | 0 <= major <= 6 :: IsHeader(h, major, n) && (major == 1 ==> n < 0x8000_0000_0000_0000))
    || (n < 24 && h == [0xE0 + n]) || (n < 256 && h == [0xF8, n])
  }

  lemma SimpleHead(b: seq<byte>, h: seq<byte>)
    requires Predecode(b).Ok? && Predecode(b).value.head.Head? && !Predecode(b).value.head.indef
    requires b == h + Predecode(b).value.rest && IsHeader(h, Predecode(b).value.head.major, Predecode(b).value.head.arg)
    requires h != [] && h[0] == b[0]
    ensures IsArgument(h, Predecode(b).value.head.arg)
  {
    hide IsHeader;
    var head := Predecode(b).value.head;
    if head.major <= 6 {
      assert IsHeader(h, head.major, head.arg);
    } else {
      HeaderOctets(h, 7, head.arg);
    }
  }

  lemma ArgumentRead(h: seq<byte>, n: u64, rest: seq<byte>)
    requires IsArgument(h, n)
    ensures Predecode(h + rest).Ok? && Predecode(h + rest).value.head.Head?
    ensures var p := Predecode(h + rest).value; p.head.arg == n && !p.head.indef && p.rest == rest
  {
    hide IsHeader, Predecode;
    if major :| 0 <= major <= 6 && IsHeader(h, major, n) && (major == 1 ==> n < 0x8000_0000_0000_0000) {
      PredecodeHeader(h, major, n, rest);
    } else if n < 24 && h == [0xE0 + n] {
      ShortSval(n, rest);
    } else {
      LongSval(n, rest);
    }
  }

  lemma ShortSval(n: nat, rest: seq<byte>)
    requires n < 24
    ensures Predecode([0xE0 + n] + rest) == Ok(Predecoded(Head(MAJOR_7, false, n), rest))
  {
    assert ([0xE0 + n] + rest)[1..] == rest;
  }

  lemma LongSval(n: nat, rest: seq<byte>)
    requires n < 256
    ensures Predecode([0xF8, n] + rest) == Ok(Predecoded(Head(MAJOR_7, false, n), rest))
  {
    var b := [0xF8, n] + rest;
    assert b[1..] == [n] + rest;
    assert ([n] + rest)[..1] == [n] && ([n] + rest)[1..] == rest;
    assert FromBigEndian([n]) == n;
  }

  // ---------- booleans ----------

  /** RFC 7049, section 2.3: false is F4 and true is F5; the two-byte form of either is accepted as well. */
  lemma BoolReadIff(b: seq<byte>, v: bool, rest: seq<byte>)
    ensures ReadBool(b) == Ok(BoolRead(v, rest)) <==>
            b == [if v then 0xF5 else 0xF4] + rest || b == [0xF8, if v then 0x15 else 0x14] + rest
  {
    hide Predecode, IsHeader, LowBits, Major;
    if ReadBool(b) == Ok(BoolRead(v, rest)) {
      var h := PredecodedHeader(b);
      HeaderOctets(h, 7, if v then 0x15 else 0x14);
      SvalHead(b, h);
    }
    ShortSval(0x14, rest);
    ShortSval(0x15, rest);
    LongSval(0x14, rest);
    LongSval(0x15, rest);
  }

  lemma SvalHead(b: seq<byte>, h: seq<byte>)
    requires Predecode(b).Ok? && Predecode(b).value.head.Head? && Predecode(b).value.head.major == MAJOR_7
    requires h != [] && h[0] == b[0]
    ensures h[0] % 32 <= 24
  {}

  // ---------- beginnings of arrays and maps ----------

  lemma OpenIndefIff(major: int, b: seq<byte>, h: Head, rest: seq<byte>)
    requires 4 <= major <= 5
    ensures ReadOpen(major, true, b) == Ok(Predecoded(h, rest)) <==>
            h == Head(major, true, 0) && b == [32 * major + 31] + rest
  {
    hide ReadArg;
    if b != [] {
      assert b == [b[0]] + b[1..];
    }
    assert ([32 * major + 31] + rest)[1..] == rest;
  }

  lemma OpenIff(major: int, b: seq<byte>, n: u64, rest: seq<byte>)
    requires 4 <= major <= 5
    ensures ReadOpen(major, false, b) == Ok(Predecoded(Head(major, false, n), rest)) <==>
            exists h: seq<byte> :: b == h + rest && IsHeader(h, major, n)
  {
    hide IsHeader, Predecode;
    if ReadOpen(major, false, b) == Ok(Predecoded(Head(major, false, n), rest)) {
      var h := PredecodedHeader(b);
      assert b == h + rest && IsHeader(h, major, n);
    }
    if exists h: seq<byte> :: b == h + rest && IsHeader(h, major, n) {
      var h: seq<byte> :| b == h + rest && IsHeader(h, major, n);
      PredecodeHeader(h, major, n, rest);
    }
  }

  /** An item of another type, or a break, is one error, and the other kind of length another one. */
  lemma OpenErrors(major: int, indef: bool, b: seq<byte>)
    requires 4 <= major <= 5 && HeadError(b).None?
    ensures ReadOpen(major, indef, b).Err? ==>
              ReadOpen(major, indef, b).error == if b[0] == 0xFF || b[0] / 32 != major then ErrItem else ErrIndef
  {
    hide ReadArg, HeadError;
    HeadErrors(b);
  }

  // ---------- heads that are refused ----------

  /** What is wrong with a head, by its octets. */
  function HeadError(b: seq<byte>): Option<NbErr> {
    if b == [] then Some(ErrEof)
    else
      var major, low := b[0] / 32, b[0] % 32;
      if b[0] == 0xFF || low < 24 then None
      else if 28 <= low <= 30 then Some(ErrParse)
      else if low == 31 then if 2 <= major <= 5 then None else Some(ErrIndef)
      else if |b| <= (if low == 24 then 1 else if low == 25 then 2 else if low == 26 then 4 else 8) then Some(ErrEof)
      else if major == 7 then if low == 24 then None else Some(ErrUnsup)
      else if major == 1 && low == 27 && b[1] >= 0x80 then Some(ErrRange)
      else None
  }

  /** Every input has a head that is read, or just that error. */
  lemma HeadErrors(b: seq<byte>)
    ensures Predecode(b).Err? <==> HeadError(b).Some?
    ensures Predecode(b).Err? ==> HeadError(b) == Some(Predecode(b).error)
  {
    hide FromBigEndian;
    if b != [] && b[0] / 32 == 1 && b[0] % 32 == 27 && |b| > 8 {
      WideArgument(b[1..]);
    }
    if b != [] && b[0] / 32 == 1 && 24 <= b[0] % 32 <= 26 && |b| > ArgBytes(b[0] % 32) {
      NarrowArgument(b[1..][..ArgBytes(b[0] % 32)]);
    }
  }

  lemma NarrowArgument(bs: seq<byte>)
    requires |bs| == 1 || |bs| == 2 || |bs| == 4
    ensures FromBigEndian(bs) < 0x8000_0000_0000_0000
  {
    hide FromBigEndian;
    FromBigEndianRoundTrip(bs);
    Pow256Values();
  }

  lemma WideArgument(b: seq<byte>)
    requires |b| >= 8
    ensures FromBigEndian(b[..8]) >= 0x8000_0000_0000_0000 <==> b[0] >= 0x80
  {
    hide FromBigEndian;
    FirstOctet(b[..8], 7);
    Pow256Values();
    assert Pow256(7) == 0x100_0000_0000_0000;
  }

  lemma {:induction false} FirstOctet(bs: seq<byte>, k: nat)
    requires |bs| == k + 1
    ensures bs[0] * Pow256(k) <= FromBigEndian(bs) < bs[0] * Pow256(k) + Pow256(k)
  {
    if k > 0 {
      FirstOctet(bs[..k], k - 1);
      OneOctetMore(bs[0], Pow256(k - 1), FromBigEndian(bs[..k]), bs[k]);
    } else {
      assert bs[..0] == [] && FromBigEndian([]) == 0;
    }
  }

  lemma OneOctetMore(a: nat, p: nat, c: nat, last: byte)
    requires a * p <= c < a * p + p
    ensures a * (256 * p) <= 256 * c + last < a * (256 * p) + 256 * p
  {
    assert a * (256 * p) == 256 * (a * p);
  }

  // ---------- items that are refused ----------

  /** What a whole item is refused for: its head, a short string, a tag number of more than 32 bits, something inside,
      an odd number of items in a map, or an item count that does not match. */
  lemma ItemErrors(b: seq<byte>)
    requires b != [] && b[0] != 0xFF && Decode(b).Err?
    ensures HeadError(b).Some? ==> Decode(b) == Err(HeadError(b).value)
    ensures b[0] / 32 <= 1 || b[0] / 32 == 7 ==> HeadError(b).Some?
    ensures HeadError(b).None? && 2 <= b[0] / 32 <= 3 && b[0] % 32 != 31 ==> Decode(b) == Err(ErrEof)
    ensures HeadError(b).None? && b[0] / 32 == 6 ==>
              var p := Predecode(b).value;
              if p.head.arg >= 0x1_0000_0000 then Decode(b) == Err(ErrRange) else Decode(b) == Decode(p.rest)
    ensures HeadError(b).None? && 4 <= b[0] / 32 <= 5 ==>
              var p := Predecode(b).value;
              var xs := DecodeItems(p.rest, Limit(p.head));
              Decode(b).error == if xs.Err? then xs.error
                                 else if b[0] / 32 == 5 && |xs.value.items| % 2 != 0 then ErrNitems else ErrOper
  {
    hide DecodeItems, ReadArg, HeadError, FinishBlock, Predecode;
    HeadErrors(b);
    if HeadError(b).None? && 4 <= b[0] / 32 <= 5 {
      BlockErrors(b);
    }
  }

  lemma BlockErrors(b: seq<byte>)
    requires b != [] && b[0] != 0xFF && Predecode(b).Ok? && 4 <= b[0] / 32 <= 5
    ensures var p := Predecode(b).value;
            var xs := DecodeItems(p.rest, Limit(p.head));
            xs.Ok? && FinishBlock(p.head, xs.value).Err? ==>
              FinishBlock(p.head, xs.value).error ==
              if b[0] / 32 == 5 && |xs.value.items| % 2 != 0 then ErrNitems else ErrOper
  {
    hide DecodeItems, ReadArg;
  }

  // ---------- calls that are refused ----------

  /** What each call answers to an input that it does not accept, although its head can be read. */
  lemma CallErrors(b: seq<byte>, major: int, max: u64, min: i64, top: i64)
    requires HeadError(b).None? && 2 <= major <= 3
    ensures ReadUint(b, max).Err? ==>
              ReadUint(b, max).error == if b[0] == 0xFF || b[0] % 32 == 31 then ErrUndefined else ErrRange
    ensures ReadInt(b, min, top).Err? ==> ReadInt(b, min, top).error == if b[0] / 32 > 1 then ErrItem else ErrRange
    ensures ReadSval(b).Err? <==> b[0] == 0xFF || b[0] / 32 != 7
    ensures ReadSval(b).Err? ==> ReadSval(b).error == ErrItem
    ensures ReadBool(b).Err? ==> ReadBool(b).error == if ReadSval(b).Ok? then ErrRange else ErrItem
    ensures b[0] == 0xFF || b[0] / 32 != major ==> ReadString(major, b) == Err(ErrItem)
    ensures EndBlock(true, 0, 0, b).Err? ==> EndBlock(true, 0, 0, b).error == ErrBreak
  {
    hide ReadArg, HeadError, ReadStream;
    HeadErrors(b);
  }

  /** And one whose head cannot be read. */
  lemma NoHead(b: seq<byte>, major: int, max: u64, min: i64, top: i64)
    requires HeadError(b).Some? && 2 <= major <= 3
    ensures var e := HeadError(b).value;
            && ReadUint(b, max) == Err(e) && ReadInt(b, min, top) == Err(e) && ReadSval(b) == Err(e)
            && ReadBool(b) == Err(e) && ReadString(major, b) == Err(e) && EndBlock(true, 0, 0, b) == Err(e)
  {
    hide Predecode, HeadError;
    HeadErrors(b);
  }

  /** What is wrong with the next chunk of a string. */
  function ChunkError(major: int, b: seq<byte>): NbErr {
    if HeadError(b).Some? then HeadError(b).value
    else if b == [] || b[0] / 32 != major then ErrItem
    else if b[0] % 32 == 31 then ErrIndef
    else ErrEof
  }

  ghost predicate FailsBehindChunks(major: int, b: seq<byte>, e: NbErr)
    requires 2 <= major <= 3
  {
    exists bs: seq<byte>, c: nat, w: seq<byte>, t: seq<byte> ::
      Chunks(major, bs, c, w) && b == w + t && !AtBreak(t) && e == ChunkError(major, t)
  }

  /** The chunk loop fails at the first chunk that is not one of its type in one piece, behind any number that are. */
  lemma {:induction false} ChunkErrors(major: int, b: seq<byte>)
    requires 2 <= major <= 3 && ReadChunks(major, b).Err?
    ensures FailsBehindChunks(major, b, ReadChunks(major, b).error)
    decreases |b|
  {
    hide Predecode, Chunks, ChunkError, FailsBehindChunks, IsHeader;
    var p := PredecodeCheck(major, b);
    if p.Err? || p.value.head.indef || |p.value.rest| < p.value.head.arg {
      ChunkFails(major, b);
      FailsAtOnce(major, b);
    } else {
      var n, rest := p.value.head.arg, p.value.rest;
      ChunkErrors(major, rest[n..]);
      var h := PredecodedHeader(b);
      FailsLater(major, h, rest[..n], rest[n..], ReadChunks(major, b).error);
      assert rest == rest[..n] + rest[n..];
      assert b == h + (rest[..n] + rest[n..]);
    }
  }

  lemma FailsAtOnce(major: int, b: seq<byte>)
    requires 2 <= major <= 3 && !AtBreak(b)
    ensures FailsBehindChunks(major, b, ChunkError(major, b))
  {
    hide ChunkError, Chunks;
    NoChunks(major);
    assert b == [] + b;
  }

  lemma FailsLater(major: int, h: seq<byte>, s: seq<byte>, more: seq<byte>, e: NbErr)
    requires 2 <= major <= 3 && |s| < TWO_64 && IsHeader(h, major, |s|) && h != []
    requires FailsBehindChunks(major, more, e)
    ensures FailsBehindChunks(major, h + (s + more), e)
  {
    hide ChunkError, Chunks, IsHeader;
    var bs: seq<byte>, c: nat, w: seq<byte>, t: seq<byte> :|
      Chunks(major, bs, c, w) && more == w + t && !AtBreak(t) && e == ChunkError(major, t);
    OneMoreChunk(major, h, s, bs, c, w);
    assert h + (s + more) == (h + s + w) + t;
  }

  lemma NoChunks(major: int)
    requires 2 <= major <= 3
    ensures Chunks(major, [], 0, [])
  {}

  lemma ChunkFails(major: int, b: seq<byte>)
    requires 2 <= major <= 3 && !AtBreak(b)
    requires PredecodeCheck(major, b).Err? || PredecodeCheck(major, b).value.head.indef ||
             |PredecodeCheck(major, b).value.rest| < PredecodeCheck(major, b).value.head.arg
    ensures ReadChunks(major, b) == Err(ChunkError(major, b))
  {
    hide ReadArg, HeadError;
    HeadErrors(b);
  }

  lemma OneMoreChunk(major: int, h: seq<byte>, s: seq<byte>, bs: seq<byte>, c: nat, w: seq<byte>)
    requires 2 <= major <= 3 && |s| < TWO_64 && IsHeader(h, major, |s|) && h != [] && Chunks(major, bs, c, w)
    ensures Chunks(major, s + bs, c + 1, h + s + w)
  {
    hide IsHeader;
    var all, v := s + bs, h + s + w;
    assert all[..|s|] == s && all[|s|..] == bs;
    assert v[..|h| + |s|] == h + s && v[|h| + |s|..] == w;
    assert (h + s)[|h|..] == s && (h + s)[..|h|] == h;
    assert WholeString(major, all[..|s|], v[..|h| + |s|]);
  }
}
