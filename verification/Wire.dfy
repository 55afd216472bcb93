/** Initial bytes and big-endian arguments of CBOR items (RFC 7049, sections 2 and 2.1). */
module Wire {
  import opened Prelude

  const MAJOR_UINT := 0
  const MAJOR_NEGINT := 1
  const MAJOR_BYTES := 2
  const MAJOR_TEXT := 3
  const MAJOR_ARRAY := 4
  const MAJOR_MAP := 5
  const MAJOR_TAG := 6
  const MAJOR_7 := 7

  const LBITS_1B := 24
  const LBITS_8B := 27
  const LBITS_INDEFINITE := 31
  const BREAK: byte := 0xFF

  /** The two parts of an initial byte. */
  function Major(b: byte): (m: int)
    ensures 0 <= m <= MAJOR_7
  {
    b / 32
  }

  function LowBits(b: byte): (l: int)
    ensures 0 <= l <= LBITS_INDEFINITE
  {
    b % 32
  }

  lemma InitialByte(b: byte, major: int, lbits: int)
    requires 0 <= major <= MAJOR_7 && 0 <= lbits <= LBITS_INDEFINITE
    ensures b == 32 * major + lbits <==> Major(b) == major && LowBits(b) == lbits
  {}

  lemma BreakByte(b: byte)
    ensures b == BREAK <==> Major(b) == MAJOR_7 && LowBits(b) == LBITS_INDEFINITE
  {}

  /** The low `k` bytes of `n`, most significant first. */
  function BigEndian(n: nat, k: nat): (bs: seq<byte>)
    ensures |bs| == k
  {
    if k == 0 then [] else BigEndian(n / 256, k - 1) + [n % 256]
  }

  function FromBigEndian(bs: seq<byte>): nat {
    if bs == [] then 0 else 256 * FromBigEndian(bs[..|bs| - 1]) + bs[|bs| - 1]
  }

  function Pow256(k: nat): (p: nat)
    ensures p >= 1
  {
    if k == 0 then 1 else 256 * Pow256(k - 1)
  }

  lemma Pow256Values()
    ensures Pow256(1) == TWO_8 && Pow256(2) == TWO_16 && Pow256(4) == TWO_32 && Pow256(8) == TWO_64
  {
    assert Pow256(1) == 0x100;
    assert Pow256(2) == 0x1_0000;
    assert Pow256(3) == 0x100_0000;
    assert Pow256(4) == 0x1_0000_0000;
    assert Pow256(5) == 0x100_0000_0000;
    assert Pow256(6) == 0x1_0000_0000_0000;
    assert Pow256(7) == 0x100_0000_0000_0000;
  }

  lemma {:induction false} BigEndianRoundTrip(n: nat, k: nat)
    requires n < Pow256(k)
    ensures FromBigEndian(BigEndian(n, k)) == n
  {
    if k > 0 {
      BigEndianRoundTrip(n / 256, k - 1);
      assert BigEndian(n, k)[..k - 1] == BigEndian(n / 256, k - 1);
    }
  }

  lemma LastByte(n: nat, c: byte)
    ensures (256 * n + c) / 256 == n && (256 * n + c) % 256 == c
  {}

  lemma {:induction false} FromBigEndianRoundTrip(bs: seq<byte>)
    ensures FromBigEndian(bs) < Pow256(|bs|)
    ensures BigEndian(FromBigEndian(bs), |bs|) == bs
  {
    if bs != [] {
      var init, last := bs[..|bs| - 1], bs[|bs| - 1];
      FromBigEndianRoundTrip(init);
      LastByte(FromBigEndian(init), last);
      assert bs == init + [last];
    }
  }

  /** The last `k` of eight big-endian bytes are the big-endian form on `k` bytes. */
  lemma {:induction false} BigEndianSuffix(n: nat, m: nat, k: nat)
    requires k <= m
    ensures BigEndian(n, m)[m - k..] == BigEndian(n, k)
  {
    if k > 0 {
      BigEndianSuffix(n / 256, m - 1, k - 1);
      assert BigEndian(n, m)[m - k..] == BigEndian(n / 256, m - 1)[m - k..] + [n % 256];
    } else {
      assert BigEndian(n, m)[m..] == [];
    }
  }

  /** Filling the last `|bs|` of eight zero bytes leaves the value unchanged. */
  lemma {:induction false} LeadingZeros(k: nat, bs: seq<byte>)
    ensures FromBigEndian(seq(k, _ => 0) + bs) == FromBigEndian(bs)
  {
    var z: seq<byte> := seq(k, _ => 0);
    if bs != [] {
      LeadingZeros(k, bs[..|bs| - 1]);
      assert (z + bs)[..|z + bs| - 1] == z + bs[..|bs| - 1];
    } else if k > 0 {
      LeadingZeros(k - 1, bs);
      assert (z + bs)[..k - 1] == seq(k - 1, _ => 0) + bs;
    } else {
      assert z + bs == bs;
    }
  }

  /** Number of argument bytes announced by the low bits of an initial byte. */
  function ArgBytes(lbits: int): (k: nat)
    requires LBITS_1B <= lbits <= LBITS_8B
  {
    match lbits
    case 24 => 1
    case 25 => 2
    case 26 => 4
    case _ => 8
  }

  /** The low bits `write_hdr_u64` chooses for an argument above 23. */
  function ArgLbits(n: u64): (lbits: int)
    requires n > 23
    ensures LBITS_1B <= lbits <= LBITS_8B
  {
    if n < TWO_8 then 24 else if n < TWO_16 then 25 else if n < TWO_32 then 26 else 27
  }

  function Header(major: int, n: u64): (h: seq<byte>)
    requires 0 <= major <= 6
    ensures h != [] && Major(h[0]) == major && LowBits(h[0]) <= LBITS_8B
    ensures h[0] != BREAK
  {
    if n <= 23 then [32 * major + n]
    else [32 * major + ArgLbits(n)] + BigEndian(n, ArgBytes(ArgLbits(n)))
  }

  datatype Arg = Arg(n: u64, rest: seq<byte>)

  /** The argument that follows an initial byte with the given low bits: `decode_u64`. */
  function ReadArg(lbits: int, b: seq<byte>): (r: Result<Arg>)
    requires 0 <= lbits < LBITS_INDEFINITE
    ensures r.Ok? ==> |r.value.rest| <= |b|
  {
    if lbits <= 23 then Ok(Arg(lbits, b))
    else if lbits > LBITS_8B then Err(ErrParse)
    else
      var k := ArgBytes(lbits);
      if |b| < k then Err(ErrEof)
      else
        assert FromBigEndian(b[..k]) < TWO_64 by { FromBigEndianRoundTrip(b[..k]); Pow256Values(); }
        Ok(Arg(FromBigEndian(b[..k]), b[k..]))
  }

  /** RFC 7049, section 2.1: `h` is a header of major type `major` with the argument `n`, either in the initial byte or
      in the one, two, four or eight bytes that follow it in network byte order. */
  ghost predicate IsHeader(h: seq<byte>, major: int, n: u64)
    requires 0 <= major <= MAJOR_7
  {
    (n <= 23 && h == [32 * major + n]) ||
    exists lbits | LBITS_1B <= lbits <= LBITS_8B :: IsLongHeader(h, major, lbits, n)
  }

  ghost predicate IsLongHeader(h: seq<byte>, major: int, lbits: int, n: u64)
    requires 0 <= major <= MAJOR_7 && LBITS_1B <= lbits <= LBITS_8B
  {
    n < Pow256(ArgBytes(lbits)) && h == [32 * major + lbits] + BigEndian(n, ArgBytes(lbits))
  }

  /** `decode_u64` reads exactly the headers: no others, and all of them to their last byte. */
  lemma HeadersAreRead(h: seq<byte>, major: int, n: u64)
    requires 0 <= major <= MAJOR_7
    ensures IsHeader(h, major, n) <==>
            h != [] && Major(h[0]) == major && LowBits(h[0]) < LBITS_INDEFINITE &&
            ReadArg(LowBits(h[0]), h[1..]) == Ok(Arg(n, []))
  {
    hide ReadArg, Major, LowBits, BigEndian, Pow256;
    if IsHeader(h, major, n) {
      if n <= 23 && h == [32 * major + n] {
        InitialByte(h[0], major, n);
        ShortHeaderIsRead(n);
        assert h[1..] == [];
      } else {
        var lbits :| LBITS_1B <= lbits <= LBITS_8B && IsLongHeader(h, major, lbits, n);
        InitialByte(h[0], major, lbits);
        LongHeaderIsRead(h, lbits, n);
      }
    }
    if h != [] && Major(h[0]) == major && LowBits(h[0]) < LBITS_INDEFINITE &&
       ReadArg(LowBits(h[0]), h[1..]) == Ok(Arg(n, [])) {
      InitialByte(h[0], major, LowBits(h[0]));
      if LowBits(h[0]) <= 23 {
        ShortHeader(h, n);
      } else {
        LongHeaderBound(h, n);
        assert IsLongHeader(h, major, LowBits(h[0]), n);
      }
    }
  }

  lemma ShortHeaderIsRead(n: u64)
    requires n <= 23
    ensures ReadArg(n, []) == Ok(Arg(n, []))
  {}

  lemma LongHeaderIsRead(h: seq<byte>, lbits: int, n: u64)
    requires LBITS_1B <= lbits <= LBITS_8B && n < Pow256(ArgBytes(lbits))
    requires h != [] && h[1..] == BigEndian(n, ArgBytes(lbits))
    ensures ReadArg(lbits, h[1..]) == Ok(Arg(n, []))
  {
    var k := ArgBytes(lbits);
    assert h[1..][..k] == h[1..] && h[1..][k..] == [];
    BigEndianRoundTrip(n, k);
  }

  lemma ReadArgAppend(lbits: int, b: seq<byte>, rest: seq<byte>)
    requires 0 <= lbits < LBITS_INDEFINITE
    requires ReadArg(lbits, b).Ok?
    ensures ReadArg(lbits, b + rest) == Ok(Arg(ReadArg(lbits, b).value.n, ReadArg(lbits, b).value.rest + rest))
  {
    if lbits > 23 {
      var k := ArgBytes(lbits);
      assert (b + rest)[..k] == b[..k];
      assert (b + rest)[k..] == b[k..] + rest;
    }
  }

  /** What reading takes off the input is itself a header with the argument that was read. */
  lemma ReadArgIsHeader(b: seq<byte>)
    requires b != [] && LowBits(b[0]) < LBITS_INDEFINITE && ReadArg(LowBits(b[0]), b[1..]).Ok?
    ensures var a := ReadArg(LowBits(b[0]), b[1..]).value;
            |a.rest| < |b| && b[|b| - |a.rest|..] == a.rest && IsHeader(b[..|b| - |a.rest|], Major(b[0]), a.n)
  {
    var a := ReadArg(LowBits(b[0]), b[1..]).value;
    var h := b[..|b| - |a.rest|];
    assert a.rest == b[1..][|b| - 1 - |a.rest|..];
    if LowBits(b[0]) <= 23 {
      assert h[1..] == [];
    } else {
      var k := ArgBytes(LowBits(b[0]));
      assert |a.rest| == |b| - 1 - k;
      assert h[1..] == b[1..][..k];
      assert h[1..][..k] == h[1..];
      assert h[1..][k..] == [];
    }
    HeadersAreRead(h, Major(b[0]), a.n);
  }

  lemma HeaderFits(n: u64)
    requires n > 23
    ensures n < Pow256(ArgBytes(ArgLbits(n)))
  {
    Pow256Values();
  }

  /** What `write_hdr_u64` writes is a header of its argument. */
  lemma HeaderRoundTrip(major: int, n: u64)
    requires 0 <= major <= 6
    ensures IsHeader(Header(major, n), major, n)
  {
    hide BigEndian, Pow256;
    if n > 23 {
      HeaderFits(n);
      assert IsLongHeader(Header(major, n), major, ArgLbits(n), n);
    }
  }

  /** RFC 7049, section 3.9: `write_hdr_u64` emits the shortest header, and no other header of that length
      has the same major type and argument. */
  lemma HeaderIsCanonical(h: seq<byte>, major: int, n: u64)
    requires 0 <= major <= 6 && IsHeader(h, major, n)
    ensures |Header(major, n)| <= |h|
    ensures |Header(major, n)| == |h| ==> h == Header(major, n)
  {
    hide ReadArg, Major, LowBits, BigEndian, Pow256;
    if !(n <= 23 && h == [32 * major + n]) {
      var lbits :| LBITS_1B <= lbits <= LBITS_8B && IsLongHeader(h, major, lbits, n);
      LongHeaderUnique(lbits, n);
      LongHeaderIsCanonical(h, major, n, lbits);
    }
  }

  lemma ShortHeader(h: seq<byte>, n: u64)
    requires h != [] && LowBits(h[0]) <= 23 && ReadArg(LowBits(h[0]), h[1..]) == Ok(Arg(n, []))
    ensures h == [h[0]] && n == LowBits(h[0])
  {}

  lemma LongHeaderIsCanonical(h: seq<byte>, major: int, n: u64, lbits: int)
    requires 0 <= major <= 6 && LBITS_1B <= lbits <= LBITS_8B
    requires h == [32 * major + lbits] + BigEndian(n, ArgBytes(lbits))
    requires n > 23 ==> ArgBytes(ArgLbits(n)) <= ArgBytes(lbits)
    requires n > 23 && ArgBytes(ArgLbits(n)) == ArgBytes(lbits) ==> ArgLbits(n) == lbits
    ensures |Header(major, n)| <= |h|
    ensures |Header(major, n)| == |h| ==> h == Header(major, n)
  {}

  lemma LongHeaderUnique(lbits: int, n: u64)
    requires LBITS_1B <= lbits <= LBITS_8B && n < Pow256(ArgBytes(lbits))
    ensures n > 23 ==> ArgBytes(ArgLbits(n)) <= ArgBytes(lbits)
    ensures n > 23 && ArgBytes(ArgLbits(n)) == ArgBytes(lbits) ==> ArgLbits(n) == lbits
  {
    Pow256Values();
  }

  lemma LongHeaderBound(h: seq<byte>, n: u64)
    requires h != [] && LBITS_1B <= LowBits(h[0]) < LBITS_INDEFINITE
    requires ReadArg(LowBits(h[0]), h[1..]) == Ok(Arg(n, []))
    ensures LowBits(h[0]) <= LBITS_8B
    ensures var k := ArgBytes(LowBits(h[0])); n < Pow256(k) && h == [h[0]] + BigEndian(n, k)
  {
    var k := ArgBytes(LowBits(h[0]));
    assert h[1..][..k] == h[1..];
    FromBigEndianRoundTrip(h[1..]);
  }

  /** `i64_to_u64` on negative numbers and `u64_to_i64` on its range are inverse to each other. */
  function NegArg(i: i64): (n: u64)
    requires i < 0
    ensures n < TWO_63 && NegValue(n) == i
  {
    -(i + 1)
  }

  function NegValue(n: u64): (i: i64)
    requires n < TWO_63
    ensures i < 0
  {
    -1 - n
  }

  lemma NegArgOfNegValue(n: u64)
    requires n < TWO_63
    ensures NegArg(NegValue(n)) == n
  {}
}
