/** The decoder against a grammar in the terms of RFC 7049, section 2, for every input. */
module CborGrammar {
  import opened Prelude
  import opened Wire
  import opened Cbor
  import opened CborRoundTrip

  /** `w` is an encoding of `t` that counts as `n` items. The strict reading is the one of RFC 7049 for data whose
      strings are in one piece and whose blocks of definite length hold no tag directly. The lax one is everything that
      this decoder accepts besides: a map length of 2^63 more than the number of pairs, simple values below 32 in two
      bytes, and, only where a break follows, strings in chunks without their break and blocks of definite length whose
      tags and chunks make up for missing items. */
  ghost predicate Derives(t: Item, w: seq<byte>, n: nat, lax: bool, follow: bool)
    decreases t, 0
  {
    match t
    case UInt(u) => n == 1 && IsHeader(w, MAJOR_UINT, u)
    case Int(i) => n == 1 && i < 0 && IsHeader(w, MAJOR_NEGINT, NegArg(i))
    case Bytes(indef, bs) => DerivesString(MAJOR_BYTES, indef, bs, w, n) && (indef ==> lax && follow)
    case Text(indef, bs) => DerivesString(MAJOR_TEXT, indef, bs, w, n) && (indef ==> lax && follow)
    case Array(indef, ts) => n == 1 && DerivesBlock(MAJOR_ARRAY, indef, ts, w, lax, follow)
    case Map(indef, ts) => n == 1 && |ts| % 2 == 0 && DerivesBlock(MAJOR_MAP, indef, ts, w, lax, follow)
    case Tag(tag, num, x) =>
      num == 0 && n >= 2 &&
      exists k | 0 < k <= |w| :: IsHeader(w[..k], MAJOR_TAG, tag) && Derives(x, w[k..], n - 1, lax, follow)
    case Sval(v) => n == 1 && ((v <= 23 && w == [0xE0 + v]) || (v <= 255 && (lax || v >= 32) && w == [0xF8, v]))
  }

  /** An array or a map: between its opening and its break, or behind a header with the item count. */
  ghost predicate DerivesBlock(major: int, indef: bool, ts: seq<Item>, w: seq<byte>, lax: bool, follow: bool)
    requires MAJOR_ARRAY <= major <= MAJOR_MAP
    decreases ts, 2, 1
  {
    if indef then Enclosed(major, w) && DerivesInside(ts, w[1..|w| - 1], lax)
    else exists k, m | 0 <= k <= |w| ::
      BlockHeader(major, m, w[..k], lax) && (m == |ts| || (lax && follow)) && DerivesAll(ts, w[k..], m, lax, follow)
  }

  ghost predicate DerivesInside(ts: seq<Item>, w: seq<byte>, lax: bool)
    decreases ts, 2, 0
  {
    exists m :: DerivesAll(ts, w, m, lax, true)
  }

  ghost predicate DerivesAll(ts: seq<Item>, w: seq<byte>, m: nat, lax: bool, follow: bool)
    decreases ts, 1
  {
    if ts == [] then w == [] && m == 0
    else exists k, n | 0 < k <= |w| && 0 < n <= m :: DerivesFirst(ts, w, k, n, m, lax, follow)
  }

  /** Only the last item of a block can be followed by a break. */
  ghost predicate DerivesFirst(ts: seq<Item>, w: seq<byte>, k: nat, n: nat, m: nat, lax: bool, follow: bool)
    requires ts != [] && 0 < k <= |w| && 0 < n <= m
    decreases ts, 0
  {
    Derives(ts[0], w[..k], n, lax, follow && |ts| == 1) && DerivesAll(ts[1..], w[k..], m - n, lax, follow)
  }

  ghost predicate DerivesString(major: int, indef: bool, bs: seq<byte>, w: seq<byte>, n: nat)
    requires MAJOR_BYTES <= major <= MAJOR_TEXT
  {
    if indef then n >= 1 && w != [] && w[0] == 32 * major + LBITS_INDEFINITE && Chunks(major, bs, n - 1, w[1..]) &&
                  (major == MAJOR_TEXT ==> n > 1)
    else n == 1 && WholeString(major, bs, w)
  }

  ghost predicate WholeString(major: int, bs: seq<byte>, w: seq<byte>)
    requires MAJOR_BYTES <= major <= MAJOR_TEXT
  {
    |bs| < TWO_64 && |bs| <= |w| && w[|w| - |bs|..] == bs && IsHeader(w[..|w| - |bs|], major, |bs|)
  }

  ghost predicate Chunks(major: int, bs: seq<byte>, c: nat, w: seq<byte>)
    requires MAJOR_BYTES <= major <= MAJOR_TEXT
    decreases c
  {
    if c == 0 then bs == [] && w == []
    else exists j, k | 0 <= j <= |bs| && 0 < k <= |w| ::
      WholeString(major, bs[..j], w[..k]) && Chunks(major, bs[j..], c - 1, w[k..])
  }

  ghost predicate Enclosed(major: int, w: seq<byte>) {
    |w| >= 2 && w[0] == 32 * major + LBITS_INDEFINITE && w[|w| - 1] == BREAK
  }

  /** The header of a block with `count` items; a map counts pairs. */
  ghost predicate BlockHeader(major: int, count: nat, h: seq<byte>, lax: bool)
    requires MAJOR_ARRAY <= major <= MAJOR_MAP
  {
    if major == MAJOR_MAP then
      count < TWO_64 && count % 2 == 0 &&
      (IsHeader(h, major, count / 2) || (lax && IsHeader(h, major, count / 2 + TWO_63)))
    else count < TWO_64 && IsHeader(h, major, count)
  }

  function MajorOf(t: Item): (m: int)
    requires t.Array? || t.Map?
    ensures MAJOR_ARRAY <= m <= MAJOR_MAP
  {
    if t.Map? then MAJOR_MAP else MAJOR_ARRAY
  }

  // ---------- completeness ----------

  lemma HeaderStart(h: seq<byte>, major: int, n: u64)
    requires 0 <= major <= 6 && IsHeader(h, major, n)
    ensures h != [] && h[0] != BREAK && Major(h[0]) == major && LowBits(h[0]) != LBITS_INDEFINITE
  {
    hide IsHeader, Major, LowBits, ReadArg;
    HeadersAreRead(h, major, n);
    BreakByte(h[0]);
  }

  lemma OpeningByte(c: byte, major: int)
    requires 0 <= major <= 6 && c == 32 * major + LBITS_INDEFINITE
    ensures c != BREAK && Major(c) == major && LowBits(c) == LBITS_INDEFINITE
  {}

  lemma StringStart(major: int, indef: bool, bs: seq<byte>, w: seq<byte>, n: nat)
    requires MAJOR_BYTES <= major <= MAJOR_TEXT && DerivesString(major, indef, bs, w, n)
    ensures w != [] && w[0] != BREAK && Major(w[0]) == major && (LowBits(w[0]) == LBITS_INDEFINITE <==> indef) && n >= 1
  {
    hide IsHeader, Major, LowBits, Chunks;
    if indef {
      OpeningByte(w[0], major);
    } else {
      HeaderStart(w[..|w| - |bs|], major, |bs|);
    }
  }

  lemma BlockStart(major: int, count: nat, h: seq<byte>, lax: bool)
    requires MAJOR_ARRAY <= major <= MAJOR_MAP && BlockHeader(major, count, h, lax)
    ensures h != [] && h[0] != BREAK && Major(h[0]) == major && LowBits(h[0]) != LBITS_INDEFINITE
  {
    hide IsHeader, Major, LowBits;
    if major == MAJOR_MAP {
      if IsHeader(h, major, count / 2) {
        HeaderStart(h, major, count / 2);
      } else {
        HeaderStart(h, major, count / 2 + TWO_63);
      }
    } else {
      HeaderStart(h, major, count);
    }
  }

  lemma WholeBlockStart(major: int, indef: bool, ts: seq<Item>, w: seq<byte>, lax: bool, follow: bool)
    requires MAJOR_ARRAY <= major <= MAJOR_MAP && DerivesBlock(major, indef, ts, w, lax, follow)
    ensures w != [] && w[0] != BREAK && Major(w[0]) == major
  {
    hide IsHeader, DerivesAll, BlockHeader, Major, LowBits;
    if indef {
      OpeningByte(w[0], major);
    } else {
      var k, m :| 0 <= k <= |w| && BlockHeader(major, m, w[..k], lax) && DerivesAll(ts, w[k..], m, lax, follow);
      BlockStart(major, m, w[..k], lax);
    }
  }

  lemma DerivedStart(t: Item, w: seq<byte>, n: nat, lax: bool, follow: bool)
    requires Derives(t, w, n, lax, follow)
    ensures w != [] && w[0] != BREAK && n >= 1 && (n >= 2 ==> t.Tag? || t.Bytes? || t.Text?)
    ensures Major(w[0]) == MAJOR_TAG <==> t.Tag?
  {
    hide IsHeader, DerivesBlock, DerivesString;
    match t
    case UInt(u) => HeaderStart(w, MAJOR_UINT, u);
    case Int(i) => HeaderStart(w, MAJOR_NEGINT, NegArg(i));
    case Bytes(indef, bs) => StringStart(MAJOR_BYTES, indef, bs, w, n);
    case Text(indef, bs) => StringStart(MAJOR_TEXT, indef, bs, w, n);
    case Array(indef, ts) => WholeBlockStart(MAJOR_ARRAY, indef, ts, w, lax, follow);
    case Map(indef, ts) => WholeBlockStart(MAJOR_MAP, indef, ts, w, lax, follow);
    case Tag(tag, _, x) =>
      var k :| 0 < k <= |w| && IsHeader(w[..k], MAJOR_TAG, tag) && Derives(x, w[k..], n - 1, lax, follow);
      HeaderStart(w[..k], MAJOR_TAG, tag);
    case Sval(v) =>
  }

  /** Whatever the grammar derives is decoded, and decoding stops right behind it. */
  lemma {:induction false} Complete(t: Item, w: seq<byte>, n: nat, lax: bool, follow: bool, rest: seq<byte>)
    requires Derives(t, w, n, lax, follow) && (follow ==> AtBreak(rest))
    ensures Decode(w + rest) == Ok(Decoded(t, n, rest))
    decreases t, 1
  {
    hide DerivesBlock, DerivesString;
    match t
    case UInt(u) => CompleteUInt(u, w, rest);
    case Int(i) => CompleteInt(i, w, rest);
    case Bytes(indef, bs) => CompleteString(MAJOR_BYTES, indef, bs, w, n, rest);
    case Text(indef, bs) => CompleteString(MAJOR_TEXT, indef, bs, w, n, rest);
    case Array(indef, _) =>
      if indef { CompleteIndef(t, w, lax, follow, rest); } else { CompleteDefinite(t, w, lax, follow, rest); }
    case Map(indef, _) =>
      if indef { CompleteIndef(t, w, lax, follow, rest); } else { CompleteDefinite(t, w, lax, follow, rest); }
    case Tag(_, _, _) => CompleteTag(t, w, n, lax, follow, rest);
    case Sval(v) => CompleteSval(v, w, rest);
  }

  lemma CompleteUInt(u: u64, w: seq<byte>, rest: seq<byte>)
    requires IsHeader(w, MAJOR_UINT, u)
    ensures Decode(w + rest) == Ok(Decoded(UInt(u), 1, rest))
  {
    hide IsHeader, Predecode, Decode;
    PredecodeHeader(w, MAJOR_UINT, u, rest);
    HeaderStart(w, MAJOR_UINT, u);
    DecodeOpened(w, Head(MAJOR_UINT, false, u), rest);
  }

  lemma CompleteInt(i: i64, w: seq<byte>, rest: seq<byte>)
    requires i < 0 && IsHeader(w, MAJOR_NEGINT, NegArg(i))
    ensures Decode(w + rest) == Ok(Decoded(Int(i), 1, rest))
  {
    hide IsHeader, Predecode, Decode;
    PredecodeHeader(w, MAJOR_NEGINT, NegArg(i), rest);
    HeaderStart(w, MAJOR_NEGINT, NegArg(i));
    DecodeOpened(w, Head(MAJOR_NEGINT, false, NegArg(i)), rest);
  }

  lemma CompleteSval(v: nat, w: seq<byte>, rest: seq<byte>)
    requires (v <= 23 && w == [0xE0 + v]) || (v <= 255 && w == [0xF8, v])
    ensures Decode(w + rest) == Ok(Decoded(Sval(v), 1, rest))
  {
    if w == [0xE0 + v] {
      assert (w + rest)[1..] == rest;
    } else {
      assert (w + rest)[1..] == [v] + rest;
      assert ([v] + rest)[..1] == [v] && ([v] + rest)[1..] == rest;
      assert FromBigEndian([v]) == v;
    }
  }

  lemma PredecodeWhole(major: int, bs: seq<byte>, w: seq<byte>, rest: seq<byte>)
    requires MAJOR_BYTES <= major <= MAJOR_TEXT && WholeString(major, bs, w)
    ensures Predecode(w + rest) == Ok(Predecoded(Head(major, false, |bs|), bs + rest))
    ensures w != [] && w[0] != BREAK
  {
    hide IsHeader, Predecode;
    var h := w[..|w| - |bs|];
    assert w + rest == h + (bs + rest);
    PredecodeHeader(h, major, |bs|, bs + rest);
    HeaderStart(h, major, |bs|);
  }

  lemma {:induction false} CompleteChunks(major: int, bs: seq<byte>, c: nat, w: seq<byte>, rest: seq<byte>)
    requires MAJOR_BYTES <= major <= MAJOR_TEXT && Chunks(major, bs, c, w) && AtBreak(rest)
    ensures ReadChunks(major, w + rest) == Ok(StringRead(bs, c, rest))
    decreases c
  {
    hide WholeString, ReadChunks, Chunks;
    var j, k := FirstChunk(major, bs, c, w);
    if c == 0 {
      assert w + rest == rest;
      ReadNoChunk(major, rest);
    } else {
      assert w + rest == w[..k] + (w[k..] + rest);
      CompleteChunks(major, bs[j..], c - 1, w[k..], rest);
      ReadFirstChunk(major, bs[..j], w[..k], w[k..] + rest);
      assert bs[..j] + bs[j..] == bs;
    }
  }

  lemma FirstChunk(major: int, bs: seq<byte>, c: nat, w: seq<byte>) returns (j: nat, k: nat)
    requires MAJOR_BYTES <= major <= MAJOR_TEXT && Chunks(major, bs, c, w)
    ensures if c == 0 then bs == [] && w == []
            else j <= |bs| && 0 < k <= |w| && WholeString(major, bs[..j], w[..k]) &&
                 Chunks(major, bs[j..], c - 1, w[k..])
  {
    hide WholeString;
    if c == 0 {
      j, k := 0, 0;
    } else {
      j, k :| 0 <= j <= |bs| && 0 < k <= |w| && WholeString(major, bs[..j], w[..k]) &&
              Chunks(major, bs[j..], c - 1, w[k..]);
    }
  }

  lemma ReadNoChunk(major: int, rest: seq<byte>)
    requires AtBreak(rest)
    ensures ReadChunks(major, rest) == Ok(StringRead([], 0, rest))
  {}

  lemma ReadFirstChunk(major: int, bs: seq<byte>, w: seq<byte>, rest: seq<byte>)
    requires MAJOR_BYTES <= major <= MAJOR_TEXT && WholeString(major, bs, w)
    ensures var more := ReadChunks(major, rest);
            ReadChunks(major, w + rest) ==
            if more.Err? then more else Ok(StringRead(bs + more.value.bytes, 1 + more.value.count, more.value.rest))
  {
    hide WholeString, Predecode;
    PredecodeWhole(major, bs, w, rest);
    assert (bs + rest)[..|bs|] == bs && (bs + rest)[|bs|..] == rest;
  }

  lemma CompleteString(major: int, indef: bool, bs: seq<byte>, w: seq<byte>, n: nat, rest: seq<byte>)
    requires MAJOR_BYTES <= major <= MAJOR_TEXT
    requires DerivesString(major, indef, bs, w, n) && (indef ==> AtBreak(rest))
    ensures Decode(w + rest)
         == Ok(Decoded(if major == MAJOR_BYTES then Bytes(indef, bs) else Text(indef, bs), n, rest))
  {
    hide WholeString, Chunks, Predecode, LowBits, Major, ReadChunks;
    StringStart(major, indef, bs, w, n);
    assert (w + rest)[0] == w[0];
    if indef {
      var b := w[1..] + rest;
      assert (w + rest)[1..] == b;
      PredecodeIndef(w + rest, major);
      CompleteChunks(major, bs, n - 1, w[1..], rest);
    } else {
      PredecodeWhole(major, bs, w, rest);
      assert (bs + rest)[..|bs|] == bs && (bs + rest)[|bs|..] == rest;
    }
  }

  lemma PredecodeIndef(b: seq<byte>, major: int)
    requires MAJOR_BYTES <= major <= MAJOR_MAP && b != [] && b[0] == 32 * major + LBITS_INDEFINITE
    ensures Predecode(b) == Ok(Predecoded(Head(major, true, 0), b[1..]))
  {}

  lemma {:induction false} CompleteTag(t: Item, w: seq<byte>, n: nat, lax: bool, follow: bool, rest: seq<byte>)
    requires t.Tag? && Derives(t, w, n, lax, follow) && (follow ==> AtBreak(rest))
    ensures Decode(w + rest) == Ok(Decoded(t, n, rest))
    decreases t, 0
  {
    hide IsHeader, Decode, Predecode;
    var k :| 0 < k <= |w| && IsHeader(w[..k], MAJOR_TAG, t.tag) && Derives(t.item, w[k..], n - 1, lax, follow);
    assert w + rest == w[..k] + (w[k..] + rest);
    PredecodeHeader(w[..k], MAJOR_TAG, t.tag, w[k..] + rest);
    DecodeOpened(w[..k], Head(MAJOR_TAG, false, t.tag), w[k..] + rest);
    Complete(t.item, w[k..], n - 1, lax, follow, rest);
  }

  lemma {:induction false} CompleteIndef(t: Item, w: seq<byte>, lax: bool, follow: bool, rest: seq<byte>)
    requires (t.Array? || t.Map?) && t.indef && Derives(t, w, 1, lax, follow)
    ensures Decode(w + rest) == Ok(Decoded(t, 1, rest))
    decreases t, 0
  {
    hide Decode, DecodeItems, FinishBlock, DerivesAll;
    var major := MajorOf(t);
    var body := w[1..|w| - 1];
    assert DerivesInside(t.items, body, lax);
    var m :| DerivesAll(t.items, body, m, lax, true);
    var tail := [BREAK] + rest;
    assert w + rest == Open(major, true, 0) + (body + tail);
    DecodeBlock(major, true, 0, body + tail);
    CompleteAll(t.items, body, m, lax, true, tail, None);
    assert tail == Close(true) + rest;
    FinishWritten(Head(major, true, 0), t.items, m, rest);
  }

  lemma {:induction false} CompleteDefinite(t: Item, w: seq<byte>, lax: bool, follow: bool, rest: seq<byte>)
    requires (t.Array? || t.Map?) && !t.indef && Derives(t, w, 1, lax, follow) && (follow ==> AtBreak(rest))
    ensures Decode(w + rest) == Ok(Decoded(t, 1, rest))
    decreases t, 0
  {
    hide Decode, DecodeItems, FinishBlock, DerivesAll, IsHeader, BlockHeader;
    var major := MajorOf(t);
    var k, m :| 0 <= k <= |w| && BlockHeader(major, m, w[..k], lax) && (m == |t.items| || (lax && follow)) &&
                DerivesAll(t.items, w[k..], m, lax, follow);
    var h, body := w[..k], w[k..];
    assert w + rest == h + (body + rest);
    var head := DecodeDerivedHeader(major, m, h, lax, body + rest);
    CountsCover(t.items, body, m, lax, follow);
    CompleteAll(t.items, body, m, lax, follow, rest, Some(m));
    assert Close(false) + rest == rest;
    FinishWritten(head, t.items, m, rest);
  }

  lemma {:induction false} CountsCover(ts: seq<Item>, w: seq<byte>, m: nat, lax: bool, follow: bool)
    requires DerivesAll(ts, w, m, lax, follow)
    ensures |ts| <= m
    decreases |ts|
  {
    hide Derives;
    if ts != [] {
      var k, n :| 0 < k <= |w| && 0 < n <= m && DerivesFirst(ts, w, k, n, m, lax, follow);
      CountsCover(ts[1..], w[k..], m - n, lax, follow);
    }
  }

  lemma DecodeDerivedHeader(major: int, count: nat, h: seq<byte>, lax: bool, b: seq<byte>) returns (head: Head)
    requires MAJOR_ARRAY <= major <= MAJOR_MAP && BlockHeader(major, count, h, lax)
    ensures head.Head? && head.major == major && !head.indef && BlockLen(head) == count
    ensures Predecode(h + b) == Ok(Predecoded(head, b)) && (!lax && major == MAJOR_MAP ==> head.arg < TWO_63)
    ensures var xs := DecodeItems(b, Some(count));
            Decode(h + b) == if xs.Err? then Err(xs.error) else FinishBlock(head, xs.value)
  {
    hide IsHeader, Decode, DecodeItems, FinishBlock, Predecode;
    var n := if major == MAJOR_ARRAY then count
             else if IsHeader(h, major, count / 2) then count / 2 else count / 2 + TWO_63;
    head := Head(major, false, n);
    PredecodeHeader(h, major, n, b);
    HeaderStart(h, major, n);
    DecodeOpened(h, head, b);
  }

  lemma DerivesNone(ts: seq<Item>, w: seq<byte>, m: nat, lax: bool, follow: bool)
    requires DerivesAll(ts, w, m, lax, follow) && ts == []
    ensures w == [] && m == 0
  {}

  lemma {:induction false} CompleteAll(ts: seq<Item>, w: seq<byte>, m: nat, lax: bool, follow: bool, rest: seq<byte>,
                                       limit: Option<nat>)
    requires DerivesAll(ts, w, m, lax, follow) && (follow ==> AtBreak(rest))
    requires limit == Some(|ts|) || ((limit.None? || limit.value > |ts|) && AtBreak(rest))
    ensures DecodeItems(w + rest, limit) == Ok(DecodedItems(ts, m, rest))
    decreases ts, 1
  {
    hide Decode, Derives;
    if ts == [] {
      assert w + rest == rest;
    } else {
      var k, n :| 0 < k <= |w| && 0 < n <= m && DerivesFirst(ts, w, k, n, m, lax, follow);
      assert w + rest == w[..k] + (w[k..] + rest);
      if |ts| == 1 {
        DerivesNone(ts[1..], w[k..], m - n, lax, follow);
        assert w[k..] + rest == rest;
      }
      Complete(ts[0], w[..k], n, lax, follow && |ts| == 1, w[k..] + rest);
      DerivedStart(ts[0], w[..k], n, lax, follow && |ts| == 1);
      CompleteAll(ts[1..], w[k..], m - n, lax, follow, rest, OneLess(limit));
      DecodeItemsStep(w + rest, limit, Decoded(ts[0], n, w[k..] + rest));
      assert [ts[0]] + ts[1..] == ts;
    }
  }

  // ---------- what makes an input regular ----------

  /** A scan of the heads of one item, a condition on the input alone: no map header of 2^63 or more, no simple value
      below 32 in two bytes, no string in chunks, and no tag directly in a block of definite length. */
  predicate Regular(b: seq<byte>)
    decreases |b|, 1
  {
    var p := Predecode(b);
    p.Err? || p.value.head.Break? || (RegularHead(b, p.value.head) && RegularBody(p.value.head, p.value.rest))
  }

  predicate RegularHead(b: seq<byte>, h: Head)
    requires b != [] && h.Head?
  {
    && (h.major == MAJOR_BYTES || h.major == MAJOR_TEXT ==> !h.indef)
    && (h.major == MAJOR_MAP ==> h.arg < TWO_63)
    && (h.major == MAJOR_7 && LowBits(b[0]) == LBITS_1B ==> h.arg >= 32)
  }

  predicate RegularBody(h: Head, b: seq<byte>)
    requires h.Head?
    decreases |b|, 3
  {
    if h.major == MAJOR_ARRAY || h.major == MAJOR_MAP then RegularItems(b, Limit(h))
    else h.major == MAJOR_TAG ==> Regular(b)
  }

  predicate RegularItems(b: seq<byte>, limit: Option<nat>)
    decreases |b|, 2
  {
    limit == Some(0) || AtBreak(b) ||
    (Regular(b) && (limit.Some? && b != [] ==> Major(b[0]) != MAJOR_TAG) &&
     (Decode(b).Ok? ==> RegularItems(Decode(b).value.rest, OneLess(limit))))
  }

  // ---------- soundness ----------

  /** What `Predecode` took off the input. */
  lemma PredecodedHeader(b: seq<byte>) returns (h: seq<byte>)
    requires Predecode(b).Ok? && Predecode(b).value.head.Head?
    ensures var p := Predecode(b).value;
            b == h + p.rest && h != [] && h[0] == b[0] &&
            if p.head.indef then h == [32 * p.head.major + LBITS_INDEFINITE] else IsHeader(h, p.head.major, p.head.arg)
  {
    hide ReadArg, IsHeader, Major, LowBits;
    var p := Predecode(b).value;
    h := b[..|b| - |p.rest|];
    if p.head.indef {
      InitialByte(b[0], p.head.major, LBITS_INDEFINITE);
      assert b == [b[0]] + b[1..];
    } else {
      BreakByte(b[0]);
      ReadArgIsHeader(b);
    }
  }

  /** Every successful decoding is a derivation of its result from the bytes consumed: in the lax grammar whatever the
      input, and in the strict one if the input is regular. */
  lemma {:induction false} Sound(b: seq<byte>, lax: bool) returns (w: seq<byte>)
    requires Decode(b).Ok? && (lax || Regular(b))
    ensures var d := Decode(b).value;
            b == w + d.rest && Derives(d.item, w, d.count, lax, AtBreak(d.rest))
    decreases |b|, 1
  {
    hide Derives, Regular, Decode, Major;
    DecodeStarts(b);
    var major := Major(b[0]);
    if major == MAJOR_BYTES || major == MAJOR_TEXT {
      w := SoundString(b, lax);
    } else if major == MAJOR_ARRAY || major == MAJOR_MAP {
      w := SoundBlock(b, lax);
    } else if major == MAJOR_TAG {
      w := SoundTag(b, lax);
    } else {
      w := SoundSmall(b, lax);
    }
  }

  lemma DecodeStarts(b: seq<byte>)
    requires Decode(b).Ok?
    ensures b != [] && b[0] != BREAK && 0 <= Major(b[0]) <= MAJOR_7
  {}

  lemma SoundString(b: seq<byte>, lax: bool) returns (w: seq<byte>)
    requires Decode(b).Ok? && (Major(b[0]) == MAJOR_BYTES || Major(b[0]) == MAJOR_TEXT) && (lax || Regular(b))
    ensures var d := Decode(b).value;
            b == w + d.rest && Derives(d.item, w, d.count, lax, AtBreak(d.rest))
  {
    hide IsHeader, Predecode, Major, LowBits, ReadChunks, Chunks, RegularBody;
    var major := Major(b[0]);
    var p := Predecode(b).value;
    var h := PredecodedHeader(b);
    var d := Decode(b).value;
    if p.head.indef {
      var ws := SoundChunks(major, p.rest);
      w := h + ws;
      assert w[1..] == ws;
    } else {
      w := h + p.rest[..p.head.arg];
      WholeOf(major, h, p.rest[..p.head.arg]);
      assert p.rest == p.rest[..p.head.arg] + d.rest;
    }
  }

  lemma WholeOf(major: int, h: seq<byte>, bs: seq<byte>)
    requires MAJOR_BYTES <= major <= MAJOR_TEXT && |bs| < TWO_64 && IsHeader(h, major, |bs|)
    ensures WholeString(major, bs, h + bs)
  {
    hide IsHeader;
    var w := h + bs;
    assert w[|w| - |bs|..] == bs && w[..|w| - |bs|] == h;
  }

  lemma {:induction false} SoundChunks(major: int, b: seq<byte>) returns (w: seq<byte>)
    requires MAJOR_BYTES <= major <= MAJOR_TEXT && ReadChunks(major, b).Ok?
    ensures var s := ReadChunks(major, b).value;
            b == w + s.rest && AtBreak(s.rest) && Chunks(major, s.bytes, s.count, w)
    decreases |b|
  {
    hide IsHeader, Predecode, WholeString, ReadChunks, Chunks;
    ChunkRead(major, b);
    if AtBreak(b) {
      w := [];
      NoChunks(major);
    } else {
      var p := Predecode(b).value;
      var h := PredecodedHeader(b);
      var bs, rest := p.rest[..p.head.arg], p.rest[p.head.arg..];
      WholeOf(major, h, bs);
      var ws := SoundChunks(major, rest);
      w := h + bs + ws;
      Joined(h, bs, ws, ReadChunks(major, rest).value.rest);
      ChunkInFront(major, bs, h + bs, ReadChunks(major, rest).value, ws);
    }
  }

  lemma NoChunks(major: int)
    requires MAJOR_BYTES <= major <= MAJOR_TEXT
    ensures Chunks(major, [], 0, [])
  {}

  lemma Joined(a: seq<byte>, b: seq<byte>, c: seq<byte>, d: seq<byte>)
    ensures a + (b + (c + d)) == a + b + c + d
  {}

  lemma ChunkRead(major: int, b: seq<byte>)
    requires ReadChunks(major, b).Ok?
    ensures var s := ReadChunks(major, b).value;
            if AtBreak(b) then s == StringRead([], 0, b)
            else
              var p := Predecode(b);
              && p.Ok? && p.value.head.Head? && p.value.head.major == major && !p.value.head.indef
              && |p.value.rest| >= p.value.head.arg
              && var more := ReadChunks(major, p.value.rest[p.value.head.arg..]);
                 more.Ok? &&
                 s == StringRead(p.value.rest[..p.value.head.arg] + more.value.bytes, 1 + more.value.count,
                   more.value.rest)
  {
    hide Predecode;
  }

  lemma ChunkInFront(major: int, bs: seq<byte>, first: seq<byte>, more: StringRead, ws: seq<byte>)
    requires MAJOR_BYTES <= major <= MAJOR_TEXT && WholeString(major, bs, first) && first != []
    requires Chunks(major, more.bytes, more.count, ws)
    ensures Chunks(major, bs + more.bytes, 1 + more.count, first + ws)
  {
    hide WholeString;
    var all, w := bs + more.bytes, first + ws;
    assert w[..|first|] == first && w[|first|..] == ws;
    assert all[..|bs|] == bs && all[|bs|..] == more.bytes;
    assert WholeString(major, all[..|bs|], w[..|first|]) && Chunks(major, all[|bs|..], more.count, w[|first|..]);
  }

  lemma {:induction false} SoundTag(b: seq<byte>, lax: bool) returns (w: seq<byte>)
    requires Decode(b).Ok? && Major(b[0]) == MAJOR_TAG && (lax || Regular(b))
    ensures var d := Decode(b).value;
            b == w + d.rest && Derives(d.item, w, d.count, lax, AtBreak(d.rest))
    decreases |b|, 0
  {
    hide IsHeader, Predecode, LowBits, Major, RegularHead;
    var p := Predecode(b).value;
    var h := PredecodedHeader(b);
    var x := Decode(p.rest).value;
    var ws := Sound(p.rest, lax);
    w := h + ws;
    assert w[..|h|] == h && w[|h|..] == ws;
    assert IsHeader(w[..|h|], MAJOR_TAG, p.head.arg) && Derives(x.item, w[|h|..], x.count, lax, AtBreak(x.rest));
  }

  lemma SoundSmall(b: seq<byte>, lax: bool) returns (w: seq<byte>)
    requires Decode(b).Ok? && (Major(b[0]) < MAJOR_BYTES || Major(b[0]) == MAJOR_7) && (lax || Regular(b))
    ensures var d := Decode(b).value;
            b == w + d.rest && Derives(d.item, w, d.count, lax, AtBreak(d.rest))
  {
    hide IsHeader, Predecode, Major, LowBits, RegularBody;
    w := PredecodedHeader(b);
    var p := Predecode(b).value;
    if p.head.major == MAJOR_7 {
      SimpleValueBytes(b, w);
    }
  }

  lemma SimpleValueBytes(b: seq<byte>, w: seq<byte>)
    requires Predecode(b).Ok? && Predecode(b).value.head.Head?
    requires var p := Predecode(b).value; p.head.major == MAJOR_7 && b == w + p.rest && w != []
    ensures var v := Predecode(b).value.head.arg;
            (v <= 23 && w == [0xE0 + v]) || (v <= 255 && w == [0xF8, v] && LowBits(b[0]) == LBITS_1B)
  {
    var p := Predecode(b).value;
    if LowBits(b[0]) <= 23 {
      assert |w| == 1;
    } else {
      assert p.rest == b[1..][1..];
      assert |w| == 2;
      assert b[1..][..1] == [w[1]];
      assert FromBigEndian([w[1]]) == w[1];
    }
  }

  lemma {:induction false} SoundBlock(b: seq<byte>, lax: bool) returns (w: seq<byte>)
    requires Decode(b).Ok? && (Major(b[0]) == MAJOR_ARRAY || Major(b[0]) == MAJOR_MAP) && (lax || Regular(b))
    ensures var d := Decode(b).value;
            b == w + d.rest && Derives(d.item, w, d.count, lax, AtBreak(d.rest))
    decreases |b|, 0
  {
    hide IsHeader, Major, LowBits, DecodeItems, DerivesAll, BlockHeader, RegularItems, RegularBody, Predecode, Regular,
         Decode, FinishBlock, DerivesBlock, BlockLen;
    var d := Decode(b).value;
    var p := OpenedBlock(b);
    var h := PredecodedHeader(b);
    var xs := DecodeItems(p.rest, Limit(p.head)).value;
    var body := SoundAll(p.rest, Limit(p.head), lax);
    FinishedBlock(p.head, xs);
    w := h + body + Close(p.head.indef);
    Joined(h, body, Close(p.head.indef), d.rest);
    if p.head.indef {
      IndefBlockOf(p.head.major, xs.items, body, xs.count, lax, AtBreak(d.rest));
    } else {
      assert Close(false) + d.rest == d.rest && h + body + Close(false) == h + body;
      HalvedLength(p.head, h, lax);
      DefiniteBlockOf(p.head.major, h, xs.items, body, xs.count, lax, AtBreak(d.rest));
    }
  }

  lemma IndefBlockOf(major: int, ts: seq<Item>, body: seq<byte>, m: nat, lax: bool, follow: bool)
    requires MAJOR_ARRAY <= major <= MAJOR_MAP && DerivesAll(ts, body, m, lax, true)
    ensures DerivesBlock(major, true, ts, [32 * major + LBITS_INDEFINITE] + body + [BREAK], lax, follow)
  {
    hide DerivesAll;
    var w := [32 * major + LBITS_INDEFINITE] + body + [BREAK];
    assert w[1..|w| - 1] == body;
    assert DerivesInside(ts, w[1..|w| - 1], lax);
  }

  lemma DefiniteBlockOf(major: int, h: seq<byte>, ts: seq<Item>, body: seq<byte>, m: nat, lax: bool, follow: bool)
    requires MAJOR_ARRAY <= major <= MAJOR_MAP && BlockHeader(major, m, h, lax)
    requires (m == |ts| || (lax && follow)) && DerivesAll(ts, body, m, lax, follow)
    ensures DerivesBlock(major, false, ts, h + body, lax, follow)
  {
    hide DerivesAll, BlockHeader;
    var w := h + body;
    assert w[..|h|] == h && w[|h|..] == body;
    assert BlockHeader(major, m, w[..|h|], lax) && DerivesAll(ts, w[|h|..], m, lax, follow);
  }

  lemma OpenedBlock(b: seq<byte>) returns (p: Predecoded)
    requires Decode(b).Ok? && (Major(b[0]) == MAJOR_ARRAY || Major(b[0]) == MAJOR_MAP)
    ensures Predecode(b) == Ok(p) && p.head.Head? && p.head.major == Major(b[0])
    ensures var xs := DecodeItems(p.rest, Limit(p.head));
            xs.Ok? && FinishBlock(p.head, xs.value) == Decode(b)
    ensures Regular(b) ==> RegularHead(b, p.head) && RegularItems(p.rest, Limit(p.head))
  {
    hide Predecode, Major, LowBits, DecodeItems, FinishBlock, RegularHead, RegularItems, Regular;
    p := Predecode(b).value;
    if Regular(b) {
      RegularParts(b);
    }
  }

  lemma RegularParts(b: seq<byte>)
    requires Predecode(b).Ok? && Predecode(b).value.head.Head? && Regular(b)
    ensures var p := Predecode(b).value;
            RegularHead(b, p.head) &&
            (p.head.major == MAJOR_ARRAY || p.head.major == MAJOR_MAP ==> RegularItems(p.rest, Limit(p.head)))
  {
    hide Predecode, RegularHead, RegularItems;
  }

  lemma FinishedBlock(h: Head, xs: DecodedItems)
    requires h.Head? && (h.major == MAJOR_ARRAY || h.major == MAJOR_MAP) && FinishBlock(h, xs).Ok?
    ensures var d := FinishBlock(h, xs).value;
            d.item == (if h.major == MAJOR_MAP then Map(h.indef, xs.items) else Array(h.indef, xs.items)) &&
            d.count == 1 && xs.rest == Close(h.indef) + d.rest &&
            (!h.indef ==> xs.count == BlockLen(h)) && (h.major == MAJOR_MAP ==> |xs.items| % 2 == 0)
  {
    var d := FinishBlock(h, xs).value;
    if h.indef {
      assert xs.rest == [BREAK] + xs.rest[1..];
    }
  }

  lemma HalvedLength(head: Head, h: seq<byte>, lax: bool)
    requires head.Head? && (head.major == MAJOR_ARRAY || head.major == MAJOR_MAP) && IsHeader(h, head.major, head.arg)
    requires lax || head.major == MAJOR_ARRAY || head.arg < TWO_63
    ensures BlockHeader(head.major, BlockLen(head), h, lax)
  {
    hide IsHeader;
  }

  /** The items of a block. Under a limit, the loop has either reached it or stopped at a break. */
  lemma {:induction false} SoundAll(b: seq<byte>, limit: Option<nat>, lax: bool) returns (w: seq<byte>)
    requires DecodeItems(b, limit).Ok? && (lax || RegularItems(b, limit))
    ensures var d := DecodeItems(b, limit).value;
            && b == w + d.rest && DerivesAll(d.items, w, d.count, lax, AtBreak(d.rest))
            && (limit.Some? ==> |d.items| == limit.value || (|d.items| < limit.value && AtBreak(d.rest)))
            && (limit.Some? && !lax ==> d.count == |d.items|)
    decreases |b|, 2
  {
    hide Decode, Derives, Regular, DecodeItems, DerivesAll, RegularItems;
    ItemsRead(b, limit);
    if limit == Some(0) || AtBreak(b) {
      w := [];
      NoItems(lax, AtBreak(b));
    } else {
      var x := Decode(b).value;
      var xs := DecodeItems(x.rest, OneLess(limit)).value;
      var w0 := Sound(b, lax);
      var ws := SoundAll(x.rest, OneLess(limit), lax);
      w := w0 + ws;
      assert w0 + (ws + xs.rest) == w + xs.rest;
      if !lax && limit.Some? {
        PlainCount(b, w0, x);
      }
      ItemInFront(x, w0, xs, ws, lax);
    }
  }

  lemma NoItems(lax: bool, follow: bool)
    ensures DerivesAll([], [], 0, lax, follow)
  {}

  lemma ItemsRead(b: seq<byte>, limit: Option<nat>)
    requires DecodeItems(b, limit).Ok?
    ensures var d := DecodeItems(b, limit).value;
            if limit == Some(0) || AtBreak(b) then d == DecodedItems([], 0, b)
            else
              var x, more := Decode(b), DecodeItems(Decode(b).value.rest, OneLess(limit));
              && b != [] && x.Ok? && x.value.count >= 1 && |x.value.rest| < |b| && more.Ok?
              && d == DecodedItems([x.value.item] + more.value.items, x.value.count + more.value.count, more.value.rest)
              && (AtBreak(x.value.rest) <==> AtBreak(d.rest) && more.value.items == [])
              && (RegularItems(b, limit) ==> Regular(b) && (limit.Some? ==> Major(b[0]) != MAJOR_TAG) &&
                                             RegularItems(x.value.rest, OneLess(limit)))
  {
    hide Regular;
    if limit != Some(0) && !AtBreak(b) {
      DecodeStarts(b);
      FollowOfFirst(Decode(b).value.rest, OneLess(limit));
    }
  }

  lemma ItemInFront(x: Decoded, w0: seq<byte>, xs: DecodedItems, ws: seq<byte>, lax: bool)
    requires Derives(x.item, w0, x.count, lax, AtBreak(xs.rest) && xs.items == []) && x.count > 0
    requires DerivesAll(xs.items, ws, xs.count, lax, AtBreak(xs.rest))
    ensures DerivesAll([x.item] + xs.items, w0 + ws, x.count + xs.count, lax, AtBreak(xs.rest))
  {
    hide Derives;
    DerivedStart(x.item, w0, x.count, lax, AtBreak(xs.rest) && xs.items == []);
    var ts, w := [x.item] + xs.items, w0 + ws;
    assert w[..|w0|] == w0 && w[|w0|..] == ws && ts[1..] == xs.items;
    assert DerivesFirst(ts, w, |w0|, x.count, x.count + xs.count, lax, AtBreak(xs.rest));
  }

  /** A break follows an item only if the item is the last one. */
  lemma FollowOfFirst(b: seq<byte>, limit: Option<nat>)
    requires DecodeItems(b, limit).Ok?
    ensures var d := DecodeItems(b, limit).value;
            AtBreak(b) <==> AtBreak(d.rest) && d.items == []
  {
    hide Decode;
  }

  lemma PlainCount(b: seq<byte>, w: seq<byte>, x: Decoded)
    requires b != [] && Major(b[0]) != MAJOR_TAG && b == w + x.rest &&
      Derives(x.item, w, x.count, false, AtBreak(x.rest))
    ensures x.count == 1
  {
    hide Derives, Major;
    DerivedStart(x.item, w, x.count, false, AtBreak(x.rest));
    assert b[0] == w[0];
    UnchunkedCount(x.item, w, x.count, AtBreak(x.rest));
  }

  lemma UnchunkedCount(t: Item, w: seq<byte>, n: nat, follow: bool)
    requires Derives(t, w, n, false, follow) && !t.Tag?
    ensures n == 1
  {}

  /** The main result, in both directions and for every input: the decoder succeeds with `t`, counts it as `n` items and
      leaves `rest` exactly when the bytes before `rest` are a derivation of `t`. */
  lemma DecodesTheGrammar(b: seq<byte>, t: Item, n: nat, rest: seq<byte>)
    ensures Decode(b) == Ok(Decoded(t, n, rest))
       <==> |rest| <= |b| && b[|b| - |rest|..] == rest && Derives(t, b[..|b| - |rest|], n, true, AtBreak(rest))
  {
    hide Decode, Derives;
    if Decode(b) == Ok(Decoded(t, n, rest)) {
      var w := Sound(b, true);
      assert w == b[..|b| - |rest|];
    }
    if |rest| <= |b| && b[|b| - |rest|..] == rest && Derives(t, b[..|b| - |rest|], n, true, AtBreak(rest)) {
      Complete(t, b[..|b| - |rest|], n, true, AtBreak(rest), rest);
      assert b == b[..|b| - |rest|] + rest;
    }
  }
}
