/** Readings of the grammar: which accepted inputs are strict RFC 7049, what the encoder writes, and what items count
    for. */
module CborReadings {
  import opened Prelude
  import opened Wire
  import opened Cbor
  import opened CborRoundTrip
  import opened CborGrammar

  // ---------- the two readings ----------

  lemma {:induction false} StrictIsRegular(t: Item, w: seq<byte>, n: nat, follow: bool, rest: seq<byte>)
    requires Derives(t, w, n, false, follow) && (follow ==> AtBreak(rest))
    ensures Regular(w + rest)
    decreases t, 1
  {
    hide DerivesBlock, RegularBody, IsHeader, Predecode;
    match t
    case UInt(u) => PredecodeHeader(w, MAJOR_UINT, u, rest); LeafIsRegular(w + rest);
    case Int(i) => PredecodeHeader(w, MAJOR_NEGINT, NegArg(i), rest); LeafIsRegular(w + rest);
    case Bytes(_, bs) => PredecodeWhole(MAJOR_BYTES, bs, w, rest); LeafIsRegular(w + rest);
    case Text(_, bs) => PredecodeWhole(MAJOR_TEXT, bs, w, rest); LeafIsRegular(w + rest);
    case Array(_, _) => StrictBlockIsRegular(t, w, follow, rest);
    case Map(_, _) => StrictBlockIsRegular(t, w, follow, rest);
    case Tag(tag, _, x) =>
      var k :| 0 < k <= |w| && IsHeader(w[..k], MAJOR_TAG, tag) && Derives(x, w[k..], n - 1, false, follow);
      assert w + rest == w[..k] + (w[k..] + rest);
      PredecodeHeader(w[..k], MAJOR_TAG, tag, w[k..] + rest);
      StrictIsRegular(x, w[k..], n - 1, follow, rest);
      TagIsRegular(w + rest);
    case Sval(v) => SvalIsRegular(v, w, rest);
  }

  lemma LeafIsRegular(b: seq<byte>)
    requires Predecode(b).Ok? && Predecode(b).value.head.Head?
    requires var h := Predecode(b).value.head; h.major <= MAJOR_TEXT && !h.indef
    ensures Regular(b)
  {
    hide Predecode, RegularItems;
  }

  lemma TagIsRegular(b: seq<byte>)
    requires Predecode(b).Ok? && Predecode(b).value.head.Head? && Predecode(b).value.head.major == MAJOR_TAG
    requires Regular(Predecode(b).value.rest)
    ensures Regular(b)
  {
    hide Predecode;
  }

  lemma SvalIsRegular(v: nat, w: seq<byte>, rest: seq<byte>)
    requires (v <= 23 && w == [0xE0 + v]) || (32 <= v <= 255 && w == [0xF8, v])
    ensures Regular(w + rest)
  {
    hide RegularItems;
    if v > 23 {
      assert (w + rest)[1..] == [v] + rest && ([v] + rest)[..1] == [v];
      assert FromBigEndian([v]) == v;
    }
  }

  lemma {:induction false} StrictBlockIsRegular(t: Item, w: seq<byte>, follow: bool, rest: seq<byte>)
    requires (t.Array? || t.Map?) && Derives(t, w, 1, false, follow) && (follow ==> AtBreak(rest))
    ensures Regular(w + rest)
    decreases t, 0
  {
    hide DerivesAll, IsHeader, BlockHeader, Predecode, RegularItems, BlockLen;
    var major := MajorOf(t);
    if t.indef {
      var body, tail := w[1..|w| - 1], [BREAK] + rest;
      assert DerivesInside(t.items, body, false);
      var m :| DerivesAll(t.items, body, m, false, true);
      assert (w + rest)[1..] == body + tail;
      PredecodeIndef(w + rest, major);
      StrictItemsAreRegular(t.items, body, m, true, tail, None);
    } else {
      var k, m :| 0 <= k <= |w| && BlockHeader(major, m, w[..k], false) && m == |t.items| &&
                  DerivesAll(t.items, w[k..], m, false, follow);
      assert w + rest == w[..k] + (w[k..] + rest);
      var head := DecodeDerivedHeader(major, m, w[..k], false, w[k..] + rest);
      StrictItemsAreRegular(t.items, w[k..], m, follow, rest, Some(m));
    }
  }

  lemma {:induction false} StrictItemsAreRegular(ts: seq<Item>, w: seq<byte>, m: nat, follow: bool, rest: seq<byte>,
                                                 limit: Option<nat>)
    requires DerivesAll(ts, w, m, false, follow) && (follow ==> AtBreak(rest))
    requires if limit.None? then AtBreak(rest) else limit.value == |ts| == m
    ensures RegularItems(w + rest, limit)
    decreases ts, 1
  {
    hide Decode, Derives, Regular;
    if ts == [] {
      assert w + rest == rest;
    } else {
      var k, n :| 0 < k <= |w| && 0 < n <= m && DerivesFirst(ts, w, k, n, m, false, follow);
      assert w + rest == w[..k] + (w[k..] + rest);
      CountsCover(ts[1..], w[k..], m - n, false, follow);
      if |ts| == 1 {
        DerivesNone(ts[1..], w[k..], m - n, false, follow);
        assert w[k..] + rest == rest;
      }
      StrictIsRegular(ts[0], w[..k], n, follow && |ts| == 1, w[k..] + rest);
      Complete(ts[0], w[..k], n, false, follow && |ts| == 1, w[k..] + rest);
      DerivedStart(ts[0], w[..k], n, false, follow && |ts| == 1);
      if limit.Some? {
        TagsCount(ts[0], w[..k], n, follow && |ts| == 1);
      }
      StrictItemsAreRegular(ts[1..], w[k..], m - n, follow, rest, OneLess(limit));
    }
  }

  lemma TagsCount(t: Item, w: seq<byte>, n: nat, follow: bool)
    requires Derives(t, w, n, false, follow) && n == 1
    ensures !t.Tag?
  {}

  /** When an accepted input is strict: exactly when it is regular. */
  lemma AcceptedIsStrict(b: seq<byte>)
    requires Decode(b).Ok?
    ensures var d := Decode(b).value;
            Derives(d.item, b[..|b| - |d.rest|], d.count, false, AtBreak(d.rest)) <==> Regular(b)
  {
    hide Decode, Derives, Regular;
    var d := Decode(b).value;
    var w := Sound(b, true);
    assert w == b[..|b| - |d.rest|];
    if Regular(b) {
      var v := Sound(b, false);
      assert v == w;
    }
    if Derives(d.item, w, d.count, false, AtBreak(d.rest)) {
      StrictIsRegular(d.item, w, d.count, AtBreak(d.rest), d.rest);
    }
  }

  /** The lax inputs exist. A map that announces 2^63 pairs is read as empty; a small simple value is accepted in its
      long form; and an array of two items ends after one if that one is tagged and a break follows, which stays in the
      input. */
  lemma LaxInputsAreAccepted(rest: seq<byte>)
    ensures var huge := Header(MAJOR_MAP, TWO_63);
            Decode(huge + rest) == Ok(Decoded(Map(false, []), 1, rest)) && !Regular(huge + rest)
    ensures Decode([0xF8, 5] + rest) == Ok(Decoded(Sval(5), 1, rest)) && !Regular([0xF8, 5] + rest)
    ensures var end := [BREAK] + rest;
            Decode([0x82, 0xC1, 1] + end) == Ok(Decoded(Array(false, [Tag(1, 0, UInt(1))]), 1, end)) &&
            !Regular([0x82, 0xC1, 1] + end)
  {
    hide Header, ReadArg, Decode, DecodeItems, Regular;
    HugeMapIsLax(rest);
    Complete(Sval(5), [0xF8, 5], 1, true, false, rest);
    ShortFormIsIrregular(rest);
    EarlyBreakIsLax(rest);
  }

  lemma HugeMapIsLax(rest: seq<byte>)
    ensures var huge := Header(MAJOR_MAP, TWO_63);
            Decode(huge + rest) == Ok(Decoded(Map(false, []), 1, rest)) && !Regular(huge + rest)
  {
    hide Header, Decode, DecodeItems, IsHeader, Predecode;
    var huge := Header(MAJOR_MAP, TWO_63);
    HeaderRoundTrip(MAJOR_MAP, TWO_63);
    NoItems(true, false);
    assert huge + [] == huge;
    DefiniteBlockOf(MAJOR_MAP, huge, [], [], 0, true, false);
    Complete(Map(false, []), huge, 1, true, false, rest);
    PredecodeWritten(MAJOR_MAP, TWO_63, rest);
  }

  lemma ShortFormIsIrregular(rest: seq<byte>)
    ensures !Regular([0xF8, 5] + rest)
  {
    var b := [0xF8, 5] + rest;
    assert b[1..] == [5] + rest && ([5] + rest)[..1] == [5];
    assert FromBigEndian([5]) == 5;
  }

  lemma EarlyBreakIsLax(rest: seq<byte>)
    ensures var end := [BREAK] + rest;
            Decode([0x82, 0xC1, 1] + end) == Ok(Decoded(Array(false, [Tag(1, 0, UInt(1))]), 1, end)) &&
            !Regular([0x82, 0xC1, 1] + end)
  {
    hide *;
    var end, one, two := [BREAK] + rest, [0xC1, 1], [0x82];
    SmallHeaders();
    ArrayOfOneTagged(one, two);
    assert two + one == [0x82, 0xC1, 1] && two + one + end == two + (one + end);
    BreakAhead(rest);
    Complete(Array(false, [Tag(1, 0, UInt(1))]), two + one, 1, true, true, end);
    TaggedItemIsIrregular(one + end);
    PredecodeTwo(two, one + end);
    IrregularBlock(two + (one + end));
  }

  lemma BreakAhead(rest: seq<byte>)
    ensures AtBreak([BREAK] + rest)
  {}

  lemma SmallHeaders()
    ensures IsHeader([0x82], MAJOR_ARRAY, 2) && IsHeader([0xC1], MAJOR_TAG, 1) && IsHeader([1], MAJOR_UINT, 1)
  {}

  lemma PredecodeTwo(two: seq<byte>, b: seq<byte>)
    requires two == [0x82] && IsHeader(two, MAJOR_ARRAY, 2)
    ensures var h := Head(MAJOR_ARRAY, false, 2);
            Predecode(two + b) == Ok(Predecoded(h, b)) && Limit(h) == Some(2)
  {
    hide IsHeader, Predecode;
    PredecodeHeader(two, MAJOR_ARRAY, 2, b);
  }

  lemma ArrayOfOneTagged(one: seq<byte>, two: seq<byte>)
    requires one == [0xC1, 1] && two == [0x82]
    requires IsHeader(two, MAJOR_ARRAY, 2) && IsHeader([0xC1], MAJOR_TAG, 1) && IsHeader([1], MAJOR_UINT, 1)
    ensures Derives(Array(false, [Tag(1, 0, UInt(1))]), two + one, 1, true, true)
  {
    hide Decode, DecodeItems, DerivesAll, DerivesBlock, IsHeader, Derives;
    var tag, end := Tag(1, 0, UInt(1)), [BREAK];
    TaggedNumber(one);
    NoItems(true, true);
    ItemInFront(Decoded(tag, 2, end), one, DecodedItems([], 0, end), [], true);
    assert [tag] + [] == [tag] && one + [] == one;
    DefiniteBlockOf(MAJOR_ARRAY, two, [tag], one, 2, true, true);
    BlockDerives(Array(false, [tag]), two + one, true, true);
  }

  lemma TaggedNumber(w: seq<byte>)
    requires w == [0xC1, 1] && IsHeader([0xC1], MAJOR_TAG, 1) && IsHeader([1], MAJOR_UINT, 1)
    ensures Derives(Tag(1, 0, UInt(1)), w, 2, true, true)
  {
    hide IsHeader;
    assert w[..1] == [0xC1] && w[1..] == [1];
    assert IsHeader(w[..1], MAJOR_TAG, 1) && Derives(UInt(1), w[1..], 1, true, true);
  }

  lemma BlockDerives(t: Item, w: seq<byte>, lax: bool, follow: bool)
    requires (t.Array? || t.Map?) && (t.Map? ==> |t.items| % 2 == 0) &&
      DerivesBlock(MajorOf(t), t.indef, t.items, w, lax, follow)
    ensures Derives(t, w, 1, lax, follow)
  {}

  lemma TaggedItemIsIrregular(b: seq<byte>)
    requires |b| >= 1 && b[0] == 0xC1
    ensures !RegularItems(b, Some(2))
  {
    hide Regular;
  }

  lemma IrregularBlock(b: seq<byte>)
    requires Predecode(b).Ok? && Predecode(b).value.head.Head?
    requires var p := Predecode(b).value;
             (p.head.major == MAJOR_ARRAY || p.head.major == MAJOR_MAP) && !RegularItems(p.rest, Limit(p.head))
    ensures !Regular(b)
  {
    hide Predecode, RegularItems;
  }

  // ---------- what the encoder writes ----------

  /** Simple values 24 to 31 are reserved (RFC 7049, section 2.3); the encoder writes them like larger ones. */
  predicate ReservedFree(t: Item) {
    match t
    case Array(_, ts) => AllReservedFree(ts)
    case Map(_, ts) => AllReservedFree(ts)
    case Tag(_, _, x) => ReservedFree(x)
    case Sval(v) => v <= 23 || v >= 32
    case _ => true
  }

  predicate AllReservedFree(ts: seq<Item>) {
    ts == [] || (ReservedFree(ts[0]) && AllReservedFree(ts[1..]))
  }

  /** The encoder writes a derivation of the item as it is received exactly when no block of definite length directly
      holds a tag, and a strict one exactly when no simple value is reserved either. */
  lemma EncodedIsDerived(t: Item)
    requires Representable(t) && Encodable(t)
    ensures Encode(t).Ok?
    ensures Derives(Received(t), Encode(t).value, Count(t), true, false) <==> TagSafe(t)
    ensures Derives(Received(t), Encode(t).value, Count(t), false, false) <==> TagSafe(t) && ReservedFree(t)
  {
    hide Decode, Derives, Encode, Regular, Encodable;
    EncodesIff(t);
    var w := Encode(t).value;
    assert w + [] == w;
    RoundTripOf(t, w, []);
    DecodesTheGrammar(w, Received(t), Count(t), []);
    assert w[..|w| - 0] == w && w[|w| - 0..] == [];
    if TagSafe(t) && ReservedFree(t) {
      EncodedIsStrict(t, w);
    }
    if Derives(Received(t), w, Count(t), false, false) {
      NoReservedValue(t, w, Count(t), false);
      Complete(Received(t), w, Count(t), false, false, []);
    }
  }

  /** A reserved simple value has no strict encoding at all, alone or in a larger item. */
  lemma {:induction false} NoReservedValue(t: Item, w: seq<byte>, n: nat, follow: bool)
    requires Derives(Received(t), w, n, false, follow)
    ensures ReservedFree(t)
    decreases t, 1
  {
    hide IsHeader, DerivesString, DerivesAll, BlockHeader;
    match t
    case Array(indef, ts) => NoReservedInBlock(MAJOR_ARRAY, indef, ts, w, follow);
    case Map(indef, ts) => NoReservedInBlock(MAJOR_MAP, indef, ts, w, follow);
    case Tag(_, num, x) =>
      var k :| 0 < k <= |w| && IsHeader(w[..k], MAJOR_TAG, num % 0x1_0000_0000) &&
               Derives(Received(x), w[k..], n - 1, false, follow);
      NoReservedValue(x, w[k..], n - 1, follow);
    case _ =>
  }

  lemma {:induction false} NoReservedInBlock(major: int, indef: bool, ts: seq<Item>, w: seq<byte>, follow: bool)
    requires MAJOR_ARRAY <= major <= MAJOR_MAP && DerivesBlock(major, indef, AllReceived(ts), w, false, follow)
    ensures AllReservedFree(ts)
    decreases ts, 3
  {
    hide DerivesAll, BlockHeader;
    if indef {
      assert DerivesInside(AllReceived(ts), w[1..|w| - 1], false);
      var m :| DerivesAll(AllReceived(ts), w[1..|w| - 1], m, false, true);
      NoReservedValues(ts, w[1..|w| - 1], m, true);
    } else {
      var k, m :| 0 <= k <= |w| && BlockHeader(major, m, w[..k], false) &&
        DerivesAll(AllReceived(ts), w[k..], m, false, follow);
      NoReservedValues(ts, w[k..], m, follow);
    }
  }

  lemma {:induction false} NoReservedValues(ts: seq<Item>, w: seq<byte>, m: nat, follow: bool)
    requires DerivesAll(AllReceived(ts), w, m, false, follow)
    ensures AllReservedFree(ts)
    decreases ts, 2
  {
    hide Derives, Received, ReservedFree;
    if ts != [] {
      var rs := AllReceived(ts);
      assert rs[0] == Received(ts[0]) && rs[1..] == AllReceived(ts[1..]);
      var k, n :| 0 < k <= |w| && 0 < n <= m && DerivesFirst(rs, w, k, n, m, false, follow);
      NoReservedValue(ts[0], w[..k], n, follow && |rs| == 1);
      NoReservedValues(ts[1..], w[k..], m - n, follow);
    }
  }

  lemma {:induction false} EncodedIsStrict(t: Item, w: seq<byte>)
    requires Representable(t) && TagSafe(t) && ReservedFree(t) && Encode(t) == Ok(w)
    ensures Derives(Received(t), w, Count(t), false, false)
    decreases t, 1
  {
    hide IsHeader, Header, DerivesBlock, WholeString;
    match t
    case UInt(u) => HeaderRoundTrip(MAJOR_UINT, Narrow(u));
    case Int(i) =>
      if i >= 0 { HeaderRoundTrip(MAJOR_UINT, i); } else { HeaderRoundTrip(MAJOR_NEGINT, NegArg(i)); }
    case Bytes(_, bs) => WrittenStringIsDerived(MAJOR_BYTES, bs);
    case Text(_, bs) => WrittenStringIsDerived(MAJOR_TEXT, CStr(bs));
    case Array(_, _) => EncodedBlockIsStrict(t, w);
    case Map(_, _) => EncodedBlockIsStrict(t, w);
    case Tag(_, num, x) =>
      var h := Header(MAJOR_TAG, num % 0x1_0000_0000);
      HeaderRoundTrip(MAJOR_TAG, num % 0x1_0000_0000);
      EncodedIsStrict(x, Encode(x).value);
      assert w[..|h|] == h && w[|h|..] == Encode(x).value;
      assert IsHeader(w[..|h|], MAJOR_TAG, num % 0x1_0000_0000) &&
             Derives(Received(x), w[|h|..], Count(x), false, false);
    case Sval(v) =>
  }

  lemma WrittenStringIsDerived(major: int, bs: seq<byte>)
    requires MAJOR_BYTES <= major <= MAJOR_TEXT && |bs| < TWO_64
    ensures WholeString(major, bs, Header(major, |bs|) + bs)
  {
    hide IsHeader, Header;
    HeaderRoundTrip(major, |bs|);
    WholeOf(major, Header(major, |bs|), bs);
  }

  lemma {:induction false} EncodedBlockIsStrict(t: Item, w: seq<byte>)
    requires (t.Array? || t.Map?) && Representable(t) && TagSafe(t) && ReservedFree(t) && Encode(t) == Ok(w)
    ensures Derives(Received(t), w, 1, false, false)
    decreases t, 0
  {
    hide IsHeader, Header, DerivesAll, EncodeAll, Encode, DerivesBlock;
    var major := MajorOf(t);
    var n := if t.Map? then |t.items| / 2 else |t.items|;
    var h := Open(major, t.indef, n);
    var body := EncodedBlock(t, w, []);
    assert w + [] == w && Close(t.indef) + [] == Close(t.indef);
    assert w == h + body + Close(t.indef);
    AllEncodedAreStrict(t.items, body, t.indef);
    if t.indef {
      IndefBlockOf(major, AllReceived(t.items), body, CountAll(t.items), false, false);
    } else {
      assert h + body + Close(false) == h + body;
      HeaderRoundTrip(major, n);
      DefiniteBlockOf(major, h, AllReceived(t.items), body, |t.items|, false, false);
    }
    BlockDerives(Received(t), w, false, false);
  }

  lemma {:induction false} AllEncodedAreStrict(ts: seq<Item>, w: seq<byte>, follow: bool)
    requires AllRepresentable(ts) && AllTagSafe(ts) && AllReservedFree(ts) && EncodeAll(ts) == Ok(w)
    ensures DerivesAll(AllReceived(ts), w, CountAll(ts), false, follow)
    decreases ts, 0
  {
    hide Derives, Encode, DerivesAll;
    if ts == [] {
      NoItems(false, follow);
    } else {
      var w0 := Encode(ts[0]).value;
      var ws := EncodeAll(ts[1..]).value;
      EncodedIsStrict(ts[0], w0);
      AllEncodedAreStrict(ts[1..], ws, follow);
      StrictAnywhere(Received(ts[0]), w0, Count(ts[0]), follow && |ts| == 1);
      var rest: seq<byte> := if follow then [BREAK] else [];
      ItemInFront(Decoded(Received(ts[0]), Count(ts[0]), rest), w0,
                  DecodedItems(AllReceived(ts[1..]), CountAll(ts[1..]), rest), ws, false);
    }
  }

  /** A strict derivation does not depend on what follows. */
  lemma {:induction false} StrictAnywhere(t: Item, w: seq<byte>, n: nat, follow: bool)
    requires Derives(t, w, n, false, false)
    ensures Derives(t, w, n, false, follow)
    decreases t, 1
  {
    hide IsHeader, DerivesString, DerivesAll, BlockHeader;
    match t
    case Array(indef, ts) => StrictBlockAnywhere(MAJOR_ARRAY, indef, ts, w, follow);
    case Map(indef, ts) => StrictBlockAnywhere(MAJOR_MAP, indef, ts, w, follow);
    case Tag(tag, _, x) =>
      var k :| 0 < k <= |w| && IsHeader(w[..k], MAJOR_TAG, tag) && Derives(x, w[k..], n - 1, false, false);
      StrictAnywhere(x, w[k..], n - 1, follow);
    case _ =>
  }

  lemma {:induction false} StrictBlockAnywhere(major: int, indef: bool, ts: seq<Item>, w: seq<byte>, follow: bool)
    requires MAJOR_ARRAY <= major <= MAJOR_MAP && DerivesBlock(major, indef, ts, w, false, false)
    ensures DerivesBlock(major, indef, ts, w, false, follow)
    decreases ts, 3
  {
    hide DerivesAll, BlockHeader;
    if !indef {
      var k, m :| 0 <= k <= |w| && BlockHeader(major, m, w[..k], false) && m == |ts| &&
        DerivesAll(ts, w[k..], m, false, false);
      StrictItemsAnywhere(ts, w[k..], m, follow);
    }
  }

  lemma {:induction false} StrictItemsAnywhere(ts: seq<Item>, w: seq<byte>, m: nat, follow: bool)
    requires DerivesAll(ts, w, m, false, false)
    ensures DerivesAll(ts, w, m, false, follow)
    decreases ts, 2
  {
    hide Derives;
    if ts != [] {
      var k, n :| 0 < k <= |w| && 0 < n <= m && DerivesFirst(ts, w, k, n, m, false, false);
      StrictAnywhere(ts[0], w[..k], n, follow && |ts| == 1);
      StrictItemsAnywhere(ts[1..], w[k..], m - n, follow);
      assert DerivesFirst(ts, w, k, n, m, false, follow);
    }
  }

  // ---------- counts ----------

  /** No string in the item was sent in chunks. */
  predicate Unchunked(t: Item) {
    match t
    case Bytes(indef, _) => !indef
    case Text(indef, _) => !indef
    case Array(_, ts) => AllUnchunked(ts)
    case Map(_, ts) => AllUnchunked(ts)
    case Tag(_, _, x) => Unchunked(x)
    case _ => true
  }

  predicate AllUnchunked(ts: seq<Item>) {
    ts == [] || (Unchunked(ts[0]) && AllUnchunked(ts[1..]))
  }

  /** Maps hold whole pairs. */
  predicate Paired(t: Item) {
    match t
    case Array(_, ts) => AllPaired(ts)
    case Map(_, ts) => |ts| % 2 == 0 && AllPaired(ts)
    case Tag(_, _, x) => Paired(x)
    case _ => true
  }

  predicate AllPaired(ts: seq<Item>) {
    ts == [] || (Paired(ts[0]) && AllPaired(ts[1..]))
  }

  lemma {:induction false} DerivedCount(t: Item, w: seq<byte>, n: nat, lax: bool, follow: bool)
    requires Derives(t, w, n, lax, follow)
    ensures Paired(t) && (Unchunked(t) ==> n == Count(t))
    decreases t, 1
  {
    hide IsHeader, DerivesAll, BlockHeader, Chunks, WholeString;
    match t
    case Array(indef, ts) => DerivedBlockCount(MAJOR_ARRAY, indef, ts, w, lax, follow);
    case Map(indef, ts) => DerivedBlockCount(MAJOR_MAP, indef, ts, w, lax, follow);
    case Tag(tag, _, x) =>
      var k :| 0 < k <= |w| && IsHeader(w[..k], MAJOR_TAG, tag) && Derives(x, w[k..], n - 1, lax, follow);
      DerivedCount(x, w[k..], n - 1, lax, follow);
    case _ =>
  }

  lemma {:induction false} DerivedBlockCount(major: int, indef: bool, ts: seq<Item>, w: seq<byte>, lax: bool,
    follow: bool)
    requires MAJOR_ARRAY <= major <= MAJOR_MAP && DerivesBlock(major, indef, ts, w, lax, follow)
    ensures AllPaired(ts)
    decreases ts, 3
  {
    hide DerivesAll, BlockHeader;
    if indef {
      assert DerivesInside(ts, w[1..|w| - 1], lax);
      var m :| DerivesAll(ts, w[1..|w| - 1], m, lax, true);
      DerivedCounts(ts, w[1..|w| - 1], m, lax, true);
    } else {
      var k, m :| 0 <= k <= |w| && BlockHeader(major, m, w[..k], lax) && (m == |ts| || (lax && follow)) &&
                  DerivesAll(ts, w[k..], m, lax, follow);
      DerivedCounts(ts, w[k..], m, lax, follow);
    }
  }

  lemma {:induction false} DerivedCounts(ts: seq<Item>, w: seq<byte>, m: nat, lax: bool, follow: bool)
    requires DerivesAll(ts, w, m, lax, follow)
    ensures AllPaired(ts) && (AllUnchunked(ts) ==> m == CountAll(ts))
    decreases ts, 2
  {
    hide Derives, Unchunked, Paired;
    if ts != [] {
      var k, n :| 0 < k <= |w| && 0 < n <= m && DerivesFirst(ts, w, k, n, m, lax, follow);
      DerivedCount(ts[0], w[..k], n, lax, follow && |ts| == 1);
      DerivedCounts(ts[1..], w[k..], m - n, lax, follow);
    }
  }

  /** Decoded maps hold whole pairs, and an item without chunked strings counts for itself and its tags. */
  lemma DecodedCount(b: seq<byte>)
    requires Decode(b).Ok?
    ensures var d := Decode(b).value;
            Paired(d.item) && (Unchunked(d.item) ==> d.count == Count(d.item) == 1 + TagDepth(d.item))
  {
    hide Decode, Derives, Paired, Unchunked;
    var d := Decode(b).value;
    var w := Sound(b, true);
    DerivedCount(d.item, w, d.count, true, AtBreak(d.rest));
    CountIsTags(d.item);
  }

  /** When a block of definite length is accepted, for every input: its items have to be readable, whole pairs in a map,
      and their count the announced one; and that count is the number of items and of the tags directly in front of
      them, if none of the items is a string in chunks. */
  lemma DefiniteBlockAccepted(b: seq<byte>)
    requires Predecode(b).Ok? && Predecode(b).value.head.Head?
    requires var h := Predecode(b).value.head; (h.major == MAJOR_ARRAY || h.major == MAJOR_MAP) && !h.indef
    ensures var p := Predecode(b).value;
            var len, xs := BlockLen(p.head), DecodeItems(p.rest, Some(BlockLen(p.head)));
            && (Decode(b).Ok? <==>
                xs.Ok? && (p.head.major == MAJOR_MAP ==> |xs.value.items| % 2 == 0) && xs.value.count == len)
            && (xs.Ok? && AllUnchunked(xs.value.items) ==>
                  xs.value.count == |xs.value.items| + NumTags(xs.value.items))
  {
    hide Predecode, DecodeItems, Major, LowBits;
    var p := Predecode(b).value;
    var xs := DecodeItems(p.rest, Some(BlockLen(p.head)));
    if xs.Ok? {
      var w := SoundAll(p.rest, Some(BlockLen(p.head)), true);
      DerivedCounts(xs.value.items, w, xs.value.count, true, AtBreak(xs.value.rest));
      CountAllIsTags(xs.value.items);
    }
  }
}
