/** The indentation of the diagnostic output that goes with decoding (`src/diag.c`, `diag_finish_item_do`): two line
    buffers with a level each, and the calls that the decoder makes for the bytes it reads, up to its result or
    error. */
module Diagnostics {
  import opened Prelude
  import opened Wire
  import opened Cbor
  import opened CborRoundTrip
  import opened CborGrammar
  import opened CborReadings
  import opened CborStreams

  // ---------- the level ----------

  /** A map indents its values: while it is the innermost block, after a key; while something is open inside it, when
      what is open is a value. */
  function Extra(b: Block, innermost: bool): nat {
    if b.typ == MAJOR_MAP && (b.count % 2 == 1) == innermost then 1 else 0
  }

  function ExtraBelow(blocks: seq<Block>): nat {
    if blocks == [] then 0
    else ExtraBelow(blocks[..|blocks| - 1]) + Extra(Top(blocks), false)
  }

  /** The level that the open blocks call for. */
  function LevelOf(blocks: seq<Block>): nat
    requires blocks != []
  {
    |blocks| - 1 + ExtraBelow(blocks[..|blocks| - 1]) + Extra(Top(blocks), true)
  }

  /** Opening a block is one level more, whatever the parity of the enclosing one. */
  lemma LevelPushed(blocks: seq<Block>, typ: int, indef: bool, len: u64)
    requires blocks != []
    ensures LevelOf(Pushed(Counted(blocks, 1), typ, indef, len)) == LevelOf(blocks) + 1
  {
    var inner := Counted(blocks, 1);
    var after := Pushed(inner, typ, indef, len);
    assert after[..|after| - 1] == inner;
    assert Top(after).count == 0;
  }

  // ---------- the calls ----------

  predicate Flipped(odd: bool, n: nat) {
    odd != (n % 2 == 1)
  }

  /** `diag_finish_item_do` after an item, by whether the innermost block is a map and its count is odd by now. */
  function FinishCalls(inMap: bool, odd: bool): seq<int> {
    if !inMap then [] else if odd then [1] else [-1]
  }

  /** The indent (1) and dedent (-1) calls that `cbor_decode_item` makes for these bytes, in order, as far as decoding
      gets. `inMap` and `odd` tell of the block around the item. */
  function Calls(b: seq<byte>, inMap: bool, odd: bool): seq<int>
    decreases |b|, 0
  {
    if b == [] || b[0] == BREAK then []
    else
      var major, indef := Major(b[0]), LowBits(b[0]) == LBITS_INDEFINITE;
      if major == MAJOR_BYTES || major == MAJOR_TEXT then
        var s := ReadString(major, b);
        if s.Err? then [] else FinishCalls(inMap, Flipped(odd, s.value.count))
      else
        var p := Predecode(b);
        if p.Err? then []
        else if major == MAJOR_TAG then
          FinishCalls(inMap, !odd) + if p.value.head.arg >= TWO_32 then [] else Calls(p.value.rest, inMap, !odd)
        else if major == MAJOR_ARRAY || major == MAJOR_MAP then
          [1] + ItemsCalls(p.value.rest, Limit(p.value.head), major == MAJOR_MAP, false) +
          if Decode(b).Ok? then [-1] + FinishCalls(inMap, !odd) else []
        else FinishCalls(inMap, !odd)
  }

  function ItemsCalls(b: seq<byte>, limit: Option<nat>, inMap: bool, odd: bool): seq<int>
    decreases |b|, 1
  {
    if limit == Some(0) || AtBreak(b) then []
    else
      Calls(b, inMap, odd) +
      var x := Decode(b);
      if x.Err? then [] else ItemsCalls(x.value.rest, OneLess(limit), inMap, Flipped(odd, x.value.count))
  }

  /** The level after some calls; a dedent at level 0 is a failed assert. */
  function Climb(level: nat, calls: seq<int>): Result<nat>
    decreases |calls|
  {
    if calls == [] then Ok(level)
    else if level + calls[0] < 0 then Err(ErrAssert)
    else Climb(level + calls[0], calls[1..])
  }

  function Sum(calls: seq<int>): int {
    if calls == [] then 0 else calls[0] + Sum(calls[1..])
  }

  /** The lowest point on the way, from 0. */
  function Low(calls: seq<int>): (l: int)
    ensures l <= 0
  {
    if calls == [] then 0 else Min(0, calls[0] + Low(calls[1..]))
  }

  lemma {:induction false} ClimbsIff(level: nat, calls: seq<int>)
    ensures Climb(level, calls) == if level + Low(calls) >= 0 then Ok(level + Sum(calls)) else Err(ErrAssert)
    decreases |calls|
  {
    if calls != [] && level + calls[0] >= 0 {
      ClimbsIff(level + calls[0], calls[1..]);
    }
  }

  lemma {:induction false} CallsInTurn(a: seq<int>, b: seq<int>)
    ensures Sum(a + b) == Sum(a) + Sum(b) && Low(a + b) == Min(Low(a), Sum(a) + Low(b))
  {
    if a == [] {
      assert a + b == b;
    } else {
      CallsInTurn(a[1..], b);
      assert (a + b)[1..] == a[1..] + b;
    }
  }

  lemma ClimbInTurn(level: nat, a: seq<int>, b: seq<int>)
    ensures Climb(level, a + b) == if Climb(level, a).Err? then Climb(level, a) else Climb(Climb(level, a).value, b)
  {
    hide Climb, Sum, Low;
    ClimbsIff(level, a);
    ClimbsIff(level, a + b);
    CallsInTurn(a, b);
    if Climb(level, a).Ok? {
      ClimbsIff(Climb(level, a).value, b);
    }
  }

  /** Exactly when decoding underflows the level: if some of its calls, from the first on, take it below zero. */
  lemma {:induction false} UnderflowsIff(level: nat, calls: seq<int>)
    ensures Climb(level, calls) == Err(ErrAssert) <==> exists i :: 0 <= i <= |calls| && level + Sum(calls[..i]) < 0
    decreases |calls|
  {
    if calls != [] {
      assert calls[..0] == [];
      forall i | 0 < i <= |calls|
        ensures Sum(calls[..i]) == calls[0] + Sum(calls[1..][..i - 1])
      {
        assert calls[..i][1..] == calls[1..][..i - 1];
      }
      if level + calls[0] >= 0 {
        UnderflowsIff(level + calls[0], calls[1..]);
        if exists i :: 0 <= i <= |calls[1..]| && level + calls[0] + Sum(calls[1..][..i]) < 0 {
          var i :| 0 <= i <= |calls[1..]| && level + calls[0] + Sum(calls[1..][..i]) < 0;
          assert Sum(calls[..i + 1]) == calls[0] + Sum(calls[1..][..i]);
        }
      } else {
        assert Sum(calls[..1]) == calls[0] + Sum(calls[1..][..0]);
      }
    }
  }

  // ---------- where the level ends up ----------

  function MapExtra(inMap: bool, odd: bool): (e: int)
    ensures 0 <= e <= 1
  {
    if inMap && odd then 1 else 0
  }

  /** By how many levels the output is off after an item: one up for every map with an odd item count, and for a string
      in an odd number of chunks in a map, which calls for no change but makes one, up in front of a value and down in
      front of a key. */
  function Drift(b: seq<byte>, inMap: bool, odd: bool): int
    decreases |b|, 0
  {
    if b == [] || b[0] == BREAK then 0
    else
      var major := Major(b[0]);
      if major == MAJOR_BYTES || major == MAJOR_TEXT then
        var s := ReadString(major, b);
        if inMap && s.Ok? && s.value.count % 2 == 0 then (if odd then 1 else -1) else 0
      else
        var p := Predecode(b);
        if p.Err? then 0
        else if major == MAJOR_TAG then Drift(p.value.rest, inMap, !odd)
        else if major == MAJOR_ARRAY || major == MAJOR_MAP then
          var xs := DecodeItems(p.value.rest, Limit(p.value.head));
          ItemsDrift(p.value.rest, Limit(p.value.head), major == MAJOR_MAP, false) +
          if major == MAJOR_MAP && xs.Ok? && xs.value.count % 2 == 1 then 1 else 0
        else 0
  }

  function ItemsDrift(b: seq<byte>, limit: Option<nat>, inMap: bool, odd: bool): int
    decreases |b|, 1
  {
    if limit == Some(0) || AtBreak(b) then 0
    else
      Drift(b, inMap, odd) +
      var x := Decode(b);
      if x.Err? then 0 else ItemsDrift(x.value.rest, OneLess(limit), inMap, Flipped(odd, x.value.count))
  }

  /** No string in an odd number of chunks stands where a map expects a key, as far as decoding gets: a condition on the
      input alone, which every regular input meets. */
  predicate Calm(b: seq<byte>, inMap: bool, odd: bool)
    decreases |b|, 0
  {
    if b == [] || b[0] == BREAK then true
    else
      var major := Major(b[0]);
      if major == MAJOR_BYTES || major == MAJOR_TEXT then
        var s := ReadString(major, b);
        s.Ok? && s.value.count % 2 == 0 && inMap ==> odd
      else
        var p := Predecode(b);
        if p.Err? then true
        else if major == MAJOR_TAG then Calm(p.value.rest, inMap, !odd)
        else if major == MAJOR_ARRAY || major == MAJOR_MAP then
          CalmItems(p.value.rest, Limit(p.value.head), major == MAJOR_MAP, false)
        else true
  }

  predicate CalmItems(b: seq<byte>, limit: Option<nat>, inMap: bool, odd: bool)
    decreases |b|, 1
  {
    limit == Some(0) || AtBreak(b) ||
    (Calm(b, inMap, odd) &&
     var x := Decode(b);
     x.Ok? ==> CalmItems(x.value.rest, OneLess(limit), inMap, Flipped(odd, x.value.count)))
  }

  lemma FlippedTwice(odd: bool, m: nat, n: nat)
    ensures Flipped(Flipped(odd, m), n) == Flipped(odd, m + n) && (m == 1 ==> Flipped(!odd, n) == Flipped(odd, 1 + n))
  {}

  lemma FinishSum(inMap: bool, odd: bool, n: nat)
    ensures var f := FinishCalls(inMap, Flipped(odd, n));
            && Sum(f) == MapExtra(inMap, Flipped(odd, n)) - MapExtra(inMap, odd) +
                         (if inMap && n % 2 == 0 then (if odd then 1 else -1) else 0)
            && Low(f) == (if inMap && !Flipped(odd, n) then -1 else 0)
            && (n % 2 == 1 ==> Flipped(odd, n) == !odd)
  {}

  lemma FinishOnce(inMap: bool, odd: bool)
    ensures var f := FinishCalls(inMap, !odd);
            && Sum(f) == MapExtra(inMap, !odd) - MapExtra(inMap, odd)
            && Low(f) == -MapExtra(inMap, odd) && Flipped(odd, 1) == !odd
  {}

  /** What is proved of the calls for an item. */
  predicate LevelsOut(b: seq<byte>, inMap: bool, odd: bool) {
    var d := Decode(b);
    && (d.Ok? ==> Sum(Calls(b, inMap, odd)) ==
                  MapExtra(inMap, Flipped(odd, d.value.count)) - MapExtra(inMap, odd) + Drift(b, inMap, odd))
    && (Calm(b, inMap, odd) ==> Low(Calls(b, inMap, odd)) >= -MapExtra(inMap, odd))
    && (Calm(b, inMap, odd) && d.Ok? ==> Drift(b, inMap, odd) >= 0)
  }

  predicate ItemsLevelOut(b: seq<byte>, limit: Option<nat>, inMap: bool, odd: bool) {
    var d := DecodeItems(b, limit);
    && (d.Ok? ==> Sum(ItemsCalls(b, limit, inMap, odd)) ==
                  MapExtra(inMap, Flipped(odd, d.value.count)) - MapExtra(inMap, odd) +
                  ItemsDrift(b, limit, inMap, odd))
    && (CalmItems(b, limit, inMap, odd) ==> Low(ItemsCalls(b, limit, inMap, odd)) >= -MapExtra(inMap, odd))
    && (CalmItems(b, limit, inMap, odd) && d.Ok? ==> ItemsDrift(b, limit, inMap, odd) >= 0)
  }

  /** For every input: after an item the level has changed by what its block calls for and by the drift of the item; and
      if the input is calm, the calls never go below the level that was there, up to the result or the error. */
  lemma {:induction false} CallsLevelOut(b: seq<byte>, inMap: bool, odd: bool)
    ensures LevelsOut(b, inMap, odd)
    decreases |b|, 1
  {
    hide Decode, Calls, Drift, Calm, Major, DecodeItems, Predecode;
    if b == [] || b[0] == BREAK {
      NothingAtBreak(b, inMap, odd);
    } else {
      var major := Major(b[0]);
      if major == MAJOR_BYTES || major == MAJOR_TEXT {
        StringLevelsOut(b, inMap, odd);
      } else if Predecode(b).Err? {
        ErrorLevelsOut(b, inMap, odd);
      } else if major == MAJOR_TAG {
        TagLevelsOut(b, inMap, odd);
      } else if major == MAJOR_ARRAY || major == MAJOR_MAP {
        BlockLevelsOut(b, inMap, odd);
      } else {
        SmallLevelsOut(b, inMap, odd);
      }
    }
  }

  lemma NothingAtBreak(b: seq<byte>, inMap: bool, odd: bool)
    requires b == [] || b[0] == BREAK
    ensures LevelsOut(b, inMap, odd) && Calls(b, inMap, odd) == []
  {}

  lemma StringLevelsOut(b: seq<byte>, inMap: bool, odd: bool)
    requires b != [] && b[0] != BREAK && (Major(b[0]) == MAJOR_BYTES || Major(b[0]) == MAJOR_TEXT)
    ensures LevelsOut(b, inMap, odd)
  {
    hide Major, LowBits, ReadString, Flipped, MapExtra, FinishCalls, Sum, Low;
    var s := ReadString(Major(b[0]), b);
    DecodeByMajor(b);
    NoCalls();
    if s.Ok? {
      FinishSum(inMap, odd, s.value.count);
      ExtraIsSmall(inMap, odd, s.value.count);
    }
  }

  lemma NoCalls()
    ensures Sum([]) == 0 && Low([]) == 0
  {}

  lemma ExtraIsSmall(inMap: bool, odd: bool, n: nat)
    ensures MapExtra(inMap, odd) == (if inMap && odd then 1 else 0) && (inMap && !Flipped(odd, n) && n % 2 == 1 ==> odd)
    ensures n % 2 == 0 ==> Flipped(odd, n) == odd
  {}

  lemma ErrorLevelsOut(b: seq<byte>, inMap: bool, odd: bool)
    requires b != [] && b[0] != BREAK && Predecode(b).Err? && Major(b[0]) != MAJOR_BYTES && Major(b[0]) != MAJOR_TEXT
    ensures LevelsOut(b, inMap, odd)
  {
    hide Major, LowBits, Predecode;
    NoCalls();
  }

  lemma SmallLevelsOut(b: seq<byte>, inMap: bool, odd: bool)
    requires b != [] && b[0] != BREAK && Predecode(b).Ok? && (Major(b[0]) < MAJOR_BYTES || Major(b[0]) == MAJOR_7)
    ensures LevelsOut(b, inMap, odd)
  {
    hide Major, LowBits, Predecode, Flipped, FinishCalls, MapExtra, Sum, Low, ReadUint, ReadInt, ReadSval, Decode;
    FinishOnce(inMap, odd);
    DecodeByMajor(b);
  }

  lemma {:induction false} TagLevelsOut(b: seq<byte>, inMap: bool, odd: bool)
    requires b != [] && b[0] != BREAK && Predecode(b).Ok? && Major(b[0]) == MAJOR_TAG
    ensures LevelsOut(b, inMap, odd)
    decreases |b|, 0
  {
    hide Major, LowBits, Predecode, Flipped, FinishCalls, MapExtra, Sum, Low, Decode;
    var p := Predecode(b).value;
    DecodeByTag(b);
    FinishOnce(inMap, odd);
    var f := FinishCalls(inMap, !odd);
    if p.head.arg >= TWO_32 {
      assert f + [] == f;
    } else {
      CallsLevelOut(p.rest, inMap, !odd);
      CallsInTurn(f, Calls(p.rest, inMap, !odd));
      if Decode(p.rest).Ok? {
        FlippedTwice(odd, 1, Decode(p.rest).value.count);
      }
    }
  }

  lemma {:induction false} BlockLevelsOut(b: seq<byte>, inMap: bool, odd: bool)
    requires b != [] && b[0] != BREAK && Predecode(b).Ok? && (Major(b[0]) == MAJOR_ARRAY || Major(b[0]) == MAJOR_MAP)
    ensures LevelsOut(b, inMap, odd)
    decreases |b|, 0
  {
    hide Major, LowBits, Predecode, FinishCalls, Sum, Low, Decode, DecodeItems, ItemsCalls, ItemsDrift, CalmItems,
         FinishBlock;
    var p := Predecode(b).value;
    var isMap, limit := Major(b[0]) == MAJOR_MAP, Limit(p.head);
    var ts := ItemsCalls(p.rest, limit, isMap, false);
    ItemsCallsLevelOut(p.rest, limit, isMap, false);
    FinishOnce(inMap, odd);
    var tail := if Decode(b).Ok? then [-1] + FinishCalls(inMap, !odd) else [];
    OneCall();
    NoCalls();
    CallsInTurn([1], ts);
    CallsInTurn([1] + ts, tail);
    CallsInTurn([-1], FinishCalls(inMap, !odd));
    assert Calls(b, inMap, odd) == [1] + ts + tail;
    if Decode(b).Ok? {
      BlockCounts(b);
    } else {
      assert [1] + ts + [] == [1] + ts;
    }
  }

  lemma OneCall()
    ensures Sum([1]) == 1 && Low([1]) == 0 && Sum([-1]) == -1 && Low([-1]) == -1
  {}

  lemma BlockCounts(b: seq<byte>)
    requires Decode(b).Ok? && (Major(b[0]) == MAJOR_ARRAY || Major(b[0]) == MAJOR_MAP)
    ensures Decode(b).value.count == 1
    ensures var p := Predecode(b).value; DecodeItems(p.rest, Limit(p.head)).Ok?
  {
    hide Major, LowBits, DecodeItems, FinishBlock;
    var p := OpenedBlock(b);
    FinishedBlock(p.head, DecodeItems(p.rest, Limit(p.head)).value);
  }

  lemma {:induction false} ItemsCallsLevelOut(b: seq<byte>, limit: Option<nat>, inMap: bool, odd: bool)
    ensures ItemsLevelOut(b, limit, inMap, odd)
    decreases |b|, 2
  {
    hide Decode, Calls, Drift, Calm, Flipped, Sum, Low, MapExtra, ItemsCalls, ItemsDrift, CalmItems, DecodeItems;
    ItemsStep(b, limit, inMap, odd);
    NoCalls();
    if limit == Some(0) || AtBreak(b) {
      ExtraIsSmall(inMap, odd, 0);
    } else {
      CallsLevelOut(b, inMap, odd);
      var first, x := Calls(b, inMap, odd), Decode(b);
      if x.Ok? {
        var odd' := Flipped(odd, x.value.count);
        ItemsCallsLevelOut(x.value.rest, OneLess(limit), inMap, odd');
        CallsInTurn(first, ItemsCalls(x.value.rest, OneLess(limit), inMap, odd'));
        var more := DecodeItems(x.value.rest, OneLess(limit));
        if more.Ok? {
          FlippedTwice(odd, x.value.count, more.value.count);
        }
      }
    }
  }

  lemma ItemsStep(b: seq<byte>, limit: Option<nat>, inMap: bool, odd: bool)
    ensures var cs, x := ItemsCalls(b, limit, inMap, odd), Decode(b);
            if limit == Some(0) || AtBreak(b) then
              cs == [] && ItemsDrift(b, limit, inMap, odd) == 0 && DecodeItems(b, limit) == Ok(DecodedItems([], 0, b))
            else if x.Err? then
              cs == Calls(b, inMap, odd) && DecodeItems(b, limit) == Err(x.error) &&
              (CalmItems(b, limit, inMap, odd) ==> Calm(b, inMap, odd))
            else
              var odd' := Flipped(odd, x.value.count);
              var more := DecodeItems(x.value.rest, OneLess(limit));
              && |x.value.rest| < |b|
              && cs == Calls(b, inMap, odd) + ItemsCalls(x.value.rest, OneLess(limit), inMap, odd')
              && ItemsDrift(b, limit, inMap, odd) ==
                 Drift(b, inMap, odd) + ItemsDrift(x.value.rest, OneLess(limit), inMap, odd')
              && (CalmItems(b, limit, inMap, odd) <==>
                  Calm(b, inMap, odd) && CalmItems(x.value.rest, OneLess(limit), inMap, odd'))
              && DecodeItems(b, limit) ==
                 (if more.Err? then more
                  else Ok(DecodedItems([x.value.item] + more.value.items, x.value.count + more.value.count,
                                       more.value.rest)))
  {
    hide Decode, Calls, Drift, Calm, Flipped;
  }

  // ---------- items without chunked strings ----------

  /** The levels by which the output is off after such an item: one for every map in it with an odd item count, which
      only tags inside a map of indefinite length bring about. */
  function Leak(t: Item): nat {
    match t
    case Tag(_, _, x) => Leak(x)
    case Array(_, ts) => LeakAll(ts)
    case Map(_, ts) => LeakAll(ts) + CountAll(ts) % 2
    case _ => 0
  }

  function LeakAll(ts: seq<Item>): nat {
    if ts == [] then 0 else Leak(ts[0]) + LeakAll(ts[1..])
  }

  /** In every map of the item an even number of tags stand directly in front of its keys and values. */
  predicate TagsArePaired(t: Item) {
    match t
    case Tag(_, _, x) => TagsArePaired(x)
    case Array(_, ts) => AllTagsArePaired(ts)
    case Map(_, ts) => AllTagsArePaired(ts) && NumTags(ts) % 2 == 0
    case _ => true
  }

  predicate AllTagsArePaired(ts: seq<Item>) {
    ts == [] || (TagsArePaired(ts[0]) && AllTagsArePaired(ts[1..]))
  }

  /** The indentation is right again after an item if and only if its tags are paired. */
  lemma {:induction false} NoLeakIff(t: Item)
    requires Paired(t)
    ensures Leak(t) == 0 <==> TagsArePaired(t)
    decreases t, 0
  {
    match t
    case Tag(_, _, x) => NoLeakIff(x);
    case Array(_, ts) => NoLeaksIff(ts);
    case Map(_, ts) =>
      NoLeaksIff(ts);
      CountAllIsTags(ts);
    case _ =>
  }

  lemma {:induction false} NoLeaksIff(ts: seq<Item>)
    requires AllPaired(ts)
    ensures LeakAll(ts) == 0 <==> AllTagsArePaired(ts)
    decreases ts, 1
  {
    if ts != [] {
      NoLeakIff(ts[0]);
      NoLeaksIff(ts[1..]);
    }
  }

  /** An item that was read without chunked strings was read calmly, and drifts by its leak. */
  lemma {:induction false} DriftIsLeak(b: seq<byte>, inMap: bool, odd: bool)
    requires Decode(b).Ok? && Unchunked(Decode(b).value.item)
    ensures Calm(b, inMap, odd) && Drift(b, inMap, odd) == Leak(Decode(b).value.item)
    decreases |b|, 1
  {
    hide Major, LowBits, Predecode, Decode, DecodeItems, ReadString, ReadUint, ReadInt, ReadSval, FinishBlock,
         CalmItems, ItemsDrift, Unchunked, Leak;
    DecodeStarts(b);
    DecodeByMajor(b);
    DecodedCount(b);
    var major, d := Major(b[0]), Decode(b).value;
    SmallLeaks(d.item);
    if major == MAJOR_TAG {
      DecodeByTag(b);
      DriftIsLeak(Predecode(b).value.rest, inMap, !odd);
    } else if major == MAJOR_ARRAY || major == MAJOR_MAP {
      var p := OpenedBlock(b);
      var xs := DecodeItems(p.rest, Limit(p.head)).value;
      FinishedBlock(p.head, xs);
      ItemsDriftIsLeak(p.rest, Limit(p.head), major == MAJOR_MAP, false);
    }
  }

  lemma SmallLeaks(t: Item)
    ensures t.Tag? ==> Leak(t) == Leak(t.item) && (Unchunked(t) ==> Unchunked(t.item))
    ensures t.Array? ==> Leak(t) == LeakAll(t.items) && (Unchunked(t) ==> AllUnchunked(t.items))
    ensures t.Map? ==> Leak(t) == LeakAll(t.items) + CountAll(t.items) % 2 && (Unchunked(t) ==> AllUnchunked(t.items))
    ensures !t.Tag? && !t.Array? && !t.Map? ==> Leak(t) == 0
    ensures !t.Tag? ==> TagDepth(t) == 0
  {}

  lemma {:induction false} ItemsDriftIsLeak(b: seq<byte>, limit: Option<nat>, inMap: bool, odd: bool)
    requires DecodeItems(b, limit).Ok? && AllUnchunked(DecodeItems(b, limit).value.items)
    ensures CalmItems(b, limit, inMap, odd)
    ensures ItemsDrift(b, limit, inMap, odd) == LeakAll(DecodeItems(b, limit).value.items)
    ensures DecodeItems(b, limit).value.count == CountAll(DecodeItems(b, limit).value.items)
    decreases |b|, 2
  {
    hide Decode, Drift, Calm, Leak, Unchunked, DecodeItems, CalmItems, ItemsDrift, Calls, ItemsCalls;
    ItemsStep(b, limit, inMap, odd);
    var d := DecodeItems(b, limit).value;
    if limit == Some(0) || AtBreak(b) {
      CalmAtEnd(b, limit, inMap, odd);
    } else {
      var x := Decode(b).value;
      var more := DecodeItems(x.rest, OneLess(limit)).value;
      assert d.items[0] == x.item && d.items[1..] == more.items;
      DriftIsLeak(b, inMap, odd);
      DecodedCount(b);
      ItemsDriftIsLeak(x.rest, OneLess(limit), inMap, Flipped(odd, x.count));
    }
  }

  lemma CalmAtEnd(b: seq<byte>, limit: Option<nat>, inMap: bool, odd: bool)
    requires limit == Some(0) || AtBreak(b)
    ensures CalmItems(b, limit, inMap, odd)
  {}

  /** So is every regular input, whether it can be read or not. */
  lemma {:induction false} RegularIsCalm(b: seq<byte>, inMap: bool, odd: bool)
    requires Regular(b)
    ensures Calm(b, inMap, odd)
    decreases |b|, 1
  {
    hide Major, LowBits, Predecode, DecodeItems, RegularItems, CalmItems, ReadChunks, Decode;
    if b != [] && b[0] != BREAK && Predecode(b).Ok? {
      var p := Predecode(b).value;
      RegularParts(b);
      if p.head.major == MAJOR_TAG {
        RegularIsCalm(p.rest, inMap, !odd);
      } else if p.head.major == MAJOR_ARRAY || p.head.major == MAJOR_MAP {
        RegularItemsAreCalm(p.rest, Limit(p.head), p.head.major == MAJOR_MAP, false);
      }
    }
  }

  lemma {:induction false} RegularItemsAreCalm(b: seq<byte>, limit: Option<nat>, inMap: bool, odd: bool)
    requires RegularItems(b, limit)
    ensures CalmItems(b, limit, inMap, odd)
    decreases |b|, 2
  {
    hide Decode, Regular, Calm, Flipped;
    if limit != Some(0) && !AtBreak(b) {
      RegularIsCalm(b, inMap, odd);
      if Decode(b).Ok? {
        RegularItemsAreCalm(Decode(b).value.rest, OneLess(limit), inMap, Flipped(odd, Decode(b).value.count));
      }
    }
  }

  /** The assert does fail on some input that decodes: a map with a tagged number for a key and a string in one chunk
      for its value. The map counts four items when the string ends, so the string dedents where the map's end dedents
      again. */
  lemma ChunkedValueUnderflows()
    ensures var b := [0xBF, 0xC1, 1, 0x5F, 0x41, 0x61, 0xFF];
            && Decode(b) == Ok(Decoded(Map(true, [Tag(1, 0, UInt(1)), Bytes(true, [0x61])]), 1, []))
            && Climb(0, Calls(b, false, false)) == Err(ErrAssert) && !Calm(b, false, false)
  {
    hide *;
    var b: seq<byte> := [0xBF, 0xC1, 1, 0x5F, 0x41, 0x61, 0xFF];
    var b1: seq<byte> := [0xC1, 1, 0x5F, 0x41, 0x61, 0xFF];
    var b2: seq<byte> := [0x5F, 0x41, 0x61, 0xFF];
    OpeningOfMap(b, b1);
    TaggedKey(b1, b2);
    ChunkedValue(b2);
    TwoItems(b1, b2);
    MapOfTwo(b, b1);
    FiveCalls();
  }

  lemma OpeningOfMap(b: seq<byte>, b1: seq<byte>)
    requires b == [0xBF] + b1
    ensures Predecode(b) == Ok(Predecoded(Head(MAJOR_MAP, true, 0), b1)) && Major(b[0]) == MAJOR_MAP
  {
    assert b[1..] == b1;
  }

  lemma TaggedKey(b: seq<byte>, rest: seq<byte>)
    requires b == [0xC1, 1] + rest
    ensures Decode(b) == Ok(Decoded(Tag(1, 0, UInt(1)), 2, rest)) && !AtBreak(b)
    ensures Calls(b, true, false) == [1, -1] && Calm(b, true, false)
  {
    hide DecodeItems, ItemsCalls, CalmItems, ReadChunks;
    var b1 := [1] + rest;
    assert b[1..] == b1 && b1[1..] == rest;
    assert Predecode(b) == Ok(Predecoded(Head(MAJOR_TAG, false, 1), b1));
    assert Predecode(b1) == Ok(Predecoded(Head(MAJOR_UINT, false, 1), rest));
    DecodeByTag(b);
    DecodeByMajor(b1);
    assert [1] + [-1] == [1, -1];
  }

  lemma ChunkedValue(b: seq<byte>)
    requires b == [0x5F, 0x41, 0x61, 0xFF]
    ensures Decode(b) == Ok(Decoded(Bytes(true, [0x61]), 2, [0xFF])) && !AtBreak(b)
    ensures Calls(b, true, false) == [-1] && !Calm(b, true, false)
  {
    hide DecodeItems, ItemsCalls, CalmItems, ReadChunks, Decode;
    var c: seq<byte> := [0x41, 0x61, 0xFF];
    assert b[1..] == c && c[1..] == [0x61, 0xFF];
    assert Predecode(b) == Ok(Predecoded(Head(MAJOR_BYTES, true, 0), c));
    OneChunk(c);
    DecodeByMajor(b);
  }

  lemma OneChunk(c: seq<byte>)
    requires c == [0x41, 0x61, 0xFF]
    ensures ReadChunks(MAJOR_BYTES, c) == Ok(StringRead([0x61], 1, [0xFF]))
  {
    hide WholeString, ReadChunks;
    assert [0x41, 0x61] + [0xFF] == c;
    assert Header(MAJOR_BYTES, 1) + [0x61] == [0x41, 0x61];
    WrittenStringIsDerived(MAJOR_BYTES, [0x61]);
    ReadFirstChunk(MAJOR_BYTES, [0x61], [0x41, 0x61], [0xFF]);
    ReadNoChunk(MAJOR_BYTES, [0xFF]);
    assert [0x61] + [] == [0x61];
  }

  lemma TwoItems(b1: seq<byte>, b2: seq<byte>)
    requires Decode(b1) == Ok(Decoded(Tag(1, 0, UInt(1)), 2, b2)) && !AtBreak(b1)
    requires Decode(b2) == Ok(Decoded(Bytes(true, [0x61]), 2, [0xFF])) && !AtBreak(b2)
    requires Calls(b1, true, false) == [1, -1] && Calls(b2, true, false) == [-1] && !Calm(b2, true, false)
    ensures DecodeItems(b1, None) == Ok(DecodedItems([Tag(1, 0, UInt(1)), Bytes(true, [0x61])], 4, [0xFF]))
    ensures ItemsCalls(b1, None, true, false) == [1, -1, -1] && !CalmItems(b1, None, true, false)
  {
    hide Decode, Calls, Calm, DecodeItems, ItemsCalls, CalmItems;
    ItemsStep(b1, None, true, false);
    ItemsStep(b2, None, true, false);
    ItemsStep([0xFF], None, true, false);
    assert [Bytes(true, [0x61])] + [] == [Bytes(true, [0x61])];
    assert [Tag(1, 0, UInt(1))] + [Bytes(true, [0x61])] == [Tag(1, 0, UInt(1)), Bytes(true, [0x61])];
    assert [1, -1] + ([-1] + []) == [1, -1, -1];
  }

  lemma MapOfTwo(b: seq<byte>, b1: seq<byte>)
    requires b != [] && b[0] == 0xBF && Major(b[0]) == MAJOR_MAP
    requires Predecode(b) == Ok(Predecoded(Head(MAJOR_MAP, true, 0), b1))
    requires DecodeItems(b1, None) == Ok(DecodedItems([Tag(1, 0, UInt(1)), Bytes(true, [0x61])], 4, [0xFF]))
    requires ItemsCalls(b1, None, true, false) == [1, -1, -1] && !CalmItems(b1, None, true, false)
    ensures Decode(b) == Ok(Decoded(Map(true, [Tag(1, 0, UInt(1)), Bytes(true, [0x61])]), 1, []))
    ensures Calls(b, false, false) == [1, 1, -1, -1, -1] && !Calm(b, false, false)
  {
    hide Predecode, DecodeItems, ItemsCalls, CalmItems, Decode;
    var h := Head(MAJOR_MAP, true, 0);
    DecodeByBlock(MAJOR_MAP, b);
    FinishWritten(h, [Tag(1, 0, UInt(1)), Bytes(true, [0x61])], 4, []);
    assert Close(true) + [] == [0xFF];
    assert [1] + [1, -1, -1] + ([-1] + []) == [1, 1, -1, -1, -1];
  }

  lemma FiveCalls()
    ensures Climb(0, [1, 1, -1, -1, -1]) == Err(ErrAssert)
  {
    assert [1, 1, -1, -1, -1][1..] == [1, -1, -1, -1] && [1, -1, -1, -1][1..] == [-1, -1, -1];
    assert [-1, -1, -1][1..] == [-1, -1] && [-1, -1][1..] == [-1];
    assert Climb(0, [-1]) == Err(ErrAssert);
    assert Climb(1, [-1, -1]) == Err(ErrAssert);
    assert Climb(2, [-1, -1, -1]) == Err(ErrAssert);
  }

  // ---------- a whole stream ----------

  /** The items of `diag_dump_cbor_stream`: one after another to the end of the input. */
  function StreamItems(b: seq<byte>): Result<seq<Item>>
    decreases |b|
  {
    if b == [] then Ok([])
    else
      var x :- Decode(b);
      var ts :- StreamItems(x.rest);
      Ok([x.item] + ts)
  }

  function StreamCalls(b: seq<byte>): seq<int>
    decreases |b|
  {
    if b == [] then []
    else Calls(b, false, false) + if Decode(b).Err? then [] else StreamCalls(Decode(b).value.rest)
  }

  predicate CalmStream(b: seq<byte>)
    decreases |b|
  {
    b == [] || (Calm(b, false, false) && (Decode(b).Ok? ==> CalmStream(Decode(b).value.rest)))
  }

  /** A stream that is calm as far as it can be read never underflows the level, whether it ends well or in an error. */
  lemma {:induction false} CalmStreamsClimb(b: seq<byte>)
    requires CalmStream(b)
    ensures Low(StreamCalls(b)) == 0 && (StreamItems(b).Ok? ==> Sum(StreamCalls(b)) >= 0)
    ensures Climb(0, StreamCalls(b)).Ok?
    decreases |b|
  {
    hide Decode, Calls, Calm, Drift, Sum, Low, Climb;
    NoCalls();
    if b != [] {
      CallsLevelOut(b, false, false);
      if Decode(b).Ok? {
        CalmStreamsClimb(Decode(b).value.rest);
        CallsInTurn(Calls(b, false, false), StreamCalls(Decode(b).value.rest));
      } else {
        assert Calls(b, false, false) + [] == Calls(b, false, false);
      }
    }
    ClimbsIff(0, StreamCalls(b));
  }

  /** A stream of items without chunked strings ends at the sum of their leaks: at level zero if and only if all tags
      are paired. */
  lemma {:induction false} StreamLeaks(b: seq<byte>)
    requires StreamItems(b).Ok? && AllUnchunked(StreamItems(b).value)
    ensures CalmStream(b) && Climb(0, StreamCalls(b)) == Ok(LeakAll(StreamItems(b).value))
    ensures Climb(0, StreamCalls(b)) == Ok(0) <==> AllTagsArePaired(StreamItems(b).value)
    decreases |b|
  {
    hide Climb, Low;
    StreamSum(b);
    CalmStreamsClimb(b);
    ClimbsIff(0, StreamCalls(b));
    NoLeaksIff(StreamItems(b).value);
  }

  lemma {:induction false} StreamSum(b: seq<byte>)
    requires StreamItems(b).Ok? && AllUnchunked(StreamItems(b).value)
    ensures CalmStream(b) && Sum(StreamCalls(b)) == LeakAll(StreamItems(b).value) && AllPaired(StreamItems(b).value)
    decreases |b|
  {
    hide Decode, Calls, Calm, Drift, Sum, Low, Unchunked, Leak, Paired;
    NoCalls();
    if b != [] {
      var x := Decode(b).value;
      var all, ts := StreamItems(b).value, StreamItems(x.rest).value;
      assert all[0] == x.item && all[1..] == ts;
      DriftIsLeak(b, false, false);
      DecodedCount(b);
      CallsLevelOut(b, false, false);
      CallsInTurn(Calls(b, false, false), StreamCalls(x.rest));
      StreamSum(x.rest);
    }
  }
}
