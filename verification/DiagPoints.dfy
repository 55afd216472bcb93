/** Exactly when the assert of the dedent fails, on the input: where the level that the open blocks call for and the
    drift so far come out below zero together. */
module DiagnosticPoints {
  import opened Prelude
  import opened Wire
  import opened Cbor
  import opened Diagnostics

  /** A point of the scan: the level that the open blocks call for there, and the drift up to there. */
  datatype Point = Point(level: int, drift: int)

  ghost predicate Sunk(ps: seq<Point>) {
    exists p :: p in ps && p.level + p.drift < 0
  }

  lemma SunkInTurn(a: seq<Point>, b: seq<Point>)
    ensures Sunk(a + b) <==> Sunk(a) || Sunk(b)
  {
    if p :| p in a && p.level + p.drift < 0 {
      assert p in a + b;
    }
    if p :| p in b && p.level + p.drift < 0 {
      assert p in a + b;
    }
  }

  lemma SunkOnce(p: Point)
    ensures Sunk([p]) <==> p.level + p.drift < 0
    ensures !Sunk([])
  {
    assert p in [p];
  }

  /** The level called for after `n` more items in the innermost block. */
  function Counting(level: int, inMap: bool, odd: bool, n: nat): int {
    level + MapExtra(inMap, Flipped(odd, n)) - MapExtra(inMap, odd)
  }

  /** The points behind the items of an input, from inside out: behind every number, simple value, string and tag, and
      for every array and map on both sides of its last call. */
  function Points(b: seq<byte>, level: int, drift: int, inMap: bool, odd: bool): seq<Point>
    decreases |b|, 0
  {
    if b == [] || b[0] == BREAK then []
    else
      var major := Major(b[0]);
      if major == MAJOR_BYTES || major == MAJOR_TEXT then
        var s := ReadString(major, b);
        if s.Err? then []
        else [Point(Counting(level, inMap, odd, s.value.count), drift + Drift(b, inMap, odd))]
      else
        var p := Predecode(b);
        var after := Counting(level, inMap, odd, 1);
        if p.Err? then []
        else if major == MAJOR_TAG then
          [Point(after, drift)] +
          if p.value.head.arg >= TWO_32 then [] else Points(p.value.rest, after, drift, inMap, !odd)
        else if major == MAJOR_ARRAY || major == MAJOR_MAP then
          var end := drift + Drift(b, inMap, odd);
          ItemsPoints(p.value.rest, Limit(p.value.head), level + 1, drift, major == MAJOR_MAP, false) +
          if Decode(b).Ok? then [Point(level, end), Point(after, end)] else []
        else [Point(after, drift)]
  }

  function ItemsPoints(b: seq<byte>, limit: Option<nat>, level: int, drift: int, inMap: bool, odd: bool): seq<Point>
    decreases |b|, 1
  {
    if limit == Some(0) || AtBreak(b) then []
    else
      Points(b, level, drift, inMap, odd) +
      var x := Decode(b);
      if x.Err? then []
      else ItemsPoints(x.value.rest, OneLess(limit), Counting(level, inMap, odd, x.value.count),
                       drift + Drift(b, inMap, odd), inMap, Flipped(odd, x.value.count))
  }

  /** The calls sink below zero exactly if a point does. */
  ghost predicate SinksAt(level: int, calls: seq<int>, ps: seq<Point>) {
    level + Low(calls) < 0 <==> Sunk(ps)
  }

  /** One call, or none. */
  lemma FinishLow(inMap: bool, odd: bool, n: nat)
    ensures var f := FinishCalls(inMap, Flipped(odd, n)); Low(f) == Min(0, Sum(f))
    ensures FinishCalls(inMap, !odd) == FinishCalls(inMap, Flipped(odd, 1))
  {}

  /** For every input: an indentation that starts where it has to be, or off by some drift, sinks below zero exactly if
      there is a point where what is called for and the drift are below zero together. */
  lemma {:induction false} CallsSinkIff(b: seq<byte>, level: int, drift: int, inMap: bool, odd: bool)
    requires level + drift >= 0
    ensures SinksAt(level + drift, Calls(b, inMap, odd), Points(b, level, drift, inMap, odd))
    decreases |b|, 1
  {
    hide Decode, Calls, Points, Drift, Major, DecodeItems, Predecode, Sunk;
    if b == [] || b[0] == BREAK {
      NothingSinks(b, level, drift, inMap, odd);
    } else {
      var major := Major(b[0]);
      if major == MAJOR_BYTES || major == MAJOR_TEXT {
        StringSinksIff(b, level, drift, inMap, odd);
      } else if Predecode(b).Err? {
        ErrorSinksIff(b, level, drift, inMap, odd);
      } else if major == MAJOR_TAG {
        TagSinksIff(b, level, drift, inMap, odd);
      } else if major == MAJOR_ARRAY || major == MAJOR_MAP {
        BlockSinksIff(b, level, drift, inMap, odd);
      } else {
        SmallSinksIff(b, level, drift, inMap, odd);
      }
    }
  }

  lemma NothingSinks(b: seq<byte>, level: int, drift: int, inMap: bool, odd: bool)
    requires level + drift >= 0 && (b == [] || b[0] == BREAK)
    ensures SinksAt(level + drift, Calls(b, inMap, odd), Points(b, level, drift, inMap, odd))
  {}

  lemma ErrorSinksIff(b: seq<byte>, level: int, drift: int, inMap: bool, odd: bool)
    requires level + drift >= 0 && b != [] && b[0] != BREAK
    requires Predecode(b).Err? && Major(b[0]) != MAJOR_BYTES && Major(b[0]) != MAJOR_TEXT
    ensures SinksAt(level + drift, Calls(b, inMap, odd), Points(b, level, drift, inMap, odd))
  {
    hide Major, LowBits, Predecode;
    NoCalls();
  }

  lemma StringSinksIff(b: seq<byte>, level: int, drift: int, inMap: bool, odd: bool)
    requires level + drift >= 0 && b != [] && b[0] != BREAK
    requires Major(b[0]) == MAJOR_BYTES || Major(b[0]) == MAJOR_TEXT
    ensures SinksAt(level + drift, Calls(b, inMap, odd), Points(b, level, drift, inMap, odd))
  {
    hide Major, LowBits, ReadString, Flipped, MapExtra, FinishCalls, Sum, Low, Sunk;
    var s := ReadString(Major(b[0]), b);
    NoCalls();
    SunkOnce(Point(0, 0));
    if s.Ok? {
      FinishSum(inMap, odd, s.value.count);
      FinishLow(inMap, odd, s.value.count);
      SunkOnce(Point(Counting(level, inMap, odd, s.value.count), drift + Drift(b, inMap, odd)));
    }
  }

  lemma SmallSinksIff(b: seq<byte>, level: int, drift: int, inMap: bool, odd: bool)
    requires level + drift >= 0 && b != [] && b[0] != BREAK
    requires Predecode(b).Ok? && (Major(b[0]) < MAJOR_BYTES || Major(b[0]) == MAJOR_7)
    ensures SinksAt(level + drift, Calls(b, inMap, odd), Points(b, level, drift, inMap, odd))
  {
    hide Major, LowBits, Predecode, Flipped, FinishCalls, MapExtra, Sum, Low, Sunk;
    FinishOnce(inMap, odd);
    FinishLow(inMap, odd, 1);
    SunkOnce(Point(Counting(level, inMap, odd, 1), drift));
  }

  lemma {:induction false} TagSinksIff(b: seq<byte>, level: int, drift: int, inMap: bool, odd: bool)
    requires level + drift >= 0 && b != [] && b[0] != BREAK && Predecode(b).Ok? && Major(b[0]) == MAJOR_TAG
    ensures SinksAt(level + drift, Calls(b, inMap, odd), Points(b, level, drift, inMap, odd))
    decreases |b|, 0
  {
    hide Major, LowBits, Predecode, Flipped, FinishCalls, MapExtra, Sum, Low, Sunk;
    var p := Predecode(b).value;
    var f, after := FinishCalls(inMap, !odd), Counting(level, inMap, odd, 1);
    FinishOnce(inMap, odd);
    FinishLow(inMap, odd, 1);
    SunkOnce(Point(after, drift));
    if p.head.arg >= TWO_32 {
      assert f + [] == f && [Point(after, drift)] + [] == [Point(after, drift)];
    } else {
      CallsInTurn(f, Calls(p.rest, inMap, !odd));
      SunkInTurn([Point(after, drift)], Points(p.rest, after, drift, inMap, !odd));
      if after + drift >= 0 {
        CallsSinkIff(p.rest, after, drift, inMap, !odd);
      }
    }
  }

  lemma {:induction false} BlockSinksIff(b: seq<byte>, level: int, drift: int, inMap: bool, odd: bool)
    requires level + drift >= 0 && b != [] && b[0] != BREAK
    requires Predecode(b).Ok? && (Major(b[0]) == MAJOR_ARRAY || Major(b[0]) == MAJOR_MAP)
    ensures SinksAt(level + drift, Calls(b, inMap, odd), Points(b, level, drift, inMap, odd))
    decreases |b|, 0
  {
    hide Major, LowBits, Predecode, Flipped, FinishCalls, Sum, Low, Decode, DecodeItems, ItemsCalls, ItemsDrift, Drift,
         ItemsPoints, Sunk, FinishBlock, MapExtra;
    var p := Predecode(b).value;
    var isMap, limit := Major(b[0]) == MAJOR_MAP, Limit(p.head);
    var ts := ItemsCalls(p.rest, limit, isMap, false);
    var inner := ItemsPoints(p.rest, limit, level + 1, drift, isMap, false);
    ItemsSinkIff(p.rest, limit, level + 1, drift, isMap, false);
    OneCall();
    NoCalls();
    CallsInTurn([1], ts);
    if Decode(b).Ok? {
      var f, end := FinishCalls(inMap, !odd), drift + Drift(b, inMap, odd);
      BlockDrift(b, inMap, odd);
      FinishOnce(inMap, odd);
      FinishLow(inMap, odd, 1);
      CallsInTurn([-1], f);
      CallsInTurn([1] + ts, [-1] + f);
      var after := Counting(level, inMap, odd, 1);
      assert [Point(level, end), Point(after, end)] == [Point(level, end)] + [Point(after, end)];
      SunkOnce(Point(level, end));
      SunkOnce(Point(after, end));
      SunkInTurn([Point(level, end)], [Point(after, end)]);
      SunkInTurn(inner, [Point(level, end), Point(after, end)]);
    } else {
      assert [1] + ts + [] == [1] + ts && inner + [] == inner;
    }
  }

  /** Between the first and the last call, the items of a block change the level by its drift. */
  lemma BlockDrift(b: seq<byte>, inMap: bool, odd: bool)
    requires b != [] && b[0] != BREAK && Predecode(b).Ok? && Decode(b).Ok?
    requires Major(b[0]) == MAJOR_ARRAY || Major(b[0]) == MAJOR_MAP
    ensures var p := Predecode(b).value;
            Sum(ItemsCalls(p.rest, Limit(p.head), Major(b[0]) == MAJOR_MAP, false)) == Drift(b, inMap, odd)
  {
    hide Major, LowBits, Predecode, Decode, DecodeItems, ItemsCalls, ItemsDrift, Sum, FinishBlock;
    var p := Predecode(b).value;
    BlockCounts(b);
    ItemsCallsLevelOut(p.rest, Limit(p.head), Major(b[0]) == MAJOR_MAP, false);
  }

  lemma {:induction false} ItemsSinkIff(b: seq<byte>, limit: Option<nat>, level: int, drift: int, inMap: bool,
                                        odd: bool)
    requires level + drift >= 0
    ensures SinksAt(level + drift, ItemsCalls(b, limit, inMap, odd), ItemsPoints(b, limit, level, drift, inMap, odd))
    decreases |b|, 2
  {
    hide Decode, Calls, Points, Drift, Flipped, Sum, Low, MapExtra, ItemsCalls, ItemsDrift, DecodeItems, Sunk;
    ItemsStep(b, limit, inMap, odd);
    NoCalls();
    SunkOnce(Point(0, 0));
    if limit != Some(0) && !AtBreak(b) {
      CallsSinkIff(b, level, drift, inMap, odd);
      var first, x := Calls(b, inMap, odd), Decode(b);
      if x.Ok? {
        var odd', level' := Flipped(odd, x.value.count), Counting(level, inMap, odd, x.value.count);
        var drift', rest, limit' := drift + Drift(b, inMap, odd), x.value.rest, OneLess(limit);
        CallsLevelOut(b, inMap, odd);
        CallsInTurn(first, ItemsCalls(rest, limit', inMap, odd'));
        SunkInTurn(Points(b, level, drift, inMap, odd), ItemsPoints(rest, limit', level', drift', inMap, odd'));
        LowBelowSum(first);
        if level' + drift' >= 0 {
          ItemsSinkIff(rest, limit', level', drift', inMap, odd');
        }
      } else {
        var ps := Points(b, level, drift, inMap, odd);
        assert ps + [] == ps;
      }
    }
  }

  lemma {:induction false} LowBelowSum(calls: seq<int>)
    ensures Low(calls) <= Sum(calls)
  {
    if calls != [] {
      LowBelowSum(calls[1..]);
    }
  }

  // ---------- depths ----------

  /** What the open blocks call for is never below zero, so only the drift can sink a point. */
  lemma {:induction false} LevelsAreDepths(b: seq<byte>, level: int, drift: int, inMap: bool, odd: bool)
    requires level >= MapExtra(inMap, odd)
    ensures forall p :: p in Points(b, level, drift, inMap, odd) ==> p.level >= 0
    decreases |b|, 0
  {
    hide Decode, Drift, Major, Predecode, ReadString, Flipped, ItemsPoints;
    if b != [] && b[0] != BREAK && Predecode(b).Ok? {
      var p, major := Predecode(b).value, Major(b[0]);
      if major == MAJOR_TAG {
        assert Flipped(odd, 1) == !odd by { FinishOnce(inMap, odd); }
        LevelsAreDepths(p.rest, Counting(level, inMap, odd, 1), drift, inMap, !odd);
      } else if major == MAJOR_ARRAY || major == MAJOR_MAP {
        ItemsLevelsAreDepths(p.rest, Limit(p.head), level + 1, drift, major == MAJOR_MAP, false);
      }
    }
  }

  lemma {:induction false} ItemsLevelsAreDepths(b: seq<byte>, limit: Option<nat>, level: int, drift: int, inMap: bool,
                                                odd: bool)
    requires level >= MapExtra(inMap, odd)
    ensures forall p :: p in ItemsPoints(b, limit, level, drift, inMap, odd) ==> p.level >= 0
    decreases |b|, 1
  {
    hide Decode, Drift, Flipped, Points;
    if limit != Some(0) && !AtBreak(b) {
      LevelsAreDepths(b, level, drift, inMap, odd);
      var x := Decode(b);
      if x.Ok? {
        ItemsLevelsAreDepths(x.value.rest, OneLess(limit), Counting(level, inMap, odd, x.value.count),
                             drift + Drift(b, inMap, odd), inMap, Flipped(odd, x.value.count));
      }
    }
  }

  // ---------- streams ----------

  function StreamPoints(b: seq<byte>, drift: int): seq<Point>
    decreases |b|
  {
    if b == [] then []
    else
      Points(b, 0, drift, false, false) +
      var x := Decode(b);
      if x.Err? then [] else StreamPoints(x.value.rest, drift + Drift(b, false, false))
  }

  lemma {:induction false} StreamSinksIff(b: seq<byte>, drift: nat)
    ensures SinksAt(drift, StreamCalls(b), StreamPoints(b, drift))
    decreases |b|
  {
    hide Decode, Calls, Points, Drift, Sum, Low, Sunk, MapExtra, Flipped;
    NoCalls();
    SunkOnce(Point(0, 0));
    if b != [] {
      CallsSinkIff(b, 0, drift, false, false);
      var first, x := Calls(b, false, false), Decode(b);
      if x.Ok? {
        CallsLevelOut(b, false, false);
        ExtraIsSmall(false, false, x.value.count);
        OutsideMaps(Flipped(false, x.value.count));
        var drift' := drift + Drift(b, false, false);
        CallsInTurn(first, StreamCalls(x.value.rest));
        SunkInTurn(Points(b, 0, drift, false, false), StreamPoints(x.value.rest, drift'));
        LowBelowSum(first);
        if drift' >= 0 {
          StreamSinksIff(x.value.rest, drift');
        }
      } else {
        var ps := Points(b, 0, drift, false, false);
        assert ps + [] == ps && first + [] == first;
      }
    }
  }

  lemma OutsideMaps(odd: bool)
    ensures MapExtra(false, odd) == 0
  {}

  /** Exactly when dumping a stream fails the assert of the dedent, up to the end of the stream or its first error. */
  lemma StreamUnderflowsIff(b: seq<byte>)
    ensures Climb(0, StreamCalls(b)) == Err(ErrAssert) <==>
            exists p :: p in StreamPoints(b, 0) && p.level + p.drift < 0
  {
    hide StreamCalls, StreamPoints, Climb, Low, Sum;
    StreamSinksIff(b, 0);
    ClimbsIff(0, StreamCalls(b));
  }
}
