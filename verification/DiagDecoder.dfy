/** The decoder with its diagnostic output: two line buffers, and the calls on them between those on the stream. */
module DiagDecoders {
  import opened Prelude
  import opened Wire
  import opened Cbor
  import opened CborReadings
  import opened Buffer
  import opened CborStreams
  import opened Diagnostics
  import opened DiagnosticPoints

  // ---------- the lines ----------

  /** `struct diag_line`, as far as indentation goes. */
  datatype Line = Line(level: nat, empty: bool)

  class Diag {
    const lines: array<Line>
    var lineIdx: nat
    var eolOnNextRaw: bool

    ghost predicate Valid()
      reads this
    {
      lines.Length == 2 && lineIdx < 2
    }

    /** The level of the line that is being written. */
    function Level(): nat
      requires Valid()
      reads this, lines
    {
      lines[lineIdx].level
    }

    /** `diag_init`. */
    constructor ()
      ensures Valid() && Level() == 0 && fresh(lines)
    {
      lines := new Line[2](_ => Line(0, true));
      lineIdx := 0;
      eolOnNextRaw := false;
    }

    /** `switch_lines`. */
    method SwitchLines()
      requires Valid()
      modifies this, lines
      ensures Valid() && lineIdx == 1 - old(lineIdx) && Level() == old(Level())
      ensures lines[lineIdx].empty == old(lines[1 - lineIdx].empty) && lines[1 - lineIdx] == old(lines[lineIdx])
      ensures eolOnNextRaw == old(eolOnNextRaw)
    {
      var newIdx := 1 - lineIdx;
      lines[newIdx] := lines[newIdx].(level := lines[lineIdx].level);
      lineIdx := newIdx;
    }

    /** `diag_dump_line_do`: the line that was written before last is printed and becomes the next one. */
    method DumpLine()
      requires Valid()
      modifies this, lines
      ensures Valid() && Level() == old(Level())
    {
      SwitchLines();
      if lines[lineIdx].empty {
        return;
      }
      lines[lineIdx] := lines[lineIdx].(empty := true);
      eolOnNextRaw := false;
    }

    /** `diag_log_raw_do`. */
    method LogRaw()
      requires Valid()
      modifies this, lines
      ensures Valid() && Level() == old(Level())
    {
      if eolOnNextRaw {
        DumpLine();
      }
      LogText();
    }

    /** `diag_log_item_do` and `diag_log_cbor_do`. */
    method LogText()
      requires Valid()
      modifies lines
      ensures Valid() && Level() == old(Level())
    {
      lines[lineIdx] := lines[lineIdx].(empty := false);
    }

    /** `diag_eol_do`. */
    method Eol()
      requires Valid()
      modifies this`eolOnNextRaw
      ensures Valid() && Level() == old(Level())
    {
      eolOnNextRaw := true;
    }

    /** `isbuf_indent`. */
    method Indent()
      requires Valid()
      modifies lines
      ensures Valid() && Level() == old(Level()) + 1
    {
      lines[lineIdx] := lines[lineIdx].(level := lines[lineIdx].level + 1);
    }

    /** `isbuf_dedent`, with the condition that it asserts. */
    method Dedent()
      requires Valid() && Level() > 0
      modifies lines
      ensures Valid() && Level() == old(Level()) - 1
    {
      lines[lineIdx] := lines[lineIdx].(level := lines[lineIdx].level - 1);
    }
  }

  // ---------- the decoder with its calls ----------

  predicate InMap(blocks: seq<Block>) {
    blocks != [] && Top(blocks).typ == MAJOR_MAP
  }

  predicate IsOdd(blocks: seq<Block>) {
    blocks != [] && Top(blocks).count % 2 == 1
  }

  lemma ContextCounted(blocks: seq<Block>, n: nat)
    requires blocks != []
    ensures InMap(Counted(blocks, n)) == InMap(blocks) && IsOdd(Counted(blocks, n)) == Flipped(IsOdd(blocks), n)
    ensures Flipped(IsOdd(blocks), 1) == !IsOdd(blocks)
  {}

  lemma ContextPushed(blocks: seq<Block>, typ: int, indef: bool, len: u64)
    requires blocks != []
    ensures InMap(Pushed(blocks, typ, indef, len)) == (typ == MAJOR_MAP) && !IsOdd(Pushed(blocks, typ, indef, len))
  {
    assert Top(Pushed(blocks, typ, indef, len)).count == 0;
  }

  /** What more items in the innermost block call for. */
  lemma LevelCounted(blocks: seq<Block>, n: nat)
    requires blocks != []
    ensures LevelOf(Counted(blocks, n)) - LevelOf(blocks) ==
            MapExtra(InMap(blocks), Flipped(IsOdd(blocks), n)) - MapExtra(InMap(blocks), IsOdd(blocks))
  {
    ContextCounted(blocks, n);
  }

  /** The outcome of an operation `d` with its calls: the level went with the calls, or a dedent failed on the way. */
  predicate Shows<T(==)>(before: nat, calls: seq<int>, d: Result<T>, r: Result<T>, after: nat) {
    if Climb(before, calls).Err? then r == Err(ErrAssert)
    else Climb(before, calls) == Ok(after) && r == d
  }

  function ItemOf(d: Result<Decoded>): Result<Item> {
    if d.Err? then Err(d.error) else Ok(d.value.item)
  }

  function ItemsOf(d: Result<DecodedItems>): Result<seq<Item>> {
    if d.Err? then Err(d.error) else Ok(d.value.items)
  }

  function HeadOf(p: Result<Predecoded>): Result<Head> {
    if p.Err? then Err(p.error) else Ok(p.value.head)
  }

  /** The calls of `predecode`, which finishes numbers, simple values and tags itself. */
  function HeadCalls(b: seq<byte>, inMap: bool, odd: bool): seq<int> {
    var p := Predecode(b);
    if p.Err? || p.value.head.Break? || MAJOR_BYTES <= p.value.head.major <= MAJOR_MAP then []
    else FinishCalls(inMap, !odd)
  }

  lemma NoHeadCalls(b: seq<byte>, inMap: bool, odd: bool)
    requires b != [] && (b[0] == BREAK || MAJOR_BYTES <= Major(b[0]) <= MAJOR_MAP)
    ensures HeadCalls(b, inMap, odd) == []
  {
    hide Predecode, Major, LowBits;
  }

  lemma NoClimb(level: nat)
    ensures Climb(level, []) == Ok(level)
  {}

  /** The calls for an item that is not a tag, an array or a map. */
  lemma LeafCalls(b: seq<byte>, inMap: bool, odd: bool)
    requires b != [] && b[0] != BREAK && (Major(b[0]) < MAJOR_ARRAY || Major(b[0]) == MAJOR_7)
    ensures Calls(b, inMap, odd) ==
            if Decode(b).Err? then [] else FinishCalls(inMap, Flipped(odd, Decode(b).value.count))
  {
    hide Predecode, Major, LowBits, ReadString, ReadUint, ReadInt, ReadSval, Decode;
    DecodeByMajor(b);
    if MAJOR_BYTES <= Major(b[0]) <= MAJOR_TEXT {
    } else {
      SmallErrors(b);
    }
  }

  lemma SmallErrors(b: seq<byte>)
    requires b != [] && b[0] != BREAK && (Major(b[0]) < MAJOR_BYTES || Major(b[0]) == MAJOR_7)
    ensures Decode(b).Err? <==> Predecode(b).Err?
    ensures Decode(b).Ok? ==> Decode(b).value.count == 1
  {
    hide Predecode, Major, LowBits, Decode;
    DecodeByMajor(b);
  }

  lemma TagCalls(b: seq<byte>, inMap: bool, odd: bool)
    requires b != [] && b[0] != BREAK && Major(b[0]) == MAJOR_TAG
    ensures var p := PredecodeCheck(MAJOR_TAG, b);
            Calls(b, inMap, odd) ==
            if p.Err? then []
            else FinishCalls(inMap, !odd) + if p.value.head.arg >= TWO_32 then [] else Calls(p.value.rest, inMap, !odd)
  {
    hide Predecode, Major, LowBits;
  }

  lemma BlockCalls(major: int, b: seq<byte>, inMap: bool, odd: bool)
    requires b != [] && b[0] != BREAK && Major(b[0]) == major && MAJOR_ARRAY <= major <= MAJOR_MAP
    ensures var indef := LowBits(b[0]) == LBITS_INDEFINITE;
            var p := ReadOpen(major, indef, b);
            Calls(b, inMap, odd) ==
            if p.Err? then []
            else
              var h := p.value.head;
              [1] + ItemsCalls(p.value.rest, if indef then None else Some(BlockLen(h)), major == MAJOR_MAP, false) +
              if Decode(b).Ok? then [-1] + FinishCalls(inMap, !odd) else []
  {
    hide Predecode, Major, LowBits, Decode, ItemsCalls;
  }

  /** One turn of the item loop, after some calls. */
  lemma ItemsTurn(level: nat, made: seq<int>, now: nat, b: seq<byte>, limit: Option<nat>, inMap: bool, odd: bool)
    requires Climb(level, made) == Ok(now) && limit != Some(0) && !AtBreak(b)
    ensures var cs, first := ItemsCalls(b, limit, inMap, odd), Calls(b, inMap, odd);
            && (Climb(now, first).Err? ==> Climb(level, made + cs).Err?)
            && (Climb(now, first).Ok? ==> Climb(level, made + first) == Climb(now, first))
            && (if Decode(b).Err? then made + cs == made + first
                else made + cs == made + first + ItemsCalls(Decode(b).value.rest, OneLess(limit), inMap,
                                                            Flipped(odd, Decode(b).value.count)))
  {
    hide Climb, Calls, Decode, ItemsCalls, Flipped, DecodeItems, Drift, ItemsDrift, Calm, CalmItems;
    ItemsStep(b, limit, inMap, odd);
    var first := Calls(b, inMap, odd);
    var more := if Decode(b).Err? then []
                else ItemsCalls(Decode(b).value.rest, OneLess(limit), inMap, Flipped(odd, Decode(b).value.count));
    assert made + (first + more) == made + first + more;
    ClimbInTurn(level, made, first);
    ClimbInTurn(level, made + first, more);
    assert first + [] == first && made + first + [] == made + first;
  }

  /** An array or a map, stage by stage: the header, the items, the pairs, the end. */
  lemma BlockStages(major: int, indef: bool, b: seq<byte>, inMap: bool, odd: bool, level: nat)
    requires b != [] && b[0] != BREAK && Major(b[0]) == major && MAJOR_ARRAY <= major <= MAJOR_MAP
    requires indef == (LowBits(b[0]) == LBITS_INDEFINITE)
    ensures var o, climb := ReadOpen(major, indef, b), Climb(level, Calls(b, inMap, odd));
            if o.Err? then climb == Ok(level) && Decode(b) == Err(o.error)
            else
              var h, rest := o.value.head, o.value.rest;
              var limit := if indef then None else Some(BlockLen(h));
              var inside := Climb(level + 1, ItemsCalls(rest, limit, major == MAJOR_MAP, false));
              var xs := DecodeItems(rest, limit);
              h.major == major &&
              if inside.Err? then climb.Err?
              else if xs.Err? then climb == inside && Decode(b) == Err(xs.error)
              else if major == MAJOR_MAP && |xs.value.items| % 2 != 0 then
                climb == inside && Decode(b) == Err(ErrNitems)
              else
                var e := EndBlock(indef, BlockLen(h), xs.value.count, xs.value.rest);
                if e.Err? then climb == inside && Decode(b) == Err(e.error)
                else
                  && climb == Climb(inside.value, [-1] + FinishCalls(inMap, !odd))
                  && Decode(b) == Ok(Decoded(if major == MAJOR_MAP then Map(indef, xs.value.items)
                                             else Array(indef, xs.value.items), 1, e.value))
  {
    hide Calls, ItemsCalls, Decode, DecodeItems, Predecode, ReadOpen, Major, LowBits, Climb, FinishCalls, EndBlock;
    BlockCalls(major, b, inMap, odd);
    DecodeByBlock(major, b);
    NoClimb(level);
    var o := ReadOpen(major, indef, b);
    if o.Ok? {
      var limit := if indef then None else Some(BlockLen(o.value.head));
      var inner := ItemsCalls(o.value.rest, limit, major == MAJOR_MAP, false);
      BlockClimb(level, inner, if Decode(b).Ok? then [-1] + FinishCalls(inMap, !odd) else [], inMap, odd);
    }
  }

  lemma OpenHead(major: int, indef: bool, b: seq<byte>)
    requires ReadOpen(major, indef, b).Ok?
    ensures ReadOpen(major, indef, b).value.head.major == major
  {
    hide Predecode;
  }

  lemma Standing(cs: CborStream)
    requires cs.Valid()
    ensures cs.blocks != []
  {
    hide NbBuffer.Valid;
  }

  /** Blocks can be pushed and popped without touching the buffer. */
  lemma PushedStream(cs: CborStream, major: int, indef: bool, n: u64)
    requires cs.Valid() && MAJOR_BYTES <= major <= MAJOR_MAP
    ensures ValidBlocks(cs.blocks) && ValidBlocks(Pushed(cs.blocks, major, indef, n)) && cs.buf.Valid()
    ensures cs !in cs.buf.Repr
  {
    hide NbBuffer.Valid;
  }

  lemma PoppedStream(cs: CborStream, major: int)
    requires cs.Valid() && MAJOR_ARRAY <= major <= MAJOR_MAP
    ensures ValidBlocks(cs.blocks) && cs.buf.Valid() && cs !in cs.buf.Repr && cs.blocks != []
    ensures Top(cs.blocks).typ == major ==> |cs.blocks| > 1 && ValidBlocks(Popped(cs.blocks))
  {
    hide NbBuffer.Valid;
  }

  lemma StreamIsValid(cs: CborStream)
    requires cs.buf.Valid() && cs !in cs.buf.Repr && ValidBlocks(cs.blocks)
    ensures cs.Valid()
  {}

  /** The decoder as its diagnostics see it: every call of `cbor_decode_item` on the stream, with the indentation
      calls in between. */
  class DiagDecoder {
    const cs: CborStream
    const diag: Diag

    ghost predicate Valid()
      reads this, cs, cs.buf, cs.buf.Repr, diag
    {
      cs.DecReady() && diag.Valid() && diag !in cs.buf.Repr && diag.lines !in cs.buf.Repr
    }

    constructor (cs: CborStream, diag: Diag)
      requires cs.DecReady() && diag.Valid() && diag !in cs.buf.Repr && diag.lines !in cs.buf.Repr
      ensures this.cs == cs && this.diag == diag && Valid()
    {
      this.cs := cs;
      this.diag := diag;
    }

    /** `diag_finish_item_do`, after an item that has been counted. */
    method FinishItem() returns (r: Result<()>)
      requires Valid()
      modifies diag, diag.lines
      ensures Valid()
      ensures Shows(old(diag.Level()), FinishCalls(InMap(cs.blocks), IsOdd(cs.blocks)), Ok(()), r, diag.Level())
    {
      hide CborStream.Valid, NbBuffer.Valid, Climb;
      assert cs.blocks != [] by {
        Standing(cs);
      }
      OneUp(diag.Level());
      OneDown(diag.Level());
      NoClimb(diag.Level());
      diag.LogText();
      var top := Top(cs.blocks);
      if top.typ == MAJOR_ARRAY {
        diag.Eol();
      } else if top.typ == MAJOR_MAP {
        if top.count % 2 == 0 {
          if diag.Level() == 0 {
            return Err(ErrAssert);
          }
          diag.Dedent();
          diag.Eol();
        } else {
          diag.LogText();
          diag.Eol();
          diag.Indent();
        }
      } else if top.typ == NO_BLOCK {
        diag.Eol();
      }
      r := Ok(());
    }

    /** Numbers, simple values and strings. */
    method DecodeLeaf(major: int) returns (r: Result<Item>)
      requires Valid() && (0 <= major < MAJOR_ARRAY || major == MAJOR_7)
      requires var b := cs.buf.Abs.rem; b != [] && b[0] != BREAK && Major(b[0]) == major
      modifies cs, cs.buf, cs.buf.Repr, diag, diag.lines
      ensures Valid() && cs.buf.Repr == old(cs.buf.Repr)
      ensures var b := old(cs.buf.Abs.rem);
              var d, calls := Decode(b), Calls(b, InMap(old(cs.blocks)), IsOdd(old(cs.blocks)));
              && Shows(old(diag.Level()), calls, ItemOf(d), r, diag.Level())
              && (r.Ok? ==> cs.buf.Abs.rem == d.value.rest && cs.blocks == Counted(old(cs.blocks), d.value.count))
    {
      hide CborStream.Valid, NbBuffer.Valid, Counted, Calls, Decode, Major, LowBits, InMap, IsOdd, Flipped;
      LeafCalls(cs.buf.Abs.rem, InMap(cs.blocks), IsOdd(cs.blocks));
      NoClimb(diag.Level());
      ghost var d := Decode(cs.buf.Abs.rem);
      diag.LogRaw();
      var item := cs.DecodeItem();
      if item.Err? {
        return item;
      }
      ContextCounted(old(cs.blocks), d.value.count);
      var finished := FinishItem();
      r := if finished.Err? then Err(finished.error) else item;
    }

    /** The tag case, with `cbor_decode_tag`: the tag is an item of its own. */
    method DecodeTagged() returns (r: Result<Item>)
      requires Valid()
      requires var b := cs.buf.Abs.rem; b != [] && b[0] != BREAK && Major(b[0]) == MAJOR_TAG
      modifies cs, cs.buf, cs.buf.Repr, diag, diag.lines
      ensures Valid() && cs.buf.Repr == old(cs.buf.Repr)
      ensures var b := old(cs.buf.Abs.rem);
              var d, calls := Decode(b), Calls(b, InMap(old(cs.blocks)), IsOdd(old(cs.blocks)));
              && Shows(old(diag.Level()), calls, ItemOf(d), r, diag.Level())
              && (r.Ok? ==> cs.buf.Abs.rem == d.value.rest && cs.blocks == Counted(old(cs.blocks), d.value.count))
      decreases |cs.buf.Abs.rem|, 0
    {
      hide CborStream.Valid, NbBuffer.Valid, Counted, Calls, Decode, Predecode, Major, LowBits, InMap, IsOdd, Flipped,
           Climb, FinishCalls;
      ghost var b, inMap, odd, level := cs.buf.Abs.rem, InMap(cs.blocks), IsOdd(cs.blocks), diag.Level();
      TagCalls(b, inMap, odd);
      DecodeByTag(b);
      NoClimb(level);
      diag.LogRaw();
      var head := cs.PredecodeCheck(MAJOR_TAG);
      if head.Err? {
        return Err(head.error);
      }
      ContextCounted(old(cs.blocks), 1);
      ghost var rest := cs.buf.Abs.rem;
      ClimbInTurn(level, FinishCalls(inMap, !odd), if head.value.arg >= TWO_32 then [] else Calls(rest, inMap, !odd));
      var finished := FinishItem();
      if finished.Err? {
        return Err(finished.error);
      }
      NoClimb(diag.Level());
      if head.value.arg >= TWO_32 {
        return Err(ErrRange);
      }
      ghost var inner := Decode(rest);
      var item := DecodeItem();
      if item.Err? {
        return item;
      }
      CountedTwice(old(cs.blocks), 1, inner.value.count);
      r := Ok(Tag(head.value.arg, 0, item.value));
    }

    /** `predecode`, with its diagnostics. */
    method ReadHead() returns (r: Result<Head>)
      requires Valid()
      modifies cs, cs.buf, cs.buf.Repr, diag, diag.lines
      ensures Valid() && cs.buf.Repr == old(cs.buf.Repr)
      ensures var b := old(cs.buf.Abs.rem);
              var p, calls := Predecode(b), HeadCalls(b, InMap(old(cs.blocks)), IsOdd(old(cs.blocks)));
              && Shows(old(diag.Level()), calls, HeadOf(p), r, diag.Level())
              && (r.Ok? ==> cs.buf.Abs.rem == p.value.rest && old(cs.blocks) != [] &&
                            cs.blocks == if r.value.Break? then old(cs.blocks) else Counted(old(cs.blocks), 1))
    {
      hide CborStream.Valid, NbBuffer.Valid, Counted, Predecode, Major, LowBits, InMap, IsOdd, Flipped, Climb,
           FinishCalls;
      Standing(cs);
      NoClimb(diag.Level());
      ContextCounted(cs.blocks, 1);
      diag.LogRaw();
      var head :- cs.Predecode();
      if head.Head? && !(MAJOR_BYTES <= head.major <= MAJOR_MAP) {
        diag.LogText();
        var finished := FinishItem();
        if finished.Err? {
          return Err(finished.error);
        }
      }
      r := Ok(head);
    }

    /** `cbor_decode_array_begin`, `cbor_decode_map_begin` and their indefinite forms. An item of another type is an
        error, but only after its own calls. */
    method BlockStart(major: int, indef: bool) returns (r: Result<u64>)
      requires Valid() && MAJOR_ARRAY <= major <= MAJOR_MAP
      modifies cs, cs.buf, cs.buf.Repr, diag, diag.lines
      ensures Valid() && cs.buf.Repr == old(cs.buf.Repr)
      ensures var b := old(cs.buf.Abs.rem);
              var o, calls := ReadOpen(major, indef, b), HeadCalls(b, InMap(old(cs.blocks)), IsOdd(old(cs.blocks)));
              if o.Err? then Shows(old(diag.Level()), calls, Err(o.error), r, diag.Level())
              else
                && r == Ok(BlockLen(o.value.head)) && cs.buf.Abs.rem == o.value.rest
                && old(cs.blocks) != [] && cs.blocks == Pushed(Counted(old(cs.blocks), 1), major, indef, r.value)
                && diag.Level() == old(diag.Level()) + 1
                && diag.Level() - LevelOf(cs.blocks) == old(diag.Level()) - LevelOf(old(cs.blocks))
    {
      hide CborStream.Valid, NbBuffer.Valid, Counted, Pushed, Predecode, LevelOf, InMap, IsOdd, Climb, FinishCalls,
           Major, LowBits;
      Standing(cs);
      NoClimb(diag.Level());
      var head :- ReadHead();
      if head.Break? || head.major != major {
        return Err(ErrItem);
      }
      if head.indef != indef {
        return Err(ErrIndef);
      }
      OpenHead(major, indef, old(cs.buf.Abs.rem));
      var n: int := head.arg;
      if major == MAJOR_MAP {
        n := 2 * n % 0x1_0000_0000_0000_0000;
      }
      PushedStream(cs, major, indef, n);
      cs.blocks := Pushed(cs.blocks, major, indef, n);
      StreamIsValid(cs);
      diag.LogText();
      diag.Eol();
      diag.Indent();
      LevelPushed(old(cs.blocks), major, indef, n);
      r := Ok(n);
    }

    /** The array and map cases, with the begin and end calls of `cbor_decode_array_begin` to `cbor_decode_map_end`. */
    method DecodeBlock(major: int, indef: bool) returns (r: Result<Item>)
      requires Valid() && MAJOR_ARRAY <= major <= MAJOR_MAP
      requires var b := cs.buf.Abs.rem;
               b != [] && b[0] != BREAK && Major(b[0]) == major && indef == (LowBits(b[0]) == LBITS_INDEFINITE)
      modifies cs, cs.buf, cs.buf.Repr, diag, diag.lines
      ensures Valid() && cs.buf.Repr == old(cs.buf.Repr)
      ensures var b := old(cs.buf.Abs.rem);
              var d, calls := Decode(b), Calls(b, InMap(old(cs.blocks)), IsOdd(old(cs.blocks)));
              && Shows(old(diag.Level()), calls, ItemOf(d), r, diag.Level())
              && (r.Ok? ==> cs.buf.Abs.rem == d.value.rest && cs.blocks == Counted(old(cs.blocks), d.value.count))
      decreases |cs.buf.Abs.rem|, 0
    {
      hide CborStream.Valid, NbBuffer.Valid, Counted, Pushed, Popped, Calls, ItemsCalls, Decode, Cbor.DecodeItems,
           Predecode, ReadOpen, Major, LowBits, InMap, IsOdd, Flipped, Climb, FinishCalls, Cbor.EndBlock, BlockLen;
      Standing(cs);
      ghost var b, level := cs.buf.Abs.rem, diag.Level();
      ghost var outer := Counted(cs.blocks, 1);
      BlockStages(major, indef, b, InMap(cs.blocks), IsOdd(cs.blocks), level);
      NoHeadCalls(b, InMap(cs.blocks), IsOdd(cs.blocks));
      NoClimb(level);
      var start := BlockStart(major, indef);
      if start.Err? {
        return Err(start.error);
      }
      var n := start.value;
      ContextPushed(outer, major, indef, n);
      ghost var xs := Cbor.DecodeItems(cs.buf.Abs.rem, if indef then None else Some(n));
      var items := DecodeItems(indef, n);
      if items.Err? {
        return Err(items.error);
      }
      TopOfBody(outer, major, indef, n, xs.value.count);
      if major == MAJOR_MAP && |items.value| % 2 != 0 {
        return Err(ErrNitems);
      }
      ContextCounted(old(cs.blocks), 1);
      NoClimb(diag.Level());
      if indef {
        NoHeadCalls(cs.buf.Abs.rem, InMap(cs.blocks), IsOdd(cs.blocks));
      }
      var ended := BlockEnd(major);
      if ended.Err? {
        return Err(ended.error);
      }
      r := Ok(if major == MAJOR_MAP then Map(indef, items.value) else Array(indef, items.value));
    }

    /** `cbor_decode_array_end` and `cbor_decode_map_end`. An item where the break should be is an error, but only after
        its own calls. */
    method BlockEnd(major: int) returns (r: Result<()>)
      requires Valid() && MAJOR_ARRAY <= major <= MAJOR_MAP
      modifies cs, cs.buf, cs.buf.Repr, diag, diag.lines
      ensures Valid() && cs.buf.Repr == old(cs.buf.Repr)
      ensures old(cs.blocks) != [] && (Top(old(cs.blocks)).typ == major ==> |old(cs.blocks)| > 1)
      ensures var b, top := old(cs.buf.Abs.rem), Top(old(cs.blocks));
              var e := Cbor.EndBlock(top.indef, top.len, top.count, b);
              var calls := if top.indef then HeadCalls(b, InMap(old(cs.blocks)), IsOdd(old(cs.blocks))) else [];
              if top.typ != major then r == Err(ErrOper) && diag.Level() == old(diag.Level())
              else if e.Err? then Shows(old(diag.Level()), calls, Err(e.error), r, diag.Level())
              else
                var outer := Popped(old(cs.blocks));
                && cs.buf.Abs.rem == e.value && cs.blocks == outer
                && Shows(old(diag.Level()), [-1] + FinishCalls(InMap(outer), IsOdd(outer)), Ok(()), r, diag.Level())
    {
      hide CborStream.Valid, NbBuffer.Valid, Climb, FinishCalls, InMap, IsOdd, Popped, Predecode;
      PoppedStream(cs, major);
      NoClimb(diag.Level());
      var top := Top(cs.blocks);
      if top.typ == NO_BLOCK || top.typ != major {
        return Err(ErrOper);
      }
      if top.indef {
        var head := ReadHead();
        if head.Err? {
          return Err(head.error);
        }
        if !head.value.Break? {
          return Err(ErrBreak);
        }
      } else if top.count != top.len {
        return Err(ErrOper);
      }
      ghost var outer := Popped(cs.blocks);
      PoppedStream(cs, major);
      cs.blocks := Popped(cs.blocks);
      StreamIsValid(cs);
      if !top.indef {
        diag.DumpLine();
      }
      OneDown(diag.Level());
      ClimbInTurn(diag.Level(), [-1], FinishCalls(InMap(outer), IsOdd(outer)));
      if diag.Level() == 0 {
        return Err(ErrAssert);
      }
      diag.Dedent();
      r := FinishItem();
    }

    /** `decode_array_items`. */
    method DecodeItems(indef: bool, n: nat) returns (r: Result<seq<Item>>)
      requires Valid()
      modifies cs, cs.buf, cs.buf.Repr, diag, diag.lines
      ensures Valid() && cs.buf.Repr == old(cs.buf.Repr)
      ensures var b, limit := old(cs.buf.Abs.rem), if indef then None else Some(n);
              var d, calls :=
                Cbor.DecodeItems(b, limit), ItemsCalls(b, limit, InMap(old(cs.blocks)), IsOdd(old(cs.blocks)));
              && Shows(old(diag.Level()), calls, ItemsOf(d), r, diag.Level())
              && (r.Ok? ==> cs.buf.Abs.rem == d.value.rest && cs.blocks == Counted(old(cs.blocks), d.value.count))
      decreases |cs.buf.Abs.rem|, 2
    {
      hide CborStream.Valid, NbBuffer.Valid, Counted, Calls, ItemsCalls, Decode, Cbor.DecodeItems, InMap, IsOdd,
           Flipped, Climb, AfterItems, LevelOf, Drift, MapExtra;
      ghost var inMap, level := InMap(cs.blocks), diag.Level();
      ghost var made: seq<int>, count: nat := [], 0;
      ghost var limit := if indef then None else Some(n);
      var items: seq<Item> := [];
      Standing(cs);
      CountedTwice(cs.blocks, 0, 0);
      DecodeItemsStart(cs.buf.Abs.rem, limit);
      NoClimb(level);
      assert [] + ItemsCalls(cs.buf.Abs.rem, limit, inMap, IsOdd(cs.blocks)) ==
             ItemsCalls(cs.buf.Abs.rem, limit, inMap, IsOdd(cs.blocks));
      while indef || |items| < n
        invariant Valid() && cs.buf.Repr == old(cs.buf.Repr) && |cs.buf.Abs.rem| <= |old(cs.buf.Abs.rem)|
        invariant (indef || |items| <= n) && cs.blocks == Counted(old(cs.blocks), count) && InMap(cs.blocks) == inMap
        invariant limit == if indef then None else Some(n - |items|)
        invariant Climb(level, made) == Ok(diag.Level())
        invariant ItemsCalls(old(cs.buf.Abs.rem), if indef then None else Some(n), inMap, IsOdd(old(cs.blocks))) ==
                  made + ItemsCalls(cs.buf.Abs.rem, limit, inMap, IsOdd(cs.blocks))
        invariant Cbor.DecodeItems(old(cs.buf.Abs.rem), if indef then None else Some(n)) ==
                  AfterItems(items, count, Cbor.DecodeItems(cs.buf.Abs.rem, limit))
        decreases |cs.buf.Abs.rem|
      {
        ghost var b, odd := cs.buf.Abs.rem, IsOdd(cs.blocks);
        AfterItemsStep(b, limit, items, count);
        var done := cs.IsBreak();
        if done {
          break;
        }
        ItemsTurn(level, made, diag.Level(), b, limit, inMap, odd);
        ghost var d := Decode(b);
        var item := DecodeItem();
        if item.Err? {
          return Err(item.error);
        }
        made := made + Calls(b, inMap, odd);
        ContextCounted(Counted(old(cs.blocks), count), d.value.count);
        CountedTwice(old(cs.blocks), count, d.value.count);
        items, count, limit := items + [item.value], count + d.value.count, OneLess(limit);
      }
      ItemsEnd(cs.buf.Abs.rem, limit, inMap, IsOdd(cs.blocks), made, items, count);
      r := Ok(items);
    }

    /** `cbor_decode_item`: for every input, the result of decoding it, and the level that its calls lead to; or a
        failed assert, exactly when one of the calls would take the level below zero. */
    method DecodeItem() returns (r: Result<Item>)
      requires Valid()
      modifies cs, cs.buf, cs.buf.Repr, diag, diag.lines
      ensures Valid() && cs.buf.Repr == old(cs.buf.Repr)
      ensures var b := old(cs.buf.Abs.rem);
              var d, calls := Decode(b), Calls(b, InMap(old(cs.blocks)), IsOdd(old(cs.blocks)));
              && Shows(old(diag.Level()), calls, ItemOf(d), r, diag.Level())
              && (r.Ok? ==> cs.buf.Abs.rem == d.value.rest && cs.blocks == Counted(old(cs.blocks), d.value.count))
              && (r.Ok? ==> old(cs.blocks) != [] &&
                            diag.Level() - LevelOf(cs.blocks) == old(diag.Level()) - LevelOf(old(cs.blocks)) +
                                                                 Drift(b, InMap(old(cs.blocks)), IsOdd(old(cs.blocks))))
      decreases |cs.buf.Abs.rem|, 1
    {
      hide NbBuffer.Valid, LevelOf, Drift, Climb, Calls, Flipped, MapExtra, ValidBlocks, Counted, Decode, Predecode,
           Major, LowBits, InMap, IsOdd, ItemsCalls, ReadString;
      NoClimb(diag.Level());
      var c := cs.buf.Peek();
      if c == EOF_CHAR || c == BREAK {
        DecodeByMajor(cs.buf.Abs.rem);
        NothingAtBreak(cs.buf.Abs.rem, InMap(cs.blocks), IsOdd(cs.blocks));
        return Err(ErrUnsup);
      }
      assert cs.blocks != [] by {
        Standing(cs);
      }
      ghost var b, blocks := cs.buf.Abs.rem, cs.blocks;
      if Decode(b).Ok? && Climb(diag.Level(), Calls(b, InMap(blocks), IsOdd(blocks))).Ok? {
        DriftOfItem(diag.Level(), b, blocks);
      }
      var major, indef := Major(c), LowBits(c) == LBITS_INDEFINITE;
      if major == MAJOR_TAG {
        r := DecodeTagged();
      } else if major == MAJOR_ARRAY || major == MAJOR_MAP {
        r := DecodeBlock(major, indef);
      } else {
        r := DecodeLeaf(major);
      }
    }

    /** `diag_dump_cbor_stream`: one item after another at the top level, then both lines are flushed. */
    method DumpStream() returns (r: Result<seq<Item>>)
      requires Valid() && cs.blocks != [] && !InMap(cs.blocks) && diag.Level() == 0
      modifies cs, cs.buf, cs.buf.Repr, diag, diag.lines
      ensures Valid()
      ensures Shows(0, StreamCalls(old(cs.buf.Abs.rem)), StreamItems(old(cs.buf.Abs.rem)), r, diag.Level())
      ensures r == if Sunk(StreamPoints(old(cs.buf.Abs.rem), 0)) then Err(ErrAssert)
                   else StreamItems(old(cs.buf.Abs.rem))
      ensures CalmStream(old(cs.buf.Abs.rem)) ==> r == StreamItems(old(cs.buf.Abs.rem))
      ensures StreamItems(old(cs.buf.Abs.rem)).Ok? && AllUnchunked(StreamItems(old(cs.buf.Abs.rem)).value) ==>
                (diag.Level() == 0 <==> AllTagsArePaired(StreamItems(old(cs.buf.Abs.rem)).value))
    {
      hide NbBuffer.Valid, ValidBlocks, Counted, Calls, Decode, InMap, IsOdd, Flipped, Climb, CalmStream, StreamCalls,
           StreamItems, StreamPoints, Sunk;
      ghost var b0, made: seq<int> := cs.buf.Abs.rem, [];
      var items: seq<Item> := [];
      NoClimb(0);
      StreamStart(b0);
      var eof := cs.buf.IsEof();
      while !eof
        invariant Valid() && cs.buf.Repr == old(cs.buf.Repr) && !InMap(cs.blocks) && eof == (cs.buf.Abs.rem == [])
        invariant Climb(0, made) == Ok(diag.Level()) && StreamCalls(b0) == made + StreamCalls(cs.buf.Abs.rem)
        invariant StreamItems(b0) == AfterStream(items, StreamItems(cs.buf.Abs.rem))
        decreases |cs.buf.Abs.rem|
      {
        ghost var b := cs.buf.Abs.rem;
        StreamTurn(made, diag.Level(), b, items, IsOdd(cs.blocks));
        ghost var d, odd, blocks := Decode(b), IsOdd(cs.blocks), cs.blocks;
        var item := DecodeItem();
        if item.Err? {
          StreamEnds(b0);
          return Err(item.error);
        }
        ContextCounted(blocks, d.value.count);
        diag.Eol();
        made, items := made + Calls(b, false, odd), items + [item.value];
        eof := cs.buf.IsEof();
      }
      diag.DumpLine();
      diag.DumpLine();
      StreamEnd(made, items);
      StreamEnds(b0);
      r := Ok(items);
    }
  }

  /** Decoding an item moves the level away from what the open blocks call for by the drift of the item. */
  lemma DriftOfItem(level: nat, b: seq<byte>, blocks: seq<Block>)
    requires blocks != [] && Decode(b).Ok? && Climb(level, Calls(b, InMap(blocks), IsOdd(blocks))).Ok?
    ensures var after := Counted(blocks, Decode(b).value.count);
            Climb(level, Calls(b, InMap(blocks), IsOdd(blocks))).value - LevelOf(after) ==
            level - LevelOf(blocks) + Drift(b, InMap(blocks), IsOdd(blocks))
  {
    hide Climb, Calls, Decode, Drift, Calm, Counted, LevelOf, InMap, IsOdd, MapExtra, Flipped, Sum, Low;
    CallsLevelOut(b, InMap(blocks), IsOdd(blocks));
    LevelCounted(blocks, Decode(b).value.count);
    ClimbsIff(level, Calls(b, InMap(blocks), IsOdd(blocks)));
  }

  lemma BlockClimb(level: nat, inner: seq<int>, tail: seq<int>, inMap: bool, odd: bool)
    ensures var all := [1] + inner + tail;
            && (Climb(level + 1, inner).Err? ==> Climb(level, all).Err?)
            && (Climb(level + 1, inner).Ok? ==> Climb(level, all) == Climb(Climb(level + 1, inner).value, tail))
    ensures tail == [-1] + FinishCalls(inMap, !odd) && Climb(level + 1, inner).Ok? ==>
              var now := Climb(level + 1, inner).value;
              Climb(now, tail) == if now == 0 then Err(ErrAssert) else Climb(now - 1, FinishCalls(inMap, !odd))
    ensures tail == [] && Climb(level + 1, inner).Ok? ==>
              Climb(Climb(level + 1, inner).value, tail) == Climb(level + 1, inner)
  {
    hide FinishCalls;
    var f := FinishCalls(inMap, !odd);
    assert Climb(level, [1]) == Ok(level + 1) by {
      OneUp(level);
    }
    ClimbInTurn(level, [1], inner);
    ClimbInTurn(level, [1] + inner, tail);
    if tail == [-1] + f && Climb(level + 1, inner).Ok? {
      var now := Climb(level + 1, inner).value;
      ClimbInTurn(now, [-1], f);
      OneDown(now);
    }
  }

  lemma OneUp(level: nat)
    ensures Climb(level, [1]) == Ok(level + 1)
  {
    assert [1][1..] == [];
  }

  lemma OneDown(level: nat)
    ensures Climb(level, [-1]) == if level == 0 then Err(ErrAssert) else Ok(level - 1)
  {
    assert [-1][1..] == [];
    if level > 0 {
      NoClimb(level - 1);
    }
  }

  lemma ItemsEnd(b: seq<byte>, limit: Option<nat>, inMap: bool, odd: bool, made: seq<int>, items: seq<Item>, count: nat)
    requires limit == Some(0) || AtBreak(b)
    ensures made + ItemsCalls(b, limit, inMap, odd) == made
    ensures AfterItems(items, count, Cbor.DecodeItems(b, limit)) == Ok(DecodedItems(items, count, b))
  {
    AfterItemsStep(b, limit, items, count);
    assert ItemsCalls(b, limit, inMap, odd) == [];
  }

  function AfterStream(items: seq<Item>, r: Result<seq<Item>>): Result<seq<Item>> {
    if r.Err? then r else Ok(items + r.value)
  }

  lemma StreamStart(b: seq<byte>)
    ensures [] + StreamCalls(b) == StreamCalls(b) && AfterStream([], StreamItems(b)) == StreamItems(b)
  {
    hide StreamItems;
    if StreamItems(b).Ok? {
      assert [] + StreamItems(b).value == StreamItems(b).value;
    }
  }

  lemma StreamEnd(made: seq<int>, items: seq<Item>)
    ensures made + StreamCalls([]) == made && AfterStream(items, StreamItems([])) == Ok(items)
  {
    assert items + [] == items;
  }

  lemma StreamTurn(made: seq<int>, now: nat, b: seq<byte>, items: seq<Item>, odd: bool)
    requires b != [] && Climb(0, made) == Ok(now)
    ensures var d, first := Decode(b), Calls(b, false, odd);
            && (Climb(now, first).Err? ==> Climb(0, made + StreamCalls(b)).Err?)
            && (Climb(now, first).Ok? ==> Climb(0, made + first) == Climb(now, first))
            && (d.Err? ==> made + StreamCalls(b) == made + first && StreamItems(b) == Err(d.error))
            && (d.Ok? ==> made + StreamCalls(b) == made + first + StreamCalls(d.value.rest) &&
                          AfterStream(items, StreamItems(b)) ==
                          AfterStream(items + [d.value.item], StreamItems(d.value.rest)))
  {
    hide Climb, Calls, Decode;
    NoMapNoParity(b, odd);
    var d, first := Decode(b), Calls(b, false, odd);
    var more := if d.Err? then [] else StreamCalls(d.value.rest);
    assert made + (first + more) == made + first + more;
    ClimbInTurn(0, made, first);
    ClimbInTurn(0, made + first, more);
    assert first + [] == first;
    if d.Ok? && StreamItems(d.value.rest).Ok? {
      assert items + ([d.value.item] + StreamItems(d.value.rest).value)
          == items + [d.value.item] + StreamItems(d.value.rest).value;
    }
  }

  /** Outside of maps the item count plays no part. */
  lemma {:induction false} NoMapNoParity(b: seq<byte>, odd: bool)
    ensures Calls(b, false, odd) == Calls(b, false, false)
    decreases |b|
  {
    hide Decode, ItemsCalls, ReadString, Predecode, Major, LowBits;
    if b != [] && b[0] != BREAK && Predecode(b).Ok? {
      NoMapNoParity(Predecode(b).value.rest, !odd);
      NoMapNoParity(Predecode(b).value.rest, true);
    }
  }

  lemma StreamEnds(b: seq<byte>)
    ensures CalmStream(b) ==> Climb(0, StreamCalls(b)).Ok?
    ensures StreamItems(b).Ok? && AllUnchunked(StreamItems(b).value) ==>
              Climb(0, StreamCalls(b)).Ok? &&
              (Climb(0, StreamCalls(b)) == Ok(0) <==> AllTagsArePaired(StreamItems(b).value))
    ensures Climb(0, StreamCalls(b)).Err? <==> Sunk(StreamPoints(b, 0))
  {
    hide Climb, StreamCalls, StreamItems, CalmStream, StreamPoints, Low;
    StreamUnderflowsIff(b);
    ClimbsIff(0, StreamCalls(b));
    if CalmStream(b) {
      CalmStreamsClimb(b);
    }
    if StreamItems(b).Ok? && AllUnchunked(StreamItems(b).value) {
      StreamLeaks(b);
    }
  }
}
