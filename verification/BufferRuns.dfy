/** Whole runs of a memory buffer: a write phase, a flush, and a read phase of any length. */
module BufferRuns {
  import opened Prelude
  import opened Buffer

  datatype ReadOp = OpRead(count: nat) | OpReadSlow(count: nat) | OpGetc | OpPeek | OpIsEof

  datatype Outcome = Data(bytes: seq<byte>) | Char(c: int) | AtEof(eof: bool)

  /** What an operation returns when `rem` is left, if the buffer is just a sequence of bytes. */
  function Outcome1(rem: seq<byte>, op: ReadOp): Outcome {
    match op
    case OpRead(n) => Data(rem[..Min(n, |rem|)])
    case OpReadSlow(n) => Data(rem[..Min(n, |rem|)])
    case OpGetc => Char(if rem == [] then EOF_CHAR else rem[0])
    case OpPeek => Char(if rem == [] then EOF_CHAR else rem[0])
    case OpIsEof => AtEof(rem == [])
  }

  /** What it takes off the input. */
  function Taken(rem: seq<byte>, op: ReadOp): (t: seq<byte>)
    ensures t <= rem
  {
    match op
    case OpRead(n) => rem[..Min(n, |rem|)]
    case OpReadSlow(n) => rem[..Min(n, |rem|)]
    case OpGetc => rem[..Min(1, |rem|)]
    case _ => []
  }

  function Outcomes(rem: seq<byte>, ops: seq<ReadOp>): (outs: seq<Outcome>)
    ensures |outs| == |ops|
  {
    if ops == [] then []
    else [Outcome1(rem, ops[0])] + Outcomes(rem[|Taken(rem, ops[0])|..], ops[1..])
  }

  function AllTaken(rem: seq<byte>, ops: seq<ReadOp>): (t: seq<byte>)
    ensures t <= rem
  {
    if ops == [] then []
    else
      var t := Taken(rem, ops[0]);
      var more := AllTaken(rem[|t|..], ops[1..]);
      assert rem == t + rem[|t|..];
      t + more
  }

  /** The bytes that an outcome hands to its caller for good; a peeked byte does not count. */
  function Returned(op: ReadOp, o: Outcome): seq<byte> {
    match o
    case Data(bytes) => bytes
    case Char(c) => if op.OpGetc? && 0 <= c < 256 then [c] else []
    case AtEof(_) => []
  }

  function AllReturned(ops: seq<ReadOp>, outs: seq<Outcome>): seq<byte>
    requires |ops| == |outs|
  {
    if ops == [] then [] else Returned(ops[0], outs[0]) + AllReturned(ops[1..], outs[1..])
  }

  function Concat(chunks: seq<seq<byte>>): seq<byte> {
    if chunks == [] then [] else Concat(chunks[..|chunks| - 1]) + chunks[|chunks| - 1]
  }

  /** Any mix of inline and slow writes of any sizes, then a flush. */
  method WriteAll(buf: NbBuffer, chunks: seq<seq<byte>>, slow: seq<bool>)
    requires buf.Valid() && buf.Writable() && |slow| == |chunks|
    modifies buf, buf.Repr
    ensures buf.Valid() && fresh(buf.Repr - old(buf.Repr)) && buf.mode == Idle && buf.len == 0
    ensures Grew(old(buf.Abs), buf.Abs, Concat(chunks))
  {
    hide NbBuffer.Valid;
    GrewNone(buf.Abs);
    var i := 0;
    while i < |chunks|
      invariant 0 <= i <= |chunks|
      invariant buf.Valid() && buf.Writable() && fresh(buf.Repr - old(buf.Repr))
      invariant i > 0 ==> buf.mode == Writing
      invariant Grew(old(buf.Abs), buf.Abs, Concat(chunks[..i]))
    {
      ghost var before := buf.Abs;
      if slow[i] {
        buf.WriteSlow(chunks[i]);
      } else {
        buf.Write(chunks[i]);
      }
      GrewTwice(old(buf.Abs), before, buf.Abs, Concat(chunks[..i]), chunks[i]);
      assert chunks[..i + 1][..i] == chunks[..i];
      i := i + 1;
    }
    assert chunks[..i] == chunks;
    if buf.mode != Writing {
      NothingToDrop(buf);
    }
    buf.Flush();
  }

  lemma GrewNone(a: Contents)
    ensures Grew(a, a, Concat([]))
  {}

  lemma NothingToDrop(buf: NbBuffer)
    requires buf.Valid() && buf.Writable()
    ensures buf.len - buf.pos == 0
  {}

  /** Any mix of reads behaves like reads of the plain byte sequence. */
  method ReadAll(buf: NbBuffer, ops: seq<ReadOp>) returns (outs: seq<Outcome>)
    requires buf.Valid() && buf.mode != Writing
    modifies buf, buf.Repr
    ensures buf.Valid() && buf.Repr == old(buf.Repr) && buf.mode != Writing
    ensures outs == Outcomes(old(buf.Abs.rem), ops)
    ensures buf.Abs.rem == old(buf.Abs.rem)[|AllTaken(old(buf.Abs.rem), ops)|..]
  {
    hide NbBuffer.Valid, Outcomes, AllTaken;
    outs := [];
    ghost var taken: nat := 0;
    OutcomesStart(buf.Abs.rem, ops);
    assert ops[0..] == ops;
    while |outs| < |ops|
      invariant buf.Valid() && buf.Repr == old(buf.Repr) && buf.mode != Writing
      invariant |outs| <= |ops| && taken <= |old(buf.Abs.rem)| && buf.Abs.rem == old(buf.Abs.rem)[taken..]
      invariant Outcomes(old(buf.Abs.rem), ops) == outs + Outcomes(buf.Abs.rem, ops[|outs|..])
      invariant |AllTaken(old(buf.Abs.rem), ops)| == taken + |AllTaken(buf.Abs.rem, ops[|outs|..])|
    {
      ghost var rem := buf.Abs.rem;
      var op := ops[|outs|];
      OutcomesStep(rem, ops, |outs|);
      ghost var t := Taken(rem, op);
      var o := Step(buf, op);
      assert old(buf.Abs.rem)[taken..][|t|..] == old(buf.Abs.rem)[taken + |t|..];
      assert outs + ([Outcome1(rem, op)] + Outcomes(buf.Abs.rem, ops[|outs| + 1..]))
          == outs + [o] + Outcomes(buf.Abs.rem, ops[|outs| + 1..]);
      outs, taken := outs + [o], taken + |t|;
    }
    OutcomesEnd(buf.Abs.rem, ops, outs);
  }

  method Step(buf: NbBuffer, op: ReadOp) returns (o: Outcome)
    requires buf.Valid() && buf.mode != Writing
    modifies buf, buf.Repr
    ensures buf.Valid() && buf.Repr == old(buf.Repr) && buf.mode != Writing
    ensures o == Outcome1(old(buf.Abs.rem), op)
    ensures buf.Abs.rem == old(buf.Abs.rem)[|Taken(old(buf.Abs.rem), op)|..]
  {
    hide NbBuffer.Valid;
    match op {
      case OpRead(n) =>
        var bytes := buf.Read(n);
        o := Data(bytes);
      case OpReadSlow(n) =>
        var bytes := buf.ReadSlow(n);
        o := Data(bytes);
      case OpGetc =>
        var c := buf.Getc();
        o := Char(c);
      case OpPeek =>
        var c := buf.Peek();
        o := Char(c);
      case OpIsEof =>
        var eof := buf.IsEof();
        o := AtEof(eof);
    }
  }

  lemma OutcomesStart(rem: seq<byte>, ops: seq<ReadOp>)
    ensures Outcomes(rem, ops) == [] + Outcomes(rem, ops)
  {}

  lemma OutcomesStep(rem: seq<byte>, ops: seq<ReadOp>, i: nat)
    requires i < |ops|
    ensures var rest := rem[|Taken(rem, ops[i])|..];
            Outcomes(rem, ops[i..]) == [Outcome1(rem, ops[i])] + Outcomes(rest, ops[i + 1..]) &&
            |AllTaken(rem, ops[i..])| == |Taken(rem, ops[i])| + |AllTaken(rest, ops[i + 1..])|
  {
    hide Taken, Outcome1;
    assert ops[i..][1..] == ops[i + 1..];
  }

  lemma OutcomesEnd(rem: seq<byte>, ops: seq<ReadOp>, outs: seq<Outcome>)
    ensures outs + Outcomes(rem, ops[|ops|..]) == outs && AllTaken(rem, ops[|ops|..]) == []
  {}

  /** The bytes returned over a whole run are those taken off the input, in order. */
  lemma {:induction false} ReturnedIsTaken(rem: seq<byte>, ops: seq<ReadOp>)
    ensures AllReturned(ops, Outcomes(rem, ops)) == AllTaken(rem, ops)
    decreases |ops|
  {
    if ops != [] {
      var rest := rem[|Taken(rem, ops[0])|..];
      ReturnedIsTaken(rest, ops[1..]);
      var outs := Outcomes(rem, ops);
      assert outs[0] == Outcome1(rem, ops[0]) && outs[1..] == Outcomes(rest, ops[1..]);
    }
  }

  /** From an empty buffer: whatever is written, in whatever pieces, and read back, in whatever pieces, what the
      reads return is a prefix of what was written, and everything if they ask for enough. */
  method WriteThenRead(chunks: seq<seq<byte>>, slow: seq<bool>, ops: seq<ReadOp>) returns (outs: seq<Outcome>)
    requires |slow| == |chunks|
    ensures outs == Outcomes(Concat(chunks), ops)
    ensures AllReturned(ops, outs) <= Concat(chunks)
  {
    var buf := new NbBuffer();
    WriteAll(buf, chunks, slow);
    assert [] + Concat(chunks) == Concat(chunks);
    outs := ReadAll(buf, ops);
    ReturnedIsTaken(Concat(chunks), ops);
  }

  /** The outcome tells its caller that the input has ended. */
  predicate ReportsEnd(op: ReadOp, o: Outcome) {
    match o
    case Data(bytes) => (op.OpRead? || op.OpReadSlow?) && |bytes| < op.count
    case Char(c) => c == EOF_CHAR
    case AtEof(eof) => eof
  }

  /** Once the end has been reported it stays: every later operation reports it too, but for reads of no bytes. */
  lemma {:induction false} EndIsPermanent(rem: seq<byte>, ops: seq<ReadOp>, i: nat, j: nat)
    requires i < j < |ops| && ReportsEnd(ops[i], Outcomes(rem, ops)[i])
    requires ops[j] != OpRead(0) && ops[j] != OpReadSlow(0)
    ensures ReportsEnd(ops[j], Outcomes(rem, ops)[j])
    decreases i
  {
    hide ReportsEnd, Outcome1, Taken;
    var rest := rem[|Taken(rem, ops[0])|..];
    if i == 0 {
      NothingBehindEnd(rem, ops[0]);
      EmptyStaysEmpty(ops[1..], j - 1);
    } else {
      EndIsPermanent(rest, ops[1..], i - 1, j - 1);
    }
  }

  lemma NothingBehindEnd(rem: seq<byte>, op: ReadOp)
    ensures ReportsEnd(op, Outcome1(rem, op)) ==> rem[|Taken(rem, op)|..] == []
    ensures op != OpRead(0) && op != OpReadSlow(0) ==> ReportsEnd(op, Outcome1([], op))
  {}

  lemma {:induction false} EmptyStaysEmpty(ops: seq<ReadOp>, j: nat)
    requires j < |ops| && ops[j] != OpRead(0) && ops[j] != OpReadSlow(0)
    ensures ReportsEnd(ops[j], Outcomes([], ops)[j])
    decreases j
  {
    hide ReportsEnd, Outcome1;
    var rest: seq<byte> := [];
    assert rest[|Taken([], ops[0])|..] == [];
    if j > 0 {
      EmptyStaysEmpty(ops[1..], j - 1);
    } else {
      NothingBehindEnd([], ops[0]);
    }
  }
}
