/** Growing arrays (`src/array.c`): a header with the item count and the capacity in front of zero-filled slots. */
module GrowArrays {
  import opened Prelude

  /** The items in use and all the slots behind them. */
  datatype Arr<T> = Arr(num: nat, slots: seq<T>)

  function Zeros<T>(n: nat, zero: T): (s: seq<T>)
    ensures |s| == n && forall i :: 0 <= i < n ==> s[i] == zero
  {
    seq(n, _ => zero)
  }

  function NewArr<T>(capacity: nat, zero: T): Arr<T> {
    Arr(0, Zeros(capacity, zero))
  }

  /** `resize`: old slots keep their contents and new ones are zero. */
  function Resized<T>(s: seq<T>, capacity: nat, zero: T): (r: seq<T>)
    ensures |r| == Max(|s|, capacity) && s <= r
    ensures forall i :: |s| <= i < |r| ==> r[i] == zero
  {
    if capacity <= |s| then s else s + Zeros(capacity - |s|, zero)
  }

  /** `array_ensure_index`. */
  function EnsuredIndex<T>(a: Arr<T>, index: nat, zero: T): (r: Arr<T>)
    ensures index < r.num && index < |r.slots| && a.num <= r.num && a.slots <= r.slots
    ensures forall i :: |a.slots| <= i < |r.slots| ==> r.slots[i] == zero
  {
    Arr(Max(a.num, index + 1),
        if |a.slots| >= index + 1 then a.slots else Resized(a.slots, Max(2 * |a.slots|, index + 1), zero))
  }

  /** `array_push`. */
  function Extended<T>(a: Arr<T>, n: nat, zero: T): (r: Arr<T>)
    ensures r.num == a.num + n && a.slots <= r.slots && r.num <= |r.slots|
    ensures forall i :: |a.slots| <= i < |r.slots| ==> r.slots[i] == zero
  {
    Arr(a.num + n,
        if a.num + n <= |a.slots| then a.slots else Resized(a.slots, Max(a.num + n, 2 * |a.slots|), zero))
  }

  class GrowArray<T> {
    const zero: T  // what a slot filled by memset reads as
    var num: nat
    var mem: array<T>

    function View(): Arr<T>
      reads this, mem
    {
      Arr(num, mem[..])
    }

    /** `array_new`. */
    constructor (capacity: nat, zero: T)
      ensures View() == NewArr(capacity, zero) && this.zero == zero && fresh(mem)
    {
      this.zero := zero;
      num := 0;
      mem := new T[capacity](_ => zero);
      new;
      assert mem[..] == Zeros(capacity, zero);
    }

    /** `resize`: `realloc` keeps the old slots, `memset` clears the new ones. */
    method Resize(capacity: nat)
      requires capacity >= mem.Length
      modifies this`mem
      ensures fresh(mem) && mem[..] == Resized(old(mem[..]), capacity, zero)
    {
      var bigger := new T[capacity](_ => zero);
      forall i | 0 <= i < mem.Length {
        bigger[i] := mem[i];
      }
      mem := bigger;
    }

    /** `array_ensure_index`: the item count changes before the capacity is looked at. */
    method EnsureIndex(index: nat)
      modifies this`num, this`mem
      ensures View() == EnsuredIndex(old(View()), index, zero)
      ensures mem == old(mem) || fresh(mem)
    {
      num := Max(num, index + 1);
      if mem.Length < index + 1 {
        Resize(Max(2 * mem.Length, index + 1));
      }
    }

    /** `array_push`. */
    method Push(n: nat)
      modifies this`num, this`mem
      ensures View() == Extended(old(View()), n, zero)
      ensures mem == old(mem) || fresh(mem)
    {
      var reqd := num + n;
      if reqd > mem.Length {
        Resize(Max(reqd, 2 * mem.Length));
      }
      num := num + n;
    }

    method Put(i: nat, x: T)
      requires i < mem.Length
      modifies mem
      ensures View() == Arr(num, old(mem[..])[i := x])
    {
      mem[i] := x;
    }

    /** Any run of operations on an array; writes outside of it are left out. */
    method Perform(ops: seq<Op<T>>)
      modifies this`num, this`mem, mem
      ensures View() == Run(old(View()), ops, zero)
    {
      var i := 0;
      assert ops[0..] == ops;
      while i < |ops|
        invariant 0 <= i <= |ops|
        invariant mem == old(mem) || fresh(mem)
        invariant Run(old(View()), ops, zero) == Run(View(), ops[i..], zero)
      {
        assert ops[i..][1..] == ops[i + 1..];
        match ops[i] {
          case OpPush(n) => Push(n);
          case OpEnsure(k) => EnsureIndex(k);
          case OpPut(k, x) =>
            if k < mem.Length {
              Put(k, x);
            }
        }
        i := i + 1;
      }
    }
  }

  // ---------- runs ----------

  datatype Op<T> = OpPush(n: nat) | OpEnsure(index: nat) | OpPut(i: nat, x: T)

  function Step<T>(a: Arr<T>, op: Op<T>, zero: T): Arr<T> {
    match op
    case OpPush(n) => Extended(a, n, zero)
    case OpEnsure(index) => EnsuredIndex(a, index, zero)
    case OpPut(i, x) => if i < |a.slots| then a.(slots := a.slots[i := x]) else a
  }

  function Run<T>(a: Arr<T>, ops: seq<Op<T>>, zero: T): Arr<T>
    decreases |ops|
  {
    if ops == [] then a else Run(Step(a, ops[0], zero), ops[1..], zero)
  }

  /** The slots that the resizes of a run copy. */
  function Copied<T>(a: Arr<T>, ops: seq<Op<T>>, zero: T): nat
    decreases |ops|
  {
    if ops == [] then 0
    else
      var b := Step(a, ops[0], zero);
      (if |b.slots| > |a.slots| then |a.slots| else 0) + Copied(b, ops[1..], zero)
  }

  lemma StepGrows<T>(a: Arr<T>, op: Op<T>, zero: T)
    requires a.num <= |a.slots|
    ensures var b := Step(a, op, zero);
            a.num <= b.num <= |b.slots| && |a.slots| <= |b.slots| &&
            (|b.slots| > |a.slots| ==> |b.slots| >= 2 * |a.slots| && b.num > |a.slots|)
  {}

  /** The work of growing is linear: all the resizes of a run together copy fewer slots than twice the items the array
      ends up with, if there are any resizes. */
  lemma {:induction false} GrowthIsAmortised<T>(a: Arr<T>, ops: seq<Op<T>>, zero: T)
    requires a.num <= |a.slots|
    ensures var b := Run(a, ops, zero);
            a.num <= b.num <= |b.slots| && |a.slots| <= |b.slots| &&
            Copied(a, ops, zero) <= |b.slots| - |a.slots| &&
            (|b.slots| > |a.slots| ==> Copied(a, ops, zero) + |a.slots| < 2 * b.num)
    decreases |ops|
  {
    if ops != [] {
      var b := Step(a, ops[0], zero);
      StepGrows(a, ops[0], zero);
      GrowthIsAmortised(b, ops[1..], zero);
    }
  }

  /** The last value written to slot `i`, if any. */
  function LastPut<T>(ops: seq<Op<T>>, i: nat): Option<T>
    decreases |ops|
  {
    if ops == [] then None
    else
      var later := LastPut(ops[1..], i);
      if later.Some? then later
      else match ops[0]
        case OpPut(k, x) => if k == i then Some(x) else None
        case _ => None
  }

  /** Every write is to a slot the array has at the time, whether it counts as an item or not. */
  predicate WritesInside<T>(a: Arr<T>, ops: seq<Op<T>>, zero: T)
    decreases |ops|
  {
    ops == [] ||
    ((ops[0].OpPut? ==> ops[0].i < |a.slots|) && WritesInside(Step(a, ops[0], zero), ops[1..], zero))
  }

  /** Old contents survive every growth, and a slot that was never written reads as zero. */
  lemma {:induction false} ContentsSurvive<T>(a: Arr<T>, ops: seq<Op<T>>, zero: T, i: nat)
    requires a.num <= |a.slots| && WritesInside(a, ops, zero)
    requires i < |Run(a, ops, zero).slots|
    ensures Run(a, ops, zero).slots[i] ==
            var w := LastPut(ops, i);
            if w.Some? then w.value else if i < |a.slots| then a.slots[i] else zero
    decreases |ops|
  {
    if ops != [] {
      StepGrows(a, ops[0], zero);
      ContentsSurvive(Step(a, ops[0], zero), ops[1..], zero, i);
    }
  }
}
