/** The stack of the open blocks (`src/stack.c`): an array that doubles when it is full and never shrinks. */
module Stacks {
  import opened Prelude

  /** `struct stack`: the items in use and the number of slots. */
  datatype Slots<T> = Slots(items: seq<T>, size: nat)

  datatype Op<T> = OpPush(x: T) | OpPop

  /** `stack_push` and `stack_pop`. Both assert what they need; a stack without slots cannot grow, since twice nothing
      is nothing. */
  function Step<T>(s: Slots<T>, op: Op<T>): Result<Slots<T>> {
    match op
    case OpPush(x) =>
      var size := if |s.items| >= s.size then 2 * s.size else s.size;
      if |s.items| < size then Ok(Slots(s.items + [x], size)) else Err(ErrAssert)
    case OpPop => if s.items == [] then Err(ErrAssert) else Ok(s.(items := s.items[..|s.items| - 1]))
  }

  function Run<T>(s: Slots<T>, ops: seq<Op<T>>): Result<Slots<T>>
    decreases |ops|
  {
    if ops == [] then Ok(s)
    else
      var t :- Step(s, ops[0]);
      Run(t, ops[1..])
  }

  /** A stack that has no slots to run out of. */
  function Ideal<T>(items: seq<T>, ops: seq<Op<T>>): Option<seq<T>>
    decreases |ops|
  {
    if ops == [] then Some(items)
    else match ops[0]
      case OpPush(x) => Ideal(items + [x], ops[1..])
      case OpPop => if items == [] then None else Ideal(items[..|items| - 1], ops[1..])
  }

  /** The slots that the reallocations of a run copy. */
  function Copied<T>(s: Slots<T>, ops: seq<Op<T>>): nat
    decreases |ops|
  {
    if ops == [] || Step(s, ops[0]).Err? then 0
    else
      var t := Step(s, ops[0]).value;
      (if t.size > s.size then s.size else 0) + Copied(t, ops[1..])
  }

  /** The largest number of items on the way. */
  function Peak<T>(s: Slots<T>, ops: seq<Op<T>>): nat
    decreases |ops|
  {
    if ops == [] || Step(s, ops[0]).Err? then |s.items|
    else Max(|s.items|, Peak(Step(s, ops[0]).value, ops[1..]))
  }

  /** Every run on a stack that was created with at least one slot is a run on the ideal stack, and fails only where
      something is popped that was never pushed. The slots copied on the way are exactly those that were added, and
      there are less than twice as many slots as there were ever items, unless the initial ones were enough. */
  lemma {:induction false} StackIsIdeal<T>(s: Slots<T>, ops: seq<Op<T>>)
    requires 0 < s.size && |s.items| <= s.size
    ensures var r, i := Run(s, ops), Ideal(s.items, ops);
            if i.None? then r == Err(ErrAssert)
            else r.Ok? && r.value.items == i.value && |r.value.items| <= r.value.size &&
                 Copied(s, ops) == r.value.size - s.size &&
                 (r.value.size == s.size || r.value.size < 2 * Peak(s, ops))
    decreases |ops|
  {
    hide Step;
    if ops != [] {
      StepIsIdeal(s, ops[0]);
      if Step(s, ops[0]).Ok? {
        StackIsIdeal(Step(s, ops[0]).value, ops[1..]);
      }
    }
  }

  lemma StepIsIdeal<T>(s: Slots<T>, op: Op<T>)
    requires 0 < s.size && |s.items| <= s.size
    ensures var t := Step(s, op);
            && (t.Err? <==> op.OpPop? && s.items == []) && (t.Err? ==> t.error == ErrAssert)
            && (t.Ok? ==> t.value.items == (if op.OpPush? then s.items + [op.x] else s.items[..|s.items| - 1]))
            && (t.Ok? ==> |t.value.items| <= t.value.size && (t.value.size == s.size ||
                          (t.value.size == 2 * s.size && |t.value.items| == s.size + 1)))
  {}

  /** A stack created without slots takes nothing at all. */
  lemma NoSlotsNoPush<T>(x: T, ops: seq<Op<T>>)
    ensures Run(Slots([], 0), [OpPush(x)] + ops) == Err(ErrAssert)
  {
    assert ([OpPush(x)] + ops)[0] == OpPush(x);
  }

  class Stack<T(0)> {
    var items: array<T>
    var numItems: nat

    ghost predicate Valid()
      reads this
    {
      numItems <= items.Length
    }

    function View(): Slots<T>
      requires Valid()
      reads this, items
    {
      Slots(items[..numItems], items.Length)
    }

    /** `stack_init`. */
    constructor (size: nat)
      ensures Valid() && View() == Slots([], size) && fresh(items)
    {
      items := new T[size];
      numItems := 0;
    }

    /** `stack_resize`, to more slots. */
    method Resize(size: nat)
      requires Valid() && size >= items.Length
      modifies this`items
      ensures Valid() && fresh(items) && View() == old(View()).(size := size)
    {
      var bigger := new T[size];
      forall i | 0 <= i < items.Length {
        bigger[i] := items[i];
      }
      items := bigger;
    }

    /** `stack_push`, with the item that the caller then stores in the new slot. */
    method Push(x: T)
      requires Valid() && Step(View(), OpPush(x)).Ok?
      modifies this, items
      ensures Valid() && View() == Step(old(View()), OpPush(x)).value && (items == old(items) || fresh(items))
    {
      if numItems >= items.Length {
        Resize(2 * items.Length);
      }
      items[numItems] := x;
      numItems := numItems + 1;
    }

    /** `stack_pop`. */
    method Pop() returns (x: T)
      requires Valid() && Step<T>(View(), OpPop).Ok?
      modifies this`numItems
      ensures Valid() && View() == Step(old(View()), OpPop).value && old(View()).items == View().items + [x]
    {
      numItems := numItems - 1;
      x := items[numItems];
    }

    /** `stack_top`. */
    method Top() returns (x: T)
      requires Valid() && numItems > 0
      ensures x == View().items[|View().items| - 1]
    {
      x := items[numItems - 1];
    }

    /** `stack_is_empty`. */
    method IsEmpty() returns (e: bool)
      requires Valid()
      ensures e <==> View().items == []
    {
      e := numItems == 0;
    }
  }
}
