/** What a receiver makes of any pID after any key insertions: `pid_to_lid` as an array that grows with zeros. */
module NetBufsLookups {
  import opened Prelude
  import opened Cbor
  import opened GrowArrays
  import opened NetBufs
  import opened NetBufsTransfer
  import opened NbParty

  /** One key insertion. */
  datatype Lesson = Lesson(name: Name, pid: u64)

  function LearnAll(names: seq<Option<Name>>, d: Dict, ks: seq<Lesson>): Result<Dict>
    decreases |ks|
  {
    if ks == [] then Ok(d)
    else
      var e :- Learned(names, d, ks[0].name, ks[0].pid);
      LearnAll(names, e, ks[1..])
  }

  /** The name that a pID was given last. */
  function LastName(ks: seq<Lesson>, pid: nat): (r: Option<Name>)
    ensures r.Some? ==> exists i :: 0 <= i < |ks| && ks[i].name == r.value && ks[i].pid == pid
    decreases |ks|
  {
    if ks == [] then None
    else
      var last := ks[|ks| - 1];
      if last.pid == pid then Some(last.name) else LastName(ks[..|ks| - 1], pid)
  }

  /** The number of entries: one more than the largest pID, if there is any. */
  function Entries(ks: seq<Lesson>): nat
    decreases |ks|
  {
    if ks == [] then 0 else Max(Entries(ks[..|ks| - 1]), ks[|ks| - 1].pid + 1)
  }

  /** The slots in memory: at least doubled whenever a pID does not fit. */
  function Slots(ks: seq<Lesson>): (n: nat)
    ensures n >= 4 && Entries(ks) <= n
    decreases |ks|
  {
    if ks == [] then 4
    else
      var before, pid := Slots(ks[..|ks| - 1]), ks[|ks| - 1].pid;
      if pid < before then before else Max(2 * before, pid + 1)
  }

  /** The local id that `recv_keys` stores for a name. */
  function NamedLid(names: seq<Option<Name>>, name: Name): nat {
    if LidOf(names, name).Some? then LidOf(names, name).value else 0
  }

  predicate Learnable(names: seq<Option<Name>>, k: Lesson) {
    LidOf(names, k.name).Some? && k.pid < TWO_64 - 1
  }

  /** One insertion more at the end of a run. */
  lemma {:induction false} LearnLast(names: seq<Option<Name>>, d: Dict, ks: seq<Lesson>)
    requires ks != []
    ensures var front, k := LearnAll(names, d, ks[..|ks| - 1]), ks[|ks| - 1];
            LearnAll(names, d, ks) == if front.Err? then front else Learned(names, front.value, k.name, k.pid)
    decreases |ks|
  {
    hide Learned;
    if |ks| > 1 {
      var e := Learned(names, d, ks[0].name, ks[0].pid);
      assert ks[..|ks| - 1][1..] == ks[1..][..|ks| - 2] && ks[..|ks| - 1][0] == ks[0];
      if e.Ok? {
        LearnLast(names, e.value, ks[1..]);
      }
    } else {
      assert ks[..0] == [] && ks[1..] == [];
    }
  }

  lemma LearnedSlot(names: seq<Option<Name>>, d: Dict, k: Lesson)
    ensures Learned(names, d, k.name, k.pid).Ok? <==> Learnable(names, k)
    ensures Learnable(names, k) ==>
              var a, b := d.pidToLid, Learned(names, d, k.name, k.pid).value.pidToLid;
              && b.num == Max(a.num, k.pid + 1)
              && |b.slots| == (if k.pid < |a.slots| then |a.slots| else Max(2 * |a.slots|, k.pid + 1))
              && forall q :: 0 <= q < |b.slots| ==>
                   b.slots[q] == if q == k.pid then NamedLid(names, k.name) else if q < |a.slots| then a.slots[q] else 0
  {
    hide LidOf;
  }

  /** The slot of a pID, as far as it is one. */
  ghost predicate HoldsNamed(names: seq<Option<Name>>, ks: seq<Lesson>, a: Arr<int>) {
    forall q :: 0 <= q < |a.slots| ==>
      a.slots[q] == if LastName(ks, q).Some? then NamedLid(names, LastName(ks, q).value) else 0
  }

  lemma HoldsOneMore(names: seq<Option<Name>>, d: Dict, ks: seq<Lesson>)
    requires ks != [] && Learnable(names, ks[|ks| - 1]) && HoldsNamed(names, ks[..|ks| - 1], d.pidToLid)
    requires |d.pidToLid.slots| == Slots(ks[..|ks| - 1])
    ensures var k := ks[|ks| - 1];
            Learned(names, d, k.name, k.pid).Ok? &&
            HoldsNamed(names, ks, Learned(names, d, k.name, k.pid).value.pidToLid)
  {
    hide Learned, Learnable, NamedLid;
    var k, a := ks[|ks| - 1], d.pidToLid;
    LearnedSlot(names, d, k);
    var b := Learned(names, d, k.name, k.pid).value.pidToLid;
    forall q | 0 <= q < |b.slots|
      ensures b.slots[q] == if LastName(ks, q).Some? then NamedLid(names, LastName(ks, q).value) else 0
    {
      NamedIsEntry(ks[..|ks| - 1], q);
    }
  }

  /** The array after a run of insertions into a new dictionary, slot by slot. */
  lemma {:induction false} LearnedSlots(names: seq<Option<Name>>, ks: seq<Lesson>)
    ensures var r := LearnAll(names, NewDict(), ks);
            && (r.Ok? <==> forall i :: 0 <= i < |ks| ==> Learnable(names, ks[i]))
            && (r.Ok? ==>
                  var a := r.value.pidToLid;
                  a.num == Entries(ks) && |a.slots| == Slots(ks) && HoldsNamed(names, ks, a))
    decreases |ks|
  {
    hide LearnAll, Learned, Learnable, HoldsNamed;
    NothingLearned(names);
    if ks != [] {
      var front, k := ks[..|ks| - 1], ks[|ks| - 1];
      LearnLast(names, NewDict(), ks);
      LearnedSlots(names, front);
      assert forall i :: 0 <= i < |front| ==> front[i] == ks[i];
      var d := LearnAll(names, NewDict(), front);
      if d.Ok? {
        LearnedSlot(names, d.value, k);
        if Learnable(names, k) {
          HoldsOneMore(names, d.value, ks);
        }
      }
    }
  }

  lemma NothingLearned(names: seq<Option<Name>>)
    ensures LearnAll(names, NewDict(), []) == Ok(NewDict()) && HoldsNamed(names, [], NewDict().pidToLid)
  {}

  /** Every pID after every run of insertions. A pID that was given reads as the local id of its name. Any other reads
      as local id 0 up to the number of entries, instead of being unknown; right behind the entries it is an access
      outside the array if they fill it, because the bound is one too large; and only further on it is an error. */
  lemma UnlearnedReadsAsZero(names: seq<Option<Name>>, ks: seq<Lesson>, q: nat)
    requires forall i :: 0 <= i < |ks| ==> Learnable(names, ks[i])
    ensures var r := LearnAll(names, NewDict(), ks);
            r.Ok? &&
            Lookup(r.value, q) ==
            if LastName(ks, q).Some? then Ok(NamedLid(names, LastName(ks, q).value))
            else if q > Entries(ks) then Err(ErrUndefId)
            else if q == Entries(ks) == Slots(ks) then Err(ErrUndefined)
            else Ok(0)
  {
    hide LearnAll, LidOf, Slots, Entries;
    LearnedSlots(names, ks);
    NamedIsEntry(ks, q);
  }

  lemma {:induction false} NamedIsEntry(ks: seq<Lesson>, q: nat)
    ensures LastName(ks, q).Some? ==> q < Entries(ks)
    decreases |ks|
  {
    if ks != [] {
      NamedIsEntry(ks[..|ks| - 1], q);
    }
  }

  // ---------- on the wire ----------

  function KeyBytes(ks: seq<Lesson>): seq<byte> {
    if ks == [] then [] else Insertion(ks[0].name, ks[0].pid) + KeyBytes(ks[1..])
  }

  /** `recv_id` on insertions and a pID behind them does just that. */
  lemma {:induction false} KeysReceived(names: seq<Option<Name>>, d: Dict, ks: seq<Lesson>, q: nat, rest: seq<byte>)
    requires forall i :: 0 <= i < |ks| ==> LidOf(names, ks[i].name).Some? && 2 <= ks[i].pid < TWO_32
    requires q != 1 && q < TWO_32
    ensures var e := LearnAll(names, d, ks);
            e.Ok? &&
            RecvId(names, d, KeyBytes(ks) + Pid(q) + rest) ==
            if Lookup(e.value, q).Err? then Err(Lookup(e.value, q).error)
            else Ok(IdRead(e.value, Lookup(e.value, q).value, rest))
    decreases |ks|
  {
    hide Insertion, Pid, Learned, RecvId, Lookup, LidOf;
    if ks == [] {
      assert KeyBytes(ks) + Pid(q) + rest == Pid(q) + rest;
      AnyPidReceived(names, d, q, rest);
    } else {
      var k := ks[0];
      var b := KeyBytes(ks[1..]) + Pid(q) + rest;
      assert KeyBytes(ks) + Pid(q) + rest == Insertion(k.name, k.pid) + b;
      InsertionReceived(names, d, k.name, k.pid, b);
      KeysReceived(names, Learned(names, d, k.name, k.pid).value, ks[1..], q, rest);
    }
  }

  lemma AnyPidReceived(names: seq<Option<Name>>, d: Dict, q: nat, rest: seq<byte>)
    requires q != 1 && q < TWO_32
    ensures RecvId(names, d, Pid(q) + rest) ==
            if Lookup(d, q).Err? then Err(Lookup(d, q).error) else Ok(IdRead(d, Lookup(d, q).value, rest))
  {
    hide ReadUint, Pid, Lookup;
    PidReceived(q, TWO_64 - 1, rest);
  }

  /** Inputs: behind the insertion of pID 3 into a new dictionary, pID 2 reads as local id 0 and pID 4 outside the
      array; behind that of pID 4, pID 5 reads as local id 0. */
  lemma UnlearnedPidsOnTheWire(names: seq<Option<Name>>, name: Name, rest: seq<byte>)
    requires LidOf(names, name).Some?
    ensures var q := RecvId(names, NewDict(), Insertion(name, 3) + Pid(2) + rest); q.Ok? && q.value.lid == 0
    ensures RecvId(names, NewDict(), Insertion(name, 3) + Pid(4) + rest) == Err(ErrUndefined)
    ensures var q := RecvId(names, NewDict(), Insertion(name, 4) + Pid(5) + rest); q.Ok? && q.value.lid == 0
    ensures RecvId(names, NewDict(), Insertion(name, 4) + Pid(6) + rest) == Err(ErrUndefId)
  {
    hide RecvId, Insertion, Pid, Lookup, LidOf;
    forall pid | pid == 3 || pid == 4
      ensures var ks := [Lesson(name, pid)];
              KeyBytes(ks) == Insertion(name, pid) && Entries(ks) == pid + 1 &&
              Slots(ks) == (if pid == 3 then 4 else 8) && forall q: nat :: q != pid ==> LastName(ks, q).None?
    {
      var ks := [Lesson(name, pid)];
      assert ks[1..] == [] && ks[..0] == [];
      assert Insertion(name, pid) + [] == Insertion(name, pid);
    }
    UnlearnedReadsAsZero(names, [Lesson(name, 3)], 2);
    KeysReceived(names, NewDict(), [Lesson(name, 3)], 2, rest);
    UnlearnedReadsAsZero(names, [Lesson(name, 3)], 4);
    KeysReceived(names, NewDict(), [Lesson(name, 3)], 4, rest);
    UnlearnedReadsAsZero(names, [Lesson(name, 4)], 5);
    KeysReceived(names, NewDict(), [Lesson(name, 4)], 5, rest);
    UnlearnedReadsAsZero(names, [Lesson(name, 4)], 6);
    KeysReceived(names, NewDict(), [Lesson(name, 4)], 6, rest);
  }
}
