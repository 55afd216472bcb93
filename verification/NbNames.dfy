/** Which names a party has after its calls of `nb_group` and `nb_bind`: in terms of the calls alone. */
module NbNames {
  import opened Prelude
  import opened NetBufs
  import opened NbParty
  import opened NbConversation

  /** The name of a group id: the one in the last call for it, or else the one it had before. */
  function LastGroup(bs: seq<Binding>, id: nat, before: Option<Name>): Option<Name>
    decreases |bs|
  {
    if bs == [] then before
    else
      var last := bs[|bs| - 1];
      if last.BindGroup? && last.id == id then Some(last.name) else LastGroup(bs[..|bs| - 1], id, before)
  }

  /** The name of an attribute of group `g`: the one in the last call for it, unless the group was made anew since. */
  function LastAttr(bs: seq<Binding>, g: nat, id: nat, before: Option<Name>): Option<Name>
    decreases |bs|
  {
    if bs == [] then before
    else
      var last := bs[|bs| - 1];
      if last.BindAttr? && last.g == g && last.id == id then Some(last.name)
      else if last.BindGroup? && last.id == g then None
      else LastAttr(bs[..|bs| - 1], g, id, before)
  }

  function NameAt(names: seq<Option<Name>>, id: nat): Option<Name> {
    if id < |names| then names[id] else None
  }

  function AttrNameAt(names: Bindings, g: nat, id: nat): Option<Name> {
    if g < |names.attrs| then NameAt(names.attrs[g], id) else None
  }

  lemma {:induction false} BindLast(s: State, bs: seq<Binding>)
    requires bs != [] && AllBindable(s, bs)
    ensures var front := bs[..|bs| - 1];
            AllBindable(s, front) && Bindable(AfterBindings(s, front), bs[|bs| - 1]) &&
            AfterBindings(s, bs) == AfterBinding(AfterBindings(s, front), bs[|bs| - 1])
    decreases |bs|
  {
    hide Bindable, AfterBinding;
    var front := bs[..|bs| - 1];
    if |bs| > 1 {
      assert front[0] == bs[0] && front[1..] == bs[1..][..|bs| - 2];
      BindLast(AfterBinding(s, bs[0]), bs[1..]);
    } else {
      assert front == [] && bs[1..] == [];
    }
  }

  /** After any calls on a party every id has the name of the last call for it, and every other id the one it had. */
  lemma {:induction false} NamesAreBound(s: State, bs: seq<Binding>)
    requires AllBindable(s, bs)
    ensures var names := AfterBindings(s, bs).names;
            && (forall id: nat :: NameAt(names.ns, id) == LastGroup(bs, id, NameAt(s.names.ns, id)))
            && (forall g: nat, id: nat :: AttrNameAt(names, g, id) == LastAttr(bs, g, id, AttrNameAt(s.names, g, id)))
    decreases |bs|
  {
    hide AllBindable, AfterBindings;
    if bs == [] {
      NothingIsBound(s);
    } else {
      BindLast(s, bs);
      NamesAreBound(s, bs[..|bs| - 1]);
    }
  }

  lemma NothingIsBound(s: State)
    ensures AllBindable(s, []) && AfterBindings(s, []) == s
  {}

  /** From `nb_init` on: exactly the names in the list of calls. */
  lemma PreparedNames(bs: seq<Binding>)
    requires AllBindable(EmptyState(), bs)
    ensures var names := Prepared(bs).names;
            && (forall id: nat :: NameAt(names.ns, id) == LastGroup(bs, id, None))
            && (forall g: nat, id: nat :: AttrNameAt(names, g, id) == LastAttr(bs, g, id, None))
  {
    hide AllBindable, AfterBindings;
    NamesAreBound(EmptyState(), bs);
  }

  // ---------- pIDs ----------

  predicate GroupMade(bs: seq<Binding>, id: nat) {
    exists i :: 0 <= i < |bs| && bs[i].BindGroup? && bs[i].id == id
  }

  predicate AttrMade(bs: seq<Binding>, g: nat, id: nat) {
    GroupMade(bs, g) || exists i :: 0 <= i < |bs| && bs[i].BindAttr? && bs[i].g == g && bs[i].id == id
  }

  function PidAt(d: Dict, id: nat): nat {
    if id < |d.pids| then d.pids[id] else 0
  }

  function PidIn(s: State, g: nat, id: nat): nat {
    if g < |s.dicts| then PidAt(s.dicts[g], id) else 0
  }

  /** The largest pID given out and the received pIDs: those of a new group are 1 and four slots of zeros. */
  predicate SameNumbering(d: Dict, e: Dict) {
    d.maxPid == e.maxPid && d.pidToLid == e.pidToLid
  }

  predicate NewNumbering(d: Dict) {
    d.maxPid == 1 && d.pidToLid.num == 0 && d.pidToLid.slots == [0, 0, 0, 0]
  }

  ghost predicate PidsKept(s: State, bs: seq<Binding>, t: State) {
    && t.curAttr == s.curAttr && SameNumbering(t.nsDict, s.nsDict)
    && (forall id: nat :: PidAt(t.nsDict, id) == if GroupMade(bs, id) then 0 else PidAt(s.nsDict, id))
    && (forall g: nat, id: nat :: PidIn(t, g, id) == if AttrMade(bs, g, id) then 0 else PidIn(s, g, id))
    && |s.dicts| <= |t.dicts|
    && forall g: nat :: g < |t.dicts| ==>
         if GroupMade(bs, g) || g >= |s.dicts| then NewNumbering(t.dicts[g]) else SameNumbering(t.dicts[g], s.dicts[g])
  }

  lemma OnePidKept(s: State, b: Binding)
    requires Bindable(s, b)
    ensures PidsKept(s, [b], AfterBinding(s, b))
  {
    NewIsEmpty();
    assert [b][0] == b;
    forall g: nat, id: nat
      ensures GroupMade([b], g) <==> b.BindGroup? && b.id == g
      ensures AttrMade([b], g, id) <==> (b.BindGroup? && b.id == g) || (b.BindAttr? && b.g == g && b.id == id)
    {}
  }

  lemma NewIsEmpty()
    ensures NewNumbering(NewDict()) && NewDict().pids == []
  {}

  lemma MadeLast(bs: seq<Binding>, g: nat, id: nat)
    requires bs != []
    ensures var front, last := bs[..|bs| - 1], [bs[|bs| - 1]];
            && (GroupMade(bs, g) <==> GroupMade(front, g) || GroupMade(last, g))
            && (AttrMade(bs, g, id) <==> AttrMade(front, g, id) || AttrMade(last, g, id))
  {
    var front, last := bs[..|bs| - 1], [bs[|bs| - 1]];
    assert bs == front + last;
  }

  lemma KeptInTurn(s: State, t: State, u: State, bs: seq<Binding>)
    requires bs != [] && PidsKept(s, bs[..|bs| - 1], t) && PidsKept(t, [bs[|bs| - 1]], u)
    ensures PidsKept(s, bs, u)
  {
    hide GroupMade, AttrMade, PidAt;
    var front, last := bs[..|bs| - 1], [bs[|bs| - 1]];
    forall g: nat ensures GroupMade(bs, g) <==> GroupMade(front, g) || GroupMade(last, g) {
      MadeLast(bs, g, 0);
    }
    forall g: nat, id: nat ensures AttrMade(bs, g, id) <==> AttrMade(front, g, id) || AttrMade(last, g, id) {
      MadeLast(bs, g, id);
    }
  }

  /** Binding takes away the pIDs of what is bound anew, and touches nothing else that was given out or received. */
  lemma {:induction false} PidsAreKept(s: State, bs: seq<Binding>)
    requires AllBindable(s, bs)
    ensures PidsKept(s, bs, AfterBindings(s, bs))
    decreases |bs|
  {
    hide AllBindable, AfterBindings, PidsKept;
    if bs == [] {
      NothingIsBound(s);
      NothingIsTaken(s);
    } else {
      BindLast(s, bs);
      PidsAreKept(s, bs[..|bs| - 1]);
      OnePidKept(AfterBindings(s, bs[..|bs| - 1]), bs[|bs| - 1]);
      KeptInTurn(s, AfterBindings(s, bs[..|bs| - 1]), AfterBindings(s, bs), bs);
    }
  }

  lemma NothingIsTaken(s: State)
    ensures PidsKept(s, [], s)
  {}
}
