/** Binding names while a conversation goes on: ids get other names, also after theirs were sent. */
module NbRebinding {
  import opened Prelude
  import opened Buffer
  import opened CborStreams
  import opened NetBufs
  import opened NetBufsTransfer
  import opened NbParty
  import opened NbApplication
  import opened NbConversation

  /** Agreement up to the names of the groups being different from each other. */
  ghost predicate Linked(s: State, r: State) {
    && ValidState(s) && ValidState(r)
    && AgreeDict(s.names.ns, s.nsDict, r.names.ns, r.nsDict) && KnowsZero(r.nsDict)
    && GroupsAgree(s, r)
  }

  ghost predicate GroupsAgree(s: State, r: State)
    requires ValidState(s) && ValidState(r)
  {
    forall g :: 0 <= g < |s.dicts| && RenamedGroup(s.names, g, r.names).Some? ==> GroupAgrees(s, r, g)
  }

  ghost predicate GroupAgrees(s: State, r: State, g: nat)
    requires ValidState(s) && ValidState(r) && g < |s.dicts| && RenamedGroup(s.names, g, r.names).Some?
  {
    var g' := RenamedGroup(s.names, g, r.names).value;
    AgreeDict(s.names.attrs[g], s.dicts[g], r.names.attrs[g'], r.dicts[g'])
  }

  lemma AgreeIsLinked(s: State, r: State)
    ensures Agree(s, r) <==> Linked(s, r) && UniqueNames(s.names.ns)
  {
    hide UniqueNames, ValidDict, AgreeDict, KnowsZero;
    if Linked(s, r) {
      forall g | 0 <= g < |s.dicts| && RenamedGroup(s.names, g, r.names).Some?
        ensures GroupAgrees(s, r, g)
      {
      }
    }
  }

  /** Binding an id changes nothing about the pIDs of the others, and the id itself has none any more. */
  lemma BindingKeepsDict(sn: seq<Option<Name>>, sd: Dict, rn: seq<Option<Name>>, rd: Dict, id: nat, name: Name)
    requires |sd.pids| == |sn| && AgreeDict(sn, sd, rn, rd)
    ensures AgreeDict(NbParty.Renamed(sn, id, name), Renewed(sd, id), rn, rd)
  {
    var sn', sd' := NbParty.Renamed(sn, id, name), Renewed(sd, id);
    forall l | 0 <= l < |sn'| && sd'.pids[l] != 0
      ensures l < |sn| && sd.pids[l] == sd'.pids[l] && sn'[l] == sn[l]
    {
    }
  }

  /** Whatever the sender binds, again or for the first time, the receiver will understand what is sent afterwards. */
  lemma BindingKeepsLinked(s: State, r: State, b: Binding)
    requires Linked(s, r) && Bindable(s, b) && Roomy(s, b)
    ensures Linked(AfterBinding(s, b), r)
  {
    hide ValidDict, AgreeDict, KnowsZero, HasRoom, Renewed, NbParty.Renamed;
    BindingKeepsValid(s, b);
    match b
    case BindGroup(id, name) => NewGroupKeepsLinked(s, r, id, name);
    case BindAttr(g, id, name) => NewAttrKeepsLinked(s, r, g, id, name);
  }

  lemma NewGroupKeepsLinked(s: State, r: State, id: nat, name: Name)
    requires Linked(s, r) && id < MAX_LIDS && ValidState(WithGroup(s, id, name))
    ensures Linked(WithGroup(s, id, name), r)
  {
    hide ValidDict, AgreeDict, KnowsZero;
    var t := WithGroup(s, id, name);
    DictSize(s.names.ns, s.nsDict);
    BindingKeepsDict(s.names.ns, s.nsDict, r.names.ns, r.nsDict, id, name);
    forall g | 0 <= g < |t.dicts| && RenamedGroup(t.names, g, r.names).Some?
      ensures GroupAgrees(t, r, g)
    {
      if g == id {
        NothingToAgree(r.names.attrs[RenamedGroup(t.names, g, r.names).value],
                       r.dicts[RenamedGroup(t.names, g, r.names).value]);
      } else {
        assert g < |s.dicts| && RenamedGroup(t.names, g, r.names) == RenamedGroup(s.names, g, r.names);
        assert GroupAgrees(s, r, g);
      }
    }
  }

  lemma NothingToAgree(rn: seq<Option<Name>>, rd: Dict)
    ensures AgreeDict([], NewDict(), rn, rd)
  {}

  lemma NewAttrKeepsLinked(s: State, r: State, h: nat, id: nat, name: Name)
    requires Linked(s, r) && id < MAX_LIDS && h < |s.names.attrs| && h < |s.dicts|
    requires ValidState(WithAttr(s, h, id, name))
    ensures Linked(WithAttr(s, h, id, name), r)
  {
    hide ValidDict, AgreeDict, KnowsZero, Renewed, NbParty.Renamed;
    var t := WithAttr(s, h, id, name);
    DictSize(s.names.attrs[h], s.dicts[h]);
    forall g | 0 <= g < |t.dicts| && RenamedGroup(t.names, g, r.names).Some?
      ensures GroupAgrees(t, r, g)
    {
      assert RenamedGroup(t.names, g, r.names) == RenamedGroup(s.names, g, r.names);
      assert GroupAgrees(s, r, g);
      var g' := RenamedGroup(s.names, g, r.names).value;
      if g == h {
        BindingKeepsDict(s.names.attrs[h], s.dicts[h], r.names.attrs[g'], r.dicts[g'], id, name);
      }
    }
  }

  lemma {:induction false} BindingsKeepLinked(s: State, r: State, bs: seq<Binding>)
    requires Linked(s, r) && AllBindable(s, bs) && AllRoomy(s, bs)
    ensures Linked(AfterBindings(s, bs), r)
    decreases |bs|
  {
    hide Linked, Bindable, Roomy, AfterBinding;
    if bs != [] {
      BindingKeepsLinked(s, r, bs[0]);
      BindingsKeepLinked(AfterBinding(s, bs[0]), r, bs[1..]);
    }
  }

  /** Names bound by the sender in between leave agreement as it is, if the groups have different names in the end. So
      every tree that is sent after that arrives under the new names. */
  lemma RebindingKeepsAgreement(s: State, r: State, bs: seq<Binding>)
    requires Agree(s, r) && AllBindable(s, bs) && AllRoomy(s, bs)
    ensures Agree(AfterBindings(s, bs), r) <==> UniqueNames(AfterBindings(s, bs).names.ns)
  {
    hide Linked, Agree, Bindable, Roomy, AfterBinding, UniqueNames;
    AgreeIsLinked(s, r);
    BindingsKeepLinked(s, r, bs);
    AgreeIsLinked(AfterBindings(s, bs), r);
  }

  // ---------- conversations in rounds ----------

  /** Names that the sender binds, and trees under the names it has then. */
  datatype Round = Round(binding: seq<Binding>, trees: seq<Value>, types: seq<Type>)

  ghost predicate Ready(s: State, names: Bindings, sch: Schema, rd: Round) {
    && ValidState(s) && AllBindable(s, rd.binding) && AllRoomy(s, rd.binding)
    && var t := AfterBindings(s, rd.binding);
       && UniqueNames(t.names.ns) && |rd.types| == |rd.trees|
       && forall i :: 0 <= i < |rd.trees| ==>
            Sendable(t.names, rd.trees[i]) && Conforms(t.names, names, sch, rd.types[i], rd.trees[i])
  }

  lemma {:induction false} RoomyIsValid(s: State, bs: seq<Binding>)
    requires ValidState(s) && AllBindable(s, bs) && AllRoomy(s, bs)
    ensures ValidState(AfterBindings(s, bs))
    decreases |bs|
  {
    hide ValidState, Bindable, Roomy, AfterBinding;
    if bs != [] {
      BindingKeepsValid(s, bs[0]);
      RoomyIsValid(AfterBinding(s, bs[0]), bs[1..]);
    }
  }

  /** The sender behind a round. */
  ghost function AfterRound(s: State, names: Bindings, sch: Schema, rd: Round): State
    requires Ready(s, names, sch, rd)
  {
    RoomyIsValid(s, rd.binding);
    var t := AfterBindings(s, rd.binding);
    SendableTogether(t.names, rd.trees);
    SendAll(t, rd.trees).state
  }

  ghost predicate AllReady(s: State, names: Bindings, sch: Schema, rds: seq<Round>)
    decreases |rds|
  {
    rds == [] ||
    (Ready(s, names, sch, rds[0]) && AllReady(AfterRound(s, names, sch, rds[0]), names, sch, rds[1..]))
  }

  /** What a receiver with these names gets to hear: the trees of every round under the names of that round; or an
      error, from the first array on that comes before any attribute. */
  ghost function Heard(s: State, names: Bindings, sch: Schema, known: bool, rds: seq<Round>): Result<seq<Value>>
    requires AllReady(s, names, sch, rds)
    decreases |rds|
  {
    if rds == [] then Ok([])
    else
      var vs := rds[0].trees;
      if !ArraysLater(known, vs) then Err(ErrUndefined)
      else
        var more :- Heard(AfterRound(s, names, sch, rds[0]), names, sch, known || BroughtBefore(vs, |vs|), rds[1..]);
        Ok(AllDelivered(AfterBindings(s, rds[0].binding).names, names, vs) + more)
  }

  function Added(values: seq<Value>, r: Result<seq<Value>>): Result<seq<Value>> {
    if r.Err? then r else Ok(values + r.value)
  }

  lemma ReadyIsBindable(s: State, names: Bindings, sch: Schema, rd: Round)
    ensures Ready(s, names, sch, rd) ==> AllBindable(s, rd.binding)
  {}

  lemma HeardStep(s: State, names: Bindings, sch: Schema, known: bool, rds: seq<Round>, i: nat, values: seq<Value>)
    requires i < |rds| && AllReady(s, names, sch, rds[i..])
    ensures Ready(s, names, sch, rds[i]) && AllReady(AfterRound(s, names, sch, rds[i]), names, sch, rds[i + 1..])
    ensures AllBindable(s, rds[i].binding)
    ensures var vs := rds[i].trees;
            Added(values, Heard(s, names, sch, known, rds[i..])) ==
            if !ArraysLater(known, vs) then Err(ErrUndefined)
            else Added(values + AllDelivered(AfterBindings(s, rds[i].binding).names, names, vs),
                       Heard(AfterRound(s, names, sch, rds[i]), names, sch, known || BroughtBefore(vs, |vs|),
                             rds[i + 1..]))
  {
    hide Ready, AfterRound, ArraysLater, AllDelivered, AfterBindings, BroughtBefore;
    ReadyIsBindable(s, names, sch, rds[i]);
    assert rds[i..][0] == rds[i] && rds[i..][1..] == rds[i + 1..];
    var vs := rds[i].trees;
    var known' := known || BroughtBefore(vs, |vs|);
    var more := Heard(AfterRound(s, names, sch, rds[i]), names, sch, known', rds[i + 1..]);
    if ArraysLater(known, vs) && more.Ok? {
      var d := AllDelivered(AfterBindings(s, rds[i].binding).names, names, vs);
      assert values + (d + more.value) == values + d + more.value;
    }
  }

  lemma HeardStart(r: Result<seq<Value>>)
    ensures Added([], r) == r
  {
    if r.Ok? {
      assert [] + r.value == r.value;
    }
  }

  lemma HeardEnd(s: State, names: Bindings, sch: Schema, known: bool, rds: seq<Round>, values: seq<Value>)
    ensures AllReady(s, names, sch, rds[|rds|..])
    ensures Added(values, Heard(s, names, sch, known, rds[|rds|..])) == Ok(values)
  {
    assert values + [] == values;
  }

  /** One round: the sender binds names, and a session under them follows. */
  method Continue(sender: Nb, receiver: Nb, rd: Round, sch: Schema) returns (r: Result<seq<Value>>)
    requires sender != receiver && sender.cs != receiver.cs && sender.cs.buf == receiver.cs.buf
    requires sender.EncReady() && receiver.Valid() && sender.cs.buf.Abs.rem == []
    requires {sender, sender.cs, receiver, receiver.cs} !! sender.cs.buf.Repr
    requires forall i :: 0 <= i < |sender.cs.blocks| ==> sender.cs.blocks[i].group.None?
    requires Agree(sender.St(), receiver.St()) && Ready(sender.St(), receiver.names, sch, rd)
    modifies sender, sender.cs, receiver, receiver.cs, sender.cs.buf, sender.cs.buf.Repr
    ensures fresh(sender.cs.buf.Repr - old(sender.cs.buf.Repr))
    ensures r == if ArraysLater(old(receiver.curAttr).Some?, rd.trees)
                 then Ok(AllDelivered(AfterBindings(old(sender.St()), rd.binding).names, old(receiver.names), rd.trees))
                 else Err(ErrUndefined)
    ensures receiver.names == old(receiver.names)
    ensures r.Ok? ==> sender.EncReady() && receiver.Valid() && sender.cs.buf.Abs.rem == []
    ensures r.Ok? ==> {sender, sender.cs, receiver, receiver.cs} !! sender.cs.buf.Repr
    ensures r.Ok? ==> forall i :: 0 <= i < |sender.cs.blocks| ==> sender.cs.blocks[i].group.None?
    ensures r.Ok? ==> Agree(sender.St(), receiver.St())
    ensures r.Ok? ==> sender.St() == AfterRound(old(sender.St()), old(receiver.names), sch, rd)
    ensures r.Ok? ==> (receiver.curAttr.Some? <==>
                         old(receiver.curAttr).Some? || BroughtBefore(rd.trees, |rd.trees|))
  {
    hide NbBuffer.Valid, CborStream.Valid, Nb.Valid, Nb.Own, Agree, Sendable, Conforms, AllDelivered, ArraysLater,
         AfterBindings, AllBindable, AllRoomy, UniqueNames, SendAll, AllSendable, BroughtBefore, ValidState;
    RebindingKeepsAgreement(sender.St(), receiver.St(), rd.binding);
    SplitParty(sender);
    BindNames(sender, rd.binding);
    r := Session(sender, receiver, rd.trees, sch, rd.types);
  }

  /** Any number of rounds between two new parties. The sender may give other names to its ids at any time; what arrives
      is what it means by them when it sends. */
  method ConverseInRounds(receiving: seq<Binding>, rds: seq<Round>, sch: Schema) returns (r: Result<seq<Value>>)
    requires AllBindable(EmptyState(), receiving)
    requires AllReady(EmptyState(), Prepared(receiving).names, sch, rds)
    ensures r == Heard(EmptyState(), Prepared(receiving).names, sch, false, rds)
  {
    hide NbBuffer.Valid, CborStream.Valid, Nb.Valid, EmptyState, AllBindable, Prepared, Agree, Ready, AllReady, Heard,
         AfterRound, ArraysLater, AllDelivered, AfterBindings, BroughtBefore, Untouched;
    ghost var names := Prepared(receiving).names;
    NothingBound();
    PreparedPartiesAgree([], receiving);
    NothingReceivedYet(receiving);
    var buf := new NbBuffer();
    var sender := Prepare(buf, []);
    var receiver := Prepare(buf, receiving);
    PartyParts(sender);
    PartyParts(receiver);
    var values: seq<Value> := [];
    HeardStart(Heard(sender.St(), names, sch, false, rds));
    assert rds[0..] == rds;
    for i := 0 to |rds|
      invariant fresh(sender) && fresh(sender.cs) && fresh(receiver) && fresh(receiver.cs)
      invariant fresh(buf) && fresh(buf.Repr)
      invariant sender != receiver && sender.cs != receiver.cs && sender.cs.buf == receiver.cs.buf == buf
      invariant sender.EncReady() && receiver.Valid() && buf.Abs.rem == []
      invariant {sender, sender.cs, receiver, receiver.cs} !! buf.Repr
      invariant forall k :: 0 <= k < |sender.cs.blocks| ==> sender.cs.blocks[k].group.None?
      invariant Agree(sender.St(), receiver.St()) && receiver.names == names
      invariant AllReady(sender.St(), names, sch, rds[i..])
      invariant Heard(EmptyState(), names, sch, false, rds) ==
                Added(values, Heard(sender.St(), names, sch, receiver.curAttr.Some?, rds[i..]))
    {
      HeardStep(sender.St(), names, sch, receiver.curAttr.Some?, rds, i, values);
      var more :- Continue(sender, receiver, rds[i], sch);
      values := values + more;
    }
    HeardEnd(sender.St(), names, sch, receiver.curAttr.Some?, rds, values);
    r := Ok(values);
  }

  lemma NothingBound()
    ensures AllBindable(EmptyState(), []) && Prepared([]) == EmptyState() && UniqueNames(Prepared([]).names.ns)
  {}
}
