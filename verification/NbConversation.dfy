/** Two parties from `nb_init` on: each binds its names, then trees go from one to the other. */
module NbConversation {
  import opened Prelude
  import opened Wire
  import opened Cbor
  import opened Buffer
  import opened CborStreams
  import opened NetBufs
  import opened NetBufsRuns
  import opened NetBufsTransfer
  import opened NbParty
  import opened NbApplication

  /** One call of `nb_group`, or of `nb_bind` for the group with an id. */
  datatype Binding = BindGroup(id: nat, name: Name) | BindAttr(g: nat, id: nat, name: Name)

  predicate Bindable(s: State, b: Binding) {
    match b
    case BindGroup(id, _) => id < MAX_LIDS
    case BindAttr(g, id, _) => id < MAX_LIDS && Bound(s.names.ns, g) && g < |s.names.attrs| && g < |s.dicts|
  }

  function AfterBinding(s: State, b: Binding): State
    requires Bindable(s, b)
  {
    match b
    case BindGroup(id, name) => WithGroup(s, id, name)
    case BindAttr(g, id, name) => WithAttr(s, g, id, name)
  }

  predicate AllBindable(s: State, bs: seq<Binding>)
    decreases |bs|
  {
    bs == [] || (Bindable(s, bs[0]) && AllBindable(AfterBinding(s, bs[0]), bs[1..]))
  }

  function AfterBindings(s: State, bs: seq<Binding>): State
    requires AllBindable(s, bs)
    decreases |bs|
  {
    if bs == [] then s else AfterBindings(AfterBinding(s, bs[0]), bs[1..])
  }

  /** Nothing has been sent, and only the reserved pID 0 is known. */
  ghost predicate Untouched(s: State) {
    ValidState(s) && Fresh(s) && KnowsZero(s.nsDict)
  }

  lemma NewPartyIsUntouched()
    ensures Untouched(EmptyState())
  {
    EmptyStateIsValid();
  }

  /** There is room for what a binding makes possible. */
  predicate Roomy(s: State, b: Binding)
    requires Bindable(s, b)
  {
    match b
    case BindGroup(id, _) => HasRoom(s.nsDict, id)
    case BindAttr(g, id, _) => HasRoom(s.dicts[g], id)
  }

  predicate AllRoomy(s: State, bs: seq<Binding>)
    requires AllBindable(s, bs)
    decreases |bs|
  {
    bs == [] || (Roomy(s, bs[0]) && AllRoomy(AfterBinding(s, bs[0]), bs[1..]))
  }

  lemma RoomAtFirst(s: State, b: Binding)
    requires Untouched(s) && Bindable(s, b)
    ensures Roomy(s, b)
  {
    hide ValidDict, HasRoom;
    match b
    case BindGroup(id, _) => RoomIsPlenty(s.names.ns, s.nsDict, id);
    case BindAttr(g, id, _) => RoomIsPlenty(s.names.attrs[g], s.dicts[g], id);
  }

  lemma BindingKeepsValid(s: State, b: Binding)
    requires ValidState(s) && Bindable(s, b)
    ensures ValidState(AfterBinding(s, b)) <==> Roomy(s, b)
  {
    hide ValidDict, HasRoom;
    match b
    case BindGroup(id, name) => WithGroupIsValid(s, id, name);
    case BindAttr(g, id, name) => WithAttrIsValid(s, g, id, name);
  }

  /** Names are bound in any order, and again, without anything being given out or learned. */
  lemma BindingKeepsUntouched(s: State, b: Binding)
    requires Untouched(s) && Bindable(s, b)
    ensures Roomy(s, b) && Untouched(AfterBinding(s, b))
  {
    hide ValidState, Roomy;
    RoomAtFirst(s, b);
    BindingKeepsValid(s, b);
  }

  lemma {:induction false} BindingsKeepUntouched(s: State, bs: seq<Binding>)
    requires Untouched(s) && AllBindable(s, bs)
    ensures AllRoomy(s, bs) && Untouched(AfterBindings(s, bs))
    decreases |bs|
  {
    hide Untouched, Bindable, AfterBinding, Roomy;
    if bs != [] {
      BindingKeepsUntouched(s, bs[0]);
      BindingsKeepUntouched(AfterBinding(s, bs[0]), bs[1..]);
    }
  }

  lemma UntouchedIsGapless(s: State)
    requires Untouched(s)
    ensures AllGapless(s)
  {
    hide NumUsed;
    NoneUsed(s.nsDict.pids);
    forall g | 0 <= g < |s.dicts|
      ensures NumUsed(s.dicts[g].pids) == 0
    {
      NoneUsed(s.dicts[g].pids);
    }
  }

  lemma {:induction false} NoneUsed(pids: seq<nat>)
    ensures (forall l :: 0 <= l < |pids| ==> pids[l] == 0) ==> NumUsed(pids) == 0
  {
    if pids != [] {
      NoneUsed(pids[..|pids| - 1]);
    }
  }

  lemma {:induction false} BindingsKeepCurAttr(s: State, bs: seq<Binding>)
    requires AllBindable(s, bs)
    ensures AfterBindings(s, bs).curAttr == s.curAttr
    decreases |bs|
  {
    if bs != [] {
      BindingsKeepCurAttr(AfterBinding(s, bs[0]), bs[1..]);
    }
  }

  /** What a party knows after `nb_init` and its bindings. */
  function Prepared(bs: seq<Binding>): State
    requires AllBindable(EmptyState(), bs)
  {
    AfterBindings(EmptyState(), bs)
  }

  lemma NothingReceivedYet(bs: seq<Binding>)
    requires AllBindable(EmptyState(), bs)
    ensures Prepared(bs).curAttr == None
  {
    hide AfterBindings, AllBindable;
    BindingsKeepCurAttr(EmptyState(), bs);
  }

  /** The parties agree before anything is sent, whatever ids they have bound to their names. */
  lemma PreparedPartiesAgree(bs: seq<Binding>, cs: seq<Binding>)
    requires AllBindable(EmptyState(), bs) && AllBindable(EmptyState(), cs)
    ensures Untouched(Prepared(bs)) && Untouched(Prepared(cs))
    ensures Agree(Prepared(bs), Prepared(cs)) <==> UniqueNames(Prepared(bs).names.ns)
  {
    hide AfterBindings, AllBindable, EmptyState;
    NewPartyIsUntouched();
    BindingsKeepUntouched(EmptyState(), bs);
    BindingsKeepUntouched(EmptyState(), cs);
    if UniqueNames(Prepared(bs).names.ns) {
      FreshPartiesAgree(Prepared(bs), Prepared(cs));
    }
  }

  /** An empty array as the first thing that is received: its end finds no attribute. With one, it arrives. */
  lemma FirstArrayFails(cur: Option<nat>)
    ensures var s := EmptyState();
            ValidState(s) && Send(s, VArr([])).sent == [0x80] &&
            Recv(s.(curAttr := cur), map[], TArr(TBool), [0x80]) ==
            if cur.None? then Err(ErrUndefined) else Ok(Received(s.(curAttr := cur), VArr([]), 1, []))
  {
    hide Recv;
    NewPartyIsUntouched();
    var s := EmptyState();
    FreshPartiesAgree(s, s.(curAttr := cur));
    assert Send(s, VArr([])).sent + [] == [0x80];
    ValueReceived(s, s.(curAttr := cur), map[], TArr(TBool), VArr([]), []);
    EmptyArrayRead(s.(curAttr := cur));
  }

  lemma EmptyArrayRead(s: State)
    ensures var q := Recv(s, map[], TArr(TBool), [0x80]); q.Ok? ==> q.value.state == s
  {
    assert ReadOpen(MAJOR_ARRAY, false, [0x80]).value.head.arg == 0;
  }

  /** `nb_group` and `nb_bind`, call by call, outside of every group. */
  method BindNames(nb: Nb, bs: seq<Binding>)
    requires nb.Valid() && AllBindable(nb.St(), bs) && AllRoomy(nb.St(), bs)
    requires forall i :: 0 <= i < |nb.cs.blocks| ==> nb.cs.blocks[i].group.None?
    modifies nb
    ensures nb.Valid() && nb.activeGroup == old(nb.activeGroup) && nb.St() == AfterBindings(old(nb.St()), bs)
  {
    hide Nb.Valid, ValidDict, AfterBinding, Bindable, Roomy;
    var i := 0;
    assert bs[0..] == bs;
    while i < |bs|
      invariant 0 <= i <= |bs|
      invariant nb.Valid() && nb.activeGroup == old(nb.activeGroup)
      invariant AllBindable(nb.St(), bs[i..]) && AllRoomy(nb.St(), bs[i..])
      invariant AfterBindings(nb.St(), bs[i..]) == AfterBindings(old(nb.St()), bs)
    {
      assert bs[i..][0] == bs[i] && bs[i..][1..] == bs[i + 1..];
      BindName(nb, bs[i]);
      i := i + 1;
    }
  }

  method BindName(nb: Nb, b: Binding)
    requires nb.Valid() && Bindable(nb.St(), b) && Roomy(nb.St(), b)
    requires forall i :: 0 <= i < |nb.cs.blocks| ==> nb.cs.blocks[i].group.None?
    modifies nb
    ensures nb.Valid() && nb.activeGroup == old(nb.activeGroup)
    ensures nb.St() == AfterBinding(old(nb.St()), b)
  {
    hide Nb.Valid, ValidDict, WithGroup, WithAttr, HasRoom;
    match b
    case BindGroup(id, name) => nb.AddGroup(id, name);
    case BindAttr(g, id, name) => nb.Bind(g, id, name);
  }

  /** `nb_init`, and then the names. */
  method Prepare(buf: NbBuffer, bs: seq<Binding>) returns (nb: Nb)
    requires buf.Valid() && AllBindable(EmptyState(), bs)
    ensures fresh(nb) && fresh(nb.cs) && nb.cs.buf == buf
    ensures nb.Valid() && nb.St() == Prepared(bs)
    ensures forall i :: 0 <= i < |nb.cs.blocks| ==> nb.cs.blocks[i].group.None?
  {
    hide Nb.Valid, NbBuffer.Valid, EmptyState, Untouched, AllBindable, AfterBindings, AllRoomy;
    NewPartyIsUntouched();
    BindingsKeepUntouched(EmptyState(), bs);
    nb := new Nb(buf);
    NoGroupOpen(nb);
    BindNames(nb, bs);
  }

  lemma NoGroupOpen(nb: Nb)
    requires nb.Valid() && nb.activeGroup == None && |nb.cs.blocks| == 1
    ensures forall i :: 0 <= i < |nb.cs.blocks| ==> nb.cs.blocks[i].group.None?
  {}

  /** Two programs that have agreed on nothing but names: each makes a party and binds its own ids, then the trees go
      over one buffer. Every tree arrives, renamed, if and only if no array comes before the first attribute; and the
      bytes in the buffer define exactly the keys of the ids that were used, each once. */
  method Converse(sending: seq<Binding>, receiving: seq<Binding>, vs: seq<Value>, sch: Schema, tys: seq<Type>)
    returns (r: Result<seq<Value>>, ghost w: seq<byte>)
    requires AllBindable(EmptyState(), sending) && AllBindable(EmptyState(), receiving)
    requires UniqueNames(Prepared(sending).names.ns) && |tys| == |vs|
    requires forall i :: 0 <= i < |vs| ==> Sendable(Prepared(sending).names, vs[i])
    requires forall i :: 0 <= i < |vs| ==>
               Conforms(Prepared(sending).names, Prepared(receiving).names, sch, tys[i], vs[i])
    ensures r == if ArraysLater(false, vs)
                 then Ok(AllDelivered(Prepared(sending).names, Prepared(receiving).names, vs)) else Err(ErrUndefined)
    ensures ValidState(Prepared(sending)) && AllSendable(Prepared(sending).names, vs)
    ensures var ts := AllTokens(Prepared(sending), vs);
            && (r.Ok? ==> w == Flat(Prepared(sending).names, ts))
            && (forall i, j :: 0 <= i < j < |Defined(ts)| ==> Defined(ts)[i] != Defined(ts)[j])
            && (forall j :: 0 <= j < |ts| && ts[j].Use? ==> Key(ts[j].id, ts[j].pid) in ts[..j])
  {
    hide Prepared, UniqueNames, Agree, Sendable, Conforms, Delivered, AllTokens, Flat, Defined, NbBuffer.Valid,
         Nb.Valid, CborStream.Valid, Untouched, SendAll, AllSendable, PidOf, ValidState, AllDelivered, ArraysLater;
    ghost var s := Prepared(sending);
    PreparedPartiesAgree(sending, receiving);
    NothingReceivedYet(receiving);
    var buf := new NbBuffer();
    var sender := Prepare(buf, sending);
    var receiver := Prepare(buf, receiving);
    PartyParts(sender);
    PartyParts(receiver);
    r := Session(sender, receiver, vs, sch, tys);
    w := buf.Abs.written;
    assert [] + SendAll(s, vs).sent == SendAll(s, vs).sent;
    SessionDefinesOnce(s, vs);
    NothingGivenOut(s);
  }

  lemma PartyParts(nb: Nb)
    requires nb.Valid()
    ensures nb.cs.Valid() && nb !in nb.cs.buf.Repr && nb.cs !in nb.cs.buf.Repr
  {}

  lemma NothingGivenOut(s: State)
    requires Untouched(s)
    ensures forall id :: PidOf(s, id) == 0
  {}
}
