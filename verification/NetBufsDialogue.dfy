/** Two parties that talk in both directions: what a party sends and what it receives are numbered apart. */
module NetBufsDialogue {
  import opened Prelude
  import opened Wire
  import opened Cbor
  import opened NetBufs
  import opened NetBufsTransfer
  import opened NbApplication
  import opened NbParty
  import opened NbConversation

  // ---------- what each direction leaves alone ----------

  predicate SameReceived(d: Dict, e: Dict) {
    d.pidToLid == e.pidToLid
  }

  predicate SameSent(d: Dict, e: Dict) {
    d.pids == e.pids && d.maxPid == e.maxPid
  }

  /** Nothing that was received has changed. */
  predicate KeepsReceived(s: State, t: State) {
    && t.names == s.names && t.curAttr == s.curAttr && SameReceived(t.nsDict, s.nsDict) && |t.dicts| == |s.dicts|
    && forall g :: 0 <= g < |s.dicts| ==> SameReceived(t.dicts[g], s.dicts[g])
  }

  /** No pID that was given out has changed, and none has been given out. */
  predicate KeepsSent(s: State, t: State) {
    && t.names == s.names && SameSent(t.nsDict, s.nsDict) && |t.dicts| == |s.dicts|
    && forall g :: 0 <= g < |s.dicts| ==> SameSent(t.dicts[g], s.dicts[g])
  }

  lemma GroupStartKeepsReceived(s: State, g: nat)
    requires ValidState(s) && Bound(s.names.ns, g)
    ensures KeepsReceived(s, SendGroupStart(s, g).state)
  {
    hide ValidDict, Pid, Insertion;
  }

  lemma IdKeepsReceived(s: State, g: nat, id: nat)
    requires ValidState(s) && g < |s.dicts| && Bound(s.names.attrs[g], id)
    ensures KeepsReceived(s, SendId(s, g, id).state)
  {
    hide ValidDict, Pid, Insertion;
  }

  /** Sending changes nothing that was received. */
  lemma {:induction false} SendingKeepsReceived(s: State, v: Value)
    requires ValidState(s) && Sendable(s.names, v)
    ensures KeepsReceived(s, Send(s, v).state)
    decreases v, 0
  {
    hide ValidState, SendGroupStart, SendScalar;
    match v
    case VArr(vs) => AllKeepReceived(s, vs);
    case VGroup(g, attrs) =>
      GroupStartKeepsReceived(s, g);
      AttrsKeepReceived(SendGroupStart(s, g).state, g, attrs);
    case _ =>
  }

  lemma {:induction false} AllKeepReceived(s: State, vs: seq<Value>)
    requires ValidState(s) && AllSendable(s.names, vs)
    ensures KeepsReceived(s, SendAll(s, vs).state)
    decreases vs, 1
  {
    hide ValidState, Send, Sendable;
    if vs != [] {
      SendingKeepsReceived(s, vs[0]);
      AllKeepReceived(Send(s, vs[0]).state, vs[1..]);
    }
  }

  lemma {:induction false} AttrsKeepReceived(s: State, g: nat, attrs: seq<Attr>)
    requires ValidState(s) && g < |s.names.attrs| && AttrsSendable(s.names, g, attrs)
    ensures KeepsReceived(s, SendAttrs(s, g, attrs).state)
    decreases attrs, 1
  {
    hide ValidDict, Send, Sendable, SendId;
    if attrs != [] {
      assert attrs[0].value < attrs[0];
      IdKeepsReceived(s, g, attrs[0].id);
      var id := SendId(s, g, attrs[0].id);
      SendingKeepsReceived(id.state, attrs[0].value);
      AttrsKeepReceived(Send(id.state, attrs[0].value).state, g, attrs[1..]);
    }
  }

  lemma {:induction false} IdKeepsSent(names: seq<Option<Name>>, d: Dict, b: seq<byte>)
    requires RecvId(names, d, b).Ok?
    ensures SameSent(RecvId(names, d, b).value.dict, d)
    decreases |b|
  {
    hide ReadUint, ReadString, ReadOpen, EndBlock, Lookup, CStr, LidOf;
    var n := ReadUint(b, TWO_64 - 1).value;
    if n.n == 1 {
      var k := RecvKeys(names, d, n.rest).value;
      IdKeepsSent(names, k.dict, k.rest);
    }
  }

  lemma GroupStartKeepsSent(s: State, g: nat, b: seq<byte>)
    requires RecvGroupStart(s, g, b).Ok?
    ensures KeepsSent(s, RecvGroupStart(s, g, b).value.state)
  {
    hide RecvId, ReadOpen;
    var p := ReadOpen(MAJOR_MAP, true, b).value;
    var zero := RecvId(s.names.ns, s.nsDict, p.rest).value;
    IdKeepsSent(s.names.ns, s.nsDict, p.rest);
    IdKeepsSent(s.names.ns, zero.dict, zero.rest);
  }

  lemma AttrIdKeepsSent(s: State, g: nat, b: seq<byte>)
    requires RecvAttrId(s, g, b).Ok?
    ensures KeepsSent(s, RecvAttrId(s, g, b).value.state)
  {
    hide RecvId;
    IdKeepsSent(s.names.attrs[g], s.dicts[g], b);
  }

  /** Receiving, whatever the input, changes no pID that was given out. */
  lemma {:induction false} ReceivingKeepsSent(s: State, sch: Schema, ty: Type, b: seq<byte>)
    requires Recv(s, sch, ty, b).Ok?
    ensures KeepsSent(s, Recv(s, sch, ty, b).value.state)
    decreases |b|, 1
  {
    hide RecvGroupStart, RecvScalar, ReadOpen, EndBlock;
    match ty
    case TArr(elem) =>
      var p := ReadOpen(MAJOR_ARRAY, false, b).value;
      AllKeepSent(s, sch, elem, p.head.arg, p.rest);
    case TGroup(g) =>
      GroupStartKeepsSent(s, g, b);
      var start := RecvGroupStart(s, g, b).value;
      AttrsKeepSent(start.state, sch, g, start.rest);
    case _ =>
  }

  lemma {:induction false} AllKeepSent(s: State, sch: Schema, elem: Type, n: nat, b: seq<byte>)
    requires RecvAll(s, sch, elem, n, b).Ok?
    ensures KeepsSent(s, RecvAll(s, sch, elem, n, b).value.state)
    decreases |b|, 2
  {
    hide Recv;
    if n > 0 {
      ReceivingKeepsSent(s, sch, elem, b);
      var v := Recv(s, sch, elem, b).value;
      AllKeepSent(v.state, sch, elem, n - 1, v.rest);
    }
  }

  lemma {:induction false} AttrsKeepSent(s: State, sch: Schema, g: nat, b: seq<byte>)
    requires RecvAttrs(s, sch, g, b).Ok?
    ensures KeepsSent(s, RecvAttrs(s, sch, g, b).value.state)
    decreases |b|, 2
  {
    hide Recv, RecvAttrId;
    if !AtBreak(b) {
      AttrIdKeepsSent(s, g, b);
      var a := RecvAttrId(s, g, b).value;
      ReceivingKeepsSent(a.state, sch, sch[(g, a.id)], a.rest);
      var v := Recv(a.state, sch, sch[(g, a.id)], a.rest).value;
      AttrsKeepSent(v.state, sch, g, v.rest);
    }
  }

  // ---------- both directions ----------

  /** Agreement in one direction is about what one side has sent and the other has received. */
  lemma AgreementIsOneWay(s: State, r: State, t: State, q: State)
    requires Agree(r, s) && KeepsReceived(s, t) && KeepsSent(r, q) && ValidState(t) && ValidState(q)
    ensures Agree(q, t)
  {
    hide ValidDict, UniqueNames;
    assert forall p :: Lookup(t.nsDict, p) == Lookup(s.nsDict, p);
    forall g | 0 <= g < |q.dicts| && RenamedGroup(q.names, g, t.names).Some?
      ensures var g' := RenamedGroup(q.names, g, t.names).value;
              |q.dicts[g].pids| == |q.names.attrs[g]| &&
              AgreeDict(q.names.attrs[g], q.dicts[g], t.names.attrs[g'], t.dicts[g'])
    {
      var g' := RenamedGroup(q.names, g, t.names).value;
      DictSize(q.names.attrs[g], q.dicts[g]);
      assert RenamedGroup(r.names, g, s.names).Some?;
      assert forall p :: Lookup(t.dicts[g'], p) == Lookup(s.dicts[g'], p);
    }
    DictSize(q.names.ns, q.nsDict);
  }

  /** A value and who sends it. */
  datatype Turn = Turn(first: bool, value: Value, sch: Schema, ty: Type)

  /** What the application has to do: send values of the types that the other side expects, under names that it has. */
  predicate Speaks(a: Bindings, b: Bindings, t: Turn) {
    if t.first then Sendable(a, t.value) && Conforms(a, b, t.sch, t.ty, t.value)
    else Sendable(b, t.value) && Conforms(b, a, t.sch, t.ty, t.value)
  }

  /** Every turn arrives, and the next one is between the parties as it leaves them. */
  ghost predicate Understood(a: State, b: State, turns: seq<Turn>, rest: seq<byte>)
    requires ValidState(a) && ValidState(b)
    requires forall i :: 0 <= i < |turns| ==> Speaks(a.names, b.names, turns[i])
    decreases |turns|
  {
    turns == [] ||
    var t := turns[0];
    assert Speaks(a.names, b.names, t);
    var s, r := if t.first then a else b, if t.first then b else a;
    var q := Recv(r, t.sch, t.ty, Send(s, t.value).sent + rest);
    Arrives(s, r, t.sch, t.ty, t.value, rest) && ValidState(q.value.state) &&
    if t.first then Understood(Send(s, t.value).state, q.value.state, turns[1..], rest)
    else Understood(q.value.state, Send(s, t.value).state, turns[1..], rest)
  }

  /** Each side has received an attribute before it receives an array. */
  predicate InOrder(a: bool, b: bool, turns: seq<Turn>)
    decreases |turns|
  {
    turns == [] ||
    var t := turns[0];
    (t.value.VArr? ==> if t.first then b else a) &&
    InOrder(a || (!t.first && BringsAttr(t.value)), b || (t.first && BringsAttr(t.value)), turns[1..])
  }

  /** One value in one direction leaves the parties agreed in both. */
  lemma TurnKeepsBoth(s: State, r: State, sch: Schema, ty: Type, v: Value, rest: seq<byte>)
    requires Agree(s, r) && Agree(r, s) && Sendable(s.names, v) && Conforms(s.names, r.names, sch, ty, v)
    requires !v.VArr? || r.curAttr.Some?
    ensures ValidState(s) && Arrives(s, r, sch, ty, v, rest) && Recv(r, sch, ty, Send(s, v).sent + rest).Ok?
    ensures var t, q := Send(s, v).state, Recv(r, sch, ty, Send(s, v).sent + rest).value.state;
            && Agree(t, q) && Agree(q, t) && ValidState(q) && t.names == s.names && q.names == r.names
            && t.curAttr == s.curAttr && (q.curAttr.Some? <==> r.curAttr.Some? || BringsAttr(v))
  {
    hide Agree, Send, Recv, Sendable, Conforms, KeepsReceived, KeepsSent, Delivered;
    AgreeingPartiesAreValid(s, r);
    ValueReceived(s, r, sch, ty, v, rest);
    SendingKeepsReceived(s, v);
    var b := Send(s, v).sent + rest;
    ReceivingKeepsSent(r, sch, ty, b);
    DeliveredBrings(s.names, r.names, sch, ty, v);
    var t, q := Send(s, v).state, Recv(r, sch, ty, b).value.state;
    AgreeingPartiesAreValid(t, q);
    AgreementIsOneWay(s, r, t, q);
    ReceivedIsKept(s, t);
  }

  lemma ReceivedIsKept(s: State, t: State)
    requires KeepsReceived(s, t)
    ensures t.curAttr == s.curAttr
  {}

  /** Two parties that agree in both directions understand each other over any dialogue, whoever speaks when, if and
      only if no side receives an array before an attribute. */
  lemma {:induction false} DialogueUnderstood(a: State, b: State, turns: seq<Turn>, rest: seq<byte>)
    requires Agree(a, b) && Agree(b, a)
    requires forall i :: 0 <= i < |turns| ==> Speaks(a.names, b.names, turns[i])
    ensures ValidState(a) && ValidState(b)
    ensures Understood(a, b, turns, rest) <==> InOrder(a.curAttr.Some?, b.curAttr.Some?, turns)
    decreases |turns|
  {
    hide Agree, Send, Recv, Sendable, Conforms, Delivered, Arrives, ValidState, BringsAttr;
    AgreeingPartiesAreValid(a, b);
    if turns != [] {
      var t := turns[0];
      assert Speaks(a.names, b.names, t);
      var s, r := if t.first then a else b, if t.first then b else a;
      ValueReceived(s, r, t.sch, t.ty, t.value, rest);
      if !t.value.VArr? || r.curAttr.Some? {
        TurnKeepsBoth(s, r, t.sch, t.ty, t.value, rest);
        var s', r' := Send(s, t.value).state, Recv(r, t.sch, t.ty, Send(s, t.value).sent + rest).value.state;
        if t.first {
          DialogueUnderstood(s', r', turns[1..], rest);
        } else {
          DialogueUnderstood(r', s', turns[1..], rest);
        }
      }
    }
  }

  /** From `nb_init` on: two programs that bind their names, each group under a name of its own. */
  lemma PreparedDialogue(bs: seq<Binding>, cs: seq<Binding>, turns: seq<Turn>)
    requires AllBindable(EmptyState(), bs) && AllBindable(EmptyState(), cs)
    requires UniqueNames(Prepared(bs).names.ns) && UniqueNames(Prepared(cs).names.ns)
    requires forall i :: 0 <= i < |turns| ==> Speaks(Prepared(bs).names, Prepared(cs).names, turns[i])
    ensures ValidState(Prepared(bs)) && ValidState(Prepared(cs))
    ensures Understood(Prepared(bs), Prepared(cs), turns, []) <==> InOrder(false, false, turns)
  {
    hide Agree, Prepared, Understood, InOrder, Speaks, UniqueNames;
    PreparedPartiesAgree(bs, cs);
    PreparedPartiesAgree(cs, bs);
    NothingReceivedYet(bs);
    NothingReceivedYet(cs);
    DialogueUnderstood(Prepared(bs), Prepared(cs), turns, []);
  }
}
