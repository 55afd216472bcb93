/** Applications on top of `struct nb`: sending a tree of groups the way serialize-netbufs.c does, and receiving one
    the way deserialize-netbufs.c does, with its switch over the ids given as a schema. */
module NbApplication {
  import opened Prelude
  import opened Wire
  import opened Cbor
  import opened Buffer
  import opened CborStreams
  import opened NetBufs
  import opened NetBufsTransfer
  import opened NbParty

  function AfterSent(w: seq<byte>, x: Sent): Sent {
    Sent(x.state, w + x.sent)
  }

  lemma SendAllStep(s: State, vs: seq<Value>, i: nat, w: seq<byte>)
    requires i < |vs| && ValidState(s) && AllSendable(s.names, vs[i..])
    ensures Sendable(s.names, vs[i]) && AllSendable(s.names, vs[i + 1..])
    ensures var x := Send(s, vs[i]);
            AfterSent(w, SendAll(s, vs[i..])) == AfterSent(w + x.sent, SendAll(x.state, vs[i + 1..]))
  {
    hide ValidState, Send, Sendable;
    assert vs[i..][1..] == vs[i + 1..];
    var x := Send(s, vs[i]);
    var more := SendAll(x.state, vs[i + 1..]);
    assert w + (x.sent + more.sent) == w + x.sent + more.sent;
  }

  lemma SendAttrsStep(s: State, g: nat, attrs: seq<Attr>, i: nat, w: seq<byte>)
    requires i < |attrs| && ValidState(s) && g < |s.names.attrs| && AttrsSendable(s.names, g, attrs[i..])
    ensures Bound(s.names.attrs[g], attrs[i].id) && Sendable(s.names, attrs[i].value)
    ensures AttrsSendable(s.names, g, attrs[i + 1..])
    ensures var id := NetBufs.SendId(s, g, attrs[i].id);
            var x := Send(id.state, attrs[i].value);
            AfterSent(w, SendAttrs(s, g, attrs[i..]))
            == AfterSent(w + (id.sent + x.sent), SendAttrs(x.state, g, attrs[i + 1..]))
  {
    hide ValidDict, Send, Sendable, NetBufs.SendId;
    assert attrs[i..][1..] == attrs[i + 1..];
    var id := NetBufs.SendId(s, g, attrs[i].id);
    var x := Send(id.state, attrs[i].value);
    var more := SendAttrs(x.state, g, attrs[i + 1..]);
    assert w + (id.sent + x.sent + more.sent) == w + (id.sent + x.sent) + more.sent;
  }

  lemma NothingSent(x: Sent)
    ensures AfterSent([], x) == x
  {
    assert [] + x.sent == x.sent;
  }

  lemma SentAlready(s: State, w: seq<byte>)
    ensures AfterSent(w, Sent(s, [])) == Sent(s, w)
  {
    assert w + [] == w;
  }

  /** Sends an id (unless it is negative) and a value. Whatever the value, no call reports an error: the items of
      each group come out even in spite of the key insertions between them. */
  method SendValue(nb: Nb, id: int, v: Value)
    requires nb.EncReady() && nb.CanSendId(id) && Sendable(nb.names, v)
    modifies nb, nb.cs, nb.cs.buf, nb.cs.buf.Repr
    ensures nb.EncReady() && fresh(nb.cs.buf.Repr - old(nb.cs.buf.Repr))
    ensures nb.names == old(nb.names) && nb.activeGroup == old(nb.activeGroup)
    ensures var f := FieldId(old(nb.St()), old(nb.activeGroup), id);
            var x := Send(f.state, v);
            nb.St() == x.state && Grew(old(nb.cs.buf.Abs), nb.cs.buf.Abs, f.sent + x.sent)
    ensures nb.cs.blocks == Counted(old(nb.cs.blocks), FieldItems(old(nb.St()), old(nb.activeGroup), id) + 1)
    decreases v, 1
  {
    hide NbBuffer.Valid, CborStream.Valid, Nb.Valid, Counted, ValidState, FieldId, FieldItems, Send, SendScalar;
    ValidParty(nb);
    match v
    case VArr(_) => SendArrayValue(nb, id, v);
    case VGroup(_, _) => SendGroupValue(nb, id, v);
    case _ =>
      ScalarIsSent(FieldId(nb.St(), nb.activeGroup, id).state, v);
      nb.SendField(id, v);
  }

  lemma ReadyParty(nb: Nb)
    requires nb.EncReady()
    ensures nb.Valid() && ValidState(nb.St()) && nb.activeGroup == Top(nb.cs.blocks).group && nb.cs.blocks != []
    ensures |nb.groups| == |nb.names.ns| == |nb.names.attrs|
    ensures nb.activeGroup.Some? ==> Bound(nb.names.ns, nb.activeGroup.value)
  {}

  lemma ValidParty(nb: Nb)
    requires nb.Valid()
    ensures ValidState(nb.St()) && nb.activeGroup == Top(nb.cs.blocks).group && nb.cs.blocks != []
    ensures |nb.groups| == |nb.names.ns| == |nb.names.attrs|
    ensures nb.activeGroup.Some? ==> Bound(nb.names.ns, nb.activeGroup.value)
  {}

  lemma ScalarIsSent(s: State, v: Value)
    requires ValidState(s) && Sendable(s.names, v) && !v.VArr? && !v.VGroup?
    ensures Send(s, v) == Sent(s, SendScalar(v))
  {
    hide ValidState, SendScalar;
  }

  method SendArrayValue(nb: Nb, id: int, v: Value)
    requires nb.EncReady() && nb.CanSendId(id) && Sendable(nb.names, v) && v.VArr?
    modifies nb, nb.cs, nb.cs.buf, nb.cs.buf.Repr
    ensures nb.EncReady() && fresh(nb.cs.buf.Repr - old(nb.cs.buf.Repr))
    ensures nb.names == old(nb.names) && nb.activeGroup == old(nb.activeGroup)
    ensures var f := FieldId(old(nb.St()), old(nb.activeGroup), id);
            var x := Send(f.state, v);
            nb.St() == x.state && Grew(old(nb.cs.buf.Abs), nb.cs.buf.Abs, f.sent + x.sent)
    ensures nb.cs.blocks == Counted(old(nb.cs.blocks), FieldItems(old(nb.St()), old(nb.activeGroup), id) + 1)
    decreases v, 0
  {
    hide NbBuffer.Valid, CborStream.Valid, Nb.Valid, Nb.EncReady, CborStream.EncReady, Counted, Pushed, Popped,
         ValidState, FieldId, FieldItems, SendAll, Header;
    ReadyParty(nb);
    var vs := v.items;
    ghost var f := FieldId(nb.St(), nb.activeGroup, id);
    ghost var whole := SendAll(f.state, vs);
    ghost var n := FieldItems(nb.St(), nb.activeGroup, id) + 1;
    ghost var a0, outer := nb.cs.buf.Abs, Counted(nb.cs.blocks, n);
    nb.SendArray(id, |vs|);
    ghost var a1, inner := nb.cs.buf.Abs, nb.cs.blocks;
    SendElements(nb, vs);
    ghost var a2 := nb.cs.buf.Abs;
    TopOfBody(outer, MAJOR_ARRAY, false, |vs|, |vs|);
    var r := nb.SendArrayEnd();
    ArrayBytes(a0, a1, a2, nb.cs.buf.Abs, f.sent, |vs|, whole.sent);
  }

  /** The elements of an array, which have no ids of their own. */
  method SendElements(nb: Nb, vs: seq<Value>)
    requires nb.EncReady() && AllSendable(nb.names, vs)
    modifies nb, nb.cs, nb.cs.buf, nb.cs.buf.Repr
    ensures nb.EncReady() && fresh(nb.cs.buf.Repr - old(nb.cs.buf.Repr))
    ensures nb.names == old(nb.names) && nb.activeGroup == old(nb.activeGroup)
    ensures ValidState(old(nb.St()))
    ensures var x := SendAll(old(nb.St()), vs);
            nb.St() == x.state && Grew(old(nb.cs.buf.Abs), nb.cs.buf.Abs, x.sent)
    ensures nb.cs.blocks == Counted(old(nb.cs.blocks), |vs|)
    decreases vs
  {
    hide NbBuffer.Valid, CborStream.Valid, Nb.Valid, Nb.Own, Counted, ValidState, FieldId, FieldItems, SendAll, Send,
         Sendable, Grew;
    ValidParty(nb);
    ghost var whole := SendAll(nb.St(), vs);
    ghost var sent: seq<byte> := [];
    NothingSent(whole);
    GrewNothing(nb.cs.buf.Abs);
    CountedTwice(nb.cs.blocks, 0, 0);
    assert vs[0..] == vs;
    var i := 0;
    while i < |vs|
      invariant 0 <= i <= |vs|
      invariant nb.EncReady() && fresh(nb.cs.buf.Repr - old(nb.cs.buf.Repr)) && ValidState(nb.St())
      invariant nb.names == old(nb.names) && nb.activeGroup == old(nb.activeGroup)
      invariant AllSendable(nb.names, vs[i..])
      invariant whole == AfterSent(sent, SendAll(nb.St(), vs[i..]))
      invariant Grew(old(nb.cs.buf.Abs), nb.cs.buf.Abs, sent) && nb.cs.blocks == Counted(old(nb.cs.blocks), i)
    {
      ghost var s, before := nb.St(), nb.cs.buf.Abs;
      SendAllStep(s, vs, i, sent);
      NoField(s, nb.activeGroup);
      SendValue(nb, -1, vs[i]);
      ghost var x := Send(s, vs[i]).sent;
      assert [] + x == x;
      GrewTwice(old(nb.cs.buf.Abs), before, nb.cs.buf.Abs, sent, x);
      CountedTwice(old(nb.cs.blocks), i, 1);
      sent := sent + x;
      ValidParty(nb);
      i := i + 1;
    }
    AllItemsSent(nb.St(), vs, sent);
  }

  lemma NoField(s: State, active: Option<nat>)
    requires ValidState(s)
    ensures FieldId(s, active, -1) == Sent(s, []) && FieldItems(s, active, -1) == 0
  {}

  lemma AllItemsSent(s: State, vs: seq<Value>, w: seq<byte>)
    requires ValidState(s)
    ensures AllSendable(s.names, vs[|vs|..]) && AfterSent(w, SendAll(s, vs[|vs|..])) == Sent(s, w)
  {
    SentAlready(s, w);
  }

  lemma ArrayBytes(a0: Contents, a1: Contents, a2: Contents, a3: Contents, f: seq<byte>, n: u64, body: seq<byte>)
    requires Grew(a0, a1, f + Header(MAJOR_ARRAY, n)) && Grew(a1, a2, body) && Grew(a2, a3, Close(false))
    ensures Grew(a0, a3, f + (Header(MAJOR_ARRAY, n) + body))
  {
    hide Grew, Header;
    GrewTwice(a0, a1, a2, f + Header(MAJOR_ARRAY, n), body);
    GrewTwice(a0, a2, a3, f + Header(MAJOR_ARRAY, n) + body, []);
    assert f + Header(MAJOR_ARRAY, n) + body + [] == f + (Header(MAJOR_ARRAY, n) + body);
  }

  method SendGroupValue(nb: Nb, id: int, v: Value)
    requires nb.EncReady() && nb.CanSendId(id) && Sendable(nb.names, v) && v.VGroup?
    modifies nb, nb.cs, nb.cs.buf, nb.cs.buf.Repr
    ensures nb.EncReady() && fresh(nb.cs.buf.Repr - old(nb.cs.buf.Repr))
    ensures nb.names == old(nb.names) && nb.activeGroup == old(nb.activeGroup)
    ensures var f := FieldId(old(nb.St()), old(nb.activeGroup), id);
            var x := Send(f.state, v);
            nb.St() == x.state && Grew(old(nb.cs.buf.Abs), nb.cs.buf.Abs, f.sent + x.sent)
    ensures nb.cs.blocks == Counted(old(nb.cs.blocks), FieldItems(old(nb.St()), old(nb.activeGroup), id) + 1)
    decreases v, 0
  {
    hide NbBuffer.Valid, CborStream.Valid, Nb.Valid, Nb.EncReady, CborStream.EncReady, Counted, InGroup, Popped,
         ValidState, FieldId, FieldItems, SendAttrs, SendGroupStart;
    ReadyParty(nb);
    var g := v.gid;
    ghost var f := FieldId(nb.St(), nb.activeGroup, id);
    ghost var start := SendGroupStart(f.state, g);
    ghost var a0, outer := nb.cs.buf.Abs, Counted(nb.cs.blocks, FieldItems(nb.St(), nb.activeGroup, id) + 1);
    ghost var k := BeginGroup(nb, id, g);
    ghost var a2 := nb.cs.buf.Abs;
    ReadyParty(nb);
    ghost var m := SendAttributes(nb, g, v.attrs);
    ghost var a3 := nb.cs.buf.Abs;
    CountedTwice(InGroup(outer, g), k, m);
    EndOfGroup(outer, g, k + m);
    var r := nb.SendGroupEnd();
    ReadyParty(nb);
    GroupBytes(a0, a2, a3, nb.cs.buf.Abs, f.sent, start.sent, SendAttrs(start.state, g, v.attrs).sent);
  }

  /** The id of a group that is an attribute, if it is one, and the start of the group. */
  method BeginGroup(nb: Nb, id: int, g: nat) returns (ghost k: nat)
    requires nb.EncReady() && nb.CanSendId(id) && Bound(nb.names.ns, g)
    modifies nb, nb.cs, nb.cs.buf, nb.cs.buf.Repr
    ensures nb.EncReady() && fresh(nb.cs.buf.Repr - old(nb.cs.buf.Repr))
    ensures nb.names == old(nb.names) && nb.activeGroup == Some(g) && ValidState(old(nb.St()))
    ensures var f := FieldId(old(nb.St()), old(nb.activeGroup), id);
            var x := SendGroupStart(f.state, g);
            nb.St() == x.state && Grew(old(nb.cs.buf.Abs), nb.cs.buf.Abs, f.sent + x.sent)
    ensures var n := FieldItems(old(nb.St()), old(nb.activeGroup), id) + 1;
            k % 2 == 0 && nb.cs.blocks == Counted(InGroup(Counted(old(nb.cs.blocks), n), g), k)
  {
    hide NbBuffer.Valid, CborStream.Valid, Nb.Valid, Nb.Own, Counted, InGroup, ValidState, FieldId, FieldItems,
         SendGroupStart, Grew;
    ValidParty(nb);
    ghost var a0, blocks0 := nb.cs.buf.Abs, nb.cs.blocks;
    ghost var f, n := FieldId(nb.St(), nb.activeGroup, id), FieldItems(nb.St(), nb.activeGroup, id);
    nb.SendId(id);
    ghost var a1 := nb.cs.buf.Abs;
    CountedTwice(blocks0, n, 1);
    ValidParty(nb);
    DictOfNs(nb.St());
    k := 2 + InsertedItems(nb.groupsNs, g);
    nb.SendGroup(g);
    GrewTwice(a0, a1, nb.cs.buf.Abs, f.sent, SendGroupStart(f.state, g).sent);
  }

  lemma DictOfNs(s: State)
    requires ValidState(s)
    ensures |s.nsDict.pids| == |s.names.ns|
  {
    DictSize(s.names.ns, s.nsDict);
  }

  method SendAttributes(nb: Nb, g: nat, attrs: seq<Attr>) returns (ghost k: nat)
    requires nb.EncReady() && nb.activeGroup == Some(g) && g < |nb.names.attrs| && AttrsSendable(nb.names, g, attrs)
    modifies nb, nb.cs, nb.cs.buf, nb.cs.buf.Repr
    ensures nb.EncReady() && fresh(nb.cs.buf.Repr - old(nb.cs.buf.Repr))
    ensures nb.names == old(nb.names) && nb.activeGroup == Some(g)
    ensures ValidState(old(nb.St()))
    ensures var x := SendAttrs(old(nb.St()), g, attrs);
            nb.St() == x.state && Grew(old(nb.cs.buf.Abs), nb.cs.buf.Abs, x.sent)
    ensures k % 2 == 0 && nb.cs.blocks == Counted(old(nb.cs.blocks), k)
    decreases attrs
  {
    hide NbBuffer.Valid, CborStream.Valid, Nb.Valid, Nb.EncReady, CborStream.EncReady, Nb.Own, Counted, ValidState,
         FieldId, FieldItems, SendAttrs, Send, Sendable, Grew;
    ReadyParty(nb);
    ghost var whole := SendAttrs(nb.St(), g, attrs);
    ghost var sent: seq<byte> := [];
    k := 0;
    NothingSent(whole);
    GrewNothing(nb.cs.buf.Abs);
    CountedTwice(nb.cs.blocks, 0, 0);
    assert attrs[0..] == attrs;
    var i := 0;
    while i < |attrs|
      invariant 0 <= i <= |attrs|
      invariant nb.EncReady() && fresh(nb.cs.buf.Repr - old(nb.cs.buf.Repr)) && ValidState(nb.St())
      invariant nb.names == old(nb.names) && nb.activeGroup == Some(g) && g < |nb.names.attrs|
      invariant AttrsSendable(nb.names, g, attrs[i..])
      invariant whole == AfterSent(sent, SendAttrs(nb.St(), g, attrs[i..]))
      invariant Grew(old(nb.cs.buf.Abs), nb.cs.buf.Abs, sent)
      invariant k % 2 == 0 && nb.cs.blocks == Counted(old(nb.cs.blocks), k)
    {
      ghost var s, before := nb.St(), nb.cs.buf.Abs;
      SendAttrsStep(s, g, attrs, i, sent);
      ghost var x := FieldBytes(s, g, attrs[i]);
      ghost var m := SendAttribute(nb, g, attrs[i]);
      GrewTwice(old(nb.cs.buf.Abs), before, nb.cs.buf.Abs, sent, x);
      CountedTwice(old(nb.cs.blocks), k, m);
      sent, k := sent + x, k + m;
      ReadyParty(nb);
      i := i + 1;
    }
    AllAttrsSent(nb.St(), g, attrs, sent);
  }

  method SendAttribute(nb: Nb, g: nat, a: Attr) returns (ghost m: nat)
    requires nb.EncReady() && nb.activeGroup == Some(g) && g < |nb.names.attrs|
    requires Bound(nb.names.attrs[g], a.id) && Sendable(nb.names, a.value)
    modifies nb, nb.cs, nb.cs.buf, nb.cs.buf.Repr
    ensures nb.EncReady() && fresh(nb.cs.buf.Repr - old(nb.cs.buf.Repr))
    ensures nb.names == old(nb.names) && nb.activeGroup == Some(g) && ValidState(old(nb.St()))
    ensures nb.St() == Send(NetBufs.SendId(old(nb.St()), g, a.id).state, a.value).state
    ensures Grew(old(nb.cs.buf.Abs), nb.cs.buf.Abs, FieldBytes(old(nb.St()), g, a))
    ensures m % 2 == 0 && nb.cs.blocks == Counted(old(nb.cs.blocks), m)
    decreases a
  {
    hide NbBuffer.Valid, CborStream.Valid, Nb.Valid, Nb.Own, Counted, ValidState, FieldId, FieldItems, Send, Sendable,
         Grew;
    ValidParty(nb);
    assert a.value < a;
    m := FieldItems(nb.St(), Some(g), a.id) + 1;
    ghost var x := FieldBytes(nb.St(), g, a);
    SendValue(nb, a.id, a.value);
  }

  /** The bytes of one attribute. */
  ghost function FieldBytes(s: State, g: nat, a: Attr): (w: seq<byte>)
    requires ValidState(s) && g < |s.names.attrs| && Bound(s.names.attrs[g], a.id) && Sendable(s.names, a.value)
    ensures var f := FieldId(s, Some(g), a.id); w == f.sent + Send(f.state, a.value).sent
    ensures FieldId(s, Some(g), a.id) == NetBufs.SendId(s, g, a.id)
  {
    var f := FieldId(s, Some(g), a.id);
    f.sent + Send(f.state, a.value).sent
  }

  lemma AllAttrsSent(s: State, g: nat, attrs: seq<Attr>, w: seq<byte>)
    requires ValidState(s) && g < |s.names.attrs|
    ensures AttrsSendable(s.names, g, attrs[|attrs|..]) && AfterSent(w, SendAttrs(s, g, attrs[|attrs|..])) == Sent(s, w)
  {
    SentAlready(s, w);
  }

  lemma EndOfGroup(outer: seq<Block>, g: nat, k: nat)
    requires outer != []
    ensures var b := Counted(InGroup(outer, g), k);
            Top(b) == Block(MAJOR_MAP, true, 0, k, Some(g), None) && |b| > 1 && Popped(b) == outer
  {}

  lemma GroupBytes(a0: Contents, a2: Contents, a3: Contents, a4: Contents, f: seq<byte>, start: seq<byte>,
                   body: seq<byte>)
    requires Grew(a0, a2, f + start) && Grew(a2, a3, body) && Grew(a3, a4, Close(true))
    ensures Grew(a0, a4, f + (start + body + [BREAK]))
  {
    hide Grew;
    GrewTwice(a0, a2, a3, f + start, body);
    GrewTwice(a0, a3, a4, f + start + body, [BREAK]);
    assert f + start + body + [BREAK] == f + (start + body + [BREAK]);
  }

  // ---------- receiving ----------

  function AfterAll(values: seq<Value>, n: nat, r: Result<AllRead>): Result<AllRead> {
    if r.Err? then r else Ok(AllRead(r.value.state, values + r.value.values, n + r.value.count, r.value.rest))
  }

  lemma RecvAllStart(r: Result<AllRead>)
    ensures AfterAll([], 0, r) == r
  {
    if r.Ok? {
      assert [] + r.value.values == r.value.values;
    }
  }

  lemma RecvAllStep(s: State, sch: Schema, elem: Type, n: nat, b: seq<byte>, values: seq<Value>, k: nat)
    ensures var v := Recv(s, sch, elem, b);
            AfterAll(values, k, RecvAll(s, sch, elem, n, b)) ==
            if n == 0 then Ok(AllRead(s, values, k, b))
            else if v.Err? then Err(v.error)
            else AfterAll(values + [v.value.value], k + v.value.count,
                          RecvAll(v.value.state, sch, elem, n - 1, v.value.rest))
  {
    hide Recv;
    if n == 0 {
      assert values + [] == values;
    } else if Recv(s, sch, elem, b).Ok? {
      var v := Recv(s, sch, elem, b).value;
      var more := RecvAll(v.state, sch, elem, n - 1, v.rest);
      if more.Ok? {
        assert values + ([v.value] + more.value.values) == values + [v.value] + more.value.values;
      }
    }
  }

  function AfterAttrs(attrs: seq<Attr>, r: Result<AttrsRead>): Result<AttrsRead> {
    if r.Err? then r else Ok(AttrsRead(r.value.state, attrs + r.value.attrs, r.value.rest))
  }

  lemma RecvAttrsStart(r: Result<AttrsRead>)
    ensures AfterAttrs([], r) == r
  {
    if r.Ok? {
      assert [] + r.value.attrs == r.value.attrs;
    }
  }

  lemma RecvAttrsStep(s: State, sch: Schema, g: nat, b: seq<byte>, attrs: seq<Attr>)
    ensures var a := RecvAttrId(s, g, b);
            AfterAttrs(attrs, RecvAttrs(s, sch, g, b)) ==
            if AtBreak(b) then Ok(AttrsRead(s, attrs, b))
            else if a.Err? then Err(a.error)
            else if (g, a.value.id) !in sch then Err(ErrOther)
            else
              var v := Recv(a.value.state, sch, sch[(g, a.value.id)], a.value.rest);
              if v.Err? then Err(v.error)
              else AfterAttrs(attrs + [Attr(a.value.id, v.value.value)], RecvAttrs(v.value.state, sch, g, v.value.rest))
  {
    hide Recv, RecvAttrId;
    var a := RecvAttrId(s, g, b);
    if AtBreak(b) {
      assert attrs + [] == attrs;
    } else if a.Ok? && (g, a.value.id) in sch {
      var v := Recv(a.value.state, sch, sch[(g, a.value.id)], a.value.rest);
      if v.Ok? {
        var more := RecvAttrs(v.value.state, sch, g, v.value.rest);
        if more.Ok? {
          assert attrs + ([Attr(a.value.id, v.value.value)] + more.value.attrs)
              == attrs + [Attr(a.value.id, v.value.value)] + more.value.attrs;
        }
      }
    }
  }

  /** Receives a value of the expected type: exactly what `Recv` says of the bytes, error or not. */
  method RecvValue(nb: Nb, sch: Schema, ty: Type) returns (r: Result<Value>)
    requires nb.DecReady()
    modifies nb, nb.cs, nb.cs.buf, nb.cs.buf.Repr
    ensures nb.cs.DecReady() && nb.cs.buf.Repr == old(nb.cs.buf.Repr)
    ensures nb.cs.buf.Abs.written == old(nb.cs.buf.Abs.written)
    ensures nb.names == old(nb.names) && (r.Ok? ==> nb.DecReady())
    ensures var q := Recv(old(nb.St()), sch, ty, old(nb.cs.buf.Abs.rem));
            if q.Err? then r == Err(q.error)
            else r == Ok(q.value.value) && nb.St() == q.value.state && nb.cs.buf.Abs.rem == q.value.rest &&
                 nb.cs.blocks == Counted(old(nb.cs.blocks), q.value.count) && nb.activeGroup == old(nb.activeGroup)
    decreases |nb.cs.buf.Abs.rem|, 1
  {
    hide NbBuffer.Valid, CborStream.Valid, Nb.Valid, Counted, RecvScalar, RecvAll, RecvAttrs, RecvGroupStart, ReadOpen,
         Cbor.EndBlock;
    match ty
    case TArr(elem) => r := RecvArrayValue(nb, sch, elem);
    case TGroup(g) => r := RecvGroupValue(nb, sch, g);
    case _ => r := nb.RecvField(ty);
  }

  method RecvArrayValue(nb: Nb, sch: Schema, elem: Type) returns (r: Result<Value>)
    requires nb.DecReady()
    modifies nb, nb.cs, nb.cs.buf, nb.cs.buf.Repr
    ensures nb.cs.DecReady() && nb.cs.buf.Repr == old(nb.cs.buf.Repr)
    ensures nb.cs.buf.Abs.written == old(nb.cs.buf.Abs.written)
    ensures nb.names == old(nb.names) && (r.Ok? ==> nb.DecReady())
    ensures var q := Recv(old(nb.St()), sch, TArr(elem), old(nb.cs.buf.Abs.rem));
            if q.Err? then r == Err(q.error)
            else r == Ok(q.value.value) && nb.St() == q.value.state && nb.cs.buf.Abs.rem == q.value.rest &&
                 nb.cs.blocks == Counted(old(nb.cs.blocks), q.value.count) && nb.activeGroup == old(nb.activeGroup)
    decreases |nb.cs.buf.Abs.rem|, 0
  {
    hide NbBuffer.Valid, CborStream.Valid, Nb.Valid, Counted, InArray, Popped, RecvAll, ReadOpen, Cbor.EndBlock;
    StreamOfParty(nb);
    ghost var outer, attr := Counted(nb.cs.blocks, 1), nb.curAttr;
    var n :- nb.RecvArray();
    ghost var inner := nb.cs.blocks;
    var values, k := RecvElements(nb, sch, elem, n);
    if values.Err? {
      return Err(values.error);
    }
    EndOfArray(outer, n, attr, k);
    var _ :- nb.RecvArrayEnd();
    r := Ok(VArr(values.value));
  }

  lemma EndOfArray(outer: seq<Block>, n: u64, attr: Option<nat>, k: nat)
    requires outer != []
    ensures var b := Counted(InArray(outer, n, attr), k);
            Top(b) == Block(MAJOR_ARRAY, false, n, k, Top(outer).group, attr) && |b| > 1 && Popped(b) == outer
  {}

  method RecvElements(nb: Nb, sch: Schema, elem: Type, n: nat) returns (r: Result<seq<Value>>, ghost k: nat)
    requires nb.DecReady()
    modifies nb, nb.cs, nb.cs.buf, nb.cs.buf.Repr
    ensures nb.cs.DecReady() && nb.cs.buf.Repr == old(nb.cs.buf.Repr)
    ensures nb.cs.buf.Abs.written == old(nb.cs.buf.Abs.written)
    ensures nb.names == old(nb.names) && (r.Ok? ==> nb.DecReady())
    ensures var q := RecvAll(old(nb.St()), sch, elem, n, old(nb.cs.buf.Abs.rem));
            if q.Err? then r == Err(q.error)
            else r == Ok(q.value.values) && k == q.value.count && nb.St() == q.value.state &&
                 nb.cs.buf.Abs.rem == q.value.rest && nb.cs.blocks == Counted(old(nb.cs.blocks), k) &&
                 nb.activeGroup == old(nb.activeGroup)
    decreases |nb.cs.buf.Abs.rem|, 2
  {
    hide NbBuffer.Valid, CborStream.Valid, Nb.Valid, Counted, RecvAll, Recv, AfterAll, Nb.Own;
    StreamOfParty(nb);
    var values: seq<Value> := [];
    k := 0;
    RecvAllStart(RecvAll(nb.St(), sch, elem, n, nb.cs.buf.Abs.rem));
    CountedTwice(nb.cs.blocks, 0, 0);
    var i := 0;
    while i < n
      invariant 0 <= i <= n
      invariant nb.DecReady() && nb.cs.buf.Repr == old(nb.cs.buf.Repr)
      invariant nb.cs.buf.Abs.written == old(nb.cs.buf.Abs.written)
      invariant nb.names == old(nb.names) && nb.activeGroup == old(nb.activeGroup)
      invariant |nb.cs.buf.Abs.rem| <= |old(nb.cs.buf.Abs.rem)|
      invariant RecvAll(old(nb.St()), sch, elem, n, old(nb.cs.buf.Abs.rem))
             == AfterAll(values, k, RecvAll(nb.St(), sch, elem, n - i, nb.cs.buf.Abs.rem))
      invariant nb.cs.blocks == Counted(old(nb.cs.blocks), k)
    {
      RecvAllStep(nb.St(), sch, elem, n - i, nb.cs.buf.Abs.rem, values, k);
      ghost var q := Recv(nb.St(), sch, elem, nb.cs.buf.Abs.rem);
      var v := RecvValue(nb, sch, elem);
      if v.Err? {
        return Err(v.error), k;
      }
      CountedTwice(old(nb.cs.blocks), k, q.value.count);
      values, k := values + [v.value], k + q.value.count;
      i := i + 1;
    }
    RecvAllStep(nb.St(), sch, elem, 0, nb.cs.buf.Abs.rem, values, k);
    r := Ok(values);
  }

  method RecvGroupValue(nb: Nb, sch: Schema, g: nat) returns (r: Result<Value>)
    requires nb.DecReady()
    modifies nb, nb.cs, nb.cs.buf, nb.cs.buf.Repr
    ensures nb.cs.DecReady() && nb.cs.buf.Repr == old(nb.cs.buf.Repr)
    ensures nb.cs.buf.Abs.written == old(nb.cs.buf.Abs.written)
    ensures nb.names == old(nb.names) && (r.Ok? ==> nb.DecReady())
    ensures var q := Recv(old(nb.St()), sch, TGroup(g), old(nb.cs.buf.Abs.rem));
            if q.Err? then r == Err(q.error)
            else r == Ok(q.value.value) && nb.St() == q.value.state && nb.cs.buf.Abs.rem == q.value.rest &&
                 nb.cs.blocks == Counted(old(nb.cs.blocks), q.value.count) && nb.activeGroup == old(nb.activeGroup)
    decreases |nb.cs.buf.Abs.rem|, 0
  {
    hide NbBuffer.Valid, CborStream.Valid, Nb.Valid, Counted, InGroup, RecvAttrs, RecvGroupStart, Cbor.EndBlock;
    StreamOfParty(nb);
    ghost var outer := Counted(nb.cs.blocks, 1);
    var _ :- nb.RecvGroup(g);
    var attrs :- RecvAttributes(nb, sch, g);
    SameEnd(InGroup(outer, g), nb.cs.blocks);
    EndOfIndefinite(Top(nb.cs.blocks).len, Top(nb.cs.blocks).count, nb.cs.buf.Abs.rem);
    var _ :- nb.RecvGroupEnd();
    StreamOfParty(nb);
    r := Ok(VGroup(g, attrs));
  }

  lemma StreamOfParty(nb: Nb)
    requires nb.Valid()
    ensures nb.cs.blocks != [] && nb.activeGroup == Top(nb.cs.blocks).group
  {}

  lemma SameEnd(a: seq<Block>, b: seq<Block>)
    requires SameButCount(a, b) && |a| > 1
    ensures Popped(b) == Popped(a) && Top(b).typ == Top(a).typ && Top(b).indef == Top(a).indef
  {}

  method RecvAttributes(nb: Nb, sch: Schema, g: nat) returns (r: Result<seq<Attr>>)
    requires nb.DecReady() && nb.activeGroup == Some(g)
    modifies nb, nb.cs, nb.cs.buf, nb.cs.buf.Repr
    ensures nb.cs.DecReady() && nb.cs.buf.Repr == old(nb.cs.buf.Repr)
    ensures nb.cs.buf.Abs.written == old(nb.cs.buf.Abs.written)
    ensures nb.names == old(nb.names) && (r.Ok? ==> nb.DecReady())
    ensures var q := RecvAttrs(old(nb.St()), sch, g, old(nb.cs.buf.Abs.rem));
            if q.Err? then r == Err(q.error)
            else r == Ok(q.value.attrs) && nb.St() == q.value.state && nb.cs.buf.Abs.rem == q.value.rest &&
                 SameButCount(old(nb.cs.blocks), nb.cs.blocks) && nb.activeGroup == Some(g)
    decreases |nb.cs.buf.Abs.rem|, 2
  {
    hide NbBuffer.Valid, CborStream.Valid, Nb.Valid, Counted, RecvAttrs, RecvAttrId, Recv;
    var attrs: seq<Attr> := [];
    RecvAttrsStart(RecvAttrs(nb.St(), sch, g, nb.cs.buf.Abs.rem));
    StreamOfParty(nb);
    while true
      invariant nb.DecReady() && nb.cs.buf.Repr == old(nb.cs.buf.Repr)
      invariant nb.cs.buf.Abs.written == old(nb.cs.buf.Abs.written)
      invariant nb.names == old(nb.names) && nb.activeGroup == Some(g)
      invariant |nb.cs.buf.Abs.rem| <= |old(nb.cs.buf.Abs.rem)|
      invariant RecvAttrs(old(nb.St()), sch, g, old(nb.cs.buf.Abs.rem))
             == AfterAttrs(attrs, RecvAttrs(nb.St(), sch, g, nb.cs.buf.Abs.rem))
      invariant SameButCount(old(nb.cs.blocks), nb.cs.blocks)
      decreases |nb.cs.buf.Abs.rem|
    {
      RecvAttrsStep(nb.St(), sch, g, nb.cs.buf.Abs.rem, attrs);
      var id :- nb.RecvAttr();
      if id.None? {
        return Ok(attrs);
      }
      if (g, id.value) !in sch {
        return Err(ErrOther);
      }
      ghost var before := nb.cs.blocks;
      ghost var q := Recv(nb.St(), sch, sch[(g, id.value)], nb.cs.buf.Abs.rem);
      var v :- RecvValue(nb, sch, sch[(g, id.value)]);
      CountedIsSame(before, q.value.count);
      attrs := attrs + [Attr(id.value, v)];
    }
  }

  // ---------- both ends ----------

  /** A tree of its own, without an id. */
  method SendTree(nb: Nb, v: Value)
    requires nb.EncReady() && Sendable(nb.names, v)
    modifies nb, nb.cs, nb.cs.buf, nb.cs.buf.Repr
    ensures nb.EncReady() && fresh(nb.cs.buf.Repr - old(nb.cs.buf.Repr))
    ensures nb.names == old(nb.names) && ValidState(old(nb.St()))
    ensures nb.St() == Send(old(nb.St()), v).state
    ensures nb.cs.buf.Abs.written == old(nb.cs.buf.Abs.written) + Send(old(nb.St()), v).sent
    ensures nb.cs.buf.Abs.rem == old(nb.cs.buf.Abs.rem) + Send(old(nb.St()), v).sent
    ensures nb.cs.blocks == Counted(old(nb.cs.blocks), 1)
  {
    hide NbBuffer.Valid, CborStream.Valid, Nb.Valid, Nb.Own, Send, Sendable, Counted, ValidState;
    SplitParty(nb);
    NoField(nb.St(), nb.activeGroup);
    ghost var w := Send(nb.St(), v).sent;
    SendValue(nb, -1, v);
    assert [] + w == w;
  }

  /** A party sends a tree into a buffer and another party, with its own ids, receives it from there. An array that
      comes before any attribute fails. Any other tree arrives as `Delivered`, every byte is consumed, and the parties
      agree again for the next tree. */
  method Exchange(sender: Nb, receiver: Nb, v: Value, sch: Schema, ty: Type) returns (r: Result<Value>)
    requires sender != receiver && sender.cs != receiver.cs && sender.cs.buf == receiver.cs.buf
    requires sender.EncReady() && receiver.Valid() && sender.cs.buf.Abs.rem == []
    requires {sender, sender.cs, receiver, receiver.cs} !! sender.cs.buf.Repr
    requires Agree(sender.St(), receiver.St())
    requires Sendable(sender.names, v) && Conforms(sender.names, receiver.names, sch, ty, v)
    modifies sender, sender.cs, receiver, receiver.cs, sender.cs.buf, sender.cs.buf.Repr
    ensures r == if v.VArr? && old(receiver.curAttr).None? then Err(ErrUndefined)
                 else Ok(Delivered(old(sender.names), old(receiver.names), v))
    ensures fresh(sender.cs.buf.Repr - old(sender.cs.buf.Repr))
    ensures r.Ok? ==> sender.cs.buf.Abs.rem == []
    ensures r.Ok? ==> sender.Valid() && receiver.DecReady() && Agree(sender.St(), receiver.St())
    ensures sender.names == old(sender.names) && receiver.names == old(receiver.names)
    ensures r.Ok? ==> sender.cs.blocks == Counted(old(sender.cs.blocks), 1)
    ensures r.Ok? ==> (receiver.curAttr.Some? <==> old(receiver.curAttr).Some? || BringsAttr(v))
    ensures var x := Send(old(sender.St()), v);
            sender.St() == x.state && sender.cs.buf.Abs.written == old(sender.cs.buf.Abs.written) + x.sent
  {
    hide NbBuffer.Valid, CborStream.Valid, Nb.Valid, Nb.Own, Agree, Send, Recv, Sendable, Conforms, Delivered, Counted;
    var buf := sender.cs.buf;
    ghost var s, t := sender.St(), receiver.St();
    SplitParty(sender);
    SplitParty(receiver);
    SendTree(sender, v);
    SplitParty(sender);
    ghost var w := Send(s, v).sent;
    assert [] + w == w && w + [] == w;
    buf.Flush();
    ValueReceived(s, t, sch, ty, v, []);
    JoinParty(receiver);
    assert receiver.St() == t;
    r := RecvValue(receiver, sch, ty);
    if r.Ok? {
      DeliveredBrings(s.names, t.names, sch, ty, v);
      SplitParty(receiver);
      JoinParty(sender);
    }
  }

  lemma DeliveredBrings(s: Bindings, r: Bindings, sch: Schema, ty: Type, v: Value)
    requires Conforms(s, r, sch, ty, v)
    ensures BringsAttr(Delivered(s, r, v)) <==> BringsAttr(v)
  {}

  lemma SplitParty(nb: Nb)
    requires nb.Valid()
    ensures nb.Own() && nb.cs.buf.Valid() && nb !in nb.cs.buf.Repr && nb.cs !in nb.cs.buf.Repr
    ensures ValidState(nb.St())
  {}

  /** A party is as valid as its buffer, whoever used the buffer last. */
  lemma JoinParty(nb: Nb)
    requires nb.Own() && nb.cs.buf.Valid() && nb !in nb.cs.buf.Repr && nb.cs !in nb.cs.buf.Repr
    ensures nb.Valid()
  {}

  lemma {:induction false} SendableTogether(names: Bindings, vs: seq<Value>)
    requires forall i :: 0 <= i < |vs| ==> Sendable(names, vs[i])
    ensures AllSendable(names, vs)
  {
    hide Sendable;
    if vs != [] {
      SendableTogether(names, vs[1..]);
    }
  }

  /** An exchange, after which the buffer is ready for the next one. */
  method Turn(sender: Nb, receiver: Nb, v: Value, sch: Schema, ty: Type) returns (r: Result<Value>)
    requires sender != receiver && sender.cs != receiver.cs && sender.cs.buf == receiver.cs.buf
    requires sender.EncReady() && receiver.Valid() && sender.cs.buf.Abs.rem == []
    requires {sender, sender.cs, receiver, receiver.cs} !! sender.cs.buf.Repr
    requires Agree(sender.St(), receiver.St())
    requires Sendable(sender.names, v) && Conforms(sender.names, receiver.names, sch, ty, v)
    modifies sender, sender.cs, receiver, receiver.cs, sender.cs.buf, sender.cs.buf.Repr
    ensures r == if v.VArr? && old(receiver.curAttr).None? then Err(ErrUndefined)
                 else Ok(Delivered(old(sender.names), old(receiver.names), v))
    ensures fresh(sender.cs.buf.Repr - old(sender.cs.buf.Repr))
    ensures r.Ok? ==> sender.EncReady() && receiver.Valid() && sender.cs.buf.Abs.rem == []
    ensures r.Ok? ==> {sender, sender.cs, receiver, receiver.cs} !! sender.cs.buf.Repr
    ensures r.Ok? ==> Agree(sender.St(), receiver.St())
    ensures sender.names == old(sender.names) && receiver.names == old(receiver.names)
    ensures r.Ok? ==> sender.cs.blocks == Counted(old(sender.cs.blocks), 1)
    ensures r.Ok? ==> (receiver.curAttr.Some? <==> old(receiver.curAttr).Some? || BringsAttr(v))
    ensures var x := Send(old(sender.St()), v);
            r.Ok? ==> sender.St() == x.state &&
                      sender.cs.buf.Abs.written == old(sender.cs.buf.Abs.written) + x.sent
  {
    hide NbBuffer.Valid, CborStream.Valid, Nb.Valid, Nb.Own, Agree, Send, Sendable, Conforms, Delivered, Counted;
    var v' :- Exchange(sender, receiver, v, sch, ty);
    SplitParty(sender);
    SplitParty(receiver);
    ReadAllOf(sender.cs.buf);
    sender.cs.buf.Flush();
    JoinParty(sender);
    JoinParty(receiver);
    r := Ok(v');
  }

  /** No tree is an array that comes before the first attribute, given whether there was one already. */
  predicate ArraysLater(known: bool, vs: seq<Value>)
    decreases |vs|
  {
    vs == [] || ((vs[0].VArr? ==> known) && ArraysLater(known || BringsAttr(vs[0]), vs[1..]))
  }

  predicate BroughtBefore(vs: seq<Value>, i: nat)
    requires i <= |vs|
  {
    exists j :: 0 <= j < i && BringsAttr(vs[j])
  }

  lemma BroughtStep(vs: seq<Value>, i: nat)
    requires 0 < i <= |vs|
    ensures BroughtBefore(vs, i) <==> BringsAttr(vs[0]) || BroughtBefore(vs[1..], i - 1)
  {
    if j :| 0 <= j < i && BringsAttr(vs[j]) {
      assert j == 0 || BringsAttr(vs[1..][j - 1]);
    }
    if j :| 0 <= j < i - 1 && BringsAttr(vs[1..][j]) {
      assert BringsAttr(vs[j + 1]);
    }
  }

  /** In terms of the whole run: every array has a group with attributes somewhere before it. */
  lemma {:induction false} ArraysLaterIff(known: bool, vs: seq<Value>)
    ensures ArraysLater(known, vs) <==> known || forall i :: 0 <= i < |vs| && vs[i].VArr? ==> BroughtBefore(vs, i)
    decreases |vs|
  {
    if vs != [] {
      var tail := vs[1..];
      ArraysLaterIff(known || BringsAttr(vs[0]), tail);
      assert !BroughtBefore(vs, 0);
      forall i | 0 <= i < |tail|
        ensures BroughtBefore(vs, i + 1) <==> BringsAttr(vs[0]) || BroughtBefore(tail, i)
      {
        BroughtStep(vs, i + 1);
      }
      assert forall i :: 0 < i < |vs| ==> vs[i] == tail[i - 1];
      assert forall i :: 0 <= i < |tail| ==> tail[i] == vs[i + 1];
    }
  }

  /** Any number of trees, one after the other over the same buffer: all of them arrive, if and only if none is an
      array before the first attribute. */
  method Session(sender: Nb, receiver: Nb, vs: seq<Value>, sch: Schema, tys: seq<Type>)
    returns (r: Result<seq<Value>>)
    requires sender != receiver && sender.cs != receiver.cs && sender.cs.buf == receiver.cs.buf
    requires sender.EncReady() && receiver.Valid() && sender.cs.buf.Abs.rem == []
    requires {sender, sender.cs, receiver, receiver.cs} !! sender.cs.buf.Repr
    requires Agree(sender.St(), receiver.St()) && |tys| == |vs|
    requires forall i :: 0 <= i < |vs| ==>
               Sendable(sender.names, vs[i]) && Conforms(sender.names, receiver.names, sch, tys[i], vs[i])
    modifies sender, sender.cs, receiver, receiver.cs, sender.cs.buf, sender.cs.buf.Repr
    ensures r == if ArraysLater(old(receiver.curAttr).Some?, vs)
                 then Ok(AllDelivered(old(sender.names), old(receiver.names), vs)) else Err(ErrUndefined)
    ensures fresh(sender.cs.buf.Repr - old(sender.cs.buf.Repr))
    ensures r.Ok? ==> sender.EncReady() && receiver.Valid() && sender.cs.buf.Abs.rem == []
    ensures r.Ok? ==> {sender, sender.cs, receiver, receiver.cs} !! sender.cs.buf.Repr
    ensures r.Ok? ==> Agree(sender.St(), receiver.St())
    ensures sender.names == old(sender.names) && receiver.names == old(receiver.names)
    ensures r.Ok? ==> sender.cs.blocks == Counted(old(sender.cs.blocks), |vs|)
    ensures r.Ok? ==> (receiver.curAttr.Some? <==> old(receiver.curAttr).Some? || BroughtBefore(vs, |vs|))
    ensures ValidState(old(sender.St())) && AllSendable(old(sender.names), vs)
    ensures var x := SendAll(old(sender.St()), vs);
            r.Ok? ==> sender.St() == x.state &&
                      sender.cs.buf.Abs.written == old(sender.cs.buf.Abs.written) + x.sent
  {
    hide NbBuffer.Valid, CborStream.Valid, Nb.Valid, Nb.Own, Agree, Send, SendAll, ValidState, Sendable, AllSendable,
         Conforms, Delivered, AllDelivered, ArraysLater, Counted, BroughtBefore;
    ghost var repr := sender.cs.buf.Repr;
    ghost var w: seq<byte> := [];
    SplitParty(sender);
    SendableTogether(sender.names, vs);
    NothingSent(SendAll(sender.St(), vs));
    NothingDelivered(sender.names, receiver.names, vs);
    assert vs[0..] == vs;
    ValidParty(sender);
    CountedTwice(sender.cs.blocks, 0, 0);
    NothingBrought(vs);
    var values: seq<Value> := [];
    while |values| < |vs|
      invariant sender.EncReady() && receiver.Valid() && sender.cs.buf.Abs.rem == []
      invariant fresh(sender.cs.buf.Repr - repr)
      invariant {sender, sender.cs, receiver, receiver.cs} !! sender.cs.buf.Repr
      invariant Agree(sender.St(), receiver.St())
      invariant sender.names == old(sender.names) && receiver.names == old(receiver.names)
      invariant |values| <= |vs| && sender.cs.blocks == Counted(old(sender.cs.blocks), |values|)
      invariant receiver.curAttr.Some? <==> old(receiver.curAttr).Some? || BroughtBefore(vs, |values|)
      invariant AllDelivered(sender.names, receiver.names, vs) ==
                values + AllDelivered(sender.names, receiver.names, vs[|values|..])
      invariant ArraysLater(old(receiver.curAttr).Some?, vs) ==
                ArraysLater(receiver.curAttr.Some?, vs[|values|..])
      invariant ValidState(sender.St()) && AllSendable(sender.names, vs[|values|..])
      invariant SendAll(old(sender.St()), vs) == AfterSent(w, SendAll(sender.St(), vs[|values|..]))
      invariant sender.cs.buf.Abs.written == old(sender.cs.buf.Abs.written) + w
    {
      ghost var i := |values|;
      SendAllStep(sender.St(), vs, i, w);
      CountedTwice(old(sender.cs.blocks), i, 1);
      BroughtNext(vs, i);
      DeliveredStep(sender.names, receiver.names, receiver.curAttr.Some?, vs, i, values);
      ghost var x := Send(sender.St(), vs[i]).sent;
      assert old(sender.cs.buf.Abs.written) + (w + x) == old(sender.cs.buf.Abs.written) + w + x;
      w := w + x;
      var v :- Turn(sender, receiver, vs[|values|], sch, tys[|values|]);
      values := values + [v];
    }
    AllItemsSent(sender.St(), vs, w);
    AllDone(sender.names, receiver.names, receiver.curAttr.Some?, vs, values);
    r := Ok(values);
  }

  lemma NothingBrought(vs: seq<Value>)
    ensures !BroughtBefore(vs, 0)
  {}

  lemma BroughtNext(vs: seq<Value>, i: nat)
    requires i < |vs|
    ensures BroughtBefore(vs, i + 1) <==> BroughtBefore(vs, i) || BringsAttr(vs[i])
  {
    if BringsAttr(vs[i]) {
      assert BroughtBefore(vs, i + 1);
    }
  }

  lemma NothingDelivered(s: Bindings, r: Bindings, vs: seq<Value>)
    ensures AllDelivered(s, r, vs) == [] + AllDelivered(s, r, vs)
  {}

  lemma DeliveredStep(s: Bindings, r: Bindings, known: bool, vs: seq<Value>, i: nat, values: seq<Value>)
    requires i < |vs|
    ensures values + AllDelivered(s, r, vs[i..]) == values + [Delivered(s, r, vs[i])] + AllDelivered(s, r, vs[i + 1..])
    ensures ArraysLater(known, vs[i..]) <==>
            (vs[i].VArr? ==> known) && ArraysLater(known || BringsAttr(vs[i]), vs[i + 1..])
  {
    hide Delivered;
    assert vs[i..][1..] == vs[i + 1..];
    var more := AllDelivered(s, r, vs[i + 1..]);
    assert values + ([Delivered(s, r, vs[i])] + more) == values + [Delivered(s, r, vs[i])] + more;
  }

  lemma AllDone(s: Bindings, r: Bindings, known: bool, vs: seq<Value>, values: seq<Value>)
    ensures values + AllDelivered(s, r, vs[|vs|..]) == values && ArraysLater(known, vs[|vs|..])
  {}

  lemma ReadAllOf(buf: NbBuffer)
    requires buf.Valid() && buf.Abs.rem == [] && buf.mode != Writing
    ensures buf.len - buf.pos == 0
  {}
}
