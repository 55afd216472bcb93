/** Why a sender must not give two groups the same name. */
module NetBufsNames {
  import opened Prelude
  import opened Wire
  import opened Cbor
  import opened NetBufs
  import opened NetBufsTransfer

  /** A group with one attribute. */
  function Single(g: nat, a: nat): Value {
    VGroup(g, [Attr(a, VBool(true))])
  }

  /** What comes behind the id of its attribute. */
  function SingleTail(rest: seq<byte>): seq<byte> {
    SendScalar(VBool(true)) + ([BREAK] + rest)
  }

  lemma SingleSent(s: State, g: nat, a: nat, rest: seq<byte>)
    requires ValidState(s) && Bound(s.names.ns, g) && Bound(s.names.attrs[g], a)
    ensures Sendable(s.names, Single(g, a))
    ensures var i := LidToPid(s.names.attrs[g], s.dicts[g], a);
            var start, x := SendGroupStart(s, g), Send(s, Single(g, a));
            && x.sent + rest == start.sent + (i.sent + Pid(i.pid) + SingleTail(rest))
            && x.state == start.state.(dicts := s.dicts[g := i.dict])
  {
    hide ValidDict, LidToPid, Pid, SendScalar;
    var i := LidToPid(s.names.attrs[g], s.dicts[g], a);
    var start, v := SendGroupStart(s, g), SendScalar(VBool(true));
    var attrs := [Attr(a, VBool(true))];
    assert attrs[1..] == [];
    assert SendAttrs(start.state, g, attrs).sent == i.sent + Pid(i.pid) + v + [];
    assert start.sent + (i.sent + Pid(i.pid) + v + []) + [BREAK] + rest
        == start.sent + (i.sent + Pid(i.pid) + (v + ([BREAK] + rest)));
  }

  /** The attribute is received as whatever id its pID reads as. */
  lemma SingleReceived(r: State, r': State, sch: Schema, g: nat, a: nat, start: seq<byte>, id: seq<byte>,
                       rest: seq<byte>)
    requires var q := RecvGroupStart(r, g, start + (id + SingleTail(rest)));
             q.Ok? && q.value.state == r' && q.value.rest == id + SingleTail(rest)
    requires !AtBreak(id + SingleTail(rest)) && g < |r'.dicts| && g < |r'.names.attrs|
    requires var q := RecvId(r'.names.attrs[g], r'.dicts[g], id + SingleTail(rest));
             q.Ok? && q.value.lid == a && q.value.rest == SingleTail(rest)
    requires Bound(r'.names.attrs[g], a) && (g, a) in sch && sch[(g, a)] == TBool
    ensures var d := RecvId(r'.names.attrs[g], r'.dicts[g], id + SingleTail(rest)).value.dict;
            Recv(r, sch, TGroup(g), start + (id + SingleTail(rest))) ==
            Ok(Received(r'.(dicts := r'.dicts[g := d], curAttr := Some(a)), Single(g, a), 1, rest))
  {
    hide RecvGroupStart, RecvId, SendScalar, EndBlock, ReadBool;
    var d := RecvId(r'.names.attrs[g], r'.dicts[g], id + SingleTail(rest)).value.dict;
    var tail := [BREAK] + rest;
    ScalarReceived(VBool(true), TBool, tail);
    BreakReceived(rest);
    var r'' := r'.(dicts := r'.dicts[g := d], curAttr := Some(a));
    assert RecvAttrId(r', g, id + SingleTail(rest)) == Ok(AttrRead(r'', a, SingleTail(rest)));
    assert Recv(r'', sch, TBool, SingleTail(rest)) == Ok(Received(r'', VBool(true), 1, tail));
    assert RecvAttrs(r'', sch, g, tail) == Ok(AttrsRead(r'', [], tail));
    assert [Attr(a, VBool(true))] + [] == [Attr(a, VBool(true))];
    assert RecvAttrs(r', sch, g, id + SingleTail(rest)) == Ok(AttrsRead(r'', [Attr(a, VBool(true))], tail));
  }

  /** An attribute that is used for the first time arrives as the one of its name, whatever the receiver knows. */
  lemma NewSingleReceived(s: State, r: State, sch: Schema, g: nat, g': nat, a: nat, a': nat, rest: seq<byte>)
    requires ValidState(s) && ValidState(r)
    requires AgreeDict(s.names.ns, s.nsDict, r.names.ns, r.nsDict) && KnowsZero(r.nsDict)
    requires RenamedGroup(s.names, g, r.names) == Some(g')
    requires Renamed(s.names.attrs[g], a, r.names.attrs[g']) == Some(a') && (g', a') in sch && sch[(g', a')] == TBool
    requires s.dicts[g].maxPid == 1
    ensures Sendable(s.names, Single(g, a)) && ValidState(s)
    ensures var x := Send(s, Single(g, a));
            var q := Recv(r, sch, TGroup(g'), x.sent + rest);
            && q.Ok? && q.value.value == Single(g', a') && q.value.rest == rest && ValidState(q.value.state)
            && AgreeDict(s.names.ns, x.state.nsDict, r.names.ns, q.value.state.nsDict)
            && KnowsZero(q.value.state.nsDict)
            && x.state.dicts == s.dicts[g := x.state.dicts[g]] && x.state.dicts[g].pids[a] == 2
            && Lookup(q.value.state.dicts[g'], 2) == Ok(a')
  {
    hide AgreeDict, KnowsZero, Pid, RecvId, SendGroupStart, RecvGroupStart, Lookup, Insertion, Recv, Send, LidToPid,
         ValidDict;
    NothingUsed(s.names.attrs[g], s.dicts[g]);
    FirstPid(s.names.attrs[g], s.dicts[g], a);
    var i := LidToPid(s.names.attrs[g], s.dicts[g], a);
    var b := i.sent + Pid(i.pid) + SingleTail(rest);
    SingleSent(s, g, a, rest);
    GroupStartRead(s, r, g, b);
    FreshAgrees(s.names.attrs[g], s.dicts[g], r.names.attrs[g'], r.dicts[g']);
    IdReceived(s.names.attrs[g], s.dicts[g], r.names.attrs[g'], r.dicts[g'], a, SingleTail(rest));
    IdStart(s.names.attrs[g], s.dicts[g], a, SingleTail(rest));
    var r' := RecvGroupStart(r, g', SendGroupStart(s, g).sent + b).value.state;
    SingleReceived(r, r', sch, g', a', SendGroupStart(s, g).sent, i.sent + Pid(i.pid), rest);
    DictSize(s.names.attrs[g], i.dict);
    AgreedPid(s.names.attrs[g], i.dict, r.names.attrs[g'],
              RecvId(r.names.attrs[g'], r.dicts[g'], b).value.dict, a);
  }

  lemma NothingUsed(names: seq<Option<Name>>, d: Dict)
    requires ValidDict(names, d) && d.maxPid == 1
    ensures |d.pids| == |names| && forall l :: 0 <= l < |d.pids| ==> d.pids[l] == 0
  {}

  lemma FirstPid(names: seq<Option<Name>>, d: Dict, lid: nat)
    requires ValidDict(names, d) && Bound(names, lid) && d.maxPid == 1
    ensures LidToPid(names, d, lid).pid == 2 && LidToPid(names, d, lid).dict.pids[lid] == 2
  {
    NothingUsed(names, d);
  }

  lemma FreshAgrees(sn: seq<Option<Name>>, sd: Dict, rn: seq<Option<Name>>, rd: Dict)
    requires |sd.pids| == |sn| && forall l :: 0 <= l < |sd.pids| ==> sd.pids[l] == 0
    ensures AgreeDict(sn, sd, rn, rd)
  {}

  lemma AgreedPid(sn: seq<Option<Name>>, sd: Dict, rn: seq<Option<Name>>, rd: Dict, l: nat)
    requires |sd.pids| == |sn| && AgreeDict(sn, sd, rn, rd) && l < |sn| && sd.pids[l] != 0
    ensures Renamed(sn, l, rn).Some? && Lookup(rd, sd.pids[l]) == Ok(Renamed(sn, l, rn).value)
  {}

  /** An attribute that has its pID arrives as whatever the receiver reads that pID as. */
  lemma UsedSingleReceived(s: State, r: State, sch: Schema, g: nat, g': nat, a: nat, b': nat, rest: seq<byte>)
    requires ValidState(s) && ValidState(r)
    requires AgreeDict(s.names.ns, s.nsDict, r.names.ns, r.nsDict) && KnowsZero(r.nsDict)
    requires RenamedGroup(s.names, g, r.names) == Some(g') && Bound(s.names.attrs[g], a)
    requires Bound(r.names.attrs[g'], b') && (g', b') in sch && sch[(g', b')] == TBool
    requires s.dicts[g].pids[a] != 0 && Lookup(r.dicts[g'], s.dicts[g].pids[a]) == Ok(b')
    ensures Sendable(s.names, Single(g, a))
    ensures var q := Recv(r, sch, TGroup(g'), Send(s, Single(g, a)).sent + rest);
            q.Ok? && q.value.value == Single(g', b') && q.value.rest == rest
  {
    hide AgreeDict, KnowsZero, Pid, RecvId, SendGroupStart, RecvGroupStart, Lookup, Insertion, Recv, Send;
    var p := s.dicts[g].pids[a];
    var b := Pid(p) + SingleTail(rest);
    PidsAreNarrow(s.names.attrs[g], s.dicts[g]);
    SingleSent(s, g, a, rest);
    assert [] + Pid(p) == Pid(p);
    GroupStartRead(s, r, g, b);
    KnownPidReceived(r.names.attrs[g'], r.dicts[g'], p, SingleTail(rest));
    PidReceived(p, p, SingleTail(rest));
    var r' := RecvGroupStart(r, g', SendGroupStart(s, g).sent + b).value.state;
    SingleReceived(r, r', sch, g', b', SendGroupStart(s, g).sent, Pid(p), rest);
  }

  /** Two groups of one name share their attributes at the receiver, but not their numbering at the sender. Three trees
      are enough: of the first group, of the second one, and of the first one again. The last one arrives with the
      attribute of the second group. */
  lemma SharedNameIsMisread(s: State, r: State, sch: Schema, g: nat, h: nat, g': nat, a: nat, b: nat, a': nat, b': nat)
    requires ValidState(s) && ValidState(r) && Fresh(s) && KnowsZero(r.nsDict)
    requires g != h && Bound(s.names.ns, g) && Bound(s.names.ns, h) && s.names.ns[g] == s.names.ns[h]
    requires RenamedGroup(s.names, g, r.names) == Some(g')
    requires Renamed(s.names.attrs[g], a, r.names.attrs[g']) == Some(a') && (g', a') in sch && sch[(g', a')] == TBool
    requires Renamed(s.names.attrs[h], b, r.names.attrs[g']) == Some(b') && (g', b') in sch && sch[(g', b')] == TBool
    requires a' != b'
    ensures Conforms(s.names, r.names, sch, TGroup(g'), Single(g, a)) && Sendable(s.names, Single(g, a))
    ensures Conforms(s.names, r.names, sch, TGroup(g'), Single(h, b)) && Sendable(s.names, Single(h, b))
    ensures var x1 := Send(s, Single(g, a));
            var q1 := Recv(r, sch, TGroup(g'), x1.sent);
            && q1.Ok? && q1.value.value == Delivered(s.names, r.names, Single(g, a))
            && var x2 := Send(x1.state, Single(h, b));
               var q2 := Recv(q1.value.state, sch, TGroup(g'), x2.sent);
               && q2.Ok? && q2.value.value == Delivered(s.names, r.names, Single(h, b))
               && var x3 := Send(x2.state, Single(g, a));
                  var q3 := Recv(q2.value.state, sch, TGroup(g'), x3.sent);
                  q3.Ok? && q3.value.value == Single(g', b') != Delivered(s.names, r.names, Single(g, a))
  {
    hide AgreeDict, KnowsZero, Lookup, Recv, Send, ValidState;
    SharedNamesConform(s, r, sch, g, h, g', a, b, a', b');
    NewSingleReceived(s, r, sch, g, g', a, a', []);
    var x1 := Send(s, Single(g, a));
    assert x1.sent + [] == x1.sent;
    var r1 := Recv(r, sch, TGroup(g'), x1.sent).value.state;
    NewSingleReceived(x1.state, r1, sch, h, g', b, b', []);
    var x2 := Send(x1.state, Single(h, b));
    assert x2.sent + [] == x2.sent;
    var r2 := Recv(r1, sch, TGroup(g'), x2.sent).value.state;
    UsedSingleReceived(x2.state, r2, sch, g, g', a, b', []);
    var x3 := Send(x2.state, Single(g, a));
    assert x3.sent + [] == x3.sent;
  }

  lemma SingleDelivered(s: Bindings, r: Bindings, sch: Schema, g: nat, g': nat, a: nat, a': nat)
    requires RenamedGroup(s, g, r) == Some(g') && g < |s.attrs| && g' < |r.attrs|
    requires Renamed(s.attrs[g], a, r.attrs[g']) == Some(a')
    ensures Delivered(s, r, Single(g, a)) == Single(g', a')
    ensures Sendable(s, Single(g, a))
    ensures (g', a') in sch && sch[(g', a')] == TBool ==> Conforms(s, r, sch, TGroup(g'), Single(g, a))
  {
    var attrs := [Attr(a, VBool(true))];
    assert attrs[1..] == [];
    assert AttrsDelivered(s, r, g, g', attrs) == [Attr(a', VBool(true))] + [];
  }

  lemma SharedNamesConform(s: State, r: State, sch: Schema, g: nat, h: nat, g': nat, a: nat, b: nat, a': nat, b': nat)
    requires ValidState(s) && ValidState(r) && Fresh(s)
    requires g != h && Bound(s.names.ns, g) && Bound(s.names.ns, h) && s.names.ns[g] == s.names.ns[h]
    requires RenamedGroup(s.names, g, r.names) == Some(g')
    requires Renamed(s.names.attrs[g], a, r.names.attrs[g']) == Some(a') && (g', a') in sch && sch[(g', a')] == TBool
    requires Renamed(s.names.attrs[h], b, r.names.attrs[g']) == Some(b') && (g', b') in sch && sch[(g', b')] == TBool
    ensures g < |s.names.attrs| == |s.dicts| && h < |s.names.attrs| && g' < |r.names.attrs| == |r.dicts|
    ensures RenamedGroup(s.names, h, r.names) == Some(g')
    ensures s.dicts[g].maxPid == 1 && s.dicts[h].maxPid == 1
    ensures AgreeDict(s.names.ns, s.nsDict, r.names.ns, r.nsDict)
    ensures Conforms(s.names, r.names, sch, TGroup(g'), Single(g, a)) && Sendable(s.names, Single(g, a))
    ensures Conforms(s.names, r.names, sch, TGroup(g'), Single(h, b)) && Sendable(s.names, Single(h, b))
    ensures Delivered(s.names, r.names, Single(g, a)) == Single(g', a')
    ensures Delivered(s.names, r.names, Single(h, b)) == Single(g', b')
  {
    SingleDelivered(s.names, r.names, sch, g, g', a, a');
    SingleDelivered(s.names, r.names, sch, h, g', b, b');
    NothingUsed(s.names.ns, s.nsDict);
  }
}
