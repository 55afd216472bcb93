/** Key insertions over whole runs of a sender: which names are defined, when, and how often. */
module NetBufsRuns {
  import opened Prelude
  import opened Wire
  import opened NetBufs

  /** A local id and the group that it belongs to; the ids of the groups themselves have no group. */
  datatype Id = Id(space: Option<nat>, lid: nat)

  /** What a sender emits, piece by piece: the definition of a key, its use as a pID, and everything else. */
  datatype Token = Key(id: Id, pid: u64) | Use(id: Id, pid: u64) | Raw(bytes: seq<byte>)

  function NameOf(names: Bindings, id: Id): Option<Name> {
    var ns := if id.space.None? then names.ns
              else if id.space.value < |names.attrs| then names.attrs[id.space.value]
              else [];
    if id.lid < |ns| then ns[id.lid] else None
  }

  function Text(names: Bindings, t: Token): seq<byte> {
    match t
    case Key(id, pid) => if NameOf(names, id).Some? then Insertion(NameOf(names, id).value, pid) else []
    case Use(_, pid) => Pid(pid)
    case Raw(bytes) => bytes
  }

  function Flat(names: Bindings, ts: seq<Token>): seq<byte> {
    if ts == [] then [] else Text(names, ts[0]) + Flat(names, ts[1..])
  }

  lemma {:induction false} FlatConcat(names: Bindings, a: seq<Token>, b: seq<Token>)
    ensures Flat(names, a + b) == Flat(names, a) + Flat(names, b)
  {
    if a == [] {
      assert a + b == b;
    } else {
      assert (a + b)[1..] == a[1..] + b;
      FlatConcat(names, a[1..], b);
      assert Text(names, a[0]) + (Flat(names, a[1..]) + Flat(names, b))
          == Text(names, a[0]) + Flat(names, a[1..]) + Flat(names, b);
    }
  }

  // ---------- the pieces of a tree ----------

  function KeyTokens(d: Dict, id: Id, pid: u64): seq<Token>
    requires id.lid < |d.pids|
  {
    if d.pids[id.lid] == 0 then [Key(id, pid)] else []
  }

  function GroupStartTokens(s: State, g: nat): seq<Token>
    requires ValidState(s) && Bound(s.names.ns, g)
  {
    var a := LidToPid(s.names.ns, s.nsDict, g);
    [Raw([0xBF])] + KeyTokens(s.nsDict, Id(None, g), a.pid) + [Raw(Pid(0)), Use(Id(None, g), a.pid)]
  }

  function IdTokens(s: State, g: nat, lid: nat): seq<Token>
    requires ValidState(s) && g < |s.dicts| && Bound(s.names.attrs[g], lid)
  {
    var a := LidToPid(s.names.attrs[g], s.dicts[g], lid);
    KeyTokens(s.dicts[g], Id(Some(g), lid), a.pid) + [Use(Id(Some(g), lid), a.pid)]
  }

  function Tokens(s: State, v: Value): seq<Token>
    requires ValidState(s) && Sendable(s.names, v)
    decreases v, 0
  {
    match v
    case VArr(vs) => [Raw(Header(MAJOR_ARRAY, |vs|))] + AllTokens(s, vs)
    case VGroup(g, attrs) =>
      GroupStartTokens(s, g) + AttrTokens(SendGroupStart(s, g).state, g, attrs) + [Raw([BREAK])]
    case _ => [Raw(SendScalar(v))]
  }

  function AllTokens(s: State, vs: seq<Value>): seq<Token>
    requires ValidState(s) && AllSendable(s.names, vs)
    decreases vs, 1
  {
    if vs == [] then [] else Tokens(s, vs[0]) + AllTokens(Send(s, vs[0]).state, vs[1..])
  }

  function AttrTokens(s: State, g: nat, attrs: seq<Attr>): seq<Token>
    requires ValidState(s) && g < |s.names.attrs| && AttrsSendable(s.names, g, attrs)
    decreases attrs, 1
  {
    if attrs == [] then []
    else
      assert attrs[0].value < attrs[0];
      var id := SendId(s, g, attrs[0].id).state;
      IdTokens(s, g, attrs[0].id) + Tokens(id, attrs[0].value) + AttrTokens(Send(id, attrs[0].value).state, g,
        attrs[1..])
  }

  // ---------- runs over the pieces ----------

  /** The pIDs given out, after some pieces; none if a key is defined twice, or used undefined or with another pID. */
  function Run(m: map<Id, u64>, ts: seq<Token>): Option<map<Id, u64>>
    decreases |ts|
  {
    if ts == [] then Some(m)
    else match ts[0]
      case Key(id, pid) => if id in m then None else Run(m[id := pid], ts[1..])
      case Use(id, pid) => if id in m && m[id] == pid then Run(m, ts[1..]) else None
      case Raw(_) => Run(m, ts[1..])
  }

  lemma {:induction false} RunConcat(m: map<Id, u64>, a: seq<Token>, b: seq<Token>)
    ensures Run(m, a + b) == if Run(m, a).None? then None else Run(Run(m, a).value, b)
    decreases |a|
  {
    if a == [] {
      assert a + b == b;
    } else {
      assert (a + b)[1..] == a[1..] + b;
      match a[0]
      case Key(id, pid) => if id !in m { RunConcat(m[id := pid], a[1..], b); }
      case Use(id, pid) => RunConcat(m, a[1..], b);
      case Raw(_) => RunConcat(m, a[1..], b);
    }
  }

  function After(m: map<Id, u64>, t: Token): map<Id, u64> {
    if t.Key? then m[t.id := t.pid] else m
  }

  /** Over any run pIDs persist. */
  lemma {:induction false} PidsPersist(m: map<Id, u64>, ts: seq<Token>)
    requires Run(m, ts).Some?
    ensures forall id :: id in m ==> id in Run(m, ts).value && Run(m, ts).value[id] == m[id]
    decreases |ts|
  {
    if ts != [] {
      PidsPersist(After(m, ts[0]), ts[1..]);
      assert forall id :: id in m ==> id in After(m, ts[0]) && After(m, ts[0])[id] == m[id];
    }
  }

  /** Only new keys are defined, and none twice. */
  lemma {:induction false} KeysAreNew(m: map<Id, u64>, ts: seq<Token>, i: nat)
    requires Run(m, ts).Some? && i < |ts| && ts[i].Key?
    ensures ts[i].id !in m && ts[i].id in Run(m, ts).value && Run(m, ts).value[ts[i].id] == ts[i].pid
    ensures forall j :: i < j < |ts| && ts[j].Key? ==> ts[j].id != ts[i].id
    decreases |ts|
  {
    var m1 := After(m, ts[0]);
    if i == 0 {
      PidsPersist(m1, ts[1..]);
      forall j | 0 < j < |ts| && ts[j].Key?
        ensures ts[j].id != ts[0].id
      {
        KeysAreNew(m1, ts[1..], j - 1);
      }
    } else {
      KeysAreNew(m1, ts[1..], i - 1);
      assert forall j :: i < j < |ts| ==> ts[j] == ts[1..][j - 1];
    }
  }

  /** Every key that is new at the end was defined. */
  lemma {:induction false} NewKeysAreDefined(m: map<Id, u64>, ts: seq<Token>, id: Id)
    requires Run(m, ts).Some? && id in Run(m, ts).value && id !in m
    ensures Key(id, Run(m, ts).value[id]) in ts
    decreases |ts|
  {
    if ts != [] {
      var m1 := After(m, ts[0]);
      if id in m1 {
        PidsPersist(m1, ts[1..]);
      } else {
        NewKeysAreDefined(m1, ts[1..], id);
      }
    }
  }

  /** Every use comes after the definition, or was possible from the start. */
  lemma {:induction false} UsesAreDefined(m: map<Id, u64>, ts: seq<Token>, j: nat)
    requires Run(m, ts).Some? && j < |ts| && ts[j].Use?
    ensures (ts[j].id in m && m[ts[j].id] == ts[j].pid) || Key(ts[j].id, ts[j].pid) in ts[..j]
    decreases |ts|
  {
    if j > 0 {
      UsesAreDefined(After(m, ts[0]), ts[1..], j - 1);
      assert ts[..j] == [ts[0]] + ts[1..][..j - 1];
    }
  }

  // ---------- the pieces are what is sent ----------

  /** The pID of an id in a state, 0 if it has none yet. */
  function PidOf(s: State, id: Id): nat {
    match id.space
    case None => if id.lid < |s.nsDict.pids| then s.nsDict.pids[id.lid] else 0
    case Some(g) => if g < |s.dicts| && id.lid < |s.dicts[g].pids| then s.dicts[g].pids[id.lid] else 0
  }

  /** The map holds exactly the pIDs that the sender has given out. */
  ghost predicate Matches(m: map<Id, u64>, s: State) {
    forall id :: if id in m then PidOf(s, id) == m[id] != 0 else PidOf(s, id) == 0
  }

  /** The pieces are the bytes, and running them takes the pIDs of one state to those of the other. */
  ghost predicate Accounts(m: map<Id, u64>, s: State, ts: seq<Token>, w: seq<byte>, t: State) {
    Flat(s.names, ts) == w && Run(m, ts).Some? && Matches(Run(m, ts).value, t)
  }

  lemma Both(m: map<Id, u64>, s: State, a: seq<Token>, w: seq<byte>, t: State, b: seq<Token>, x: seq<byte>, u: State)
    requires Accounts(m, s, a, w, t) && t.names == s.names && Accounts(Run(m, a).value, t, b, x, u)
    ensures Accounts(m, s, a + b, w + x, u)
  {
    hide Matches, Flat, Run;
    FlatConcat(s.names, a, b);
    RunConcat(m, a, b);
  }

  lemma OneToken(names: Bindings, m: map<Id, u64>, t: Token)
    ensures Flat(names, [t]) == Text(names, t)
    ensures Run(m, [t]) == match t
                           case Key(id, pid) => if id in m then None else Some(m[id := pid])
                           case Use(id, pid) => if id in m && m[id] == pid then Some(m) else None
                           case Raw(_) => Some(m)
  {
    hide Text;
    assert [t][1..] == [];
    assert Text(names, t) + [] == Text(names, t);
    assert Flat(names, [t]) == Text(names, t) + Flat(names, [t][1..]);
  }

  lemma RawAccounts(m: map<Id, u64>, s: State, w: seq<byte>)
    requires Matches(m, s)
    ensures Accounts(m, s, [Raw(w)], w, s) && Run(m, [Raw(w)]) == Some(m)
  {
    hide Matches, Flat, Run;
    OneToken(s.names, m, Raw(w));
  }

  lemma NothingAccounts(m: map<Id, u64>, s: State)
    requires Matches(m, s)
    ensures Accounts(m, s, [], [], s)
  {}

  lemma UseAccounts(m: map<Id, u64>, s: State, id: Id)
    requires Matches(m, s) && PidOf(s, id) != 0 && PidOf(s, id) < TWO_32
    ensures Accounts(m, s, [Use(id, PidOf(s, id))], Pid(PidOf(s, id)), s)
  {
    hide Pid, Flat, Run;
    assert id in m && m[id] == PidOf(s, id);
    OneToken(s.names, m, Use(id, PidOf(s, id)));
  }

  /** The state after the pID of an id has been asked for. */
  function Keyed(s: State, id: Id): (t: State)
    requires ValidState(s) && NameOf(s.names, id).Some?
    ensures ValidState(t) && t.names == s.names
  {
    if id.space.None? then s.(nsDict := LidToPid(s.names.ns, s.nsDict, id.lid).dict)
    else
      var g := id.space.value;
      s.(dicts := s.dicts[g := LidToPid(s.names.attrs[g], s.dicts[g], id.lid).dict])
  }

  function DictOf(s: State, id: Id): Dict {
    if id.space.Some? && id.space.value < |s.dicts| then s.dicts[id.space.value] else s.nsDict
  }

  function NamesOf(s: State, id: Id): seq<Option<Name>> {
    if id.space.Some? && id.space.value < |s.names.attrs| then s.names.attrs[id.space.value] else s.names.ns
  }

  /** Asking for a pID defines the key if it has none. */
  lemma KeyAccounts(m: map<Id, u64>, s: State, id: Id)
    requires ValidState(s) && NameOf(s.names, id).Some? && Matches(m, s)
    ensures var a := LidToPid(NamesOf(s, id), DictOf(s, id), id.lid);
            && id.lid < |DictOf(s, id).pids| && a.pid == PidOf(Keyed(s, id), id) != 0 && a.pid < TWO_32
            && Accounts(m, s, KeyTokens(DictOf(s, id), id, a.pid), a.sent, Keyed(s, id))
  {
    hide ValidDict, Insertion, Header, Flat, Run;
    var names, d := NamesOf(s, id), DictOf(s, id);
    DictSize(names, d);
    var a, t := LidToPid(names, d, id.lid), Keyed(s, id);
    var ts := KeyTokens(d, id, a.pid);
    if d.pids[id.lid] == 0 {
      assert PidOf(s, id) == 0;
      OneToken(s.names, m, Key(id, a.pid));
      forall other
        ensures if other in m[id := a.pid] then PidOf(t, other) == m[id := a.pid][other] != 0 else PidOf(t, other) == 0
      {
        if other != id {
          assert PidOf(t, other) == PidOf(s, other);
        }
      }
    } else {
      assert id in m;
      assert t == s;
      NothingAccounts(m, s);
    }
  }

  lemma GroupStartAccounts(m: map<Id, u64>, s: State, g: nat)
    requires ValidState(s) && Bound(s.names.ns, g) && Matches(m, s)
    ensures Accounts(m, s, GroupStartTokens(s, g), SendGroupStart(s, g).sent, SendGroupStart(s, g).state)
  {
    hide ValidDict, Matches, Accounts, Pid, PidOf, LidToPid, KeyTokens, Run;
    var id := Id(None, g);
    var a, t := LidToPid(s.names.ns, s.nsDict, g), Keyed(s, id);
    KeyAccounts(m, s, id);
    var keys := KeyTokens(s.nsDict, id, a.pid);
    RawAccounts(m, s, [0xBF]);
    Both(m, s, [Raw([0xBF])], [0xBF], s, keys, a.sent, t);
    var n := RunOf(m, s, [Raw([0xBF])] + keys, [0xBF] + a.sent, t);
    RawAccounts(n, t, Pid(0));
    UseAccounts(n, t, id);
    Both(n, t, [Raw(Pid(0))], Pid(0), t, [Use(id, a.pid)], Pid(a.pid), t);
    Both(m, s, [Raw([0xBF])] + keys, [0xBF] + a.sent, t, [Raw(Pid(0))] + [Use(id, a.pid)], Pid(0) + Pid(a.pid), t);
    assert [Raw(Pid(0))] + [Use(id, a.pid)] == [Raw(Pid(0)), Use(id, a.pid)];
    assert [0xBF] + a.sent + (Pid(0) + Pid(a.pid)) == [0xBF] + a.sent + Pid(0) + Pid(a.pid);
  }

  /** The map that a run ends with. */
  lemma RunOf(m: map<Id, u64>, s: State, ts: seq<Token>, w: seq<byte>, t: State) returns (n: map<Id, u64>)
    requires Accounts(m, s, ts, w, t)
    ensures Run(m, ts) == Some(n) && Matches(n, t)
  {
    n := Run(m, ts).value;
  }

  lemma IdAccounts(m: map<Id, u64>, s: State, g: nat, lid: nat)
    requires ValidState(s) && g < |s.dicts| && Bound(s.names.attrs[g], lid) && Matches(m, s)
    ensures Accounts(m, s, IdTokens(s, g, lid), SendId(s, g, lid).sent, SendId(s, g, lid).state)
  {
    hide ValidDict, Matches, Accounts, Pid, PidOf, LidToPid, KeyTokens, Run;
    var id := Id(Some(g), lid);
    assert NameOf(s.names, id).Some?;
    var a, t := LidToPid(s.names.attrs[g], s.dicts[g], lid), Keyed(s, id);
    KeyAccounts(m, s, id);
    var keys := KeyTokens(s.dicts[g], id, a.pid);
    var n := RunOf(m, s, keys, a.sent, t);
    UseAccounts(n, t, id);
    Both(m, s, keys, a.sent, t, [Use(id, a.pid)], Pid(a.pid), t);
  }

  lemma {:induction false} TokensAccount(m: map<Id, u64>, s: State, v: Value)
    requires ValidState(s) && Sendable(s.names, v) && Matches(m, s)
    ensures Accounts(m, s, Tokens(s, v), Send(s, v).sent, Send(s, v).state)
    decreases v, 0
  {
    hide ValidState, Matches, Accounts, SendScalar, Header, GroupStartTokens, SendGroupStart, Run;
    match v
    case VArr(vs) =>
      RawAccounts(m, s, Header(MAJOR_ARRAY, |vs|));
      AllTokensAccount(m, s, vs);
      Both(m, s, [Raw(Header(MAJOR_ARRAY, |vs|))], Header(MAJOR_ARRAY, |vs|), s, AllTokens(s, vs), SendAll(s, vs).sent,
           SendAll(s, vs).state);
    case VGroup(g, attrs) =>
      var start := SendGroupStart(s, g);
      var body := SendAttrs(start.state, g, attrs);
      var a, b := GroupStartTokens(s, g), AttrTokens(start.state, g, attrs);
      GroupStartAccounts(m, s, g);
      var n := RunOf(m, s, a, start.sent, start.state);
      AttrTokensAccount(n, start.state, g, attrs);
      Both(m, s, a, start.sent, start.state, b, body.sent, body.state);
      var o := RunOf(m, s, a + b, start.sent + body.sent, body.state);
      RawAccounts(o, body.state, [BREAK]);
      Both(m, s, a + b, start.sent + body.sent, body.state, [Raw([BREAK])], [BREAK], body.state);
    case _ => RawAccounts(m, s, SendScalar(v));
  }

  lemma {:induction false} AllTokensAccount(m: map<Id, u64>, s: State, vs: seq<Value>)
    requires ValidState(s) && AllSendable(s.names, vs) && Matches(m, s)
    ensures Accounts(m, s, AllTokens(s, vs), SendAll(s, vs).sent, SendAll(s, vs).state)
    decreases vs, 1
  {
    hide ValidState, Matches, Accounts, Tokens, Send, Run;
    if vs == [] {
      NothingAccounts(m, s);
    } else {
      var first := Send(s, vs[0]);
      var more := SendAll(first.state, vs[1..]);
      TokensAccount(m, s, vs[0]);
      var n := RunOf(m, s, Tokens(s, vs[0]), first.sent, first.state);
      AllTokensAccount(n, first.state, vs[1..]);
      Both(m, s, Tokens(s, vs[0]), first.sent, first.state, AllTokens(first.state, vs[1..]), more.sent, more.state);
    }
  }

  lemma {:induction false} AttrTokensAccount(m: map<Id, u64>, s: State, g: nat, attrs: seq<Attr>)
    requires ValidState(s) && g < |s.names.attrs| && AttrsSendable(s.names, g, attrs) && Matches(m, s)
    ensures Accounts(m, s, AttrTokens(s, g, attrs), SendAttrs(s, g, attrs).sent, SendAttrs(s, g, attrs).state)
    decreases attrs, 1
  {
    hide ValidDict, Matches, Accounts, Tokens, Send, SendId, IdTokens, Run;
    if attrs == [] {
      NothingAccounts(m, s);
    } else {
      assert attrs[0].value < attrs[0];
      var id := SendId(s, g, attrs[0].id);
      var first := Send(id.state, attrs[0].value);
      var more := SendAttrs(first.state, g, attrs[1..]);
      var a, b := IdTokens(s, g, attrs[0].id), Tokens(id.state, attrs[0].value);
      IdAccounts(m, s, g, attrs[0].id);
      var n := RunOf(m, s, a, id.sent, id.state);
      TokensAccount(n, id.state, attrs[0].value);
      Both(m, s, a, id.sent, id.state, b, first.sent, first.state);
      var o := RunOf(m, s, a + b, id.sent + first.sent, first.state);
      AttrTokensAccount(o, first.state, g, attrs[1..]);
      Both(m, s, a + b, id.sent + first.sent, first.state, AttrTokens(first.state, g, attrs[1..]), more.sent,
        more.state);
    }
  }

  // ---------- the result ----------

  /** The keys that are defined in a run of pieces. */
  function Defined(ts: seq<Token>): seq<Id> {
    if ts == [] then [] else (if ts[0].Key? then [ts[0].id] else []) + Defined(ts[1..])
  }

  lemma {:induction false} DefinedIn(ts: seq<Token>, id: Id)
    ensures id in Defined(ts) <==> exists i :: 0 <= i < |ts| && ts[i].Key? && ts[i].id == id
  {
    if ts != [] {
      DefinedIn(ts[1..], id);
      if id in Defined(ts[1..]) {
        var i :| 0 <= i < |ts[1..]| && ts[1..][i].Key? && ts[1..][i].id == id;
        assert ts[i + 1] == ts[1..][i];
      }
      if exists i :: 0 <= i < |ts| && ts[i].Key? && ts[i].id == id {
        var i :| 0 <= i < |ts| && ts[i].Key? && ts[i].id == id;
        if i > 0 {
          assert ts[1..][i - 1] == ts[i];
        }
      }
    }
  }

  lemma {:induction false} DefinedOnce(m: map<Id, u64>, ts: seq<Token>)
    requires Run(m, ts).Some?
    ensures forall i, j :: 0 <= i < j < |Defined(ts)| ==> Defined(ts)[i] != Defined(ts)[j]
    decreases |ts|
  {
    if ts != [] {
      DefinedOnce(After(m, ts[0]), ts[1..]);
      if ts[0].Key? {
        KeysAreNew(m, ts, 0);
        DefinedIn(ts[1..], ts[0].id);
        assert forall i :: 0 <= i < |ts[1..]| ==> ts[1..][i] == ts[i + 1];
        assert Defined(ts) == [ts[0].id] + Defined(ts[1..]);
      } else {
        assert Defined(ts) == Defined(ts[1..]);
      }
    }
  }

  function Ids(s: State): set<Id> {
    (set l | 0 <= l < |s.nsDict.pids| :: Id(None, l)) +
    (set g, l | 0 <= g < |s.dicts| && 0 <= l < |s.dicts[g].pids| :: Id(Some(g), l))
  }

  /** The pIDs that a sender has given out so far. */
  lemma PidMap(s: State) returns (m: map<Id, u64>)
    requires ValidState(s)
    ensures Matches(m, s)
  {
    forall id
      ensures PidOf(s, id) < TWO_32 && (PidOf(s, id) != 0 ==> id in Ids(s))
    {
      PidInRange(s, id);
    }
    m := map id | id in Ids(s) && PidOf(s, id) != 0 :: PidOf(s, id);
  }

  lemma PidInRange(s: State, id: Id)
    requires ValidState(s)
    ensures PidOf(s, id) < TWO_32 && (PidOf(s, id) != 0 ==> id in Ids(s))
  {
    match id.space
    case None => PidsAreNarrow(s.names.ns, s.nsDict);
    case Some(g) =>
      if g < |s.dicts| {
        PidsAreNarrow(s.names.attrs[g], s.dicts[g]);
      }
  }

  /** A whole session of any trees, from any state of the sender: what goes over the wire is these pieces in order;
      every pID that was given out stays; the keys defined are, each once, exactly the ids that get their pID in the
      session; and no id is used before it is defined. */
  lemma SessionDefinesOnce(s: State, vs: seq<Value>)
    requires ValidState(s) && AllSendable(s.names, vs)
    ensures var ts, t := AllTokens(s, vs), SendAll(s, vs).state;
            && Flat(s.names, ts) == SendAll(s, vs).sent
            && (forall id :: PidOf(s, id) != 0 ==> PidOf(t, id) == PidOf(s, id))
            && (forall i, j :: 0 <= i < j < |Defined(ts)| ==> Defined(ts)[i] != Defined(ts)[j])
            && (forall id :: id in Defined(ts) <==> PidOf(s, id) == 0 && PidOf(t, id) != 0)
            && (forall j :: 0 <= j < |ts| && ts[j].Use? ==>
                  0 != PidOf(s, ts[j].id) == ts[j].pid || Key(ts[j].id, ts[j].pid) in ts[..j])
            && (forall j :: 0 <= j < |ts| && ts[j].Key? ==> PidOf(t, ts[j].id) == ts[j].pid)
  {
    hide Run, ValidState, AllTokens, SendAll, PidOf, Flat, Defined;
    var ts, t := AllTokens(s, vs), SendAll(s, vs).state;
    var m := PidMap(s);
    AllTokensAccount(m, s, vs);
    var n := Run(m, ts).value;
    PidsPersist(m, ts);
    DefinedOnce(m, ts);
    forall id
      ensures PidOf(s, id) != 0 ==> PidOf(t, id) == PidOf(s, id)
      ensures id in Defined(ts) <==> PidOf(s, id) == 0 && PidOf(t, id) != 0
    {
      assert (id in m ==> PidOf(s, id) == m[id]) && (id in n ==> PidOf(t, id) == n[id]);
      DefinedIn(ts, id);
      if id in Defined(ts) {
        var i :| 0 <= i < |ts| && ts[i].Key? && ts[i].id == id;
        KeysAreNew(m, ts, i);
      }
      if id in n && id !in m {
        NewKeysAreDefined(m, ts, id);
      }
    }
    forall j | 0 <= j < |ts|
      ensures ts[j].Use? ==> 0 != PidOf(s, ts[j].id) == ts[j].pid || Key(ts[j].id, ts[j].pid) in ts[..j]
      ensures ts[j].Key? ==> PidOf(t, ts[j].id) == ts[j].pid
    {
      if ts[j].Use? {
        UsesAreDefined(m, ts, j);
      } else if ts[j].Key? {
        KeysAreNew(m, ts, j);
      }
    }
  }

  /** Group by group: pIDs stay through any value that is sent. */
  lemma SentPidsPersist(s: State, v: Value)
    requires ValidState(s) && Sendable(s.names, v)
    ensures var t := Send(s, v).state;
            && |t.nsDict.pids| == |s.nsDict.pids| && |t.dicts| == |s.dicts|
            && (forall l :: 0 <= l < |s.nsDict.pids| && s.nsDict.pids[l] != 0 ==> t.nsDict.pids[l] == s.nsDict.pids[l])
            && (forall g, l :: 0 <= g < |s.dicts| && 0 <= l < |s.dicts[g].pids| && s.dicts[g].pids[l] != 0 ==>
                  l < |t.dicts[g].pids| && t.dicts[g].pids[l] == s.dicts[g].pids[l])
  {
    hide Run, Tokens, Send, ValidDict, Flat;
    var t := Send(s, v).state;
    var m := PidMap(s);
    TokensAccount(m, s, v);
    PidsPersist(m, Tokens(s, v));
    var n := Run(m, Tokens(s, v)).value;
    SameSizes(s, t);
    forall id
      ensures PidOf(s, id) != 0 ==> PidOf(t, id) == PidOf(s, id)
    {
      assert (id in m ==> PidOf(s, id) == m[id]) && (id in n ==> PidOf(t, id) == n[id]);
    }
    assert forall l :: 0 <= l < |s.nsDict.pids| ==> PidOf(s, Id(None, l)) == s.nsDict.pids[l];
    assert forall g, l :: 0 <= g < |s.dicts| && 0 <= l < |s.dicts[g].pids| ==>
             PidOf(s, Id(Some(g), l)) == s.dicts[g].pids[l];
  }

  lemma SameSizes(s: State, t: State)
    requires ValidState(s) && ValidState(t) && t.names == s.names
    ensures |t.nsDict.pids| == |s.nsDict.pids| && |t.dicts| == |s.dicts|
    ensures forall g :: 0 <= g < |s.dicts| ==> |t.dicts[g].pids| == |s.dicts[g].pids|
  {}

  // ---------- no gaps ----------

  ghost predicate AllGapless(s: State) {
    Gapless(s.nsDict) && forall g :: 0 <= g < |s.dicts| ==> Gapless(s.dicts[g])
  }

  lemma UseKeepsGapless(names: seq<Option<Name>>, d: Dict, lid: nat)
    requires ValidDict(names, d) && Bound(names, lid) && Gapless(d)
    ensures Gapless(LidToPid(names, d, lid).dict)
  {
    hide ValidDict, Gapless, Insertion;
    DictSize(names, d);
    if d.pids[lid] == 0 {
      AssignKeepsValid(names, d, lid);
    }
  }

  lemma IdKeepsGapless(s: State, g: nat, lid: nat)
    requires ValidState(s) && g < |s.dicts| && Bound(s.names.attrs[g], lid) && AllGapless(s)
    ensures AllGapless(SendId(s, g, lid).state)
  {
    hide Gapless, ValidDict, LidToPid, Pid;
    UseKeepsGapless(s.names.attrs[g], s.dicts[g], lid);
  }

  lemma GroupStartKeepsGapless(s: State, g: nat)
    requires ValidState(s) && Bound(s.names.ns, g) && AllGapless(s)
    ensures AllGapless(SendGroupStart(s, g).state)
  {
    hide Gapless, ValidDict, LidToPid, Pid;
    UseKeepsGapless(s.names.ns, s.nsDict, g);
  }

  /** As long as no name is bound again after it was sent, the pIDs of every group are the numbers from 2 on, as many as
      ids were used. */
  lemma {:induction false} SendingKeepsGapless(s: State, v: Value)
    requires ValidState(s) && Sendable(s.names, v) && AllGapless(s)
    ensures AllGapless(Send(s, v).state)
    decreases v, 0
  {
    hide AllGapless, ValidState, SendGroupStart;
    match v
    case VArr(vs) => SendingAllKeepsGapless(s, vs);
    case VGroup(g, attrs) =>
      GroupStartKeepsGapless(s, g);
      SendingAttrsKeepsGapless(SendGroupStart(s, g).state, g, attrs);
    case _ =>
  }

  lemma {:induction false} SendingAllKeepsGapless(s: State, vs: seq<Value>)
    requires ValidState(s) && AllSendable(s.names, vs) && AllGapless(s)
    ensures AllGapless(SendAll(s, vs).state)
    decreases vs, 1
  {
    hide AllGapless, ValidState, Send;
    if vs != [] {
      SendingKeepsGapless(s, vs[0]);
      SendingAllKeepsGapless(Send(s, vs[0]).state, vs[1..]);
    }
  }

  lemma {:induction false} SendingAttrsKeepsGapless(s: State, g: nat, attrs: seq<Attr>)
    requires ValidState(s) && g < |s.names.attrs| && AttrsSendable(s.names, g, attrs) && AllGapless(s)
    ensures AllGapless(SendAttrs(s, g, attrs).state)
    decreases attrs, 1
  {
    hide AllGapless, ValidDict, Send, SendId;
    if attrs != [] {
      assert attrs[0].value < attrs[0];
      IdKeepsGapless(s, g, attrs[0].id);
      var id := SendId(s, g, attrs[0].id).state;
      SendingKeepsGapless(id, attrs[0].value);
      SendingAttrsKeepsGapless(Send(id, attrs[0].value).state, g, attrs[1..]);
    }
  }
}
