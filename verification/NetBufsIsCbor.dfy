/** What a NetBufs sender emits is well-formed CBOR, which any CBOR decoder takes as one item per value. */
module NetBufsIsCbor {
  import opened Prelude
  import opened Wire
  import opened Cbor
  import opened CborGrammar
  import opened CborReadings
  import opened NetBufs

  /** The items of a key insertion, if using the id causes one. */
  function KeyItems(names: seq<Option<Name>>, d: Dict, lid: nat): (ts: seq<Item>)
    requires ValidDict(names, d) && Bound(names, lid)
    ensures |ts| % 2 == 0
  {
    var a := LidToPid(names, d, lid);
    if d.pids[lid] != 0 then [] else [UInt(1), Map(true, [Text(false, names[lid].value), UInt(a.pid)])]
  }

  function ScalarItem(v: Value): Item
    requires v.VInt? || v.VUint? || v.VBool? || v.VStr?
    requires v.VInt? ==> -Half(v.w) <= v.i < Half(v.w)
    requires v.VUint? ==> v.n < 2 * Half(v.w)
  {
    match v
    case VInt(_, i) => if i >= 0 then UInt(i) else Int(i)
    case VUint(w, n) => UInt(if w == W64 then Narrow(n) else n)
    case VBool(b) => Sval(if b then SVAL_TRUE else SVAL_FALSE)
    case VStr(s) => Text(false, s)
  }

  /** The items of an id in front of an attribute. */
  function IdItems(s: State, g: nat, id: nat): (ts: seq<Item>)
    requires ValidState(s) && g < |s.names.attrs| && Bound(s.names.attrs[g], id)
    ensures |ts| % 2 == 1
  {
    KeyItems(s.names.attrs[g], s.dicts[g], id) + [UInt(LidToPid(s.names.attrs[g], s.dicts[g], id).pid)]
  }

  /** The CBOR item that sending a value amounts to: groups are maps, and so are the key insertions in them. */
  function AsItem(s: State, v: Value): Item
    requires ValidState(s) && Sendable(s.names, v)
    decreases v, 0
  {
    match v
    case VArr(vs) => Array(false, AllAsItems(s, vs))
    case VGroup(g, attrs) =>
      var pid := LidToPid(s.names.ns, s.nsDict, g).pid;
      Map(true, KeyItems(s.names.ns, s.nsDict, g) + [UInt(0), UInt(pid)]
                + AttrItems(SendGroupStart(s, g).state, g, attrs))
    case _ => ScalarItem(v)
  }

  function AllAsItems(s: State, vs: seq<Value>): (ts: seq<Item>)
    requires ValidState(s) && AllSendable(s.names, vs)
    ensures |ts| == |vs|
    decreases vs, 1
  {
    if vs == [] then [] else [AsItem(s, vs[0])] + AllAsItems(Send(s, vs[0]).state, vs[1..])
  }

  function AttrItems(s: State, g: nat, attrs: seq<Attr>): (ts: seq<Item>)
    requires ValidState(s) && g < |s.names.attrs| && AttrsSendable(s.names, g, attrs)
    decreases attrs, 1
  {
    if attrs == [] then []
    else
      assert attrs[0].value < attrs[0];
      var id := SendId(s, g, attrs[0].id);
      IdItems(s, g, attrs[0].id) + [AsItem(id.state, attrs[0].value)]
      + AttrItems(Send(id.state, attrs[0].value).state, g, attrs[1..])
  }

  lemma {:induction false} AttrItemsArePairs(s: State, g: nat, attrs: seq<Attr>)
    requires ValidState(s) && g < |s.names.attrs| && AttrsSendable(s.names, g, attrs)
    ensures |AttrItems(s, g, attrs)| % 2 == 0
    decreases |attrs|
  {
    hide ValidDict, Send, SendId, IdItems, AsItem;
    if attrs != [] {
      var x := Send(SendId(s, g, attrs[0].id).state, attrs[0].value);
      AttrItemsArePairs(x.state, g, attrs[1..]);
      var n, m := |IdItems(s, g, attrs[0].id)| + 1, |AttrItems(x.state, g, attrs[1..])|;
      assert n % 2 == 0 && (n + m) % 2 == 0;
    }
  }

  /** One well-formed item of RFC 7049, in the strict reading and whatever follows. */
  ghost predicate IsItem(t: Item, w: seq<byte>) {
    Derives(t, w, 1, false, false)
  }

  ghost predicate AreItems(ts: seq<Item>, w: seq<byte>) {
    DerivesAll(ts, w, |ts|, false, false)
  }

  lemma {:induction false} DerivesConcat(ts: seq<Item>, w: seq<byte>, us: seq<Item>, x: seq<byte>)
    requires AreItems(ts, w) && AreItems(us, x)
    ensures AreItems(ts + us, w + x)
    decreases |ts|
  {
    hide Derives;
    if ts == [] {
      assert ts + us == us && w + x == x;
    } else {
      var m := |ts|;
      assert DerivesAll(ts, w, m, false, false);
      var k, n :| 0 < k <= |w| && 0 < n <= m && DerivesFirst(ts, w, k, n, m, false, false);
      CountsCover(ts[1..], w[k..], |ts| - n, false, false);
      DerivesConcat(ts[1..], w[k..], us, x);
      assert (ts + us)[1..] == ts[1..] + us && (ts + us)[0] == ts[0];
      assert (w + x)[..k] == w[..k] && (w + x)[k..] == w[k..] + x;
      assert DerivesFirst(ts + us, w + x, k, 1, |ts + us|, false, false);
    }
  }

  lemma DerivesNothing()
    ensures AreItems([], [])
  {}

  lemma DerivesOne(t: Item, w: seq<byte>)
    requires IsItem(t, w)
    ensures AreItems([t], w)
  {
    hide Derives, DerivesAll;
    NoItems(false, false);
    ItemInFront(Decoded(t, 1, []), w, DecodedItems([], 0, []), [], false);
    assert [t] + [] == [t] && w + [] == w;
  }

  lemma PidIsItem(p: u64)
    requires p < TWO_32
    ensures IsItem(UInt(p), Pid(p)) && AreItems([UInt(p)], Pid(p))
  {
    hide IsHeader, Header, AreItems;
    HeaderRoundTrip(MAJOR_UINT, p);
    DerivesOne(UInt(p), Pid(p));
  }

  lemma IndefMapIsItem(ts: seq<Item>, w: seq<byte>)
    requires AreItems(ts, w) && |ts| % 2 == 0
    ensures IsItem(Map(true, ts), [0xBF] + w + [BREAK])
  {
    hide DerivesAll, DerivesBlock;
    StrictItemsAnywhere(ts, w, |ts|, true);
    IndefBlockOf(MAJOR_MAP, ts, w, |ts|, false, false);
    BlockDerives(Map(true, ts), [0xBF] + w + [BREAK], false, false);
  }

  lemma InsertionIsItems(name: Name, p: u64)
    requires p < TWO_32
    ensures AreItems([UInt(1), Map(true, [Text(false, name), UInt(p)])], Insertion(name, p))
  {
    hide IsHeader, Header, AreItems, IsItem, Pid;
    TextIsItem(name);
    PidIsItem(p);
    DerivesConcat([Text(false, name)], TextBytes(name), [UInt(p)], Pid(p));
    assert [Text(false, name)] + [UInt(p)] == [Text(false, name), UInt(p)];
    var m := Map(true, [Text(false, name), UInt(p)]);
    var w := [0xBF] + (TextBytes(name) + Pid(p)) + [BREAK];
    IndefMapIsItem([Text(false, name), UInt(p)], TextBytes(name) + Pid(p));
    DerivesOne(m, w);
    PidIsItem(1);
    DerivesConcat([UInt(1)], Pid(1), [m], w);
    assert [UInt(1)] + [m] == [UInt(1), m];
    assert Pid(1) + w == Insertion(name, p);
  }

  lemma TextIsItem(s: Name)
    ensures IsItem(Text(false, s), TextBytes(s)) && AreItems([Text(false, s)], TextBytes(s))
  {
    hide IsHeader, Header, AreItems;
    WrittenStringIsDerived(MAJOR_TEXT, s);
    DerivesOne(Text(false, s), TextBytes(s));
  }

  lemma KeyIsItems(names: seq<Option<Name>>, d: Dict, lid: nat)
    requires ValidDict(names, d) && Bound(names, lid)
    ensures AreItems(KeyItems(names, d, lid), LidToPid(names, d, lid).sent)
  {
    hide AreItems, Insertion;
    if d.pids[lid] == 0 {
      InsertionIsItems(names[lid].value, LidToPid(names, d, lid).pid);
    } else {
      DerivesNothing();
    }
  }

  lemma ScalarIsItem(v: Value)
    requires v.VInt? || v.VUint? || v.VBool? || v.VStr?
    requires v.VInt? ==> -Half(v.w) <= v.i < Half(v.w)
    requires v.VUint? ==> v.n < 2 * Half(v.w)
    ensures IsItem(ScalarItem(v), SendScalar(v))
  {
    hide IsHeader, Header;
    match v
    case VInt(_, i) =>
      if i >= 0 { HeaderRoundTrip(MAJOR_UINT, i); } else { HeaderRoundTrip(MAJOR_NEGINT, NegArg(i)); }
    case VUint(w, n) => HeaderRoundTrip(MAJOR_UINT, if w == W64 then Narrow(n) else n);
    case VBool(_) =>
    case VStr(s) => TextIsItem(s);
  }

  /** Every value a sender can send is one well-formed item of RFC 7049 on the wire: arrays hold what they announce,
      and each map holds pairs although key insertions come between the attributes. */
  lemma {:induction false} SentIsItem(s: State, v: Value)
    requires ValidState(s) && Sendable(s.names, v)
    ensures IsItem(AsItem(s, v), Send(s, v).sent)
    decreases v, 1
  {
    hide IsItem, SendScalar, ScalarItem, ValidState;
    match v
    case VArr(_) => ArrayIsItem(s, v);
    case VGroup(_, _) => GroupIsItem(s, v);
    case _ => ScalarIsItem(v);
  }

  lemma {:induction false} ArrayIsItem(s: State, v: Value)
    requires ValidState(s) && Sendable(s.names, v) && v.VArr?
    ensures IsItem(AsItem(s, v), Send(s, v).sent)
    decreases v, 0
  {
    hide DerivesAll, DerivesBlock, IsHeader, Header, ValidState, SendAll, AllAsItems;
    var n := |v.items|;
    var h, w := Header(MAJOR_ARRAY, n), SendAll(s, v.items).sent;
    HeaderRoundTrip(MAJOR_ARRAY, n);
    AllAreItems(s, v.items);
    DefiniteBlockOf(MAJOR_ARRAY, h, AllAsItems(s, v.items), w, n, false, false);
    BlockDerives(AsItem(s, v), h + w, false, false);
  }

  lemma {:induction false} AllAreItems(s: State, vs: seq<Value>)
    requires ValidState(s) && AllSendable(s.names, vs)
    ensures AreItems(AllAsItems(s, vs), SendAll(s, vs).sent)
    decreases vs, 0
  {
    hide IsItem, AreItems, ValidState, Send, AsItem;
    if vs == [] {
      DerivesNothing();
    } else {
      var x := Send(s, vs[0]);
      SentIsItem(s, vs[0]);
      AllAreItems(x.state, vs[1..]);
      DerivesOne(AsItem(s, vs[0]), x.sent);
      DerivesConcat([AsItem(s, vs[0])], x.sent, AllAsItems(x.state, vs[1..]), SendAll(x.state, vs[1..]).sent);
    }
  }

  lemma {:induction false} GroupIsItem(s: State, v: Value)
    requires ValidState(s) && Sendable(s.names, v) && v.VGroup?
    ensures IsItem(AsItem(s, v), Send(s, v).sent)
    decreases v, 0
  {
    hide IsItem, AreItems, ValidDict, SendAttrs, AttrItems, Pid, KeyItems, LidToPid;
    var g := v.gid;
    var a := LidToPid(s.names.ns, s.nsDict, g);
    var start := SendGroupStart(s, g);
    var keys, items := KeyItems(s.names.ns, s.nsDict, g), AttrItems(start.state, g, v.attrs);
    var body := SendAttrs(start.state, g, v.attrs).sent;
    KeyIsItems(s.names.ns, s.nsDict, g);
    PidIsItem(0);
    PidIsItem(a.pid);
    AttrsAreItems(start.state, g, v.attrs);
    AttrItemsArePairs(start.state, g, v.attrs);
    DerivesConcat([UInt(0)], Pid(0), [UInt(a.pid)], Pid(a.pid));
    assert [UInt(0)] + [UInt(a.pid)] == [UInt(0), UInt(a.pid)];
    DerivesConcat(keys, a.sent, [UInt(0), UInt(a.pid)], Pid(0) + Pid(a.pid));
    DerivesConcat(keys + [UInt(0), UInt(a.pid)], a.sent + (Pid(0) + Pid(a.pid)), items, body);
    IndefMapIsItem(keys + [UInt(0), UInt(a.pid)] + items, a.sent + (Pid(0) + Pid(a.pid)) + body);
    assert Send(s, v).sent == [0xBF] + (a.sent + (Pid(0) + Pid(a.pid)) + body) + [BREAK];
  }

  lemma {:induction false} AttrsAreItems(s: State, g: nat, attrs: seq<Attr>)
    requires ValidState(s) && g < |s.names.attrs| && AttrsSendable(s.names, g, attrs)
    ensures AreItems(AttrItems(s, g, attrs), SendAttrs(s, g, attrs).sent)
    decreases attrs, 0
  {
    hide IsItem, AreItems, ValidDict, Send, AsItem, Pid, KeyItems, LidToPid;
    if attrs == [] {
      DerivesNothing();
    } else {
      assert attrs[0].value < attrs[0];
      var names, d := s.names.attrs[g], s.dicts[g];
      var a := LidToPid(names, d, attrs[0].id);
      var id := SendId(s, g, attrs[0].id);
      var x := Send(id.state, attrs[0].value);
      var keys, t := KeyItems(names, d, attrs[0].id), AsItem(id.state, attrs[0].value);
      var items, more := AttrItems(x.state, g, attrs[1..]), SendAttrs(x.state, g, attrs[1..]).sent;
      KeyIsItems(names, d, attrs[0].id);
      PidIsItem(a.pid);
      SentIsItem(id.state, attrs[0].value);
      DerivesOne(t, x.sent);
      AttrsAreItems(x.state, g, attrs[1..]);
      DerivesConcat(keys, a.sent, [UInt(a.pid)], Pid(a.pid));
      DerivesConcat(keys + [UInt(a.pid)], id.sent, [t], x.sent);
      DerivesConcat(keys + [UInt(a.pid)] + [t], id.sent + x.sent, items, more);
    }
  }

  /** So a plain CBOR decoder reads the value as one item and stops behind it. */
  lemma SentIsDecoded(s: State, v: Value, rest: seq<byte>)
    requires ValidState(s) && Sendable(s.names, v)
    ensures Decode(Send(s, v).sent + rest) == Ok(Decoded(AsItem(s, v), 1, rest))
  {
    hide Decode, Derives, Send, AsItem, ValidState;
    SentIsItem(s, v);
    Complete(AsItem(s, v), Send(s, v).sent, 1, false, false, rest);
  }

  // ---------- names are sent once ----------

  /** The dictionary after some ids were used, one after the other. */
  function AfterUses(names: seq<Option<Name>>, d: Dict, lids: seq<nat>): (r: Dict)
    requires ValidDict(names, d) && forall i :: 0 <= i < |lids| ==> Bound(names, lids[i])
    ensures ValidDict(names, r)
    decreases |lids|
  {
    if lids == [] then d else AfterUses(names, LidToPid(names, d, lids[0]).dict, lids[1..])
  }

  /** After an id has been used, it has its pID: whatever is used next, using it again inserts nothing and gives the
      same one, and all others have different ones. */
  lemma {:induction false} InsertedOnce(names: seq<Option<Name>>, d: Dict, lid: nat, others: seq<nat>)
    requires ValidDict(names, d) && Bound(names, lid) && d.pids[lid] != 0
    requires forall i :: 0 <= i < |others| ==> Bound(names, others[i])
    ensures var r := AfterUses(names, d, others);
            LidToPid(names, r, lid) == Assigned(r, [], d.pids[lid]) &&
            forall l :: 0 <= l < |r.pids| && l != lid ==> r.pids[l] != d.pids[lid]
    decreases |others|
  {
    hide Insertion;
    if others != [] {
      InsertedOnce(names, LidToPid(names, d, others[0]).dict, lid, others[1..]);
    }
  }
}
