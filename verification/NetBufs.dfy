/** The NetBufs protocol as functions on byte sequences: what a sender emits for a tree of groups and attributes,
    and what a receiver makes of any input. Both sides name things by local ids; on the wire an id is the number
    the sender gave to the name when it first used it. */
module NetBufs {
  import opened Prelude
  import opened Wire
  import opened Cbor
  import opened GrowArrays

  const MAX_LIDS := 0x8000_0000  // local ids are non-negative values of a 32-bit int
  const LID_UNKNOWN := -1

  /** A C string. */
  type Name = s: seq<byte> | 0 !in s && |s| < TWO_64 witness []

  /** The names that `nb_group` and `nb_bind` attach to local ids: those of the groups, and for each group those of
      its attributes. */
  datatype Bindings = Bindings(ns: seq<Option<Name>>, attrs: seq<seq<Option<Name>>>)

  /** The changing part of `struct nb_group`: `attrs[lid]->pid` and `max_pid` on the sending side, `pid_to_lid` on the
      receiving side. */
  datatype Dict = Dict(pids: seq<nat>, maxPid: nat, pidToLid: Arr<int>)

  /** What a party knows. The last field is the attribute that was received last, `cur_attr`, by its local id; nothing
      sets it before the first one. */
  datatype State = State(names: Bindings, nsDict: Dict, dicts: seq<Dict>, curAttr: Option<nat>)

  predicate Bound(names: seq<Option<Name>>, lid: int) {
    0 <= lid < |names| && names[lid].Some?
  }

  function NumUsed(pids: seq<nat>): (n: nat)
    ensures n <= |pids|
  {
    if pids == [] then 0 else NumUsed(pids[..|pids| - 1]) + if pids[|pids| - 1] == 0 then 0 else 1
  }

  function NumUnused(pids: seq<nat>): nat {
    |pids| - NumUsed(pids)
  }

  /** pIDs 0 and 1 are reserved; the others are given out in order, each to one bound local id. Those that a sender can
      still need are below 2^32, which is as far as they are sent. */
  ghost predicate ValidDict(names: seq<Option<Name>>, d: Dict) {
    && |d.pids| == |names| <= MAX_LIDS
    && 1 <= d.maxPid && d.maxPid + NumUnused(d.pids) < TWO_32
    && (forall l :: 0 <= l < |names| && d.pids[l] != 0 ==> names[l].Some? && 2 <= d.pids[l] <= d.maxPid)
    && (forall l, m :: 0 <= l < m < |names| && d.pids[l] != 0 ==> d.pids[l] != d.pids[m])
  }

  /** Every pID that was given out is still in use. */
  ghost predicate Gapless(d: Dict) {
    d.maxPid == 1 + NumUsed(d.pids) && forall p :: 2 <= p <= d.maxPid ==> p in d.pids
  }

  lemma DictSize(names: seq<Option<Name>>, d: Dict)
    requires ValidDict(names, d)
    ensures |d.pids| == |names|
  {}

  ghost predicate ValidState(s: State) {
    && |s.names.attrs| == |s.names.ns| == |s.dicts|
    && ValidDict(s.names.ns, s.nsDict)
    && forall g :: 0 <= g < |s.dicts| ==> ValidDict(s.names.attrs[g], s.dicts[g])
  }

  /** The first local id with the given name: the search of `recv_keys`. */
  function LidOf(names: seq<Option<Name>>, name: Name): (r: Option<nat>)
    ensures r.Some? ==> r.value < |names| && names[r.value] == Some(name)
    ensures r.Some? ==> Some(name) !in names[..r.value]
    ensures r.None? ==> Some(name) !in names
  {
    if names == [] then None
    else if names[0] == Some(name) then Some(0)
    else
      var r := LidOf(names[1..], name);
      if r.None? then None else Some(r.value + 1)
  }

  // ---------- values ----------

  datatype Width = W8 | W16 | W32 | W64

  function Half(w: Width): (h: int)
    ensures 0x80 <= h <= TWO_63
  {
    match w
    case W8 => 0x80
    case W16 => 0x8000
    case W32 => 0x8000_0000
    case W64 => 0x8000_0000_0000_0000
  }

  datatype Value =
    | VInt(w: Width, i: int)
    | VUint(w: Width, n: nat)
    | VBool(b: bool)
    | VStr(s: Name)
    | VArr(items: seq<Value>)
    | VGroup(gid: nat, attrs: seq<Attr>)

  datatype Attr = Attr(id: nat, value: Value)

  /** Values that fit their C types and use bound ids only; the `assert`s of the sender demand the latter. */
  predicate Sendable(names: Bindings, v: Value)
    decreases v, 0
  {
    match v
    case VInt(w, i) => -Half(w) <= i < Half(w)
    case VUint(w, n) => n < 2 * Half(w)
    case VBool(_) => true
    case VStr(_) => true
    case VArr(vs) => |vs| < TWO_64 && AllSendable(names, vs)
    case VGroup(g, attrs) => Bound(names.ns, g) && g < |names.attrs| && AttrsSendable(names, g, attrs)
  }

  predicate AllSendable(names: Bindings, vs: seq<Value>)
    decreases vs, 1
  {
    vs == [] || (Sendable(names, vs[0]) && AllSendable(names, vs[1..]))
  }

  predicate AttrsSendable(names: Bindings, g: nat, attrs: seq<Attr>)
    requires g < |names.attrs|
    decreases attrs, 1
  {
    attrs == [] ||
    (assert attrs[0].value < attrs[0];
     Bound(names.attrs[g], attrs[0].id) && Sendable(names, attrs[0].value) && AttrsSendable(names, g, attrs[1..]))
  }

  // ---------- sending ----------

  /** `send_pid`. */
  function Pid(p: u64): (w: seq<byte>)
    ensures w != []
  {
    Header(MAJOR_UINT, Narrow(p))
  }

  function TextBytes(s: Name): (w: seq<byte>)
    ensures w != []
  {
    Header(MAJOR_TEXT, |s|) + s
  }

  /** `send_ikg`: the reserved pID 1, then a map with the name and its new pID. */
  function Insertion(name: Name, p: u64): seq<byte> {
    Pid(1) + [0xBF] + TextBytes(name) + Pid(p) + [BREAK]
  }

  datatype Assigned = Assigned(dict: Dict, sent: seq<byte>, pid: u64)

  lemma PidsAreNarrow(names: seq<Option<Name>>, d: Dict)
    requires ValidDict(names, d)
    ensures d.maxPid < TWO_32
    ensures forall l :: 0 <= l < |d.pids| && d.pids[l] == 0 ==> d.maxPid + 1 < TWO_32
  {
    if l :| 0 <= l < |d.pids| && d.pids[l] == 0 {
      SomeUnused(d.pids, l);
    }
  }

  lemma {:induction false} SomeUnused(pids: seq<nat>, l: nat)
    requires l < |pids| && pids[l] == 0
    ensures NumUnused(pids) > 0
  {
    if l < |pids| - 1 {
      SomeUnused(pids[..|pids| - 1], l);
    }
  }

  /** `lid_to_pid`: the first use of an id inserts its name. */
  function LidToPid(names: seq<Option<Name>>, d: Dict, lid: nat): (r: Assigned)
    requires ValidDict(names, d) && Bound(names, lid)
    ensures ValidDict(names, r.dict) && r.dict.pids[lid] == r.pid && r.pid >= 2
    ensures r.dict.pidToLid == d.pidToLid
    ensures r.pid < TWO_32
  {
    PidsAreNarrow(names, d);
    if d.pids[lid] != 0 then Assigned(d, [], d.pids[lid])
    else
      var p := d.maxPid + 1;
      AssignKeepsValid(names, d, lid);
      Assigned(d.(pids := d.pids[lid := p], maxPid := p), Insertion(names[lid].value, p), p)
  }

  lemma {:induction false} NumUsedUpdate(pids: seq<nat>, l: nat, p: nat)
    requires l < |pids| && pids[l] == 0 && p != 0
    ensures NumUsed(pids[l := p]) == NumUsed(pids) + 1
  {
    var last := |pids| - 1;
    if l < last {
      NumUsedUpdate(pids[..last], l, p);
      assert pids[l := p][..last] == pids[..last][l := p];
    } else {
      assert pids[l := p][..last] == pids[..last];
    }
  }

  lemma AssignKeepsValid(names: seq<Option<Name>>, d: Dict, lid: nat)
    requires ValidDict(names, d) && Bound(names, lid) && d.pids[lid] == 0
    ensures var d' := d.(pids := d.pids[lid := d.maxPid + 1], maxPid := d.maxPid + 1);
            ValidDict(names, d') && (Gapless(d) ==> Gapless(d'))
  {
    var p := d.maxPid + 1;
    var pids := d.pids[lid := p];
    NumUsedUpdate(d.pids, lid, p);
    forall q | 2 <= q <= p && Gapless(d)
      ensures q in pids
    {
      if q < p {
        assert q in d.pids;
        var l :| 0 <= l < |d.pids| && d.pids[l] == q;
        assert pids[l] == q;
      } else {
        assert pids[lid] == q;
      }
    }
  }

  datatype Sent = Sent(state: State, sent: seq<byte>)

  function SendScalar(v: Value): (w: seq<byte>)
    requires v.VInt? || v.VUint? || v.VBool? || v.VStr?
    requires v.VInt? ==> -Half(v.w) <= v.i < Half(v.w)
    requires v.VUint? ==> v.n < 2 * Half(v.w)
    ensures w != []
  {
    match v
    case VInt(_, i) => EncodeInt(i)
    case VUint(w, n) => if w == W64 then Header(MAJOR_UINT, Narrow(n)) else Header(MAJOR_UINT, n)
    case VBool(b) => [0xE0 + if b then SVAL_TRUE else SVAL_FALSE]
    case VStr(s) => TextBytes(s)
  }

  /** What the calls for a value emit, not counting the id in front of it. */
  function Send(s: State, v: Value): (r: Sent)
    requires ValidState(s) && Sendable(s.names, v)
    ensures ValidState(r.state) && r.state.names == s.names && r.sent != []
    decreases v, 0
  {
    match v
    case VArr(vs) =>
      var items := SendAll(s, vs);
      Sent(items.state, Header(MAJOR_ARRAY, |vs|) + items.sent)
    case VGroup(g, attrs) =>
      var start := SendGroupStart(s, g);
      var body := SendAttrs(start.state, g, attrs);
      Sent(body.state, start.sent + body.sent + [BREAK])
    case _ => Sent(s, SendScalar(v))
  }

  /** `nb_send_group`: the group's own id comes from the groups namespace, under the key 0. */
  function SendGroupStart(s: State, g: nat): (r: Sent)
    requires ValidState(s) && Bound(s.names.ns, g)
    ensures ValidState(r.state) && r.state.names == s.names && r.sent != []
  {
    var a := LidToPid(s.names.ns, s.nsDict, g);
    Sent(s.(nsDict := a.dict), [0xBF] + a.sent + Pid(0) + Pid(a.pid))
  }

  /** `nb_send_id` inside group `g`. */
  function SendId(s: State, g: nat, id: nat): (r: Sent)
    requires ValidState(s) && g < |s.dicts| && Bound(s.names.attrs[g], id)
    ensures ValidState(r.state) && r.state.names == s.names
  {
    var a := LidToPid(s.names.attrs[g], s.dicts[g], id);
    Sent(s.(dicts := s.dicts[g := a.dict]), a.sent + Pid(a.pid))
  }

  function SendAll(s: State, vs: seq<Value>): (r: Sent)
    requires ValidState(s) && AllSendable(s.names, vs)
    ensures ValidState(r.state) && r.state.names == s.names
    decreases vs, 1
  {
    if vs == [] then Sent(s, [])
    else
      var first := Send(s, vs[0]);
      var more := SendAll(first.state, vs[1..]);
      Sent(more.state, first.sent + more.sent)
  }

  function SendAttrs(s: State, g: nat, attrs: seq<Attr>): (r: Sent)
    requires ValidState(s) && g < |s.names.attrs| && AttrsSendable(s.names, g, attrs)
    ensures ValidState(r.state) && r.state.names == s.names
    decreases attrs, 1
  {
    if attrs == [] then Sent(s, [])
    else
      assert attrs[0].value < attrs[0];
      var id := SendId(s, g, attrs[0].id);
      var first := Send(id.state, attrs[0].value);
      var more := SendAttrs(first.state, g, attrs[1..]);
      Sent(more.state, id.sent + first.sent + more.sent)
  }

  // ---------- receiving ----------

  /** What the application expects: a type for each attribute of each group, by local ids. */
  datatype Type = TInt(w: Width) | TUint(w: Width) | TBool | TStr | TArr(elem: Type) | TGroup(gid: nat)

  type Schema = map<(nat, nat), Type>

  /** `pid_to_lid[pid]` as `recv_id` reads it. The bound in front of it is one too large. */
  function Lookup(d: Dict, pid: nat): Result<int> {
    if d.pidToLid.num < pid then Err(ErrUndefId)
    else if pid >= |d.pidToLid.slots| then Err(ErrUndefined)
    else if d.pidToLid.slots[pid] == LID_UNKNOWN then Err(ErrUndefId)
    else Ok(d.pidToLid.slots[pid])
  }

  datatype KeysRead = KeysRead(dict: Dict, rest: seq<byte>)

  /** What learning a key does to `pid_to_lid`. The index of the largest pID wraps around. */
  function Learned(names: seq<Option<Name>>, d: Dict, name: Name, pid: u64): Result<Dict> {
    if pid == TWO_64 - 1 then Err(ErrUndefined)
    else
      var lid := LidOf(names, name);
      if lid.None? then Err(ErrAssert)
      else
        var a := EnsuredIndex(d.pidToLid, pid, 0);
        Ok(d.(pidToLid := Arr(a.num, a.slots[pid := lid.value])))
  }

  /** `recv_keys`. */
  function RecvKeys(names: seq<Option<Name>>, d: Dict, b: seq<byte>): (r: Result<KeysRead>)
    ensures r.Ok? ==> |r.value.rest| < |b|
  {
    var p :- ReadOpen(MAJOR_MAP, true, b);
    var s :- ReadString(MAJOR_TEXT, p.rest);
    var n :- ReadUint(s.rest, TWO_64 - 1);
    var rest :- EndBlock(true, 0, 0, n.rest);
    if |CStr(s.bytes)| >= TWO_64 then Err(ErrUndefined)
    else
      var d' :- Learned(names, d, CStr(s.bytes), n.n);
      Ok(KeysRead(d', rest))
  }

  datatype IdRead = IdRead(dict: Dict, lid: int, rest: seq<byte>)

  /** `recv_id`: any number of key insertions, then a pID. */
  function RecvId(names: seq<Option<Name>>, d: Dict, b: seq<byte>): (r: Result<IdRead>)
    ensures r.Ok? ==> |r.value.rest| < |b|
    decreases |b|
  {
    var n :- ReadUint(b, TWO_64 - 1);
    if n.n == 1 then
      var k :- RecvKeys(names, d, n.rest);
      RecvId(names, k.dict, k.rest)
    else
      var lid :- Lookup(d, n.n);
      Ok(IdRead(d, lid, n.rest))
  }

  datatype Received = Received(state: State, value: Value, count: nat, rest: seq<byte>)

  function RecvScalar(ty: Type, b: seq<byte>): (r: Result<(Value, nat, seq<byte>)>)
    requires !ty.TArr? && !ty.TGroup?
    ensures r.Ok? ==> |r.value.2| < |b|
  {
    match ty
    case TInt(w) =>
      var x :- ReadInt(b, -Half(w), Half(w) - 1);
      Ok((VInt(w, x.n), 1, x.rest))
    case TUint(w) =>
      var x :- ReadUint(b, 2 * Half(w) - 1);
      Ok((VUint(w, x.n), 1, x.rest))
    case TBool =>
      var x :- ReadBool(b);
      Ok((VBool(x.value), 1, x.rest))
    case TStr =>
      var x :- ReadString(MAJOR_TEXT, b);
      if |CStr(x.bytes)| >= TWO_64 then Err(ErrUndefined) else Ok((VStr(CStr(x.bytes)), x.count, x.rest))
  }

  /** A group with attributes leaves a current attribute behind. */
  predicate BringsAttr(v: Value) {
    v.VGroup? && v.attrs != []
  }

  /** What the calls for a value of the expected type return, with the items they count in the enclosing block. The end
      of an array looks at the attribute that was the current one at its start, whether there was one or not. */
  function Recv(s: State, sch: Schema, ty: Type, b: seq<byte>): (r: Result<Received>)
    ensures r.Ok? ==> r.value.state.names == s.names && |r.value.state.dicts| == |s.dicts| && |r.value.rest| < |b|
    ensures r.Ok? ==> (r.value.state.curAttr.Some? <==> s.curAttr.Some? || BringsAttr(r.value.value))
    decreases |b|, 1
  {
    match ty
    case TArr(elem) =>
      var p :- ReadOpen(MAJOR_ARRAY, false, b);
      var xs :- RecvAll(s, sch, elem, p.head.arg, p.rest);
      var _ :- ArrayAttr(s.curAttr);
      var rest :- EndBlock(false, p.head.arg, xs.count, xs.rest);
      Ok(Received(xs.state, VArr(xs.values), 1, rest))
    case TGroup(g) =>
      var start :- RecvGroupStart(s, g, b);
      var xs :- RecvAttrs(start.state, sch, g, start.rest);
      var rest :- EndBlock(true, 0, 0, xs.rest);
      Ok(Received(xs.state, VGroup(g, xs.attrs), 1, rest))
    case _ =>
      var x :- RecvScalar(ty, b);
      Ok(Received(s, x.0, x.1, x.2))
  }

  /** `nb_recv_array_end` uses the attribute of the block. */
  function ArrayAttr(attr: Option<nat>): Result<nat> {
    if attr.None? then Err(ErrUndefined) else Ok(attr.value)
  }

  datatype Started = Started(state: State, rest: seq<byte>)

  /** `nb_recv_group`. */
  function RecvGroupStart(s: State, g: nat, b: seq<byte>): (r: Result<Started>)
    ensures r.Ok? ==> r.value.state.names == s.names && r.value.state.dicts == s.dicts && |r.value.rest| < |b|
    ensures r.Ok? ==> Bound(s.names.ns, g) && r.value.state.curAttr == s.curAttr
  {
    var p :- ReadOpen(MAJOR_MAP, true, b);
    var zero :- RecvId(s.names.ns, s.nsDict, p.rest);
    if zero.lid != 0 then Err(ErrOther)
    else
      var id :- RecvId(s.names.ns, zero.dict, zero.rest);
      if id.lid != g then Err(ErrOther)
      else if !Bound(s.names.ns, g) then Err(ErrAssert)
      else Ok(Started(s.(nsDict := id.dict), id.rest))
  }

  datatype AttrRead = AttrRead(state: State, id: nat, rest: seq<byte>)

  /** `nb_recv_attr` in front of an attribute of group `g`. */
  function RecvAttrId(s: State, g: nat, b: seq<byte>): (r: Result<AttrRead>)
    ensures r.Ok? ==> r.value.state.names == s.names && |r.value.state.dicts| == |s.dicts| && |r.value.rest| < |b|
    ensures r.Ok? ==> r.value.state.curAttr == Some(r.value.id)
  {
    if g >= |s.dicts| || g >= |s.names.attrs| then Err(ErrUndefined)
    else
      var id :- RecvId(s.names.attrs[g], s.dicts[g], b);
      if !Bound(s.names.attrs[g], id.lid) then Err(ErrAssert)
      else Ok(AttrRead(s.(dicts := s.dicts[g := id.dict], curAttr := Some(id.lid)), id.lid, id.rest))
  }

  datatype AttrsRead = AttrsRead(state: State, attrs: seq<Attr>, rest: seq<byte>)

  /** The receive loop of an application: attributes up to the break, each by the type of its id. */
  function RecvAttrs(s: State, sch: Schema, g: nat, b: seq<byte>): (r: Result<AttrsRead>)
    ensures r.Ok? ==> r.value.state.names == s.names && |r.value.state.dicts| == |s.dicts| && |r.value.rest| <= |b|
    ensures r.Ok? ==> (r.value.state.curAttr.Some? <==> s.curAttr.Some? || r.value.attrs != [])
    decreases |b|, 2
  {
    if AtBreak(b) then Ok(AttrsRead(s, [], b))
    else
      var a :- RecvAttrId(s, g, b);
      if (g, a.id) !in sch then Err(ErrOther)
      else
        var v :- Recv(a.state, sch, sch[(g, a.id)], a.rest);
        var more :- RecvAttrs(v.state, sch, g, v.rest);
        Ok(AttrsRead(more.state, [Attr(a.id, v.value)] + more.attrs, more.rest))
  }

  datatype AllRead = AllRead(state: State, values: seq<Value>, count: nat, rest: seq<byte>)

  /** The items of an array of `n` elements. */
  function RecvAll(s: State, sch: Schema, elem: Type, n: nat, b: seq<byte>): (r: Result<AllRead>)
    ensures r.Ok? ==> r.value.state.names == s.names && |r.value.state.dicts| == |s.dicts| && |r.value.rest| <= |b|
    ensures r.Ok? ==> |r.value.values| == n && (s.curAttr.Some? ==> r.value.state.curAttr.Some?)
    decreases |b|, 2
  {
    if n == 0 then Ok(AllRead(s, [], 0, b))
    else
      var v :- Recv(s, sch, elem, b);
      var more :- RecvAll(v.state, sch, elem, n - 1, v.rest);
      Ok(AllRead(more.state, [v.value] + more.values, v.count + more.count, more.rest))
  }
}
