/** Two parties that bind the same names to different local ids understand each other. */
module NetBufsTransfer {
  import opened Prelude
  import opened Wire
  import opened Cbor
  import opened CborRoundTrip
  import opened NetBufs

  // ---------- what the receiver gets ----------

  /** The same name on the other side. */
  function Renamed(from: seq<Option<Name>>, lid: nat, to: seq<Option<Name>>): (r: Option<nat>)
    ensures r.Some? ==> Bound(from, lid) && Bound(to, r.value) && to[r.value] == from[lid]
  {
    if Bound(from, lid) then LidOf(to, from[lid].value) else None
  }

  function RenamedGroup(s: Bindings, g: nat, r: Bindings): (g': Option<nat>)
    ensures g'.Some? ==> Bound(s.ns, g) && Bound(r.ns, g'.value) && r.ns[g'.value] == s.ns[g]
  {
    Renamed(s.ns, g, r.ns)
  }

  /** The value fits the type the receiver expects, and every id in it has its name bound on the receiving side. */
  predicate Conforms(s: Bindings, r: Bindings, sch: Schema, ty: Type, v: Value)
    decreases v, 0
  {
    match v
    case VInt(w, _) => ty == TInt(w)
    case VUint(w, _) => ty == TUint(w)
    case VBool(_) => ty == TBool
    case VStr(_) => ty == TStr
    case VArr(vs) => ty.TArr? && AllConform(s, r, sch, ty.elem, vs)
    case VGroup(g, attrs) =>
      var g' := RenamedGroup(s, g, r);
      g'.Some? && ty == TGroup(g'.value) && g < |s.attrs| && g'.value < |r.attrs| &&
      AttrsConform(s, r, sch, g, g'.value, attrs)
  }

  predicate AllConform(s: Bindings, r: Bindings, sch: Schema, ty: Type, vs: seq<Value>)
    decreases vs, 1
  {
    vs == [] || (Conforms(s, r, sch, ty, vs[0]) && AllConform(s, r, sch, ty, vs[1..]))
  }

  predicate AttrsConform(s: Bindings, r: Bindings, sch: Schema, g: nat, g': nat, attrs: seq<Attr>)
    requires g < |s.attrs| && g' < |r.attrs|
    decreases attrs, 1
  {
    attrs == [] ||
    (assert attrs[0].value < attrs[0];
     var id' := Renamed(s.attrs[g], attrs[0].id, r.attrs[g']);
     id'.Some? && (g', id'.value) in sch && Conforms(s, r, sch, sch[(g', id'.value)], attrs[0].value) &&
     AttrsConform(s, r, sch, g, g', attrs[1..]))
  }

  /** The tree that arrives: every id replaced by the receiver's id of the same name. A 64-bit unsigned value
      arrives as its low 32 bits, because `nb_send_u64` uses `cbor_encode_uint64`. */
  function Delivered(s: Bindings, r: Bindings, v: Value): Value
    decreases v, 0
  {
    match v
    case VUint(w, n) => VUint(w, if w == W64 && n < TWO_64 then Narrow(n) else n)
    case VArr(vs) => VArr(AllDelivered(s, r, vs))
    case VGroup(g, attrs) =>
      var g' := RenamedGroup(s, g, r);
      if g'.Some? && g < |s.attrs| && g'.value < |r.attrs| then
        VGroup(g'.value, AttrsDelivered(s, r, g, g'.value, attrs))
      else v
    case _ => v
  }

  function AllDelivered(s: Bindings, r: Bindings, vs: seq<Value>): (ws: seq<Value>)
    ensures |ws| == |vs|
    decreases vs, 1
  {
    if vs == [] then [] else [Delivered(s, r, vs[0])] + AllDelivered(s, r, vs[1..])
  }

  function AttrsDelivered(s: Bindings, r: Bindings, g: nat, g': nat, attrs: seq<Attr>): (ws: seq<Attr>)
    requires g < |s.attrs| && g' < |r.attrs|
    ensures |ws| == |attrs|
    decreases attrs, 1
  {
    if attrs == [] then []
    else
      assert attrs[0].value < attrs[0];
      var id' := Renamed(s.attrs[g], attrs[0].id, r.attrs[g']);
      [Attr(if id'.Some? then id'.value else attrs[0].id, Delivered(s, r, attrs[0].value))] +
      AttrsDelivered(s, r, g, g', attrs[1..])
  }

  // ---------- agreement of the dictionaries ----------

  /** Every pID the sender has given out reads, at the receiver, as the receiver's id of the same name. */
  ghost predicate AgreeDict(sn: seq<Option<Name>>, sd: Dict, rn: seq<Option<Name>>, rd: Dict)
    requires |sd.pids| == |sn|
  {
    forall l :: 0 <= l < |sn| && sd.pids[l] != 0 ==>
      Renamed(sn, l, rn).Some? && Lookup(rd, sd.pids[l]) == Ok(Renamed(sn, l, rn).value)
  }

  /** pID 0 reads as local id 0, which is how a receiver recognises the start of a group. */
  predicate KnowsZero(d: Dict) {
    Lookup(d, 0) == Ok(0)
  }

  predicate UniqueNames(names: seq<Option<Name>>) {
    forall l, m :: 0 <= l < m < |names| && names[l].Some? ==> names[l] != names[m]
  }

  /** Agreement in the groups namespace and in every group that both sides have. */
  ghost predicate Agree(s: State, r: State) {
    && ValidState(s) && ValidState(r)
    && UniqueNames(s.names.ns)
    && AgreeDict(s.names.ns, s.nsDict, r.names.ns, r.nsDict) && KnowsZero(r.nsDict)
    && forall g :: 0 <= g < |s.dicts| && RenamedGroup(s.names, g, r.names).Some? ==>
         var g' := RenamedGroup(s.names, g, r.names).value;
         AgreeDict(s.names.attrs[g], s.dicts[g], r.names.attrs[g'], r.dicts[g'])
  }

  /** No pID has been given out. */
  predicate Fresh(s: State) {
    s.nsDict.maxPid == 1 && forall g :: 0 <= g < |s.dicts| ==> s.dicts[g].maxPid == 1
  }

  /** Before the first transmission nothing has to be known, whatever ids the two sides have chosen. */
  lemma FreshPartiesAgree(s: State, r: State)
    requires ValidState(s) && ValidState(r) && UniqueNames(s.names.ns)
    requires Fresh(s) && KnowsZero(r.nsDict)
    ensures Agree(s, r)
  {
  }

  /** Learning one more pID leaves the others as they are and makes the new one known. */
  lemma LearnedLookup(names: seq<Option<Name>>, d: Dict, name: Name, pid: u64, q: nat)
    requires Learned(names, d, name, pid).Ok?
    ensures var d' := Learned(names, d, name, pid).value;
            if q == pid then Lookup(d', q) == Ok(LidOf(names, name).value)
            else Lookup(d, q).Ok? ==> Lookup(d', q) == Lookup(d, q)
    ensures ValidDict(names, d) ==> ValidDict(names, Learned(names, d, name, pid).value)
  {}

  // ---------- reading what was sent ----------

  lemma PidReceived(p: u64, max: u64, rest: seq<byte>)
    requires p < TWO_32 && p <= max
    ensures ReadUint(Pid(p) + rest, max) == Ok(NumberRead(p, rest))
    ensures !AtBreak(Pid(p) + rest)
  {
    hide Predecode, Header;
    PredecodeWritten(MAJOR_UINT, p, rest);
  }

  lemma TextReceived(s: Name, rest: seq<byte>)
    ensures ReadString(MAJOR_TEXT, TextBytes(s) + rest) == Ok(StringRead(s, 1, rest))
  {
    hide ReadString, Header;
    ReadWrittenString(MAJOR_TEXT, s, rest);
  }

  lemma OpenReceived(rest: seq<byte>)
    ensures ReadOpen(MAJOR_MAP, true, [0xBF] + rest) == Ok(Predecoded(Head(MAJOR_MAP, true, 0), rest))
  {
    hide Predecode, Header;
    assert Open(MAJOR_MAP, true, 0) == [0xBF];
    PredecodeOpen(MAJOR_MAP, true, 0, rest);
  }

  lemma BreakReceived(rest: seq<byte>)
    ensures EndBlock(true, 0, 0, [BREAK] + rest) == Ok(rest) && AtBreak([BREAK] + rest)
  {
    EndWritten(true, 0, 0, rest);
  }

  lemma ScalarReceived(v: Value, ty: Type, rest: seq<byte>)
    requires v.VInt? || v.VUint? || v.VBool? || v.VStr?
    requires v.VInt? ==> -Half(v.w) <= v.i < Half(v.w) && ty == TInt(v.w)
    requires v.VUint? ==> v.n < 2 * Half(v.w) && ty == TUint(v.w)
    requires v.VBool? ==> ty == TBool
    requires v.VStr? ==> ty == TStr
    ensures RecvScalar(ty, SendScalar(v) + rest)
         == Ok((match v case VUint(w, n) => VUint(w, if w == W64 then Narrow(n) else n) case _ => v, 1, rest))
  {
    hide Predecode, Header, ReadString;
    match v
    case VInt(w, i) =>
      if i >= 0 { PredecodeWritten(MAJOR_UINT, i, rest); } else { PredecodeWritten(MAJOR_NEGINT, NegArg(i), rest); }
    case VUint(w, n) => PredecodeWritten(MAJOR_UINT, if w == W64 then Narrow(n) else n, rest);
    case VBool(b) => BoolReceived(b, rest);
    case VStr(s) =>
      TextReceived(s, rest);
      CStrOfCString(s);
  }

  lemma BoolReceived(b: bool, rest: seq<byte>)
    ensures ReadBool(SendScalar(VBool(b)) + rest) == Ok(BoolRead(b, rest))
  {
    var w := SendScalar(VBool(b));
    assert (w + rest)[1..] == rest;
  }

  // ---------- ids ----------

  /** A key insertion is learned, and the dictionaries agree again with the new pID in them. A name that the receiver
      has not bound is a failed assert. */
  lemma InsertionReceived(rn: seq<Option<Name>>, rd: Dict, name: Name, p: u64, b: seq<byte>)
    requires 2 <= p < TWO_32
    ensures Learned(rn, rd, name, p).Ok? <==> LidOf(rn, name).Some?
    ensures RecvId(rn, rd, Insertion(name, p) + b) ==
            if LidOf(rn, name).Some? then RecvId(rn, Learned(rn, rd, name, p).value, b) else Err(ErrAssert)
  {
    hide ReadUint, ReadString, ReadOpen, EndBlock, TextBytes, Pid, Learned, CStr;
    var b1 := [BREAK] + b;
    var b2 := Pid(p) + b1;
    var b3 := TextBytes(name) + b2;
    var b4 := [0xBF] + b3;
    assert Insertion(name, p) + b == Pid(1) + b4;
    PidReceived(1, TWO_64 - 1, b4);
    OpenReceived(b3);
    TextReceived(name, b2);
    PidReceived(p, TWO_64 - 1, b1);
    BreakReceived(b);
    CStrOfCString(name);
    LearnedIsDefined(rn, rd, name, p);
    RecvKeysOf(rn, rd, b4, b3, b2, b1, b, name, p);
    RecvIdInsertion(rn, rd, Pid(1) + b4, b4, b);
  }

  lemma LearnedIsDefined(rn: seq<Option<Name>>, rd: Dict, name: Name, p: u64)
    requires p < TWO_32
    ensures Learned(rn, rd, name, p).Ok? <==> LidOf(rn, name).Some?
    ensures LidOf(rn, name).None? ==> Learned(rn, rd, name, p) == Err(ErrAssert)
  {}

  lemma RecvKeysOf(rn: seq<Option<Name>>, rd: Dict, b4: seq<byte>, b3: seq<byte>, b2: seq<byte>, b1: seq<byte>,
                   b: seq<byte>, name: Name, p: u64)
    requires ReadOpen(MAJOR_MAP, true, b4) == Ok(Predecoded(Head(MAJOR_MAP, true, 0), b3))
    requires ReadString(MAJOR_TEXT, b3) == Ok(StringRead(name, 1, b2)) && CStr(name) == name
    requires ReadUint(b2, TWO_64 - 1) == Ok(NumberRead(p, b1))
    requires EndBlock(true, 0, 0, b1) == Ok(b)
    ensures var d := Learned(rn, rd, name, p);
            RecvKeys(rn, rd, b4) == if d.Err? then Err(d.error) else Ok(KeysRead(d.value, b))
  {
    hide ReadUint, ReadString, ReadOpen, EndBlock, Learned, CStr;
  }

  lemma RecvIdInsertion(rn: seq<Option<Name>>, rd: Dict, b0: seq<byte>, b4: seq<byte>, b: seq<byte>)
    requires ReadUint(b0, TWO_64 - 1) == Ok(NumberRead(1, b4))
    requires RecvKeys(rn, rd, b4).Ok? ==> RecvKeys(rn, rd, b4).value.rest == b
    ensures var k := RecvKeys(rn, rd, b4);
            RecvId(rn, rd, b0) == if k.Err? then Err(k.error) else RecvId(rn, k.value.dict, b)
  {
    hide ReadUint, RecvKeys;
  }

  lemma KnownPidReceived(rn: seq<Option<Name>>, rd: Dict, p: u64, b: seq<byte>)
    requires p != 1 && p < TWO_32 && Lookup(rd, p).Ok?
    ensures RecvId(rn, rd, Pid(p) + b) == Ok(IdRead(rd, Lookup(rd, p).value, b))
  {
    hide ReadUint, Pid, Lookup;
    PidReceived(p, TWO_64 - 1, b);
  }

  /** Definition before use: whatever the sender emits for an id, the receiver ends up with the id of that name,
      without ever reading an entry it has not learned, and the dictionaries agree again. */
  lemma IdReceived(sn: seq<Option<Name>>, sd: Dict, rn: seq<Option<Name>>, rd: Dict, lid: nat, b: seq<byte>)
    requires ValidDict(sn, sd) && ValidDict(rn, rd) && AgreeDict(sn, sd, rn, rd)
    requires Renamed(sn, lid, rn).Some?
    ensures var a := LidToPid(sn, sd, lid);
            var q := RecvId(rn, rd, a.sent + Pid(a.pid) + b);
            q.Ok? && q.value.lid == Renamed(sn, lid, rn).value && q.value.rest == b &&
            ValidDict(rn, q.value.dict) && AgreeDict(sn, a.dict, rn, q.value.dict) &&
            (KnowsZero(rd) ==> KnowsZero(q.value.dict))
  {
    hide Insertion, Pid, RecvId, Learned, Lookup;
    var a := LidToPid(sn, sd, lid);
    if sd.pids[lid] != 0 {
      assert a.sent + Pid(a.pid) + b == Pid(a.pid) + b;
      KnownPidReceived(rn, rd, a.pid, b);
    } else {
      var name := sn[lid].value;
      assert a.sent + Pid(a.pid) + b == Insertion(name, a.pid) + (Pid(a.pid) + b);
      InsertionReceived(rn, rd, name, a.pid, Pid(a.pid) + b);
      var rd' := Learned(rn, rd, name, a.pid).value;
      LearnedLookup(rn, rd, name, a.pid, a.pid);
      LearnedLookup(rn, rd, name, a.pid, 0);
      KnownPidReceived(rn, rd', a.pid, b);
      forall l | 0 <= l < |sn| && a.dict.pids[l] != 0
        ensures Renamed(sn, l, rn).Some? && Lookup(rd', a.dict.pids[l]) == Ok(Renamed(sn, l, rn).value)
      {
        LearnedLookup(rn, rd, name, a.pid, a.dict.pids[l]);
      }
    }
  }

  /** The same in front of a group: the key 0 comes between the insertion and the group's pID. */
  lemma GroupIdReceived(sn: seq<Option<Name>>, sd: Dict, rn: seq<Option<Name>>, rd: Dict, lid: nat, b: seq<byte>)
    requires ValidDict(sn, sd) && ValidDict(rn, rd) && AgreeDict(sn, sd, rn, rd) && KnowsZero(rd)
    requires Renamed(sn, lid, rn).Some?
    ensures var a := LidToPid(sn, sd, lid);
            var z := RecvId(rn, rd, a.sent + Pid(0) + Pid(a.pid) + b);
            z.Ok? && z.value.lid == 0 &&
            var q := RecvId(rn, z.value.dict, z.value.rest);
            q.Ok? && q.value.lid == Renamed(sn, lid, rn).value && q.value.rest == b &&
            ValidDict(rn, q.value.dict) && AgreeDict(sn, a.dict, rn, q.value.dict) && KnowsZero(q.value.dict)
  {
    hide Insertion, Pid, RecvId, Learned, Lookup, AgreeDict, ValidDict;
    var a := LidToPid(sn, sd, lid);
    var b1 := Pid(a.pid) + b;
    assert a.sent + Pid(0) + Pid(a.pid) + b == a.sent + (Pid(0) + b1);
    IdReceived(sn, sd, rn, rd, lid, b);
    DictSize(sn, sd);
    if sd.pids[lid] != 0 {
      assert a.sent + (Pid(0) + b1) == Pid(0) + b1 && a.sent + Pid(a.pid) + b == b1;
      KnownPidReceived(rn, rd, 0, b1);
    } else {
      var name := sn[lid].value;
      InsertionReceived(rn, rd, name, a.pid, Pid(0) + b1);
      InsertionReceived(rn, rd, name, a.pid, b1);
      var rd' := Learned(rn, rd, name, a.pid).value;
      LearnedLookup(rn, rd, name, a.pid, 0);
      KnownPidReceived(rn, rd', 0, b1);
      assert a.sent + Pid(a.pid) + b == Insertion(name, a.pid) + b1;
    }
  }

  lemma NsUpdateKeepsAgreement(s: State, r: State, sd: Dict, rd: Dict)
    requires Agree(s, r)
    requires ValidDict(s.names.ns, sd) && ValidDict(r.names.ns, rd) && AgreeDict(s.names.ns, sd, r.names.ns, rd)
    requires KnowsZero(rd)
    ensures Agree(s.(nsDict := sd), r.(nsDict := rd))
  {
    hide AgreeDict, ValidDict, UniqueNames, KnowsZero;
    var s', r' := s.(nsDict := sd), r.(nsDict := rd);
    forall g | 0 <= g < |s'.dicts| && RenamedGroup(s'.names, g, r'.names).Some?
      ensures var g' := RenamedGroup(s'.names, g, r'.names).value;
              |s'.dicts[g].pids| == |s'.names.attrs[g]| &&
              AgreeDict(s'.names.attrs[g], s'.dicts[g], r'.names.attrs[g'], r'.dicts[g'])
    {
      assert RenamedGroup(s.names, g, r.names).Some?;
      DictSize(s.names.attrs[g], s.dicts[g]);
    }
  }

  /** Groups with different names are different on both sides, so that one group's update touches no other pair. */
  lemma GroupUpdateKeepsAgreement(s: State, r: State, g: nat, g': nat, sd: Dict, rd: Dict)
    requires Agree(s, r) && RenamedGroup(s.names, g, r.names) == Some(g') && g < |s.dicts| && g' < |r.dicts|
    requires ValidDict(s.names.attrs[g], sd) && ValidDict(r.names.attrs[g'], rd)
    requires AgreeDict(s.names.attrs[g], sd, r.names.attrs[g'], rd)
    ensures Agree(s.(dicts := s.dicts[g := sd]), r.(dicts := r.dicts[g' := rd]))
  {
    hide AgreeDict, ValidDict, KnowsZero;
    var s', r' := s.(dicts := s.dicts[g := sd]), r.(dicts := r.dicts[g' := rd]);
    forall h | 0 <= h < |s'.dicts| && RenamedGroup(s'.names, h, r'.names).Some?
      ensures var h' := RenamedGroup(s'.names, h, r'.names).value;
              |s'.dicts[h].pids| == |s'.names.attrs[h]| &&
              AgreeDict(s'.names.attrs[h], s'.dicts[h], r'.names.attrs[h'], r'.dicts[h'])
    {
      assert RenamedGroup(s.names, h, r.names).Some?;
      DictSize(s'.names.attrs[h], s'.dicts[h]);
      if h != g {
        assert RenamedGroup(s.names, h, r.names) != Some(g');
      }
    }
  }

  /** The start of a group needs agreement in the groups namespace only. */
  lemma GroupStartRead(s: State, r: State, g: nat, b: seq<byte>)
    requires ValidState(s) && ValidState(r) && RenamedGroup(s.names, g, r.names).Some?
    requires AgreeDict(s.names.ns, s.nsDict, r.names.ns, r.nsDict) && KnowsZero(r.nsDict)
    ensures var start := SendGroupStart(s, g);
            var q := RecvGroupStart(r, RenamedGroup(s.names, g, r.names).value, start.sent + b);
            && q.Ok? && q.value.rest == b && q.value.state == r.(nsDict := q.value.state.nsDict)
            && start.state == s.(nsDict := start.state.nsDict)
            && ValidDict(s.names.ns, start.state.nsDict) && ValidDict(r.names.ns, q.value.state.nsDict)
            && AgreeDict(s.names.ns, start.state.nsDict, r.names.ns, q.value.state.nsDict)
            && KnowsZero(q.value.state.nsDict)
  {
    hide AgreeDict, ValidDict, KnowsZero, Pid, RecvId, LidToPid, ReadOpen;
    var a := LidToPid(s.names.ns, s.nsDict, g);
    var b1 := a.sent + Pid(0) + Pid(a.pid) + b;
    assert SendGroupStart(s, g).sent + b == [0xBF] + b1;
    OpenReceived(b1);
    DictSize(s.names.ns, s.nsDict);
    GroupIdReceived(s.names.ns, s.nsDict, r.names.ns, r.nsDict, g, b);
  }

  lemma GroupStartReceived(s: State, r: State, g: nat, b: seq<byte>)
    requires Agree(s, r) && RenamedGroup(s.names, g, r.names).Some?
    ensures var q := RecvGroupStart(r, RenamedGroup(s.names, g, r.names).value, SendGroupStart(s, g).sent + b);
            q.Ok? && q.value.rest == b && Agree(SendGroupStart(s, g).state, q.value.state)
  {
    hide AgreeDict, ValidDict, KnowsZero, SendGroupStart, RecvGroupStart, UniqueNames;
    DictSize(s.names.ns, s.nsDict);
    GroupStartRead(s, r, g, b);
    var start := SendGroupStart(s, g);
    var q := RecvGroupStart(r, RenamedGroup(s.names, g, r.names).value, start.sent + b).value;
    NsUpdateKeepsAgreement(s, r, start.state.nsDict, q.state.nsDict);
  }

  lemma AttrIdReceived(s: State, r: State, g: nat, g': nat, id: nat, b: seq<byte>)
    requires Agree(s, r) && RenamedGroup(s.names, g, r.names) == Some(g') && g < |s.dicts| && g' < |r.dicts|
    requires Renamed(s.names.attrs[g], id, r.names.attrs[g']).Some?
    ensures var q := RecvAttrId(r, g', SendId(s, g, id).sent + b);
            q.Ok? && q.value.id == Renamed(s.names.attrs[g], id, r.names.attrs[g']).value && q.value.rest == b &&
            Agree(SendId(s, g, id).state, q.value.state)
    ensures !AtBreak(SendId(s, g, id).sent + b)
  {
    hide AgreeDict, ValidDict, KnowsZero, Pid, RecvId, LidToPid;
    var a := LidToPid(s.names.attrs[g], s.dicts[g], id);
    IdReceived(s.names.attrs[g], s.dicts[g], r.names.attrs[g'], r.dicts[g'], id, b);
    var q := RecvId(r.names.attrs[g'], r.dicts[g'], a.sent + Pid(a.pid) + b).value;
    GroupUpdateKeepsAgreement(s, r, g, g', a.dict, q.dict);
    IdStart(s.names.attrs[g], s.dicts[g], id, b);
  }

  lemma IdStart(names: seq<Option<Name>>, d: Dict, lid: nat, b: seq<byte>)
    requires ValidDict(names, d) && Bound(names, lid)
    ensures var a := LidToPid(names, d, lid); !AtBreak(a.sent + Pid(a.pid) + b)
  {
    hide Pid, Insertion;
    var a := LidToPid(names, d, lid);
    if d.pids[lid] != 0 {
      assert a.sent + Pid(a.pid) + b == Pid(a.pid) + b;
      PidReceived(a.pid, a.pid, b);
    } else {
      assert a.sent + Pid(a.pid) + b == a.sent + (Pid(a.pid) + b);
      InsertionStart(names[lid].value, a.pid, Pid(a.pid) + b);
    }
  }

  lemma InsertionStart(name: Name, p: u64, b: seq<byte>)
    ensures !AtBreak(Insertion(name, p) + b)
  {
    hide Pid, TextBytes, ReadUint;
    var more := [0xBF] + TextBytes(name) + Pid(p) + [BREAK] + b;
    assert Insertion(name, p) + b == Pid(1) + more;
    PidReceived(1, 1, more);
  }

  lemma AgreeingPartiesAreValid(s: State, r: State)
    requires Agree(s, r)
    ensures ValidState(s) && ValidState(r)
  {}

  // ---------- the main theorem ----------

  /** Of a value: it arrives as `Delivered`, counts as one item, nothing after it is consumed, and the parties
      still agree. */
  ghost predicate Arrives(s: State, r: State, sch: Schema, ty: Type, v: Value, rest: seq<byte>)
    requires ValidState(s) && Sendable(s.names, v)
  {
    var q := Recv(r, sch, ty, Send(s, v).sent + rest);
    q.Ok? && q.value.value == Delivered(s.names, r.names, v) && q.value.count == 1 && q.value.rest == rest &&
    Agree(Send(s, v).state, q.value.state)
  }

  /** Every well-formed tree, sent by any party, is understood by any party that binds its names, if and only if it is
      no array or the receiver has received some attribute before. An array without one fails at its end. */
  lemma {:induction false} ValueReceived(s: State, r: State, sch: Schema, ty: Type, v: Value, rest: seq<byte>)
    requires Agree(s, r) && Sendable(s.names, v) && Conforms(s.names, r.names, sch, ty, v)
    ensures ValidState(s)
    ensures Arrives(s, r, sch, ty, v, rest) <==> !v.VArr? || r.curAttr.Some?
    ensures Arrives(s, r, sch, ty, v, rest) || Recv(r, sch, ty, Send(s, v).sent + rest) == Err(ErrUndefined)
    decreases v, 1
  {
    hide Agree, SendScalar, RecvScalar;
    AgreeingPartiesAreValid(s, r);
    match v
    case VArr(vs) => ArrayReceived(s, r, sch, ty, v, rest);
    case VGroup(g, attrs) => GroupReceived(s, r, sch, ty, v, rest);
    case _ => ScalarReceived(v, ty, rest);
  }

  lemma {:induction false} ArrayReceived(s: State, r: State, sch: Schema, ty: Type, v: Value, rest: seq<byte>)
    requires v.VArr? && Agree(s, r) && Sendable(s.names, v) && Conforms(s.names, r.names, sch, ty, v)
    ensures ValidState(s)
    ensures Arrives(s, r, sch, ty, v, rest) <==> r.curAttr.Some?
    ensures r.curAttr.None? ==> Recv(r, sch, ty, Send(s, v).sent + rest) == Err(ErrUndefined)
    decreases v, 0
  {
    hide Agree, SendAll, RecvAll, Header, Predecode;
    AgreeingPartiesAreValid(s, r);
    var items := SendAll(s, v.items);
    var n := |v.items|;
    var b := items.sent + rest;
    assert Send(s, v).sent + rest == Header(MAJOR_ARRAY, n) + b;
    PredecodeWritten(MAJOR_ARRAY, n, b);
    AllReceived(s, r, sch, ty.elem, v.items, rest);
  }

  lemma ArraysConform(s: Bindings, r: Bindings, sch: Schema, ty: Type, v: Value)
    requires Conforms(s, r, sch, ty, v)
    ensures v.VArr? <==> ty.TArr?
  {}

  lemma {:induction false} AllReceived(s: State, r: State, sch: Schema, ty: Type, vs: seq<Value>, rest: seq<byte>)
    requires Agree(s, r) && AllSendable(s.names, vs) && AllConform(s.names, r.names, sch, ty, vs)
    ensures var q := RecvAll(r, sch, ty, |vs|, SendAll(s, vs).sent + rest);
            if ty.TArr? && vs != [] && r.curAttr.None? then q == Err(ErrUndefined)
            else q.Ok? && q.value.values == AllDelivered(s.names, r.names, vs) && q.value.count == |vs| &&
                 q.value.rest == rest && Agree(SendAll(s, vs).state, q.value.state)
    decreases vs, 0
  {
    hide Agree, Send, Recv, ValidState, Sendable, Conforms, Delivered;
    AgreeingPartiesAreValid(s, r);
    if vs == [] {
      assert SendAll(s, vs).sent + rest == rest;
    } else {
      var first := Send(s, vs[0]);
      var more := SendAll(first.state, vs[1..]);
      var b := more.sent + rest;
      assert SendAll(s, vs).sent + rest == first.sent + b;
      ValueReceived(s, r, sch, ty, vs[0], b);
      ArraysConform(s.names, r.names, sch, ty, vs[0]);
      if !ty.TArr? || r.curAttr.Some? {
        var q := Recv(r, sch, ty, first.sent + b).value;
        AllReceived(first.state, q.state, sch, ty, vs[1..], rest);
      }
    }
  }

  lemma {:induction false} GroupReceived(s: State, r: State, sch: Schema, ty: Type, v: Value, rest: seq<byte>)
    requires v.VGroup? && Agree(s, r) && Sendable(s.names, v) && Conforms(s.names, r.names, sch, ty, v)
    ensures Arrives(s, r, sch, ty, v, rest)
    decreases v, 0
  {
    hide SendAttrs, RecvAttrs, SendGroupStart, RecvGroupStart, EndBlock, UniqueNames, AgreeDict, ValidDict, KnowsZero;
    var g, g' := v.gid, RenamedGroup(s.names, v.gid, r.names).value;
    var start := SendGroupStart(s, g);
    var body := SendAttrs(start.state, g, v.attrs);
    var b := body.sent + ([BREAK] + rest);
    assert Send(s, v).sent + rest == start.sent + b;
    GroupStartReceived(s, r, g, b);
    var q := RecvGroupStart(r, g', start.sent + b).value;
    AttrsReceived(start.state, q.state, sch, g, g', v.attrs, rest);
    BreakReceived(rest);
  }

  lemma {:induction false} AttrsReceived(s: State, r: State, sch: Schema, g: nat, g': nat, attrs: seq<Attr>,
                                         rest: seq<byte>)
    requires Agree(s, r) && RenamedGroup(s.names, g, r.names) == Some(g') && g < |s.names.attrs| && g' < |r.names.attrs|
    requires AttrsSendable(s.names, g, attrs) && AttrsConform(s.names, r.names, sch, g, g', attrs)
    ensures var q := RecvAttrs(r, sch, g', SendAttrs(s, g, attrs).sent + ([BREAK] + rest));
            q.Ok? && q.value.attrs == AttrsDelivered(s.names, r.names, g, g', attrs) &&
            q.value.rest == [BREAK] + rest && Agree(SendAttrs(s, g, attrs).state, q.value.state)
    decreases attrs, 0
  {
    hide Send, Recv, SendId, RecvAttrId, UniqueNames, AgreeDict, ValidDict, KnowsZero;
    var tail := [BREAK] + rest;
    if attrs == [] {
      assert SendAttrs(s, g, attrs).sent + tail == tail;
    } else {
      assert attrs[0].value < attrs[0];
      var id := SendId(s, g, attrs[0].id);
      var first := Send(id.state, attrs[0].value);
      var more := SendAttrs(first.state, g, attrs[1..]);
      var b := more.sent + tail;
      assert SendAttrs(s, g, attrs).sent + tail == id.sent + (first.sent + b);
      AttrIdReceived(s, r, g, g', attrs[0].id, first.sent + b);
      var a := RecvAttrId(r, g', id.sent + (first.sent + b)).value;
      var ty := sch[(g', a.id)];
      ValueReceived(id.state, a.state, sch, ty, attrs[0].value, b);
      var q := Recv(a.state, sch, ty, first.sent + b).value;
      AttrsReceived(first.state, q.state, sch, g, g', attrs[1..], rest);
    }
  }

  // ---------- there and back ----------

  /** Every 64-bit unsigned value in the tree fits in 32 bits. */
  predicate Intact(v: Value)
    decreases v, 0
  {
    match v
    case VUint(w, n) => w == W64 ==> n < TWO_32
    case VArr(vs) => AllIntact(vs)
    case VGroup(_, attrs) => AttrsIntact(attrs)
    case _ => true
  }

  predicate AllIntact(vs: seq<Value>)
    decreases vs, 1
  {
    vs == [] || (Intact(vs[0]) && AllIntact(vs[1..]))
  }

  predicate AttrsIntact(attrs: seq<Attr>)
    decreases attrs, 1
  {
    attrs == [] || (assert attrs[0].value < attrs[0]; Intact(attrs[0].value) && AttrsIntact(attrs[1..]))
  }

  /** Where names are unique, the renaming of ids loses nothing. */
  lemma RenamedBack(from: seq<Option<Name>>, lid: nat, to: seq<Option<Name>>)
    requires UniqueNames(from) && Renamed(from, lid, to).Some?
    ensures Renamed(to, Renamed(from, lid, to).value, from) == Some(lid)
  {
    assert from[lid] == to[Renamed(from, lid, to).value];
    assert from[lid] in from;
  }

  /** A receiver that sends the tree back returns exactly the original, for any two numberings of the names, if and
      only if no 64-bit unsigned value in it needs more than 32 bits. */
  lemma {:induction false} SentBackUnchanged(s: Bindings, r: Bindings, sch: Schema, ty: Type, v: Value)
    requires UniqueNames(s.ns) && (forall g :: 0 <= g < |s.attrs| ==> UniqueNames(s.attrs[g]))
    requires Sendable(s, v) && Conforms(s, r, sch, ty, v)
    ensures Delivered(r, s, Delivered(s, r, v)) == v <==> Intact(v)
    decreases v, 0
  {
    hide Renamed, UniqueNames;
    match v
    case VArr(vs) => AllSentBack(s, r, sch, ty.elem, vs);
    case VGroup(g, attrs) =>
      RenamedBack(s.ns, g, r.ns);
      AttrsSentBack(s, r, sch, g, RenamedGroup(s, g, r).value, attrs);
    case _ =>
  }

  lemma {:induction false} AllSentBack(s: Bindings, r: Bindings, sch: Schema, ty: Type, vs: seq<Value>)
    requires UniqueNames(s.ns) && (forall g :: 0 <= g < |s.attrs| ==> UniqueNames(s.attrs[g]))
    requires AllSendable(s, vs) && AllConform(s, r, sch, ty, vs)
    ensures AllDelivered(r, s, AllDelivered(s, r, vs)) == vs <==> AllIntact(vs)
    decreases vs, 1
  {
    hide Renamed, UniqueNames, Delivered, Intact;
    if vs != [] {
      SentBackUnchanged(s, r, sch, ty, vs[0]);
      AllSentBack(s, r, sch, ty, vs[1..]);
      assert AllDelivered(s, r, vs)[1..] == AllDelivered(s, r, vs[1..]);
      var back := AllDelivered(r, s, AllDelivered(s, r, vs));
      assert back[1..] == AllDelivered(r, s, AllDelivered(s, r, vs[1..]));
      assert vs == [vs[0]] + vs[1..] && back == [back[0]] + back[1..];
    }
  }

  lemma {:induction false} AttrsSentBack(s: Bindings, r: Bindings, sch: Schema, g: nat, g': nat, attrs: seq<Attr>)
    requires UniqueNames(s.ns) && (forall g :: 0 <= g < |s.attrs| ==> UniqueNames(s.attrs[g]))
    requires g < |s.attrs| && g' < |r.attrs|
    requires AttrsSendable(s, g, attrs) && AttrsConform(s, r, sch, g, g', attrs)
    ensures AttrsDelivered(r, s, g', g, AttrsDelivered(s, r, g, g', attrs)) == attrs <==> AttrsIntact(attrs)
    decreases attrs, 1
  {
    hide Renamed, UniqueNames, Delivered, Intact;
    if attrs != [] {
      assert attrs[0].value < attrs[0];
      var id' := Renamed(s.attrs[g], attrs[0].id, r.attrs[g']).value;
      RenamedBack(s.attrs[g], attrs[0].id, r.attrs[g']);
      SentBackUnchanged(s, r, sch, sch[(g', id')], attrs[0].value);
      AttrsSentBack(s, r, sch, g, g', attrs[1..]);
      assert AttrsDelivered(s, r, g, g', attrs)[1..] == AttrsDelivered(s, r, g, g', attrs[1..]);
      var back := AttrsDelivered(r, s, g', g, AttrsDelivered(s, r, g, g', attrs));
      assert back[1..] == AttrsDelivered(r, s, g', g, AttrsDelivered(s, r, g, g', attrs[1..]));
      assert attrs == [attrs[0]] + attrs[1..] && back == [back[0]] + back[1..];
    }
  }
}
