/** What the calls for ids, groups and scalars put on the wire, octet by octet, and for every input whether the calls
    of a receiver accept it, what they take it for, and what they answer to the wrong group. */
module NetBufsReads {
  import opened Prelude
  import opened Wire
  import opened Cbor
  import opened CborGrammar
  import opened CborReads
  import opened NetBufs
  import opened NetBufsTransfer
  import opened NetBufsLookups

  // ---------- the octets that are sent ----------

  /** RFC 7049: F4 and F5 are the booleans, integers have major type 0 or 1, and text has major type 3. A 64-bit
      unsigned value is cut to 32 bits. */
  lemma ScalarOctets(w: Width, i: i64, n: u64, s: Name)
    ensures SendScalar(VBool(false)) == [0xF4] && SendScalar(VBool(true)) == [0xF5]
    ensures FitsInt(w, i) ==>
              if i >= 0 then IsHeader(SendScalar(VInt(w, i)), 0, i) else IsHeader(SendScalar(VInt(w, i)), 1, -1 - i)
    ensures FitsUint(w, n) ==> IsHeader(SendScalar(VUint(w, n)), 0, n % 0x1_0000_0000)
    ensures exists h: seq<byte> :: IsHeader(h, 3, |s|) && SendScalar(VStr(s)) == h + s
  {
    hide IsHeader, Header;
    if i >= 0 { HeaderRoundTrip(0, i); } else { HeaderRoundTrip(1, -1 - i); }
    HeaderRoundTrip(0, n);
    HeaderRoundTrip(0, n % 0x1_0000_0000);
    HeaderRoundTrip(3, |s|);
  }

  /** The ranges of the C types. */
  predicate FitsInt(w: Width, i: int) {
    match w
    case W8 => -128 <= i <= 127
    case W16 => -32768 <= i <= 32767
    case W32 => -2147483648 <= i <= 2147483647
    case W64 => -9223372036854775808 <= i <= 9223372036854775807
  }

  predicate FitsUint(w: Width, n: int) {
    match w
    case W8 => 0 <= n <= 255
    case W16 => 0 <= n <= 65535
    case W32 => 0 <= n <= 4294967295
    case W64 => 0 <= n <= 18446744073709551615
  }

  lemma SendableRanges(names: Bindings, w: Width, i: int, n: nat)
    ensures Sendable(names, VInt(w, i)) <==> FitsInt(w, i)
    ensures Sendable(names, VUint(w, n)) <==> FitsUint(w, n)
  {}

  lemma PidOctets(p: u64)
    requires p < 0x1_0000_0000
    ensures IsHeader(Pid(p), 0, p) && (p < 24 ==> Pid(p) == [p])
  {
    hide IsHeader;
    HeaderRoundTrip(0, p);
  }

  /** `lid_to_pid`: a new id is inserted under the reserved key 1 by its name and the next pID, which the sender
      keeps. */
  lemma KeyOctets(names: seq<Option<Name>>, d: Dict, lid: nat)
    requires ValidDict(names, d) && Bound(names, lid)
    ensures var a, name := LidToPid(names, d, lid), names[lid].value;
            if d.pids[lid] != 0 then a.pid == d.pids[lid] && a.sent == [] && a.dict == d
            else
              && a.pid == d.maxPid + 1 && a.dict == d.(pids := d.pids[lid := a.pid], maxPid := a.pid)
              && exists h: seq<byte>, p: seq<byte> :: IsHeader(h, 3, |name|) && IsHeader(p, 0, a.pid) &&
                   a.sent == [0x01, 0xBF] + h + name + p + [0xFF]
  {
    hide ValidDict, Header, IsHeader, Pid;
    var a, name := LidToPid(names, d, lid), names[lid].value;
    DictSize(names, d);
    if d.pids[lid] == 0 {
      var h := Header(MAJOR_TEXT, |name|);
      HeaderRoundTrip(MAJOR_TEXT, |name|);
      PidOctets(1);
      PidOctets(a.pid);
      assert a.sent == [0x01, 0xBF] + h + name + Pid(a.pid) + [0xFF];
    }
  }

  /** `nb_send_group`: a map, and in it the insertion of the group's name if it is new, the reserved key 0, and its
      pID. */
  lemma GroupStartOctets(s: State, g: nat)
    requires ValidState(s) && Bound(s.names.ns, g)
    ensures var a := LidToPid(s.names.ns, s.nsDict, g);
            IsHeader(Pid(a.pid), 0, a.pid) && SendGroupStart(s, g).sent == [0xBF] + a.sent + [0x00] + Pid(a.pid)
  {
    hide ValidDict, LidToPid, Pid, IsHeader;
    PidOctets(0);
    PidOctets(LidToPid(s.names.ns, s.nsDict, g).pid);
  }

  // ---------- the ids that are read ----------

  /** A key insertion as a receiver takes it: any headers of its numbers will do, and the name ends at its first NUL. */
  ghost predicate IsInsertion(k: Lesson, w: seq<byte>) {
    exists a: seq<byte>, h: seq<byte>, s: seq<byte>, p: seq<byte> ::
      IsArgument(a, 1) && IsKey(k, h, s, p) && w == a + ([0xBF] + h + s + p + [0xFF])
  }

  ghost predicate IsKey(k: Lesson, h: seq<byte>, s: seq<byte>, p: seq<byte>) {
    |s| < TWO_64 && IsHeader(h, 3, |s|) && CStr(s) == k.name && IsArgument(p, k.pid)
  }

  /** Key insertions and a pID behind them. */
  ghost predicate IsIdBytes(ks: seq<Lesson>, q: nat, w: seq<byte>)
    decreases |ks|
  {
    if ks == [] then q != 1 && q < TWO_64 && IsArgument(w, q)
    else exists v: seq<byte>, x: seq<byte> :: w == v + x && IsInsertion(ks[0], v) && IsIdBytes(ks[1..], q, x)
  }

  ghost predicate ReadsAsId(names: seq<Option<Name>>, d: Dict, b: seq<byte>, read: IdRead) {
    exists ks: seq<Lesson>, q: nat, w: seq<byte> ::
      IsIdBytes(ks, q, w) && b == w + read.rest && LearnAll(names, d, ks) == Ok(read.dict) &&
      Lookup(read.dict, q) == Ok(read.lid)
  }

  /** `recv_id`, for every input: it takes key insertions, as many as there are, and one pID behind them; the id is what
      that pID stands for after learning them in order. */
  lemma {:induction false} IdReadIff(names: seq<Option<Name>>, d: Dict, b: seq<byte>, read: IdRead)
    ensures RecvId(names, d, b) == Ok(read) <==> ReadsAsId(names, d, b, read)
    decreases |b|
  {
    hide IsIdBytes, LearnAll, Lookup, ReadUint, RecvKeys, IsArgument;
    if RecvId(names, d, b) == Ok(read) {
      var n := ReadUint(b, TWO_64 - 1).value;
      var a := ArgumentOf(b, n);
      if n.n == 1 {
        var k := RecvKeys(names, d, n.rest).value;
        var x, v := KeyOf(names, d, n.rest, a, k);
        IdReadIff(names, k.dict, k.rest, read);
        IdBehindKey(names, d, b, read, x, v, k);
      } else {
        NoKeys(n.n, a);
        NothingLearned(names, d);
        assert IsIdBytes([], n.n, a);
      }
    }
    if ReadsAsId(names, d, b, read) {
      var ks: seq<Lesson>, q: nat, w: seq<byte> :|
        IsIdBytes(ks, q, w) && b == w + read.rest && LearnAll(names, d, ks) == Ok(read.dict) &&
        Lookup(read.dict, q) == Ok(read.lid);
      IdAccepted(names, d, ks, q, w, read);
    }
  }

  lemma NoKeys(q: nat, w: seq<byte>)
    ensures IsIdBytes([], q, w) <==> q != 1 && q < TWO_64 && IsArgument(w, q)
  {
    hide IsArgument;
  }

  lemma NothingLearned(names: seq<Option<Name>>, d: Dict)
    ensures LearnAll(names, d, []) == Ok(d)
  {}

  lemma ArgumentOf(b: seq<byte>, n: NumberRead) returns (a: seq<byte>)
    requires ReadUint(b, TWO_64 - 1) == Ok(n)
    ensures 0 <= n.n < TWO_64 && IsArgument(a, n.n) && b == a + n.rest
  {
    hide ReadUint, IsArgument;
    UintReadIff(b, TWO_64 - 1, n.n, n.rest);
    a :| b == a + n.rest && IsArgument(a, n.n);
  }

  /** The bytes that `recv_keys` takes off the input, as an insertion. */
  lemma KeyOf(names: seq<Option<Name>>, d: Dict, b: seq<byte>, a: seq<byte>, read: KeysRead)
    returns (k: Lesson, v: seq<byte>)
    requires IsArgument(a, 1) && RecvKeys(names, d, b) == Ok(read)
    ensures IsInsertion(k, v) && a + b == v + read.rest && Learned(names, d, k.name, k.pid) == Ok(read.dict)
  {
    hide IsArgument, IsHeader, ReadUint, ReadOpen, ReadString, EndBlock, CStr, Learned;
    var open := ReadOpen(MAJOR_MAP, true, b).value;
    OpenIndefIff(5, b, open.head, open.rest);
    var s := ReadString(MAJOR_TEXT, open.rest).value;
    var n := ReadUint(s.rest, TWO_64 - 1).value;
    var p := ArgumentOf(s.rest, n);
    BreakIff(n.rest, read.rest);
    ArgumentIsNoBreak(s.rest);
    var h := WholeText(open.rest, s);
    k := Lesson(CStr(s.bytes), n.n);
    v := a + ([0xBF] + h + s.bytes + p + [0xFF]);
    assert IsKey(k, h, s.bytes, p);
    assert open.rest == h + s.bytes + p + [0xFF] + read.rest;
  }

  lemma BreakIff(b: seq<byte>, rest: seq<byte>)
    ensures EndBlock(true, 0, 0, b) == Ok(rest) <==> b == [0xFF] + rest
  {
    hide ReadArg;
    if b != [] {
      assert b == [b[0]] + b[1..];
    }
  }

  lemma ArgumentIsNoBreak(b: seq<byte>)
    ensures ReadUint(b, TWO_64 - 1).Ok? ==> !AtBreak(b)
  {
    hide ReadArg, LowBits, Major;
  }

  /** A text string with no break behind it is in one piece. */
  lemma WholeText(b: seq<byte>, s: StringRead) returns (h: seq<byte>)
    requires ReadString(MAJOR_TEXT, b) == Ok(s) && !AtBreak(s.rest)
    ensures |s.bytes| < TWO_64 && IsHeader(h, 3, |s.bytes|) && b == h + s.bytes + s.rest
  {
    hide Predecode, IsHeader;
    var p := Predecode(b).value;
    h := PredecodedHeader(b);
    assert p.rest == s.bytes + s.rest;
  }

  lemma IdBehindKey(names: seq<Option<Name>>, d: Dict, b: seq<byte>, read: IdRead, k: Lesson, v: seq<byte>,
                    key: KeysRead)
    requires IsInsertion(k, v) && b == v + key.rest && Learned(names, d, k.name, k.pid) == Ok(key.dict)
    requires ReadsAsId(names, key.dict, key.rest, read)
    ensures ReadsAsId(names, d, b, read)
  {
    hide IsInsertion, Learned, Lookup, IsArgument;
    var ks: seq<Lesson>, q: nat, w: seq<byte> :|
      IsIdBytes(ks, q, w) && key.rest == w + read.rest && LearnAll(names, key.dict, ks) == Ok(read.dict) &&
      Lookup(read.dict, q) == Ok(read.lid);
    var all := [k] + ks;
    assert all[1..] == ks;
    assert IsIdBytes(all, q, v + w);
    assert b == (v + w) + read.rest;
  }

  lemma {:induction false} IdAccepted(names: seq<Option<Name>>, d: Dict, ks: seq<Lesson>, q: nat, w: seq<byte>,
                                      read: IdRead)
    requires IsIdBytes(ks, q, w) && LearnAll(names, d, ks) == Ok(read.dict) && Lookup(read.dict, q) == Ok(read.lid)
    ensures RecvId(names, d, w + read.rest) == Ok(read)
    decreases |ks|
  {
    hide IsInsertion, IsArgument, Learned, Lookup, ReadUint, RecvKeys;
    if ks == [] {
      UintReadIff(w + read.rest, TWO_64 - 1, q, read.rest);
    } else {
      var v: seq<byte>, x: seq<byte> :| w == v + x && IsInsertion(ks[0], v) && IsIdBytes(ks[1..], q, x);
      var e := Learned(names, d, ks[0].name, ks[0].pid).value;
      IdAccepted(names, e, ks[1..], q, x, read);
      assert w + read.rest == v + (x + read.rest);
      KeyAccepted(names, d, ks[0], v, x + read.rest);
    }
  }

  lemma KeyAccepted(names: seq<Option<Name>>, d: Dict, k: Lesson, v: seq<byte>, rest: seq<byte>)
    requires IsInsertion(k, v) && Learned(names, d, k.name, k.pid).Ok?
    ensures RecvId(names, d, v + rest) == RecvId(names, Learned(names, d, k.name, k.pid).value, rest)
  {
    hide IsArgument, IsKey, ReadUint, Learned, RecvKeys;
    var a: seq<byte>, h: seq<byte>, s: seq<byte>, p: seq<byte> :|
      IsArgument(a, 1) && IsKey(k, h, s, p) && v == a + ([0xBF] + h + s + p + [0xFF]);
    var b4 := [0xBF] + (h + (s + (p + ([0xFF] + rest))));
    assert v + rest == a + b4;
    ArgumentAccepted(a, 1, b4);
    KeyBodyAccepted(names, d, k, h, s, p, rest);
  }

  lemma ArgumentAccepted(a: seq<byte>, n: u64, rest: seq<byte>)
    requires IsArgument(a, n)
    ensures ReadUint(a + rest, TWO_64 - 1) == Ok(NumberRead(n, rest))
  {
    hide IsArgument, ReadUint;
    UintReadIff(a + rest, TWO_64 - 1, n, rest);
  }

  lemma KeyBodyAccepted(names: seq<Option<Name>>, d: Dict, k: Lesson, h: seq<byte>, s: seq<byte>, p: seq<byte>,
                        rest: seq<byte>)
    requires IsKey(k, h, s, p) && Learned(names, d, k.name, k.pid).Ok?
    ensures RecvKeys(names, d, [0xBF] + (h + (s + (p + ([0xFF] + rest))))) ==
            Ok(KeysRead(Learned(names, d, k.name, k.pid).value, rest))
  {
    hide IsArgument, IsHeader, ReadUint, ReadString, ReadOpen, EndBlock, Learned, RecvKeys;
    var b1 := [0xFF] + rest;
    var b2 := p + b1;
    var b3 := h + (s + b2);
    OpenIndefIff(5, [0xBF] + b3, Head(5, true, 0), b3);
    StringDecoded(h, 3, |s|, s + b2);
    assert (s + b2)[..|s|] == s && (s + b2)[|s|..] == b2;
    ArgumentAccepted(p, k.pid, b1);
    BreakIff(b1, rest);
    KeysReadOf(names, d, [0xBF] + b3, b3, b2, b1, rest, s, k);
  }

  lemma KeysReadOf(names: seq<Option<Name>>, d: Dict, b4: seq<byte>, b3: seq<byte>, b2: seq<byte>, b1: seq<byte>,
                   b: seq<byte>, s: seq<byte>, k: Lesson)
    requires ReadOpen(MAJOR_MAP, true, b4) == Ok(Predecoded(Head(MAJOR_MAP, true, 0), b3))
    requires ReadString(MAJOR_TEXT, b3) == Ok(StringRead(s, 1, b2)) && CStr(s) == k.name
    requires ReadUint(b2, TWO_64 - 1) == Ok(NumberRead(k.pid, b1))
    requires EndBlock(true, 0, 0, b1) == Ok(b) && Learned(names, d, k.name, k.pid).Ok?
    ensures RecvKeys(names, d, b4) == Ok(KeysRead(Learned(names, d, k.name, k.pid).value, b))
  {
    hide ReadUint, ReadString, ReadOpen, EndBlock, Learned, CStr;
  }

  // ---------- the start of a group ----------

  /** `nb_recv_group`, for every input: a map of indefinite length, an id that stands for 0, and one that stands for the
      group that is expected. */
  lemma GroupReadIff(s: State, g: nat, b: seq<byte>, start: Started)
    ensures RecvGroupStart(s, g, b) == Ok(start) <==> ReadsAsGroup(s, g, b, start)
  {
    hide RecvId, ReadsAsId, ReadOpen;
    if RecvGroupStart(s, g, b) == Ok(start) {
      var p := ReadOpen(MAJOR_MAP, true, b).value;
      var zero := RecvId(s.names.ns, s.nsDict, p.rest).value;
      var id := RecvId(s.names.ns, zero.dict, zero.rest).value;
      OpenIndefIff(5, b, p.head, p.rest);
      IdReadIff(s.names.ns, s.nsDict, p.rest, zero);
      IdReadIff(s.names.ns, zero.dict, zero.rest, id);
      assert id == IdRead(start.state.nsDict, g, start.rest);
    }
    if ReadsAsGroup(s, g, b, start) {
      var x: seq<byte>, zero: IdRead :|
        b == [0xBF] + x && zero.lid == 0 && ReadsAsId(s.names.ns, s.nsDict, x, zero) &&
        ReadsAsId(s.names.ns, zero.dict, zero.rest, IdRead(start.state.nsDict, g, start.rest));
      OpenIndefIff(5, b, Head(5, true, 0), x);
      IdReadIff(s.names.ns, s.nsDict, x, zero);
      IdReadIff(s.names.ns, zero.dict, zero.rest, IdRead(start.state.nsDict, g, start.rest));
    }
  }

  ghost predicate ReadsAsGroup(s: State, g: nat, b: seq<byte>, start: Started) {
    && Bound(s.names.ns, g) && start.state == s.(nsDict := start.state.nsDict)
    && exists x: seq<byte>, zero: IdRead ::
         b == [0xBF] + x && zero.lid == 0 && ReadsAsId(s.names.ns, s.nsDict, x, zero) &&
         ReadsAsId(s.names.ns, zero.dict, zero.rest, IdRead(start.state.nsDict, g, start.rest))
  }

  /** Between agreeing parties `nb_recv_group` accepts exactly the group of the name that was sent. Another group is the
      error it has for that, and a name that the receiver has not bound is a failed assert. */
  lemma GroupIsChecked(s: State, r: State, g: nat, h: nat, b: seq<byte>)
    requires Agree(s, r) && Bound(s.names.ns, g)
    ensures var q := RecvGroupStart(r, h, SendGroupStart(s, g).sent + b);
            && (q.Ok? <==> RenamedGroup(s.names, g, r.names) == Some(h))
            && (q.Err? ==> q.error == if RenamedGroup(s.names, g, r.names).Some? then ErrOther else ErrAssert)
  {
    hide AgreeDict, ValidDict, KnowsZero, SendGroupStart, RecvGroupStart, UniqueNames;
    var w := SendGroupStart(s, g).sent + b;
    DictSize(s.names.ns, s.nsDict);
    if RenamedGroup(s.names, g, r.names).Some? {
      GroupStartRead(s, r, g, b);
      if RenamedGroup(s.names, g, r.names) != Some(h) {
        OnlyOneGroup(r, RenamedGroup(s.names, g, r.names).value, h, w);
      }
    } else {
      UnknownGroup(s, r, g, h, b);
    }
  }

  lemma OnlyOneGroup(r: State, g: nat, h: nat, w: seq<byte>)
    requires RecvGroupStart(r, g, w).Ok? && g != h
    ensures RecvGroupStart(r, h, w) == Err(ErrOther)
  {
    hide RecvId, ReadOpen;
  }

  lemma UnknownGroup(s: State, r: State, g: nat, h: nat, b: seq<byte>)
    requires ValidState(s) && AgreeDict(s.names.ns, s.nsDict, r.names.ns, r.nsDict) && Bound(s.names.ns, g)
    requires RenamedGroup(s.names, g, r.names).None?
    ensures RecvGroupStart(r, h, SendGroupStart(s, g).sent + b) == Err(ErrAssert)
  {
    hide Insertion, Pid, RecvId, Learned, ReadOpen;
    var a := LidToPid(s.names.ns, s.nsDict, g);
    var x := Pid(0) + Pid(a.pid) + b;
    assert s.nsDict.pids[g] == 0;
    assert SendGroupStart(s, g).sent + b == [0xBF] + (Insertion(s.names.ns[g].value, a.pid) + x);
    OpenReceived(Insertion(s.names.ns[g].value, a.pid) + x);
    InsertionReceived(r.names.ns, r.nsDict, s.names.ns[g].value, a.pid, x);
  }

  /** The same of a whole group: a receiver that expects another one reads nothing of it. */
  lemma OtherGroupIsRefused(s: State, r: State, sch: Schema, h: nat, v: Value, rest: seq<byte>)
    requires Agree(s, r) && v.VGroup? && Sendable(s.names, v) && RenamedGroup(s.names, v.gid, r.names) != Some(h)
    ensures ValidState(s)
    ensures Recv(r, sch, TGroup(h), Send(s, v).sent + rest) ==
            Err(if RenamedGroup(s.names, v.gid, r.names).Some? then ErrOther else ErrAssert)
  {
    hide Agree, SendGroupStart, RecvGroupStart, SendAttrs;
    AgreeingPartiesAreValid(s, r);
    var start := SendGroupStart(s, v.gid);
    var b := SendAttrs(start.state, v.gid, v.attrs).sent + [BREAK] + rest;
    assert Send(s, v).sent + rest == start.sent + b;
    GroupIsChecked(s, r, v.gid, h, b);
  }

  /** The key in front of the group's pID has to stand for 0: a pID of another id is the same error. */
  lemma FirstKeyIsChecked(r: State, h: nat, p: nat, b: seq<byte>)
    requires p != 1 && p < TWO_32
    ensures var l, q := Lookup(r.nsDict, p), RecvGroupStart(r, h, [0xBF] + Pid(p) + b);
            && (l.Err? ==> q == Err(l.error))
            && (l.Ok? && l.value != 0 ==> q == Err(ErrOther))
  {
    hide Pid, RecvId, ReadOpen, Lookup;
    assert [0xBF] + Pid(p) + b == [0xBF] + (Pid(p) + b);
    OpenReceived(Pid(p) + b);
    AnyPidReceived(r.names.ns, r.nsDict, p, b);
  }

  // ---------- attributes ----------

  /** `nb_recv_attr`, for every input: an id that stands for a bound attribute of the group. */
  lemma AttrReadIff(s: State, g: nat, b: seq<byte>, a: AttrRead)
    ensures RecvAttrId(s, g, b) == Ok(a) <==>
            && g < |s.dicts| && g < |s.names.attrs| && Bound(s.names.attrs[g], a.id)
            && exists d: Dict :: ReadsAsId(s.names.attrs[g], s.dicts[g], b, IdRead(d, a.id, a.rest)) &&
                 a.state == s.(dicts := s.dicts[g := d], curAttr := Some(a.id))
  {
    hide RecvId, ReadsAsId;
    if g < |s.dicts| && g < |s.names.attrs| {
      forall d: Dict
        ensures RecvId(s.names.attrs[g], s.dicts[g], b) == Ok(IdRead(d, a.id, a.rest)) <==>
                ReadsAsId(s.names.attrs[g], s.dicts[g], b, IdRead(d, a.id, a.rest))
      {
        IdReadIff(s.names.attrs[g], s.dicts[g], b, IdRead(d, a.id, a.rest));
      }
      if RecvAttrId(s, g, b) == Ok(a) {
        assert RecvId(s.names.attrs[g], s.dicts[g], b) == Ok(IdRead(a.state.dicts[g], a.id, a.rest));
      }
    }
  }

  /** An attribute whose name the receiver has not bound is a failed assert, and any other is accepted. */
  lemma AttrIsChecked(s: State, r: State, g: nat, g': nat, id: nat, b: seq<byte>)
    requires Agree(s, r) && RenamedGroup(s.names, g, r.names) == Some(g') && g < |s.dicts| && g' < |r.dicts|
    requires Bound(s.names.attrs[g], id)
    ensures var q := RecvAttrId(r, g', SendId(s, g, id).sent + b);
            && (q.Ok? <==> Renamed(s.names.attrs[g], id, r.names.attrs[g']).Some?)
            && (q.Err? ==> q.error == ErrAssert)
  {
    hide Insertion, Pid, RecvId, Learned;
    if Renamed(s.names.attrs[g], id, r.names.attrs[g']).Some? {
      AttrIdReceived(s, r, g, g', id, b);
    } else {
      var a := LidToPid(s.names.attrs[g], s.dicts[g], id);
      assert s.dicts[g].pids[id] == 0;
      assert SendId(s, g, id).sent + b == Insertion(s.names.attrs[g][id].value, a.pid) + (Pid(a.pid) + b);
      InsertionReceived(r.names.attrs[g'], r.dicts[g'], s.names.attrs[g][id].value, a.pid, Pid(a.pid) + b);
    }
  }

  // ---------- values ----------

  /** The scalar calls, for every input: what the decoder of items finds there, in the range of the C type. A number is
      taken by its argument where an unsigned one is expected, and text ends at its first NUL. */
  lemma ScalarReadIff(ty: Type, b: seq<byte>, v: Value, n: nat, rest: seq<byte>)
    requires !ty.TArr? && !ty.TGroup?
    ensures RecvScalar(ty, b) == Ok((v, n, rest)) <==>
            match ty
            case TInt(w) => n == 1 && v.VInt? && v.w == w && FitsInt(w, v.i) &&
                            Decode(b) == Ok(Decoded(if v.i >= 0 then UInt(v.i) else Int(v.i), 1, rest))
            case TUint(w) => n == 1 && v.VUint? && v.w == w && FitsUint(w, v.n) &&
                             exists h: seq<byte> :: b == h + rest && IsArgument(h, v.n)
            case TBool => n == 1 && v.VBool? &&
                          (b == [if v.b then 0xF5 else 0xF4] + rest || b == [0xF8, if v.b then 0x15 else 0x14] + rest)
            case TStr => v.VStr? && exists indef, bs: seq<byte> ::
                           CStr(bs) == v.s && Decode(b) == Ok(Decoded(Text(indef, bs), n, rest))
  {
    hide ReadInt, ReadUint, ReadBool, ReadString, Decode, IsArgument, CStr;
    match ty
    case TInt(w) =>
      if v.VInt? && FitsInt(w, v.i) { IntReadIff(b, -Half(w), Half(w) - 1, v.i, rest); }
    case TUint(w) =>
      if v.VUint? && FitsUint(w, v.n) { UintReadIff(b, 2 * Half(w) - 1, v.n, rest); }
    case TBool =>
      if v.VBool? { BoolReadIff(b, v.b, rest); }
    case TStr =>
      if v.VStr? { TextReadIff(b, v.s, n, rest); }
  }

  lemma TextReadIff(b: seq<byte>, s: Name, n: nat, rest: seq<byte>)
    ensures RecvScalar(TStr, b) == Ok((VStr(s), n, rest)) <==>
            exists indef, bs: seq<byte> :: CStr(bs) == s && Decode(b) == Ok(Decoded(Text(indef, bs), n, rest))
  {
    hide ReadString, Decode, CStr;
    var r := ReadString(3, b);
    if r.Ok? {
      StringReadIff(3, b, r.value.bytes, n, rest);
    }
    forall indef, bs: seq<byte> | CStr(bs) == s && Decode(b) == Ok(Decoded(Text(indef, bs), n, rest))
      ensures ReadString(3, b) == Ok(StringRead(bs, n, rest))
    {
      StringReadIff(3, b, bs, n, rest);
    }
  }

  // ---------- whatever is received fits ----------

  /** A value of the type, with bound ids only, each of an attribute that the schema has in its group. */
  predicate Fits(names: Bindings, sch: Schema, ty: Type, v: Value)
    decreases v, 0
  {
    match v
    case VInt(w, i) => ty == TInt(w) && FitsInt(w, i)
    case VUint(w, n) => ty == TUint(w) && FitsUint(w, n)
    case VBool(_) => ty == TBool
    case VStr(_) => ty == TStr
    case VArr(vs) => ty.TArr? && |vs| < TWO_64 && AllFit(names, sch, ty.elem, vs)
    case VGroup(g, attrs) => ty == TGroup(g) && Bound(names.ns, g) && AttrsFit(names, sch, g, attrs)
  }

  predicate AllFit(names: Bindings, sch: Schema, ty: Type, vs: seq<Value>)
    decreases vs, 1
  {
    vs == [] || (Fits(names, sch, ty, vs[0]) && AllFit(names, sch, ty, vs[1..]))
  }

  predicate AttrsFit(names: Bindings, sch: Schema, g: nat, attrs: seq<Attr>)
    decreases attrs, 1
  {
    attrs == [] ||
    (assert attrs[0].value < attrs[0];
     && g < |names.attrs| && Bound(names.attrs[g], attrs[0].id) && (g, attrs[0].id) in sch
     && Fits(names, sch, sch[(g, attrs[0].id)], attrs[0].value) && AttrsFit(names, sch, g, attrs[1..]))
  }

  /** Whatever the input, a value that the receive calls return fits what the application expects. */
  lemma {:induction false} ReceivedFits(s: State, sch: Schema, ty: Type, b: seq<byte>)
    requires Recv(s, sch, ty, b).Ok?
    ensures Fits(s.names, sch, ty, Recv(s, sch, ty, b).value.value)
    decreases |b|, 1
  {
    hide RecvGroupStart, RecvScalar, ReadOpen, EndBlock, Fits, ReadString;
    match ty
    case TArr(elem) =>
      var p := ReadOpen(MAJOR_ARRAY, false, b).value;
      AllReceivedFit(s, sch, elem, p.head.arg, p.rest);
      ArrayFits(s, sch, ty, RecvAll(s, sch, elem, p.head.arg, p.rest).value.values);
    case TGroup(g) =>
      var start := RecvGroupStart(s, g, b).value;
      AttrsReceivedFit(start.state, sch, g, start.rest);
      GroupFits(s.names, sch, g, RecvAttrs(start.state, sch, g, start.rest).value.attrs);
    case _ =>
      ScalarFits(s.names, sch, ty, b);
  }

  lemma ArrayFits(s: State, sch: Schema, ty: Type, vs: seq<Value>)
    requires ty.TArr? && |vs| < TWO_64 && AllFit(s.names, sch, ty.elem, vs)
    ensures Fits(s.names, sch, ty, VArr(vs))
  {}

  lemma GroupFits(names: Bindings, sch: Schema, g: nat, attrs: seq<Attr>)
    requires Bound(names.ns, g) && AttrsFit(names, sch, g, attrs)
    ensures Fits(names, sch, TGroup(g), VGroup(g, attrs))
  {}

  lemma ScalarFits(names: Bindings, sch: Schema, ty: Type, b: seq<byte>)
    requires !ty.TArr? && !ty.TGroup? && RecvScalar(ty, b).Ok?
    ensures Fits(names, sch, ty, RecvScalar(ty, b).value.0)
  {
    hide ReadInt, ReadUint, ReadBool, ReadString, CStr;
  }

  lemma {:induction false} AllReceivedFit(s: State, sch: Schema, elem: Type, n: nat, b: seq<byte>)
    requires RecvAll(s, sch, elem, n, b).Ok?
    ensures AllFit(s.names, sch, elem, RecvAll(s, sch, elem, n, b).value.values)
    decreases |b|, 2
  {
    hide Recv, Fits;
    if n > 0 {
      var v := Recv(s, sch, elem, b).value;
      ReceivedFits(s, sch, elem, b);
      AllReceivedFit(v.state, sch, elem, n - 1, v.rest);
    }
  }

  lemma {:induction false} AttrsReceivedFit(s: State, sch: Schema, g: nat, b: seq<byte>)
    requires RecvAttrs(s, sch, g, b).Ok?
    ensures AttrsFit(s.names, sch, g, RecvAttrs(s, sch, g, b).value.attrs)
    decreases |b|, 2
  {
    hide Recv, Fits, RecvId;
    if !AtBreak(b) {
      var a := RecvAttrId(s, g, b).value;
      var v := Recv(a.state, sch, sch[(g, a.id)], a.rest).value;
      ReceivedFits(a.state, sch, sch[(g, a.id)], a.rest);
      AttrsReceivedFit(v.state, sch, g, v.rest);
    }
  }
}
