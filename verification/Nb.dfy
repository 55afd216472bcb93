/** `struct nb`: the calls of a NetBufs party over its CBOR stream. */
module NbParty {
  import opened Prelude
  import opened Wire
  import opened Cbor
  import opened Buffer
  import opened CborStreams
  import opened GrowArrays
  import opened NetBufs

  /** All blocks but those of groups belong to the group of the block around them. */
  ghost predicate Inherited(blocks: seq<Block>) {
    forall i :: 0 < i < |blocks| && blocks[i].typ != MAJOR_MAP ==> blocks[i].group == blocks[i - 1].group
  }

  ghost predicate KnownGroups(blocks: seq<Block>, names: Bindings) {
    forall i :: 0 <= i < |blocks| && blocks[i].group.Some? ==> Bound(names.ns, blocks[i].group.value)
  }

  /** The stack inside a group that was opened on top of `outer`. */
  function InGroup(outer: seq<Block>, g: nat): (r: seq<Block>)
    requires outer != []
    ensures |r| == |outer| + 1 && r[..|outer|] == outer
    ensures Top(r) == Block(MAJOR_MAP, true, 0, 0, Some(g), None)
  {
    outer + [Block(MAJOR_MAP, true, 0, 0, Some(g), None)]
  }

  /** The stack inside an array that is received for an attribute. */
  function InArray(outer: seq<Block>, len: u64, attr: Option<nat>): (r: seq<Block>)
    requires outer != []
    ensures |r| == |outer| + 1 && r[..|outer|] == outer
    ensures Top(r) == Block(MAJOR_ARRAY, false, len, 0, Top(outer).group, attr)
  {
    outer + [Block(MAJOR_ARRAY, false, len, 0, Top(outer).group, attr)]
  }

  /** How many items the key insertion for an id adds to the block, if there is one. */
  function InsertedItems(d: Dict, lid: nat): (n: nat)
    requires lid < |d.pids|
    ensures n % 2 == 0
  {
    if d.pids[lid] == 0 then 2 else 0
  }

  /** `init_group`: the first slot of `pid_to_lid` is set without counting as an item. */
  function NewDict(): Dict {
    Dict([], 1, NewArr(4, 0))
  }

  function EmptyState(): State {
    State(Bindings([], []), NewDict(), [], None)
  }

  lemma EmptyStateIsValid()
    ensures ValidState(EmptyState()) && ValidDict([], NewDict())
  {}

  /** `nb_bind` makes a new attribute, which has no pID, whatever was there before. */
  function Renewed(d: Dict, id: nat): Dict {
    d.(pids := Resized(d.pids, id + 1, 0)[id := 0])
  }

  function Renamed(names: seq<Option<Name>>, id: nat, name: Name): seq<Option<Name>> {
    Resized(names, id + 1, None)[id := Some(name)]
  }

  /** The id has no name, or a name that has not been sent yet. */
  predicate Unsent(d: Dict, id: nat) {
    id < |d.pids| ==> d.pids[id] == 0
  }

  /** The state after `nb_group(id, name)`. */
  function WithGroup(s: State, id: nat, name: Name): State {
    State(Bindings(Renamed(s.names.ns, id, name), Resized(s.names.attrs, id + 1, [])[id := []]),
          Renewed(s.nsDict, id),
          Resized(s.dicts, id + 1, NewDict())[id := NewDict()],
          s.curAttr)
  }

  /** The state after `nb_bind(group g, id, name)`. */
  function WithAttr(s: State, g: nat, id: nat, name: Name): State
    requires g < |s.names.attrs| && g < |s.dicts|
  {
    State(s.names.(attrs := s.names.attrs[g := Renamed(s.names.attrs[g], id, name)]),
          s.nsDict,
          s.dicts[g := Renewed(s.dicts[g], id)],
          s.curAttr)
  }

  lemma {:induction false} NumUsedResized(pids: seq<nat>, n: nat)
    ensures NumUsed(Resized(pids, n, 0)) == NumUsed(pids)
    decreases n
  {
    var r := Resized(pids, n, 0);
    if n > |pids| {
      NumUsedResized(pids, n - 1);
      assert r[..|r| - 1] == Resized(pids, n - 1, 0);
    }
  }

  /** The pIDs do not run out: binding a name that was sent uses one up, and new ids need one each. */
  predicate HasRoom(d: Dict, id: nat) {
    d.maxPid + NumUnused(Renewed(d, id).pids) < TWO_32
  }

  /** There is room for any id until 2^31 pIDs have been given out. */
  lemma RoomIsPlenty(names: seq<Option<Name>>, d: Dict, id: nat)
    requires ValidDict(names, d) && id < MAX_LIDS && d.maxPid < MAX_LIDS
    ensures HasRoom(d, id)
  {}

  /** Binding an id, again or for the first time, leaves a numbering that can go on, exactly when there is room. */
  lemma BindKeepsValid(names: seq<Option<Name>>, d: Dict, id: nat, name: Name)
    requires ValidDict(names, d) && id < MAX_LIDS
    ensures ValidDict(Renamed(names, id, name), Renewed(d, id)) <==> HasRoom(d, id)
  {
    hide NumUsed;
  }

  /** It is without gaps exactly when the id has no pID: a name that was sent leaves a gap, because its pID is forgotten
      and not given out again. */
  lemma BindLeavesGap(names: seq<Option<Name>>, d: Dict, id: nat, name: Name)
    requires ValidDict(names, d) && id < MAX_LIDS && Gapless(d)
    ensures Gapless(Renewed(d, id)) <==> Unsent(d, id)
  {
    var d' := Renewed(d, id);
    if Unsent(d, id) {
      NumUsedResized(d.pids, id + 1);
      assert d'.pids == Resized(d.pids, id + 1, 0);
      forall p | 2 <= p <= d'.maxPid
        ensures p in d'.pids
      {
        assert p in d.pids;
        var l :| 0 <= l < |d.pids| && d.pids[l] == p;
        assert d'.pids[l] == p;
      }
    } else {
      var p := d.pids[id];
      forall l | 0 <= l < |d'.pids|
        ensures d'.pids[l] != p
      {
        assert l == id || d'.pids[l] == if l < |d.pids| then d.pids[l] else 0;
      }
      assert 2 <= p <= d'.maxPid && p !in d'.pids;
    }
  }

  lemma WithGroupIsValid(s: State, id: nat, name: Name)
    requires ValidState(s) && id < MAX_LIDS
    ensures ValidState(WithGroup(s, id, name)) <==> HasRoom(s.nsDict, id)
    ensures forall g :: Bound(s.names.ns, g) ==> Bound(WithGroup(s, id, name).names.ns, g)
  {
    hide ValidDict, HasRoom;
    EmptyStateIsValid();
    BindKeepsValid(s.names.ns, s.nsDict, id, name);
  }

  lemma WithAttrIsValid(s: State, g: nat, id: nat, name: Name)
    requires ValidState(s) && id < MAX_LIDS && Bound(s.names.ns, g)
    ensures ValidState(WithAttr(s, g, id, name)) <==> HasRoom(s.dicts[g], id)
  {
    hide ValidDict, HasRoom;
    BindKeepsValid(s.names.attrs[g], s.dicts[g], id, name);
    ghost var t := WithAttr(s, g, id, name);
    assert t.dicts[g] == Renewed(s.dicts[g], id) && t.names.attrs[g] == Renamed(s.names.attrs[g], id, name);
  }

  class Nb {
    const cs: CborStream
    var names: Bindings
    var groupsNs: Dict
    var groups: seq<Dict>
    var activeGroup: Option<nat>
    var curAttr: Option<nat>

    function St(): State
      reads this
    {
      State(names, groupsNs, groups, curAttr)
    }

    /** What does not depend on the buffer. In particular, the active group is that of the innermost block. */
    ghost predicate Own()
      reads this, cs
    {
      && ValidBlocks(cs.blocks)
      && ValidState(St())
      && Inherited(cs.blocks) && KnownGroups(cs.blocks, names)
      && activeGroup == Top(cs.blocks).group
    }

    ghost predicate Valid()
      reads this, cs, cs.buf, cs.buf.Repr
    {
      cs.Valid() && this !in cs.buf.Repr && Own()
    }

    ghost predicate EncReady()
      reads this, cs, cs.buf, cs.buf.Repr
    {
      Valid() && cs.EncReady()
    }

    /** `nb_init`, which leaves `cur_attr` as it is: no attribute that could be used. */
    constructor (buf: NbBuffer)
      requires buf.Valid()
      ensures Valid() && fresh(cs) && cs.buf == buf
      ensures St() == EmptyState() && activeGroup == None && |cs.blocks| == 1
    {
      cs := new CborStream(buf);
      names := EmptyState().names;
      groupsNs, groups := EmptyState().nsDict, EmptyState().dicts;
      activeGroup, curAttr := None, None;
      new;
      EmptyStateIsValid();
    }

    /** `nb_group`, for an id that no open block refers to. The party can go on after it exactly when there is room for
        the pIDs that it may need. */
    method AddGroup(id: nat, name: Name)
      requires Valid() && id < MAX_LIDS
      requires forall i :: 0 <= i < |cs.blocks| ==> cs.blocks[i].group != Some(id)
      modifies this
      ensures Valid() <==> old(HasRoom(groupsNs, id))
      ensures cs.Valid() && activeGroup == old(activeGroup)
      ensures St() == WithGroup(old(St()), id, name)
      ensures id < |names.ns| && names.ns[id] == Some(name) && names.attrs[id] == []
      ensures forall l :: 0 <= l < |old(names).ns| && l != id ==> names.ns[l] == old(names).ns[l]
    {
      hide CborStream.Valid, ValidDict, Inherited, NbBuffer.Valid;
      WithGroupIsValid(St(), id, name);
      ghost var s := WithGroup(St(), id, name);
      names := Bindings(Renamed(names.ns, id, name), Resized(names.attrs, id + 1, [])[id := []]);
      groupsNs := Renewed(groupsNs, id);
      groups := Resized(groups, id + 1, NewDict())[id := NewDict()];
      assert St() == s;
    }

    /** `nb_bind`, with the same condition on the names of group `g`. */
    method Bind(g: nat, id: nat, name: Name)
      requires Valid() && id < MAX_LIDS && Bound(names.ns, g)
      modifies this
      ensures Valid() <==> old(HasRoom(groups[g], id))
      ensures cs.Valid() && activeGroup == old(activeGroup)
      ensures St() == WithAttr(old(St()), g, id, name)
      ensures names.ns == old(names).ns && id < |names.attrs[g]| && names.attrs[g][id] == Some(name)
      ensures forall l :: 0 <= l < |old(names).attrs[g]| && l != id ==> names.attrs[g][l] == old(names).attrs[g][l]
    {
      hide CborStream.Valid, ValidDict, Inherited, NbBuffer.Valid;
      WithAttrIsValid(St(), g, id, name);
      ghost var s := WithAttr(St(), g, id, name);
      names := names.(attrs := names.attrs[g := Renamed(names.attrs[g], id, name)]);
      groups := groups[g := Renewed(groups[g], id)];
      assert St() == s;
    }

    // ---------- sending ----------

    /** `send_ikg`. */
    method SendIkg(name: Name, pid: u64)
      requires cs.EncReady()
      modifies cs, cs.buf, cs.buf.Repr
      ensures cs.EncReady() && fresh(cs.buf.Repr - old(cs.buf.Repr))
      ensures Grew(old(cs.buf.Abs), cs.buf.Abs, Insertion(name, pid))
      ensures cs.blocks == Counted(old(cs.blocks), 2)
    {
      hide NbBuffer.Valid, Counted, Pushed, Popped, Header, Narrow;
      ghost var a0 := cs.buf.Abs;
      cs.EncodeUint64(1);
      ghost var a1 := cs.buf.Abs;
      cs.StartBlock(MAJOR_MAP, true, 0);
      ghost var a2 := cs.buf.Abs;
      cs.EncodeText(name);
      ghost var a3 := cs.buf.Abs;
      cs.EncodeUint64(pid);
      ghost var a4 := cs.buf.Abs;
      CStrOfCString(name);
      InsertionStack(old(cs.blocks));
      var r := cs.EncodeMapEnd();
      InsertionBytes(a0, a1, a2, a3, a4, cs.buf.Abs, name, pid);
    }

    /** `lid_to_pid`, for a group or (without one) for the groups namespace. */
    method LidToPid(g: Option<nat>, lid: nat) returns (pid: u64)
      requires cs.EncReady() && this !in cs.buf.Repr && ValidState(St()) && HasSpace(St(), g)
      requires Bound(NamesOf(St(), g), lid)
      modifies this`groupsNs, this`groups, cs, cs.buf, cs.buf.Repr
      ensures cs.EncReady() && fresh(cs.buf.Repr - old(cs.buf.Repr)) && this !in cs.buf.Repr
      ensures var a := NetBufs.LidToPid(NamesOf(old(St()), g), DictOf(old(St()), g), lid);
              pid == a.pid && St() == WithDict(old(St()), g, a.dict) && Grew(old(cs.buf.Abs), cs.buf.Abs, a.sent)
      ensures cs.blocks == Counted(old(cs.blocks), InsertedItems(DictOf(old(St()), g), lid))
    {
      hide NbBuffer.Valid, Counted, Insertion;
      SpaceIsValid(St(), g);
      var names, d := NamesOf(St(), g), DictOf(St(), g);
      ghost var a := NetBufs.LidToPid(names, d, lid);
      pid := d.pids[lid];
      if pid == 0 {
        pid := d.maxPid + 1;
        SetDict(g, d.(pids := d.pids[lid := pid], maxPid := pid));
        SendIkg(names[lid].value, pid);
      } else {
        GrewNothing(cs.buf.Abs);
        CountedTwice(cs.blocks, 0, 0);
        UnchangedDict(St(), g);
      }
    }

    method SetDict(g: Option<nat>, d: Dict)
      requires HasSpace(St(), g)
      modifies this`groupsNs, this`groups
      ensures St() == WithDict(old(St()), g, d)
    {
      if g.Some? {
        groups := groups[g.value := d];
      } else {
        groupsNs := d;
      }
    }

    /** What `nb_send_id` demands: a negative id is ignored, any other has to be bound in the active group. */
    ghost predicate CanSendId(id: int)
      reads this
    {
      id < 0 || (activeGroup.Some? && activeGroup.value < |names.attrs| && Bound(names.attrs[activeGroup.value], id))
    }

    /** `nb_send_id`. */
    method SendId(id: int)
      requires EncReady() && CanSendId(id)
      modifies this, cs, cs.buf, cs.buf.Repr
      ensures EncReady() && fresh(cs.buf.Repr - old(cs.buf.Repr)) && names == old(names)
      ensures activeGroup == old(activeGroup)
      ensures var f := FieldId(old(St()), old(activeGroup), id);
              St() == f.state && Grew(old(cs.buf.Abs), cs.buf.Abs, f.sent)
      ensures cs.blocks == Counted(old(cs.blocks), FieldItems(old(St()), old(activeGroup), id))
    {
      hide NbBuffer.Valid, Counted, ValidDict, Header, Narrow, Inherited, KnownGroups;
      if id < 0 {
        GrewNothing(cs.buf.Abs);
        CountedTwice(cs.blocks, 0, 0);
        return;
      }
      ghost var s := St();
      SpaceIsValid(s, activeGroup);
      DictSize(NamesOf(s, activeGroup), DictOf(s, activeGroup));
      var pid := LidToPid(activeGroup, id);
      ghost var mid := cs.buf.Abs;
      ghost var n := InsertedItems(DictOf(s, activeGroup), id);
      cs.EncodeUint64(pid);
      GrewTwice(old(cs.buf.Abs), mid, cs.buf.Abs,
                NetBufs.LidToPid(NamesOf(s, activeGroup), DictOf(s, activeGroup), id).sent, Pid(pid));
      CountedTwice(old(cs.blocks), n, 1);
      CountingKeepsGroups(old(cs.blocks), n + 1, names);
    }

    /** `nb_send_group`. */
    method SendGroup(g: nat)
      requires EncReady() && Bound(names.ns, g)
      modifies this, cs, cs.buf, cs.buf.Repr
      ensures EncReady() && fresh(cs.buf.Repr - old(cs.buf.Repr)) && names == old(names)
      ensures activeGroup == Some(g)
      ensures var x := SendGroupStart(old(St()), g);
              St() == x.state && Grew(old(cs.buf.Abs), cs.buf.Abs, x.sent)
      ensures cs.blocks == Counted(InGroup(Counted(old(cs.blocks), 1), g), 2 + InsertedItems(old(groupsNs), g))
    {
      hide NbBuffer.Valid, CborStream.Valid, Counted, ValidDict, Header, Narrow, Inherited, KnownGroups, InGroup,
           Insertion, NumUnused;
      ghost var a0, s := cs.buf.Abs, St();
      DictSize(names.ns, groupsNs);
      EnterGroup(g);
      ghost var a1, inner, n := cs.buf.Abs, cs.blocks, InsertedItems(groupsNs, g);
      StreamParts(cs);
      var pid := LidToPid(None, g);
      ghost var a2 := cs.buf.Abs;
      cs.EncodeUint64(0);
      ghost var a3 := cs.buf.Abs;
      cs.EncodeUint64(pid);
      StreamParts(cs);
      ghost var sent := NetBufs.LidToPid(s.names.ns, s.nsDict, g).sent;
      GroupStartBytes(a0, a1, a2, a3, cs.buf.Abs, sent, pid);
      CountedTwice(inner, n, 1);
      CountedTwice(inner, n + 1, 1);
      CountingKeepsGroups(inner, n + 2, names);
    }

    /** The first part of `nb_send_group`: the map is open and its group is the active one. */
    method EnterGroup(g: nat)
      requires EncReady() && Bound(names.ns, g)
      modifies this`activeGroup, cs, cs.buf, cs.buf.Repr
      ensures EncReady() && fresh(cs.buf.Repr - old(cs.buf.Repr)) && St() == old(St()) && activeGroup == Some(g)
      ensures Grew(old(cs.buf.Abs), cs.buf.Abs, Open(MAJOR_MAP, true, 0))
      ensures cs.blocks == InGroup(Counted(old(cs.blocks), 1), g)
    {
      hide NbBuffer.Valid, Counted, Pushed, ValidState, Inherited, KnownGroups, InGroup;
      ghost var outer := Counted(cs.blocks, 1);
      CountingKeepsGroups(cs.blocks, 1, names);
      cs.StartBlock(MAJOR_MAP, true, 0);
      activeGroup := Some(g);
      EnteringGroup(outer, g);
      EnteringKeepsGroups(outer, g, names);
      cs.blocks := cs.blocks[|cs.blocks| - 1 := Top(cs.blocks).(group := Some(g))];
    }

    /** `nb_send_group_end`. */
    method SendGroupEnd() returns (r: Result<()>)
      requires EncReady()
      modifies this, cs, cs.buf, cs.buf.Repr
      ensures cs.Valid() && fresh(cs.buf.Repr - old(cs.buf.Repr)) && St() == old(St())
      ensures var top := Top(old(cs.blocks));
              r == if top.count % 2 != 0 then Err(ErrNitems) else if top.typ != MAJOR_MAP then Err(ErrOper) else Ok(())
      ensures r.Ok? ==> EncReady() && |old(cs.blocks)| > 1 && cs.blocks == Popped(old(cs.blocks))
      ensures r.Ok? ==> Grew(old(cs.buf.Abs), cs.buf.Abs, Close(Top(old(cs.blocks)).indef))
    {
      hide NbBuffer.Valid, ValidState;
      r := cs.EncodeMapEnd();
      if r.Ok? {
        activeGroup := Top(cs.blocks).group;
      }
    }

    /** `nb_send_bool`, `nb_send_i8` to `nb_send_i64`, `nb_send_u8` to `nb_send_u64` and `nb_send_string`. */
    method SendField(id: int, v: Value)
      requires EncReady() && CanSendId(id)
      requires Sendable(names, v) && !v.VArr? && !v.VGroup?
      modifies this, cs, cs.buf, cs.buf.Repr
      ensures EncReady() && fresh(cs.buf.Repr - old(cs.buf.Repr)) && names == old(names)
      ensures activeGroup == old(activeGroup)
      ensures var f := FieldId(old(St()), old(activeGroup), id);
              St() == f.state && Grew(old(cs.buf.Abs), cs.buf.Abs, f.sent + SendScalar(v))
      ensures cs.blocks == Counted(old(cs.blocks), FieldItems(old(St()), old(activeGroup), id) + 1)
    {
      hide NbBuffer.Valid, Counted, ValidState, Header, Narrow, Inherited, KnownGroups, FieldId, FieldItems;
      ghost var n := FieldItems(St(), activeGroup, id);
      ghost var f := FieldId(St(), activeGroup, id);
      SendId(id);
      ghost var mid := cs.buf.Abs;
      ghost var before := cs.blocks;
      match v {
        case VInt(_, i) => cs.EncodeInt(i);
        case VUint(w, u) =>
          if w == W64 {
            cs.EncodeUint64(u);
          } else if w == W32 {
            cs.EncodeUint32(u);
          } else {
            cs.EncodeUint(u);
          }
        case VBool(b) =>
          var _ := cs.EncodeSval(if b then SVAL_TRUE else SVAL_FALSE);
        case VStr(str) =>
          CStrOfCString(str);
          cs.EncodeText(str);
      }
      GrewTwice(old(cs.buf.Abs), mid, cs.buf.Abs, f.sent, SendScalar(v));
      CountedTwice(old(cs.blocks), n, 1);
      CountingKeepsGroups(before, 1, names);
    }

    /** `nb_send_array`. */
    method SendArray(id: int, size: u64)
      requires EncReady() && CanSendId(id)
      modifies this, cs, cs.buf, cs.buf.Repr
      ensures EncReady() && fresh(cs.buf.Repr - old(cs.buf.Repr)) && names == old(names)
      ensures activeGroup == old(activeGroup)
      ensures var f := FieldId(old(St()), old(activeGroup), id);
              St() == f.state && Grew(old(cs.buf.Abs), cs.buf.Abs, f.sent + Header(MAJOR_ARRAY, size))
      ensures cs.blocks ==
              Pushed(Counted(old(cs.blocks), FieldItems(old(St()), old(activeGroup), id) + 1), MAJOR_ARRAY, false, size)
    {
      hide NbBuffer.Valid, Counted, Pushed, ValidState, Header, Inherited, KnownGroups, FieldId, FieldItems;
      ghost var n := FieldItems(St(), activeGroup, id);
      ghost var f := FieldId(St(), activeGroup, id);
      SendId(id);
      ghost var mid := cs.buf.Abs;
      ghost var before := cs.blocks;
      cs.StartBlock(MAJOR_ARRAY, false, size);
      GrewTwice(old(cs.buf.Abs), mid, cs.buf.Abs, f.sent, Header(MAJOR_ARRAY, size));
      CountedTwice(old(cs.blocks), n, 1);
      CountingKeepsGroups(before, 1, names);
      OpeningArrayKeepsGroups(Counted(before, 1), false, size, names);
    }

    /** `nb_send_array_end`. */
    method SendArrayEnd() returns (r: Result<()>)
      requires EncReady()
      modifies this, cs, cs.buf, cs.buf.Repr
      ensures cs.Valid() && fresh(cs.buf.Repr - old(cs.buf.Repr)) && St() == old(St())
      ensures r == if Top(old(cs.blocks)).typ == MAJOR_ARRAY then Ok(()) else Err(ErrOper)
      ensures r.Ok? ==> EncReady() && |old(cs.blocks)| > 1 && cs.blocks == Popped(old(cs.blocks))
      ensures r.Ok? ==> activeGroup == old(activeGroup)
      ensures r.Ok? ==> Grew(old(cs.buf.Abs), cs.buf.Abs, Close(Top(old(cs.blocks)).indef))
    {
      hide NbBuffer.Valid, ValidState;
      r := cs.EndBlock(MAJOR_ARRAY);
    }

    // ---------- receiving ----------

    ghost predicate DecReady()
      reads this, cs, cs.buf, cs.buf.Repr
    {
      Valid() && cs.DecReady()
    }

    /** The search of `recv_keys` through the bound names. */
    method FindName(names: seq<Option<Name>>, name: Name) returns (lid: Option<nat>)
      ensures lid == LidOf(names, name)
    {
      var i := 0;
      while i < |names|
        invariant 0 <= i <= |names| && Some(name) !in names[..i]
      {
        if names[i] == Some(name) {
          FirstLid(names, name, i);
          return Some(i);
        }
        i := i + 1;
      }
      lid := None;
    }

    /** `recv_keys`. */
    method RecvKeys(g: Option<nat>) returns (r: Result<()>)
      requires cs.DecReady() && this !in cs.buf.Repr && HasSpace(St(), g)
      modifies this`groupsNs, this`groups, cs, cs.buf, cs.buf.Repr
      ensures cs.DecReady() && cs.buf.Repr == old(cs.buf.Repr) && cs.buf.Abs.written == old(cs.buf.Abs.written)
      ensures var k := NetBufs.RecvKeys(NamesOf(old(St()), g), DictOf(old(St()), g), old(cs.buf.Abs.rem));
              if k.Err? then r == Err(k.error)
              else r == Ok(()) && St() == WithDict(old(St()), g, k.value.dict) && cs.buf.Abs.rem == k.value.rest &&
                   cs.blocks == Counted(old(cs.blocks), 1)
    {
      hide NbBuffer.Valid, Counted, Pushed, Popped, ReadUint, ReadString, ReadOpen, Cbor.EndBlock, CStr;
      var names, d := NamesOf(St(), g), DictOf(St(), g);
      ghost var outer := Counted(cs.blocks, 1);
      ghost var o := ReadOpen(MAJOR_MAP, true, cs.buf.Abs.rem);
      var _ :- cs.DecodeBlockStart(MAJOR_MAP, true);
      ghost var inner := cs.blocks;
      ghost var t := ReadString(MAJOR_TEXT, cs.buf.Abs.rem);
      var text :- cs.DecodeString(MAJOR_TEXT);
      var pid :- cs.DecodeUint64();
      CountedTwice(inner, t.value.count, 1);
      TopOfBody(outer, MAJOR_MAP, true, BlockLen(o.value.head), t.value.count + 1);
      EndOfIndefinite(Top(cs.blocks).len, Top(cs.blocks).count, cs.buf.Abs.rem);
      var _ :- cs.DecodeBlockEnd(MAJOR_MAP);
      if |CStr(text)| >= TWO_64 {
        return Err(ErrUndefined);
      }
      if pid == TWO_64 - 1 {
        return Err(ErrUndefined);
      }
      var lid := FindName(names, CStr(text));
      if lid.None? {
        return Err(ErrAssert);
      }
      var a := EnsuredIndex(d.pidToLid, pid, 0);
      SetDict(g, d.(pidToLid := Arr(a.num, a.slots[pid := lid.value])));
      r := Ok(());
    }

    /** `recv_id`. */
    method RecvId(g: Option<nat>) returns (r: Result<int>)
      requires cs.DecReady() && this !in cs.buf.Repr && HasSpace(St(), g)
      modifies this`groupsNs, this`groups, cs, cs.buf, cs.buf.Repr
      ensures cs.DecReady() && cs.buf.Repr == old(cs.buf.Repr) && cs.buf.Abs.written == old(cs.buf.Abs.written)
      ensures var q := NetBufs.RecvId(NamesOf(old(St()), g), DictOf(old(St()), g), old(cs.buf.Abs.rem));
              if q.Err? then r == Err(q.error)
              else r == Ok(q.value.lid) && St() == WithDict(old(St()), g, q.value.dict) &&
                   cs.buf.Abs.rem == q.value.rest && SameButCount(old(cs.blocks), cs.blocks)
      ensures r.Ok? ==> HasSpace(St(), g)
    {
      hide NbBuffer.Valid, Counted, ReadUint, NetBufs.RecvKeys;
      UnchangedDict(St(), g);
      while true
        invariant cs.DecReady() && cs.buf.Repr == old(cs.buf.Repr) && cs.buf.Abs.written == old(cs.buf.Abs.written)
        invariant HasSpace(St(), g) && St() == WithDict(old(St()), g, DictOf(St(), g))
        invariant SameButCount(old(cs.blocks), cs.blocks)
        invariant NetBufs.RecvId(NamesOf(old(St()), g), DictOf(old(St()), g), old(cs.buf.Abs.rem)) ==
                  NetBufs.RecvId(NamesOf(St(), g), DictOf(St(), g), cs.buf.Abs.rem)
        decreases |cs.buf.Abs.rem|
      {
        ghost var before := cs.blocks;
        var pid :- cs.DecodeUint64();
        CountedIsSame(before, 1);
        var d := DictOf(St(), g);
        if pid != 1 {
          var lid :- Lookup(d, pid);
          return Ok(lid);
        }
        before := cs.blocks;
        var _ :- RecvKeys(g);
        CountedIsSame(before, 1);
      }
    }

    /** `nb_recv_attr`: no id at the end of the group. */
    method RecvAttr() returns (r: Result<Option<nat>>)
      requires DecReady()
      modifies this, cs, cs.buf, cs.buf.Repr
      ensures cs.DecReady() && cs.buf.Repr == old(cs.buf.Repr) && cs.buf.Abs.written == old(cs.buf.Abs.written)
      ensures names == old(names) && (r.Ok? ==> DecReady())
      ensures activeGroup == old(activeGroup)
      ensures var b := old(cs.buf.Abs.rem);
              if AtBreak(b) then r == Ok(None) && cs.buf.Abs.rem == b && cs.blocks == old(cs.blocks) &&
                                  St() == old(St())
              else if activeGroup.None? then r == Err(ErrOper)
              else
                var a := RecvAttrId(old(St()), activeGroup.value, b);
                if a.Err? then r == Err(a.error)
                else r == Ok(Some(a.value.id)) && St() == a.value.state && cs.buf.Abs.rem == a.value.rest &&
                     SameButCount(old(cs.blocks), cs.blocks)
    {
      hide NbBuffer.Valid, ValidDict, Inherited, NetBufs.RecvId;
      var done := cs.IsBreak();
      if done {
        return Ok(None);
      }
      if activeGroup.None? {
        return Err(ErrOper);
      }
      ghost var s, blocks := St(), cs.blocks;
      var g := activeGroup.value;
      var id := RecvId(activeGroup);
      LearningKeepsValid(s, activeGroup, old(cs.buf.Abs.rem));
      if id.Err? {
        return Err(id.error);
      }
      SameKeepsGroups(blocks, cs.blocks, names);
      if !Bound(names.attrs[g], id.value) {
        return Err(ErrAssert);
      }
      curAttr := Some(id.value);
      r := Ok(Some(id.value));
    }

    /** `nb_recv_group`. */
    method RecvGroup(g: nat) returns (r: Result<()>)
      requires DecReady()
      modifies this, cs, cs.buf, cs.buf.Repr
      ensures cs.DecReady() && cs.buf.Repr == old(cs.buf.Repr) && cs.buf.Abs.written == old(cs.buf.Abs.written)
      ensures names == old(names) && (r.Ok? ==> DecReady())
      ensures var q := RecvGroupStart(old(St()), g, old(cs.buf.Abs.rem));
              if q.Err? then r == Err(q.error)
              else r == Ok(()) && St() == q.value.state && cs.buf.Abs.rem == q.value.rest && activeGroup == Some(g) &&
                   SameButCount(InGroup(Counted(old(cs.blocks), 1), g), cs.blocks)
    {
      hide NbBuffer.Valid, ValidDict, Inherited, KnownGroups, Counted, Pushed, InGroup, NetBufs.RecvId, ReadOpen;
      ghost var s0, outer := St(), Counted(cs.blocks, 1);
      CountingKeepsGroups(cs.blocks, 1, names);
      OpenedIndefinite(MAJOR_MAP, cs.buf.Abs.rem);
      var _ :- cs.DecodeBlockStart(MAJOR_MAP, true);
      assert cs.blocks == Pushed(outer, MAJOR_MAP, true, 0);
      ghost var b1 := cs.buf.Abs.rem;
      LearningKeepsValid(s0, None, b1);
      var zero :- RecvId(None);
      if zero != 0 {
        return Err(ErrOther);
      }
      ghost var s1, b2 := St(), cs.buf.Abs.rem;
      LearningKeepsValid(s1, None, b2);
      var id :- RecvId(None);
      if id != g {
        return Err(ErrOther);
      }
      if !Bound(names.ns, g) {
        return Err(ErrAssert);
      }
      EnteringKeepsGroups(outer, g, names);
      EnteringSame(outer, cs.blocks, g);
      activeGroup := Some(g);
      cs.blocks := cs.blocks[|cs.blocks| - 1 := Top(cs.blocks).(group := Some(g))];
      SameKeepsGroups(InGroup(outer, g), cs.blocks, names);
      r := Ok(());
    }

    /** `nb_recv_group_end`. */
    method RecvGroupEnd() returns (r: Result<()>)
      requires DecReady()
      modifies this, cs, cs.buf, cs.buf.Repr
      ensures cs.DecReady() && cs.buf.Repr == old(cs.buf.Repr) && cs.buf.Abs.written == old(cs.buf.Abs.written)
      ensures names == old(names) && (r.Ok? ==> DecReady())
      ensures St() == old(St())
      ensures var top := Top(old(cs.blocks));
              var e := Cbor.EndBlock(top.indef, top.len, top.count, old(cs.buf.Abs.rem));
              if top.group.None? then r == Err(ErrAssert)
              else if top.typ != MAJOR_MAP then r == Err(ErrOper)
              else if e.Err? then r == Err(e.error)
              else r == Ok(()) && cs.buf.Abs.rem == e.value && |old(cs.blocks)| > 1 &&
                   cs.blocks == Popped(old(cs.blocks)) &&
                   activeGroup == Top(cs.blocks).group
    {
      hide NbBuffer.Valid, ValidState, Cbor.EndBlock;
      if Top(cs.blocks).group.None? {
        return Err(ErrAssert);
      }
      var _ :- cs.DecodeBlockEnd(MAJOR_MAP);
      activeGroup := Top(cs.blocks).group;
      r := Ok(());
    }

    /** `nb_recv_bool`, `nb_recv_i8` to `nb_recv_i64`, `nb_recv_u8` to `nb_recv_u64` and `nb_recv_string`. */
    method RecvField(ty: Type) returns (r: Result<Value>)
      requires DecReady() && !ty.TArr? && !ty.TGroup?
      modifies this, cs, cs.buf, cs.buf.Repr
      ensures cs.DecReady() && cs.buf.Repr == old(cs.buf.Repr) && cs.buf.Abs.written == old(cs.buf.Abs.written)
      ensures names == old(names) && (r.Ok? ==> DecReady())
      ensures St() == old(St()) && activeGroup == old(activeGroup)
      ensures var q := RecvScalar(ty, old(cs.buf.Abs.rem));
              if q.Err? then r == Err(q.error)
              else r == Ok(q.value.0) && cs.buf.Abs.rem == q.value.2 && cs.blocks == Counted(old(cs.blocks), q.value.1)
    {
      hide NbBuffer.Valid, ValidState, Inherited, KnownGroups, Counted, ReadUint, ReadInt, ReadBool, ReadString, CStr;
      ghost var blocks, q := cs.blocks, RecvScalar(ty, cs.buf.Abs.rem);
      if q.Ok? {
        CountingKeepsGroups(blocks, q.value.1, names);
      }
      match ty {
        case TInt(w) =>
          var i :- cs.DecodeInt(-Half(w), Half(w) - 1);
          r := Ok(VInt(w, i));
        case TUint(w) =>
          var n: u64;
          if w == W64 {
            n :- cs.DecodeUint64();
          } else {
            n :- cs.DecodeUint(2 * Half(w) - 1);
          }
          r := Ok(VUint(w, n));
        case TBool =>
          var b :- cs.DecodeBool();
          r := Ok(VBool(b));
        case TStr =>
          var str :- cs.DecodeString(MAJOR_TEXT);
          if |CStr(str)| >= TWO_64 {
            return Err(ErrUndefined);
          }
          r := Ok(VStr(CStr(str)));
      }
    }

    /** `nb_internal_recv_array_size`, the call behind `nb_recv_array`. */
    method RecvArray() returns (r: Result<u64>)
      requires DecReady()
      modifies this, cs, cs.buf, cs.buf.Repr
      ensures cs.DecReady() && cs.buf.Repr == old(cs.buf.Repr) && cs.buf.Abs.written == old(cs.buf.Abs.written)
      ensures names == old(names) && (r.Ok? ==> DecReady())
      ensures St() == old(St()) && activeGroup == old(activeGroup)
      ensures var p := ReadOpen(MAJOR_ARRAY, false, old(cs.buf.Abs.rem));
              if p.Err? then r == Err(p.error)
              else r == Ok(p.value.head.arg) && cs.buf.Abs.rem == p.value.rest &&
                   cs.blocks == InArray(Counted(old(cs.blocks), 1), p.value.head.arg, curAttr)
    {
      hide NbBuffer.Valid, ValidState, Inherited, KnownGroups, Counted, Pushed, InArray;
      ghost var outer := Counted(cs.blocks, 1);
      CountingKeepsGroups(cs.blocks, 1, names);
      var n :- cs.DecodeBlockStart(MAJOR_ARRAY, false);
      ReceivingArrayKeepsGroups(outer, n, curAttr, names);
      cs.blocks := cs.blocks[|cs.blocks| - 1 := Top(cs.blocks).(attr := curAttr)];
      r := Ok(n);
    }

    /** `nb_recv_array_end`. */
    method RecvArrayEnd() returns (r: Result<()>)
      requires DecReady()
      modifies this, cs, cs.buf, cs.buf.Repr
      ensures cs.DecReady() && cs.buf.Repr == old(cs.buf.Repr) && cs.buf.Abs.written == old(cs.buf.Abs.written)
      ensures names == old(names) && (r.Ok? ==> DecReady())
      ensures St() == old(St()) && activeGroup == old(activeGroup)
      ensures var top := Top(old(cs.blocks));
              var e := Cbor.EndBlock(top.indef, top.len, top.count, old(cs.buf.Abs.rem));
              if top.typ == NO_BLOCK then r == Err(ErrOper)
              else if top.attr.None? then r == Err(ErrUndefined)
              else if top.typ != MAJOR_ARRAY then r == Err(ErrOper)
              else if e.Err? then r == Err(e.error)
              else r == Ok(()) && cs.buf.Abs.rem == e.value && |old(cs.blocks)| > 1 &&
                   cs.blocks == Popped(old(cs.blocks))
    {
      hide NbBuffer.Valid, ValidState, Cbor.EndBlock;
      if Top(cs.blocks).typ == NO_BLOCK {
        return Err(ErrOper);
      }
      var _ :- ArrayAttr(Top(cs.blocks).attr);
      var _ :- cs.DecodeBlockEnd(MAJOR_ARRAY);
      r := Ok(());
    }
  }

  lemma StreamParts(cs: CborStream)
    requires cs.Valid()
    ensures cs.buf.Valid() && cs !in cs.buf.Repr && ValidBlocks(cs.blocks)
  {}

  lemma InsertionBytes(a0: Contents, a1: Contents, a2: Contents, a3: Contents, a4: Contents, a5: Contents,
                       name: Name, pid: u64)
    requires Grew(a0, a1, Pid(1)) && Grew(a1, a2, Open(MAJOR_MAP, true, 0)) && Grew(a2, a3, TextBytes(name))
    requires Grew(a3, a4, Pid(pid)) && Grew(a4, a5, Close(true))
    ensures Grew(a0, a5, Insertion(name, pid))
  {
    hide Grew, Pid, TextBytes;
    assert Open(MAJOR_MAP, true, 0) == [0xBF];
    GrewTwice(a0, a1, a2, Pid(1), [0xBF]);
    GrewTwice(a0, a2, a3, Pid(1) + [0xBF], TextBytes(name));
    GrewTwice(a0, a3, a4, Pid(1) + [0xBF] + TextBytes(name), Pid(pid));
    GrewTwice(a0, a4, a5, Pid(1) + [0xBF] + TextBytes(name) + Pid(pid), [BREAK]);
  }

  lemma InsertionStack(blocks: seq<Block>)
    requires blocks != []
    ensures var outer := Counted(Counted(blocks, 1), 1);
            var inner := Counted(Counted(Pushed(outer, MAJOR_MAP, true, 0), 1), 1);
            outer == Counted(blocks, 2) &&
            Top(inner) == Block(MAJOR_MAP, true, 0, 2, Top(blocks).group, None) && |inner| > 1 && Popped(inner) == outer
  {
    CountedTwice(blocks, 1, 1);
    var outer := Counted(blocks, 2);
    CountedTwice(Pushed(outer, MAJOR_MAP, true, 0), 1, 1);
    TopOfBody(outer, MAJOR_MAP, true, 0, 2);
  }

  ghost predicate HasSpace(s: State, g: Option<nat>) {
    g.Some? ==> g.value < |s.names.attrs| && g.value < |s.dicts|
  }

  function NamesOf(s: State, g: Option<nat>): seq<Option<Name>>
    requires HasSpace(s, g)
  {
    if g.Some? then s.names.attrs[g.value] else s.names.ns
  }

  function DictOf(s: State, g: Option<nat>): Dict
    requires HasSpace(s, g)
  {
    if g.Some? then s.dicts[g.value] else s.nsDict
  }

  function WithDict(s: State, g: Option<nat>, d: Dict): State
    requires HasSpace(s, g)
  {
    if g.Some? then s.(dicts := s.dicts[g.value := d]) else s.(nsDict := d)
  }

  lemma SpaceIsValid(s: State, g: Option<nat>)
    requires ValidState(s) && HasSpace(s, g)
    ensures ValidDict(NamesOf(s, g), DictOf(s, g))
  {}

  lemma UnchangedDict(s: State, g: Option<nat>)
    requires HasSpace(s, g)
    ensures WithDict(s, g, DictOf(s, g)) == s
  {}

  lemma GrewNothing(a: Contents)
    ensures Grew(a, a, [])
  {}

  /** What an id in front of a value sends; a negative one sends nothing. */
  function FieldId(s: State, active: Option<nat>, id: int): (r: Sent)
    requires ValidState(s)
    requires id >= 0 ==> active.Some? && active.value < |s.names.attrs| && Bound(s.names.attrs[active.value], id)
    ensures ValidState(r.state) && r.state.names == s.names
  {
    if id < 0 then Sent(s, []) else NetBufs.SendId(s, active.value, id)
  }

  function FieldItems(s: State, active: Option<nat>, id: int): (n: nat)
    requires ValidState(s)
    requires id >= 0 ==> active.Some? && active.value < |s.names.attrs| && Bound(s.names.attrs[active.value], id)
    ensures n % 2 == if id < 0 then 0 else 1
  {
    if id < 0 then 0 else 1 + InsertedItems(s.dicts[active.value], id)
  }

  lemma CountingKeepsGroups(blocks: seq<Block>, n: nat, names: Bindings)
    requires blocks != [] && Inherited(blocks) && KnownGroups(blocks, names)
    ensures Inherited(Counted(blocks, n)) && KnownGroups(Counted(blocks, n), names)
    ensures Top(Counted(blocks, n)).group == Top(blocks).group
  {}

  lemma OpeningArrayKeepsGroups(blocks: seq<Block>, indef: bool, len: u64, names: Bindings)
    requires blocks != [] && Inherited(blocks) && KnownGroups(blocks, names)
    ensures var r := Pushed(blocks, MAJOR_ARRAY, indef, len);
            Inherited(r) && KnownGroups(r, names) && Top(r).group == Top(blocks).group
  {}

  lemma ReceivingArrayKeepsGroups(outer: seq<Block>, len: u64, attr: Option<nat>, names: Bindings)
    requires outer != [] && Inherited(outer) && KnownGroups(outer, names)
    ensures var r := InArray(outer, len, attr);
            Inherited(r) && KnownGroups(r, names) && Top(r).group == Top(outer).group
    ensures var b := Pushed(outer, MAJOR_ARRAY, false, len);
            b[|b| - 1 := Top(b).(attr := attr)] == InArray(outer, len, attr)
    ensures ValidBlocks(outer) ==> ValidBlocks(InArray(outer, len, attr))
  {}

  lemma EnteringGroup(outer: seq<Block>, g: nat)
    requires outer != []
    ensures var r := Pushed(outer, MAJOR_MAP, true, 0);
            r[|r| - 1 := Top(r).(group := Some(g))] == InGroup(outer, g)
    ensures ValidBlocks(outer) ==> ValidBlocks(InGroup(outer, g))
  {}

  lemma EnteringKeepsGroups(outer: seq<Block>, g: nat, names: Bindings)
    requires outer != [] && Inherited(outer) && KnownGroups(outer, names) && Bound(names.ns, g)
    ensures Inherited(InGroup(outer, g)) && KnownGroups(InGroup(outer, g), names)
  {}

  lemma GroupStartBytes(a0: Contents, a1: Contents, a2: Contents, a3: Contents, a4: Contents, sent: seq<byte>, pid: u64)
    requires Grew(a0, a1, Open(MAJOR_MAP, true, 0)) && Grew(a1, a2, sent) && Grew(a2, a3, Pid(0)) &&
      Grew(a3, a4, Pid(pid))
    ensures Grew(a0, a4, [0xBF] + sent + Pid(0) + Pid(pid))
  {
    hide Grew, Pid;
    assert Open(MAJOR_MAP, true, 0) == [0xBF];
    GrewTwice(a0, a1, a2, [0xBF], sent);
    GrewTwice(a0, a2, a3, [0xBF] + sent, Pid(0));
    GrewTwice(a0, a3, a4, [0xBF] + sent + Pid(0), Pid(pid));
  }

  lemma FirstLid(names: seq<Option<Name>>, name: Name, i: nat)
    requires i < |names| && names[i] == Some(name) && Some(name) !in names[..i]
    ensures LidOf(names, name) == Some(i)
  {
    var r := LidOf(names, name);
    NotBefore(names, name, i);
    NotBefore(names, name, r.value);
  }

  lemma NotBefore(names: seq<Option<Name>>, name: Name, i: nat)
    requires i <= |names| && Some(name) !in names[..i]
    ensures forall j :: 0 <= j < i ==> names[j] != Some(name)
  {
    forall j | 0 <= j < i
      ensures names[j] != Some(name)
    {
      assert names[..i][j] == names[j];
    }
  }

  lemma EndOfIndefinite(len: nat, count: nat, b: seq<byte>)
    ensures Cbor.EndBlock(true, len, count, b) == Cbor.EndBlock(true, 0, 0, b)
  {}

  /** The same stack up to the item count of the innermost block. */
  ghost predicate SameButCount(a: seq<Block>, b: seq<Block>) {
    |a| == |b| > 0 && a[..|a| - 1] == b[..|b| - 1] && Top(b) == Top(a).(count := Top(b).count)
  }

  lemma CountedIsSame(blocks: seq<Block>, n: nat)
    requires blocks != []
    ensures SameButCount(blocks, Counted(blocks, n))
  {}

  lemma SameKeepsGroups(a: seq<Block>, b: seq<Block>, names: Bindings)
    requires SameButCount(a, b)
    ensures Inherited(a) ==> Inherited(b)
    ensures KnownGroups(a, names) ==> KnownGroups(b, names)
    ensures Top(a).group == Top(b).group
  {
    forall i | 0 <= i < |a|
      ensures b[i].typ == a[i].typ && b[i].group == a[i].group
    {
      if i < |a| - 1 {
        assert a[..|a| - 1][i] == b[..|b| - 1][i];
      }
    }
  }

  /** Learning keys changes nothing about the pIDs a party has given out itself. */
  lemma LearnedPids(names: seq<Option<Name>>, d: Dict, b: seq<byte>)
    ensures var q := NetBufs.RecvId(names, d, b); q.Ok? ==> q.value.dict == d.(pidToLid := q.value.dict.pidToLid)
    decreases |b|
  {
    hide ReadUint, ReadString, ReadOpen, Cbor.EndBlock, CStr;
    var n := ReadUint(b, TWO_64 - 1);
    if n.Ok? && n.value.n == 1 {
      var k := NetBufs.RecvKeys(names, d, n.value.rest);
      if k.Ok? {
        LearnedPids(names, k.value.dict, k.value.rest);
      }
    }
  }

  lemma LearningKeepsValid(s: State, g: Option<nat>, b: seq<byte>)
    requires ValidState(s) && HasSpace(s, g)
    ensures var q := NetBufs.RecvId(NamesOf(s, g), DictOf(s, g), b); q.Ok? ==> ValidState(WithDict(s, g, q.value.dict))
  {
    hide NetBufs.RecvId;
    LearnedPids(NamesOf(s, g), DictOf(s, g), b);
  }

  lemma OpenedIndefinite(major: int, b: seq<byte>)
    ensures var p := ReadOpen(major, true, b); p.Ok? ==> BlockLen(p.value.head) == 0
  {
    hide ReadArg, Major, LowBits;
  }

  /** Setting the group of the innermost block, whatever it counted so far. */
  lemma EnteringSame(outer: seq<Block>, b: seq<Block>, g: nat)
    requires outer != [] && SameButCount(Pushed(outer, MAJOR_MAP, true, 0), b)
    ensures var r := b[|b| - 1 := Top(b).(group := Some(g))];
            SameButCount(InGroup(outer, g), r) && (ValidBlocks(b) ==> ValidBlocks(r))
  {}
}
