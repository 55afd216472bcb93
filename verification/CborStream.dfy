/** `struct cbor_stream`: its block stack, the encoder and the decoder. */
module CborStreams {
  import opened Prelude
  import opened Wire
  import opened Cbor
  import opened Buffer

  const NO_BLOCK := -1
  const ARRAY_INIT_SIZE := 8

  /** `struct block`. The group is the index of the active NetBufs group, the attribute the local id of the one that
      an array was received for; `push_block` does not set it. */
  datatype Block = Block(typ: int, indef: bool, len: u64, count: nat, group: Option<nat>, attr: Option<nat>)

  ghost predicate ValidBlocks(blocks: seq<Block>) {
    && blocks != []
    && blocks[0].typ == NO_BLOCK
    && forall i :: 0 < i < |blocks| ==> MAJOR_BYTES <= blocks[i].typ <= MAJOR_MAP
  }

  function Top(blocks: seq<Block>): Block
    requires blocks != []
  {
    blocks[|blocks| - 1]
  }

  /** `k` more items in the innermost block. */
  function Counted(blocks: seq<Block>, k: nat): (r: seq<Block>)
    requires blocks != []
    ensures |r| == |blocks| && Top(r) == Top(blocks).(count := Top(blocks).count + k)
    ensures r[..|r| - 1] == blocks[..|blocks| - 1]
    ensures ValidBlocks(blocks) ==> ValidBlocks(r)
  {
    blocks[|blocks| - 1 := Top(blocks).(count := Top(blocks).count + k)]
  }

  /** `push_block`: a new block inherits the active group. */
  function Pushed(blocks: seq<Block>, typ: int, indef: bool, len: u64): (r: seq<Block>)
    requires blocks != []
    ensures |r| == |blocks| + 1 && r[..|blocks|] == blocks
    ensures ValidBlocks(blocks) && MAJOR_BYTES <= typ <= MAJOR_MAP ==> ValidBlocks(r)
  {
    blocks + [Block(typ, indef, len, 0, Top(blocks).group, None)]
  }

  function Popped(blocks: seq<Block>): (r: seq<Block>)
    requires |blocks| > 1
    ensures ValidBlocks(blocks) ==> ValidBlocks(r)
  {
    blocks[..|blocks| - 1]
  }

  lemma CountedTwice(blocks: seq<Block>, j: nat, k: nat)
    requires blocks != []
    ensures Counted(Counted(blocks, j), k) == Counted(blocks, j + k)
    ensures Counted(blocks, 0) == blocks
  {}

  function Prepended(w: seq<byte>, r: Result<seq<byte>>): Result<seq<byte>> {
    if r.Err? then r else Ok(w + r.value)
  }

  /** One turn of `encode_array_items`, seen from the items still to come. */
  lemma EncodeAllStep(ts: seq<Item>, i: nat, w: seq<byte>)
    requires i < |ts| && AllRepresentable(ts[i..])
    ensures Representable(ts[i]) && AllRepresentable(ts[i + 1..])
    ensures CountAll(ts[i..]) == Count(ts[i]) + CountAll(ts[i + 1..])
    ensures Prepended(w, EncodeAll(ts[i..])) ==
            if Encode(ts[i]).Err? then Err(Encode(ts[i]).error)
            else Prepended(w + Encode(ts[i]).value, EncodeAll(ts[i + 1..]))
  {
    hide Encode, Representable;
    assert ts[i..][1..] == ts[i + 1..];
    if Encode(ts[i]).Ok? && EncodeAll(ts[i + 1..]).Ok? {
      var a, b := Encode(ts[i]).value, EncodeAll(ts[i + 1..]).value;
      assert w + (a + b) == w + a + b;
    }
  }

  lemma EncodeAllStart(ts: seq<Item>)
    requires AllRepresentable(ts)
    ensures EncodeAll(ts) == Prepended([], EncodeAll(ts))
  {
    if EncodeAll(ts).Ok? {
      assert [] + EncodeAll(ts).value == EncodeAll(ts).value;
    }
  }

  lemma EncodeAllEnd(ts: seq<Item>, w: seq<byte>)
    ensures AllRepresentable(ts[|ts|..]) && Prepended(w, EncodeAll(ts[|ts|..])) == Ok(w) && CountAll(ts[|ts|..]) == 0
  {
    assert w + [] == w;
  }

  /** What the end of a block finds on the stack after `k` items. */
  lemma TopOfBody(outer: seq<Block>, typ: int, indef: bool, len: u64, k: nat)
    requires outer != []
    ensures var b := Counted(Pushed(outer, typ, indef, len), k);
            Top(b) == Block(typ, indef, len, k, Top(outer).group, None) && |b| > 1 && Popped(b) == outer
  {}

  lemma OpenIgnoresLen(major: int, n: u64, len: u64)
    requires MAJOR_ARRAY <= major <= MAJOR_MAP
    ensures Open(major, true, n) == Open(major, true, len)
  {}

  lemma ShortArg(lbits: int, b: seq<byte>)
    requires 0 <= lbits <= 23
    ensures ReadArg(lbits, b) == Ok(Arg(lbits, b))
  {}

  lemma PredecodedNegative(b: seq<byte>)
    ensures var p := Predecode(b);
            p.Ok? && p.value.head.Head? && p.value.head.major == MAJOR_NEGINT ==> p.value.head.arg < TWO_63
  {
    hide ReadArg, Major, LowBits;
  }

  function AfterChunks(bytes: seq<byte>, n: nat, r: Result<StringRead>): Result<StringRead> {
    if r.Err? then r else Ok(StringRead(bytes + r.value.bytes, n + r.value.count, r.value.rest))
  }

  lemma ReadChunksStart(major: int, b: seq<byte>)
    ensures ReadChunks(major, b) == AfterChunks([], 0, ReadChunks(major, b))
  {
    if ReadChunks(major, b).Ok? {
      assert [] + ReadChunks(major, b).value.bytes == ReadChunks(major, b).value.bytes;
    }
  }

  /** One turn of the chunk loop. */
  lemma ReadChunksStep(major: int, b: seq<byte>, bytes: seq<byte>, n: nat)
    ensures var p := PredecodeCheck(major, b);
            AfterChunks(bytes, n, ReadChunks(major, b)) ==
            if AtBreak(b) then Ok(StringRead(bytes, n, b))
            else if p.Err? then Err(p.error)
            else if p.value.head.indef then Err(ErrIndef)
            else if |p.value.rest| < p.value.head.arg then Err(ErrEof)
            else AfterChunks(bytes + p.value.rest[..p.value.head.arg], n + 1,
                             ReadChunks(major, p.value.rest[p.value.head.arg..]))
  {
    hide PredecodeCheck;
    var p := PredecodeCheck(major, b);
    if AtBreak(b) {
      assert bytes + [] == bytes;
    } else if p.Ok? && !p.value.head.indef && |p.value.rest| >= p.value.head.arg {
      var chunk := p.value.rest[..p.value.head.arg];
      ReadChunksMore(major, b, p.value, chunk);
      AfterOneMore(bytes, n, chunk, ReadChunks(major, p.value.rest[p.value.head.arg..]));
    }
  }

  lemma ReadChunksMore(major: int, b: seq<byte>, p: Predecoded, chunk: seq<byte>)
    requires !AtBreak(b) && PredecodeCheck(major, b) == Ok(p)
    requires !p.head.indef && |p.rest| >= p.head.arg && chunk == p.rest[..p.head.arg]
    ensures ReadChunks(major, b) == AfterChunks(chunk, 1, ReadChunks(major, p.rest[p.head.arg..]))
  {
    hide PredecodeCheck;
  }

  lemma AfterOneMore(bytes: seq<byte>, n: nat, chunk: seq<byte>, r: Result<StringRead>)
    ensures AfterChunks(bytes, n, AfterChunks(chunk, 1, r)) == AfterChunks(bytes + chunk, n + 1, r)
  {
    if r.Ok? {
      assert bytes + (chunk + r.value.bytes) == bytes + chunk + r.value.bytes;
    }
  }

  function AfterItems(items: seq<Item>, n: nat, r: Result<DecodedItems>): Result<DecodedItems> {
    if r.Err? then r else Ok(DecodedItems(items + r.value.items, n + r.value.count, r.value.rest))
  }

  lemma DecodeItemsStart(b: seq<byte>, limit: Option<nat>)
    ensures DecodeItems(b, limit) == AfterItems([], 0, DecodeItems(b, limit))
  {
    hide DecodeItems;
    if DecodeItems(b, limit).Ok? {
      assert [] + DecodeItems(b, limit).value.items == DecodeItems(b, limit).value.items;
    }
  }

  /** One turn of `decode_array_items`. */
  lemma AfterItemsStep(b: seq<byte>, limit: Option<nat>, items: seq<Item>, n: nat)
    ensures var x := Decode(b);
            AfterItems(items, n, DecodeItems(b, limit)) ==
            if limit == Some(0) || AtBreak(b) then Ok(DecodedItems(items, n, b))
            else if x.Err? then Err(x.error)
            else AfterItems(items + [x.value.item], n + x.value.count, DecodeItems(x.value.rest, OneLess(limit)))
  {
    hide Decode;
    if limit == Some(0) || AtBreak(b) {
      assert items + [] == items;
    } else if Decode(b).Ok? {
      var x := Decode(b).value;
      var more := DecodeItems(x.rest, OneLess(limit));
      if more.Ok? {
        assert items + ([x.item] + more.value.items) == items + [x.item] + more.value.items;
      }
    }
  }

  /** `Decode` the way `cbor_decode_item` goes about it, by the type it peeks at. */
  lemma DecodeByMajor(b: seq<byte>)
    ensures b == [] || b[0] == BREAK ==> Decode(b) == Err(ErrUnsup)
    ensures b != [] && b[0] != BREAK ==>
              var u, i, v := ReadUint(b, TWO_64 - 1), ReadInt(b, -TWO_63, TWO_63 - 1), ReadSval(b);
              var indef := LowBits(b[0]) == LBITS_INDEFINITE;
              match Major(b[0])
              case 0 => Decode(b) == if u.Err? then Err(u.error) else Ok(Decoded(UInt(u.value.n), 1, u.value.rest))
              case 1 => Decode(b) == if i.Err? then Err(i.error) else Ok(Decoded(Int(i.value.n), 1, i.value.rest))
              case 7 => Decode(b) == if v.Err? then Err(v.error) else Ok(Decoded(Sval(v.value.n), 1, v.value.rest))
              case 2 => Decode(b) == Cbor.DecodeString(MAJOR_BYTES, indef, b)
              case 3 => Decode(b) == Cbor.DecodeString(MAJOR_TEXT, indef, b)
              case _ => true
  {
    hide Predecode, Major, LowBits, Cbor.DecodeString;
  }

  lemma DecodeByBlock(major: int, b: seq<byte>)
    requires b != [] && b[0] != BREAK && Major(b[0]) == major && MAJOR_ARRAY <= major <= MAJOR_MAP
    ensures var indef := LowBits(b[0]) == LBITS_INDEFINITE;
            var p := ReadOpen(major, indef, b);
            if p.Err? then Decode(b) == Err(p.error)
            else
              var h := p.value.head;
              var xs := DecodeItems(p.value.rest, if indef then None else Some(BlockLen(h)));
              h.major == major && h.indef == indef &&
              Decode(b) == if xs.Err? then Err(xs.error) else FinishBlock(h, xs.value)
  {
    hide Predecode, Major, LowBits, DecodeItems, FinishBlock;
  }

  lemma DecodeByTag(b: seq<byte>)
    requires b != [] && b[0] != BREAK && Major(b[0]) == MAJOR_TAG
    ensures var p := PredecodeCheck(MAJOR_TAG, b);
            if p.Err? then Decode(b) == Err(p.error)
            else if p.value.head.arg >= TWO_32 then Decode(b) == Err(ErrRange)
            else
              var x := Decode(p.value.rest);
              Decode(b) == if x.Err? then x
                           else Ok(Decoded(Tag(p.value.head.arg, 0, x.value.item), 1 + x.value.count, x.value.rest))
  {
    hide Predecode, Major, LowBits;
  }

  class CborStream {
    const buf: NbBuffer
    var blocks: seq<Block>

    ghost predicate Valid()
      reads this, buf, buf.Repr
    {
      buf.Valid() && this !in buf.Repr && ValidBlocks(blocks)
    }

    ghost predicate EncReady()
      reads this, buf, buf.Repr
    {
      Valid() && buf.Writable()
    }

    constructor (buf: NbBuffer)
      requires buf.Valid()
      ensures this.buf == buf && Valid() && blocks == [Block(NO_BLOCK, true, 0, 0, None, None)]
    {
      this.buf := buf;
      blocks := [Block(NO_BLOCK, true, 0, 0, None, None)];
    }

    /** `write_hdr`, and the other places that write bytes without counting an item. */
    method WriteBytes(bytes: seq<byte>)
      requires EncReady()
      modifies buf, buf.Repr
      ensures EncReady() && fresh(buf.Repr - old(buf.Repr)) && blocks == old(blocks)
      ensures Grew(old(buf.Abs), buf.Abs, bytes)
    {
      hide NbBuffer.Valid, Header, Counted, Pushed;
      buf.Write(bytes);
    }

    /** `write_hdr_count`. */
    method WriteHdrCount(major: int, lbits: int)
      requires EncReady() && 0 <= major <= MAJOR_7 && 0 <= lbits <= LBITS_INDEFINITE
      modifies this, buf, buf.Repr
      ensures EncReady() && fresh(buf.Repr - old(buf.Repr)) && blocks == Counted(old(blocks), 1)
      ensures Grew(old(buf.Abs), buf.Abs, [32 * major + lbits])
    {
      hide NbBuffer.Valid, Header, Counted, Pushed;
      blocks := Counted(blocks, 1);
      WriteBytes([32 * major + lbits]);
    }

    /** `write_hdr_u64`: the argument in network byte order, of which the last bytes are written. */
    method WriteHdrU64(major: int, n: u64)
      requires EncReady() && 0 <= major <= 6
      modifies this, buf, buf.Repr
      ensures EncReady() && fresh(buf.Repr - old(buf.Repr)) && blocks == Counted(old(blocks), 1)
      ensures Grew(old(buf.Abs), buf.Abs, Header(major, n))
    {
      hide NbBuffer.Valid, Counted, Pushed;
      if n <= 23 {
        WriteHdrCount(major, n);
        return;
      }
      var size, lbits;
      if n < TWO_8 {
        size, lbits := 1, 24;
      } else if n < TWO_16 {
        size, lbits := 2, 25;
      } else if n < TWO_32 {
        size, lbits := 4, 26;
      } else {
        size, lbits := 8, 27;
      }
      WriteHdrCount(major, lbits);
      ghost var mid := buf.Abs;
      BigEndianSuffix(n, 8, size);
      WriteBytes(BigEndian(n, 8)[8 - size..]);
      GrewTwice(old(buf.Abs), mid, buf.Abs, [32 * major + lbits], BigEndian(n, size));
    }

    /** `cbor_encode_uint` and, up to the width of the parameter, `cbor_encode_uint8` to `cbor_encode_uint64_slow`. */
    method EncodeUint(n: u64)
      requires EncReady()
      modifies this, buf, buf.Repr
      ensures EncReady() && fresh(buf.Repr - old(buf.Repr)) && blocks == Counted(old(blocks), 1)
      ensures Grew(old(buf.Abs), buf.Abs, Header(MAJOR_UINT, n))
    {
      hide NbBuffer.Valid, Header, Counted, Pushed;
      WriteHdrU64(MAJOR_UINT, n);
    }

    /** The inline `cbor_encode_uint32`: it writes what the general path writes. */
    method EncodeUint32(n: u32)
      requires EncReady()
      modifies this, buf, buf.Repr
      ensures EncReady() && fresh(buf.Repr - old(buf.Repr)) && blocks == Counted(old(blocks), 1)
      ensures Grew(old(buf.Abs), buf.Abs, Header(MAJOR_UINT, n))
    {
      hide NbBuffer.Valid, Counted, Pushed;
      if n <= 23 {
        blocks := Counted(blocks, 1);
        WriteBytes([n]);
      } else {
        EncodeUint(n);
      }
    }

    /** The inline `cbor_encode_uint64`: its slow path takes 32 bits. */
    method EncodeUint64(n: u64)
      requires EncReady()
      modifies this, buf, buf.Repr
      ensures EncReady() && fresh(buf.Repr - old(buf.Repr)) && blocks == Counted(old(blocks), 1)
      ensures Grew(old(buf.Abs), buf.Abs, Header(MAJOR_UINT, Narrow(n)))
    {
      hide NbBuffer.Valid, Counted, Pushed;
      if n <= 23 {
        blocks := Counted(blocks, 1);
        WriteBytes([n]);
      } else {
        EncodeUint32(n % 0x1_0000_0000);
      }
    }

    /** `cbor_encode_int`, behind `cbor_encode_int8` to `cbor_encode_int64`. */
    method EncodeInt(i: i64)
      requires EncReady()
      modifies this, buf, buf.Repr
      ensures EncReady() && fresh(buf.Repr - old(buf.Repr)) && blocks == Counted(old(blocks), 1)
      ensures Grew(old(buf.Abs), buf.Abs, Cbor.EncodeInt(i))
    {
      hide NbBuffer.Valid, Header, Counted, Pushed;
      if i >= 0 {
        WriteHdrU64(MAJOR_UINT, i);
      } else {
        WriteHdrU64(MAJOR_NEGINT, NegArg(i));
      }
    }

    /** `start_block`, for arrays and maps, and `start_block_indef`, which also opens strings that are sent in
        chunks. */
    method StartBlock(major: int, indef: bool, len: u64)
      requires EncReady() && MAJOR_BYTES <= major <= MAJOR_MAP && (indef ==> len == 0) &&
        (major < MAJOR_ARRAY ==> indef)
      modifies this, buf, buf.Repr
      ensures EncReady() && fresh(buf.Repr - old(buf.Repr))
      ensures blocks == Pushed(Counted(old(blocks), 1), major, indef, len)
      ensures Grew(old(buf.Abs), buf.Abs, Open(major, indef, len))
    {
      hide NbBuffer.Valid, Header, Counted, Pushed;
      if indef {
        WriteHdrCount(major, LBITS_INDEFINITE);
      } else {
        WriteHdrU64(major, len);
      }
      blocks := Pushed(blocks, major, indef, len);
    }

    /** `end_block`. The sentinel block is never popped. */
    method EndBlock(typ: int) returns (r: Result<()>)
      requires EncReady()
      modifies this, buf, buf.Repr
      ensures Valid() && fresh(buf.Repr - old(buf.Repr))
      ensures r == if Top(old(blocks)).typ == NO_BLOCK || Top(old(blocks)).typ != typ then Err(ErrOper) else Ok(())
      ensures r.Ok? ==> EncReady() && |old(blocks)| > 1 && blocks == Popped(old(blocks))
      ensures r.Ok? ==> Grew(old(buf.Abs), buf.Abs, Close(Top(old(blocks)).indef))
    {
      hide NbBuffer.Valid, Header, Counted, Pushed;
      if Top(blocks).typ == NO_BLOCK {
        return Err(ErrOper);
      }
      var block := Top(blocks);
      blocks := Popped(blocks);
      if block.typ != typ {
        return Err(ErrOper);
      }
      if block.indef {
        WriteBytes([BREAK]);
      }
      r := Ok(());
    }

    /** `cbor_encode_map_end`: keys and values have to come in pairs. */
    method EncodeMapEnd() returns (r: Result<()>)
      requires EncReady()
      modifies this, buf, buf.Repr
      ensures Valid() && fresh(buf.Repr - old(buf.Repr))
      ensures var top := Top(old(blocks));
              r == if top.count % 2 != 0 then Err(ErrNitems)
                   else if top.typ != MAJOR_MAP then Err(ErrOper)
                   else Ok(())
      ensures r.Ok? ==> EncReady() && |old(blocks)| > 1 && blocks == Popped(old(blocks))
      ensures r.Ok? ==> Grew(old(buf.Abs), buf.Abs, Close(Top(old(blocks)).indef))
    {
      hide NbBuffer.Valid, Header, Counted, Pushed;
      if Top(blocks).count % 2 != 0 {
        return Err(ErrNitems);
      }
      r := EndBlock(MAJOR_MAP);
    }

    /** `encode_bytes`. */
    method EncodeString(major: int, bytes: seq<byte>)
      requires EncReady() && MAJOR_BYTES <= major <= MAJOR_TEXT && |bytes| < TWO_64
      modifies this, buf, buf.Repr
      ensures EncReady() && fresh(buf.Repr - old(buf.Repr)) && blocks == Counted(old(blocks), 1)
      ensures Grew(old(buf.Abs), buf.Abs, Header(major, |bytes|) + bytes)
    {
      hide NbBuffer.Valid, Header, Counted, Pushed;
      WriteHdrU64(major, |bytes|);
      ghost var mid := buf.Abs;
      WriteBytes(bytes);
      GrewTwice(old(buf.Abs), mid, buf.Abs, Header(major, |bytes|), bytes);
    }

    /** `cbor_encode_text`: `strlen` decides how much is sent. */
    method EncodeText(str: seq<byte>)
      requires EncReady() && |str| < TWO_64
      modifies this, buf, buf.Repr
      ensures EncReady() && fresh(buf.Repr - old(buf.Repr)) && blocks == Counted(old(blocks), 1)
      ensures Grew(old(buf.Abs), buf.Abs, Header(MAJOR_TEXT, |CStr(str)|) + CStr(str))
    {
      hide NbBuffer.Valid, Header, Counted, Pushed;
      EncodeString(MAJOR_TEXT, CStr(str));
    }

    /** `cbor_encode_sval`. */
    method EncodeSval(v: nat) returns (r: Result<()>)
      requires EncReady()
      modifies this, buf, buf.Repr
      ensures Valid() && fresh(buf.Repr - old(buf.Repr))
      ensures r == if v <= 255 then Ok(()) else Err(ErrRange)
      ensures r.Ok? ==> EncReady() && blocks == Counted(old(blocks), 1)
      ensures r.Ok? ==> Grew(old(buf.Abs), buf.Abs, Cbor.EncodeSval(v).value)
    {
      hide NbBuffer.Valid, Header, Counted, Pushed;
      if v > 255 {
        return Err(ErrRange);
      }
      if v <= 23 {
        WriteHdrCount(MAJOR_7, v);
      } else {
        WriteHdrCount(MAJOR_7, LBITS_1B);
        ghost var mid := buf.Abs;
        WriteBytes([v]);
        GrewTwice(old(buf.Abs), mid, buf.Abs, [0xF8], [v]);
        assert [0xF8] + [v] == [0xF8, v];
      }
      r := Ok(());
    }

    /** `encode_array_items`. */
    method EncodeItems(ts: seq<Item>) returns (r: Result<()>)
      requires EncReady() && AllRepresentable(ts)
      modifies this, buf, buf.Repr
      ensures Valid() && fresh(buf.Repr - old(buf.Repr))
      ensures r.Ok? ==> EncReady() && blocks == Counted(old(blocks), CountAll(ts))
      ensures r.Ok? ==> EncodeAll(ts).Ok? && Grew(old(buf.Abs), buf.Abs, EncodeAll(ts).value)
      ensures r.Err? ==> EncodeAll(ts) == Err(r.error)
      decreases ts, 0
    {
      hide NbBuffer.Valid, Counted, Encode, EncodeAll, Representable, AllRepresentable, CountAll;
      var i := 0;
      ghost var sent: seq<byte>, n: nat := [], 0;
      CountedTwice(blocks, 0, 0);
      assert ts[0..] == ts;
      assert EncodeAll(ts) == Prepended(sent, EncodeAll(ts[i..])) by { EncodeAllStart(ts); }
      while i < |ts|
        invariant 0 <= i <= |ts| && AllRepresentable(ts[i..])
        invariant EncReady() && fresh(buf.Repr - old(buf.Repr))
        invariant Grew(old(buf.Abs), buf.Abs, sent) && blocks == Counted(old(blocks), n)
        invariant EncodeAll(ts) == Prepended(sent, EncodeAll(ts[i..]))
        invariant CountAll(ts) == n + CountAll(ts[i..])
      {
        EncodeAllStep(ts, i, sent);
        ghost var before := buf.Abs;
        var item := EncodeItem(ts[i]);
        if item.Err? {
          return item;
        }
        GrewTwice(old(buf.Abs), before, buf.Abs, sent, Encode(ts[i]).value);
        CountedTwice(old(blocks), n, Count(ts[i]));
        sent, n := sent + Encode(ts[i]).value, n + Count(ts[i]);
        i := i + 1;
      }
      EncodeAllEnd(ts, sent);
      r := Ok(());
    }

    /** `encode_array` and `encode_map`, which differ in the length they announce and in the final check. */
    method EncodeBlock(t: Item) returns (r: Result<()>)
      requires EncReady() && (t.Array? || t.Map?) && Representable(t)
      modifies this, buf, buf.Repr
      ensures Valid() && fresh(buf.Repr - old(buf.Repr))
      ensures r.Ok? ==> EncReady() && blocks == Counted(old(blocks), 1)
      ensures r.Ok? ==> Encode(t).Ok? && Grew(old(buf.Abs), buf.Abs, Encode(t).value)
      ensures r.Err? ==> Encode(t) == Err(r.error)
      decreases t, 0
    {
      hide NbBuffer.Valid, Counted, Pushed, Popped, EncodeAll, Open, Close;
      var major := if t.Map? then MAJOR_MAP else MAJOR_ARRAY;
      var len := if t.indef then 0 else if t.Map? then |t.items| / 2 else |t.items|;
      StartBlock(major, t.indef, len);
      ghost var a1, inner := buf.Abs, blocks;
      var items := EncodeItems(t.items);
      if items.Err? {
        return items;
      }
      ghost var a2, body := buf.Abs, EncodeAll(t.items).value;
      TopOfBody(Counted(old(blocks), 1), major, t.indef, len, CountAll(t.items));
      if t.Map? {
        r := EncodeMapEnd();
      } else {
        r := EndBlock(MAJOR_ARRAY);
      }
      if r.Ok? {
        GrewTwice(old(buf.Abs), a1, a2, Open(major, t.indef, len), body);
        GrewTwice(old(buf.Abs), a2, buf.Abs, Open(major, t.indef, len) + body, Close(t.indef));
        OpenIgnoresLen(major, if t.Map? then |t.items| / 2 else |t.items|, len);
      }
    }

    /** `encode_tagged_item`. */
    method EncodeTagged(t: Item) returns (r: Result<()>)
      requires EncReady() && t.Tag? && Representable(t)
      modifies this, buf, buf.Repr
      ensures Valid() && fresh(buf.Repr - old(buf.Repr))
      ensures r.Ok? ==> EncReady() && blocks == Counted(old(blocks), Count(t))
      ensures r.Ok? ==> Encode(t).Ok? && Grew(old(buf.Abs), buf.Abs, Encode(t).value)
      ensures r.Err? ==> Encode(t) == Err(r.error)
      decreases t, 0
    {
      hide NbBuffer.Valid, Counted, Header;
      var n := t.num % 0x1_0000_0000;
      WriteHdrU64(MAJOR_TAG, n);
      ghost var mid := buf.Abs;
      r := EncodeItem(t.item);
      if r.Ok? {
        GrewTwice(old(buf.Abs), mid, buf.Abs, Header(MAJOR_TAG, n), Encode(t.item).value);
        CountedTwice(old(blocks), 1, Count(t.item));
      }
    }

    /** `cbor_encode_item`: it writes `Encode(t)`, counts the item and its tags, and leaves the other blocks alone. */
    method EncodeItem(t: Item) returns (r: Result<()>)
      requires EncReady() && Representable(t)
      modifies this, buf, buf.Repr
      ensures Valid() && fresh(buf.Repr - old(buf.Repr))
      ensures r.Ok? ==> EncReady() && blocks == Counted(old(blocks), Count(t))
      ensures r.Ok? ==> Encode(t).Ok? && Grew(old(buf.Abs), buf.Abs, Encode(t).value)
      ensures r.Err? ==> Encode(t) == Err(r.error)
      decreases t, 1
    {
      hide NbBuffer.Valid, Counted, Header;
      r := Ok(());
      match t
      case UInt(u) => EncodeUint64(u);
      case Int(i) => EncodeInt(i);
      case Bytes(_, bs) => EncodeString(MAJOR_BYTES, bs);
      case Text(_, bs) => EncodeText(bs);
      case Array(_, _) => r := EncodeBlock(t);
      case Map(_, _) => r := EncodeBlock(t);
      case Tag(_, _, _) => r := EncodeTagged(t);
      case Sval(v) => r := EncodeSval(v);
    }

    // ---------- decoding ----------

    ghost predicate DecReady()
      reads this, buf, buf.Repr
    {
      Valid() && buf.mode != Writing
    }

    /** `read_stream`: a short read is an error. */
    method ReadStream(n: nat) returns (r: Result<seq<byte>>)
      requires DecReady()
      modifies buf, buf.Repr
      ensures DecReady() && buf.Repr == old(buf.Repr) && buf.Abs.written == old(buf.Abs.written)
      ensures blocks == old(blocks)
      ensures var b := old(buf.Abs.rem);
              if |b| < n then r == Err(ErrEof) else r == Ok(b[..n]) && buf.Abs.rem == b[n..]
    {
      hide NbBuffer.Valid;
      var bytes := buf.Read(n);
      r := if |bytes| != n then Err(ErrEof) else Ok(bytes);
    }

    /** `cbor_is_break`. */
    method IsBreak() returns (b: bool)
      requires DecReady()
      modifies buf, buf.Repr
      ensures DecReady() && buf.Repr == old(buf.Repr) && buf.Abs.written == old(buf.Abs.written)
      ensures blocks == old(blocks) && buf.Abs.rem == old(buf.Abs.rem) && b == AtBreak(buf.Abs.rem)
    {
      hide NbBuffer.Valid;
      var c := buf.Peek();
      b := c == BREAK;
    }

    /** `decode_u64`: the bytes that follow fill the low end of eight zero bytes. */
    method DecodeU64(lbits: int) returns (r: Result<u64>)
      requires DecReady() && 0 <= lbits < LBITS_INDEFINITE
      modifies buf, buf.Repr
      ensures DecReady() && buf.Repr == old(buf.Repr) && buf.Abs.written == old(buf.Abs.written)
      ensures blocks == old(blocks)
      ensures var a := ReadArg(lbits, old(buf.Abs.rem));
              if a.Err? then r == Err(a.error) else r == Ok(a.value.n) && buf.Abs.rem == a.value.rest
    {
      hide NbBuffer.Valid, FromBigEndian;
      if lbits <= 23 {
        return Ok(lbits);
      }
      if lbits > LBITS_8B {
        return Err(ErrParse);
      }
      var n := ArgBytes(lbits);
      var bytes :- ReadStream(n);
      var u64be: seq<byte> := seq(8 - n, _ => 0) + bytes;
      LeadingZeros(8 - n, bytes);
      assert ReadArg(lbits, old(buf.Abs.rem)).value.n == FromBigEndian(u64be);
      r := Ok(FromBigEndian(u64be));
    }

    /** `predecode` and `decode_item_major7`. Everything but a break counts as an item. */
    method Predecode() returns (r: Result<Head>)
      requires DecReady()
      modifies this, buf, buf.Repr
      ensures DecReady() && buf.Repr == old(buf.Repr) && buf.Abs.written == old(buf.Abs.written)
      ensures var p := Cbor.Predecode(old(buf.Abs.rem));
              if p.Err? then r == Err(p.error)
              else r == Ok(p.value.head) && buf.Abs.rem == p.value.rest &&
                   blocks == if p.value.head.Break? then old(blocks) else Counted(old(blocks), 1)
    {
      hide NbBuffer.Valid, Counted, ReadArg, Major, LowBits;
      var b :- ReadStream(1);
      var hdr := b[0];
      if hdr == BREAK {
        return Ok(Break);
      }
      var major := Major(hdr);
      var lbits := LowBits(hdr);
      BreakByte(hdr);
      blocks := Counted(blocks, 1);
      if major == MAJOR_UINT && lbits <= 23 {
        ShortArg(lbits, buf.Abs.rem);
        return Ok(Head(MAJOR_UINT, false, lbits));
      }
      if major == MAJOR_7 {
        r := DecodeItemMajor7(lbits);
        return;
      }
      if lbits == LBITS_INDEFINITE {
        return if AllowsIndefinite(major) then Ok(Head(major, true, 0)) else Err(ErrIndef);
      }
      var arg :- DecodeU64(lbits);
      if major == MAJOR_NEGINT && arg >= TWO_63 {
        return Err(ErrRange);
      }
      r := Ok(Head(major, false, arg));
    }

    method DecodeItemMajor7(minor: int) returns (r: Result<Head>)
      requires DecReady() && 0 <= minor < LBITS_INDEFINITE
      modifies buf, buf.Repr
      ensures DecReady() && buf.Repr == old(buf.Repr) && buf.Abs.written == old(buf.Abs.written)
      ensures blocks == old(blocks)
      ensures var a := ReadArg(minor, old(buf.Abs.rem));
              if a.Err? then r == Err(a.error)
              else if minor > LBITS_1B then r == Err(ErrUnsup)
              else r == Ok(Head(MAJOR_7, false, a.value.n)) && buf.Abs.rem == a.value.rest
    {
      hide NbBuffer.Valid, ReadArg;
      if minor <= 23 {
        ShortArg(minor, buf.Abs.rem);
        return Ok(Head(MAJOR_7, false, minor));
      }
      var arg :- DecodeU64(minor);
      r := if minor > LBITS_1B then Err(ErrUnsup) else Ok(Head(MAJOR_7, false, arg));
    }

    /** `predecode_check`. */
    method PredecodeCheck(major: int) returns (r: Result<Head>)
      requires DecReady()
      modifies this, buf, buf.Repr
      ensures DecReady() && buf.Repr == old(buf.Repr) && buf.Abs.written == old(buf.Abs.written)
      ensures var p := Cbor.PredecodeCheck(major, old(buf.Abs.rem));
              if p.Err? then r == Err(p.error)
              else r == Ok(p.value.head) && buf.Abs.rem == p.value.rest && blocks == Counted(old(blocks), 1)
    {
      hide NbBuffer.Valid, Counted, Cbor.Predecode;
      var head :- this.Predecode();
      r := if head.Head? && head.major == major then Ok(head) else Err(ErrItem);
    }

    /** `decode_uint`. */
    method DecodeUint(max: u64) returns (r: Result<u64>)
      requires DecReady()
      modifies this, buf, buf.Repr
      ensures DecReady() && buf.Repr == old(buf.Repr) && buf.Abs.written == old(buf.Abs.written)
      ensures var p := ReadUint(old(buf.Abs.rem), max);
              if p.Err? then r == Err(p.error)
              else r == Ok(p.value.n) && buf.Abs.rem == p.value.rest && blocks == Counted(old(blocks), 1)
    {
      hide NbBuffer.Valid, Counted, Cbor.Predecode;
      var head :- this.Predecode();
      if head.Break? || head.indef {
        return Err(ErrUndefined);
      }
      r := if head.arg > max then Err(ErrRange) else Ok(head.arg);
    }

    /** The inline `cbor_decode_uint64`: values up to 23 are taken off the buffer directly, with the same outcome. */
    method DecodeUint64() returns (r: Result<u64>)
      requires DecReady()
      modifies this, buf, buf.Repr
      ensures DecReady() && buf.Repr == old(buf.Repr) && buf.Abs.written == old(buf.Abs.written)
      ensures var p := ReadUint(old(buf.Abs.rem), TWO_64 - 1);
              if p.Err? then r == Err(p.error)
              else r == Ok(p.value.n) && buf.Abs.rem == p.value.rest && blocks == Counted(old(blocks), 1)
    {
      hide NbBuffer.Valid, Counted;
      var c := buf.Peek();
      if 0 <= c <= 23 {
        var _ := buf.Getc();
        blocks := Counted(blocks, 1);
        r := Ok(c);
      } else {
        r := DecodeUint(TWO_64 - 1);
      }
    }

    /** `decode_int`. */
    method DecodeInt(min: i64, max: i64) returns (r: Result<i64>)
      requires DecReady()
      modifies this, buf, buf.Repr
      ensures DecReady() && buf.Repr == old(buf.Repr) && buf.Abs.written == old(buf.Abs.written)
      ensures var p := ReadInt(old(buf.Abs.rem), min, max);
              if p.Err? then r == Err(p.error)
              else r == Ok(p.value.n) && buf.Abs.rem == p.value.rest && blocks == Counted(old(blocks), 1)
    {
      hide NbBuffer.Valid, Counted, Cbor.Predecode;
      PredecodedNegative(buf.Abs.rem);
      var head :- this.Predecode();
      var i: i64;
      if head.Head? && head.major == MAJOR_NEGINT {
        i := NegValue(head.arg);
      } else if head.Head? && head.major == MAJOR_UINT {
        if head.arg >= TWO_63 {
          return Err(ErrRange);
        }
        i := head.arg;
      } else {
        return Err(ErrItem);
      }
      r := if min <= i <= max then Ok(i) else Err(ErrRange);
    }

    /** `cbor_decode_sval`. */
    method DecodeSval() returns (r: Result<nat>)
      requires DecReady()
      modifies this, buf, buf.Repr
      ensures DecReady() && buf.Repr == old(buf.Repr) && buf.Abs.written == old(buf.Abs.written)
      ensures var p := ReadSval(old(buf.Abs.rem));
              if p.Err? then r == Err(p.error)
              else r == Ok(p.value.n) && buf.Abs.rem == p.value.rest && blocks == Counted(old(blocks), 1)
    {
      hide NbBuffer.Valid, Counted, Cbor.PredecodeCheck;
      var head :- this.PredecodeCheck(MAJOR_7);
      r := Ok(head.arg);
    }

    /** `cbor_decode_bool`. */
    method DecodeBool() returns (r: Result<bool>)
      requires DecReady()
      modifies this, buf, buf.Repr
      ensures DecReady() && buf.Repr == old(buf.Repr) && buf.Abs.written == old(buf.Abs.written)
      ensures var p := ReadBool(old(buf.Abs.rem));
              if p.Err? then r == Err(p.error)
              else r == Ok(p.value.value) && buf.Abs.rem == p.value.rest && blocks == Counted(old(blocks), 1)
    {
      hide NbBuffer.Valid, Counted, ReadSval;
      var v :- DecodeSval();
      r := if v != SVAL_TRUE && v != SVAL_FALSE then Err(ErrRange) else Ok(v == SVAL_TRUE);
    }

    /** `decode_block_start`. */
    method DecodeBlockStart(major: int, indef: bool) returns (r: Result<u64>)
      requires DecReady() && MAJOR_ARRAY <= major <= MAJOR_MAP
      modifies this, buf, buf.Repr
      ensures DecReady() && buf.Repr == old(buf.Repr) && buf.Abs.written == old(buf.Abs.written)
      ensures var p := ReadOpen(major, indef, old(buf.Abs.rem));
              if p.Err? then r == Err(p.error)
              else r == Ok(p.value.head.arg) && buf.Abs.rem == p.value.rest &&
                   blocks == Pushed(Counted(old(blocks), 1), major, indef, BlockLen(p.value.head))
    {
      hide NbBuffer.Valid, Counted, Pushed, Cbor.PredecodeCheck;
      var head :- this.PredecodeCheck(major);
      if head.indef != indef {
        return Err(ErrIndef);
      }
      var len: int := head.arg;
      if major == MAJOR_MAP {
        len := 2 * len % 0x1_0000_0000_0000_0000;
      }
      blocks := Pushed(blocks, major, indef, len);
      r := Ok(head.arg);
    }

    /** `decode_block_end`. */
    method DecodeBlockEnd(typ: int) returns (r: Result<()>)
      requires DecReady()
      modifies this, buf, buf.Repr
      ensures DecReady() && buf.Repr == old(buf.Repr) && buf.Abs.written == old(buf.Abs.written)
      ensures var top := Top(old(blocks));
              var e := Cbor.EndBlock(top.indef, top.len, top.count, old(buf.Abs.rem));
              if top.typ == NO_BLOCK || top.typ != typ then r == Err(ErrOper)
              else if e.Err? then r == Err(e.error)
              else r == Ok(()) && buf.Abs.rem == e.value && |old(blocks)| > 1 && blocks == Popped(old(blocks))
    {
      hide NbBuffer.Valid, Counted, Cbor.Predecode;
      var top := Top(blocks);
      if top.typ == NO_BLOCK || top.typ != typ {
        return Err(ErrOper);
      }
      if top.indef {
        var head :- this.Predecode();
        if !head.Break? {
          return Err(ErrBreak);
        }
      } else if top.count != top.len {
        return Err(ErrOper);
      }
      blocks := Popped(blocks);
      r := Ok(());
    }

    /** `cbor_decode_stream`: all the chunks of a string. */
    method DecodeStream(head: Head) returns (r: Result<seq<byte>>, chunks: nat)
      requires DecReady() && head.Head?
      modifies this, buf, buf.Repr
      ensures DecReady() && buf.Repr == old(buf.Repr) && buf.Abs.written == old(buf.Abs.written)
      ensures var s := Cbor.ReadStream(head, old(buf.Abs.rem));
              if s.Err? then r == Err(s.error)
              else r == Ok(s.value.bytes) && chunks == s.value.count && buf.Abs.rem == s.value.rest &&
                   blocks == Counted(old(blocks), chunks)
    {
      hide NbBuffer.Valid, Counted, Cbor.PredecodeCheck;
      chunks := 0;
      CountedTwice(blocks, 0, 0);
      if !head.indef {
        r := this.ReadStream(head.arg);
        return;
      }
      var bytes: seq<byte> := [];
      ReadChunksStart(head.major, buf.Abs.rem);
      while true
        invariant DecReady() && buf.Repr == old(buf.Repr) && buf.Abs.written == old(buf.Abs.written)
        invariant blocks == Counted(old(blocks), chunks)
        invariant ReadChunks(head.major, old(buf.Abs.rem)) ==
                  AfterChunks(bytes, chunks, ReadChunks(head.major, buf.Abs.rem))
        decreases |buf.Abs.rem|
      {
        ReadChunksStep(head.major, buf.Abs.rem, bytes, chunks);
        var done := IsBreak();
        if done {
          return Ok(bytes), chunks;
        }
        var chunk := this.PredecodeCheck(head.major);
        if chunk.Err? {
          return Err(chunk.error), chunks;
        }
        if chunk.value.indef {
          return Err(ErrIndef), chunks;
        }
        var data := this.ReadStream(chunk.value.arg);
        if data.Err? {
          return Err(data.error), chunks;
        }
        CountedTwice(old(blocks), chunks, 1);
        bytes, chunks := bytes + data.value, chunks + 1;
      }
    }

    /** `cbor_decode_bytes` and `decode_text`. */
    method DecodeString(major: int) returns (r: Result<seq<byte>>)
      requires DecReady()
      modifies this, buf, buf.Repr
      ensures DecReady() && buf.Repr == old(buf.Repr) && buf.Abs.written == old(buf.Abs.written)
      ensures var s := ReadString(major, old(buf.Abs.rem));
              if s.Err? then r == Err(s.error)
              else r == Ok(s.value.bytes) && buf.Abs.rem == s.value.rest &&
                   blocks == Counted(old(blocks), s.value.count)
    {
      hide NbBuffer.Valid, Counted, Cbor.PredecodeCheck, Cbor.ReadStream;
      var head :- this.PredecodeCheck(major);
      var bytes, chunks := DecodeStream(head);
      if bytes.Err? {
        return bytes;
      }
      if major == MAJOR_TEXT && head.indef && chunks == 0 {
        return Err(ErrUndefined);
      }
      CountedTwice(old(blocks), 1, chunks);
      r := bytes;
    }

    /** `decode_array_items`: room for the items doubles whenever it runs out in a block of indefinite length. */
    method DecodeItems(indef: bool, n: nat) returns (r: Result<seq<Item>>)
      requires DecReady()
      modifies this, buf, buf.Repr
      ensures DecReady() && buf.Repr == old(buf.Repr) && buf.Abs.written == old(buf.Abs.written)
      ensures var d := Cbor.DecodeItems(old(buf.Abs.rem), if indef then None else Some(n));
              if d.Err? then r == Err(d.error)
              else r == Ok(d.value.items) && buf.Abs.rem == d.value.rest &&
                   blocks == Counted(old(blocks), d.value.count)
      decreases |buf.Abs.rem|, 2
    {
      hide NbBuffer.Valid, Counted, Cbor.Decode, Cbor.DecodeItems, AfterItems;
      var items: seq<Item> := [];
      ghost var count: nat := 0;
      var size := if indef then ARRAY_INIT_SIZE else n;
      CountedTwice(blocks, 0, 0);
      DecodeItemsStart(buf.Abs.rem, if indef then None else Some(n));
      while true
        invariant DecReady() && buf.Repr == old(buf.Repr) && buf.Abs.written == old(buf.Abs.written)
        invariant blocks == Counted(old(blocks), count)
        invariant if indef then |items| < size else items == [] && size == n
        invariant |buf.Abs.rem| <= |old(buf.Abs.rem)|
        invariant Cbor.DecodeItems(old(buf.Abs.rem), if indef then None else Some(n)) ==
                  AfterItems(items, count, Cbor.DecodeItems(buf.Abs.rem, if indef then None else Some(n - |items|)))
        decreases |buf.Abs.rem|
      {
        ghost var before := |buf.Abs.rem|;
        while |items| < size
          invariant DecReady() && buf.Repr == old(buf.Repr) && buf.Abs.written == old(buf.Abs.written)
          invariant blocks == Counted(old(blocks), count)
          invariant |items| <= size && (!indef ==> size == n)
          invariant |buf.Abs.rem| <= before && (indef && |items| == size ==> |buf.Abs.rem| < before)
          invariant Cbor.DecodeItems(old(buf.Abs.rem), if indef then None else Some(n)) ==
                    AfterItems(items, count, Cbor.DecodeItems(buf.Abs.rem, if indef then None else Some(n - |items|)))
          decreases |buf.Abs.rem|
        {
          AfterItemsStep(buf.Abs.rem, if indef then None else Some(n - |items|), items, count);
          var done := IsBreak();
          if done {
            return Ok(items);
          }
          ghost var d := Cbor.Decode(buf.Abs.rem);
          var item :- DecodeItem();
          CountedTwice(old(blocks), count, d.value.count);
          items, count := items + [item], count + d.value.count;
        }
        if !indef {
          break;
        }
        size := 2 * size;
      }
      AfterItemsStep(buf.Abs.rem, Some(0), items, count);
      r := Ok(items);
    }

    /** The array and map cases of `cbor_decode_item`, with `decode_map_items`. */
    method DecodeBlock(major: int, indef: bool) returns (r: Result<Item>)
      requires DecReady() && MAJOR_ARRAY <= major <= MAJOR_MAP
      requires var b := buf.Abs.rem;
               b != [] && b[0] != BREAK && Major(b[0]) == major && indef == (LowBits(b[0]) == LBITS_INDEFINITE)
      modifies this, buf, buf.Repr
      ensures DecReady() && buf.Repr == old(buf.Repr) && buf.Abs.written == old(buf.Abs.written)
      ensures var d := Cbor.Decode(old(buf.Abs.rem));
              if d.Err? then r == Err(d.error)
              else r == Ok(d.value.item) && buf.Abs.rem == d.value.rest && blocks == Counted(old(blocks), d.value.count)
      decreases |buf.Abs.rem|, 0
    {
      hide NbBuffer.Valid, Counted, Pushed, Popped, Cbor.Decode, Cbor.DecodeItems, Cbor.Predecode, ReadOpen, Major,
           LowBits;
      DecodeByBlock(major, buf.Abs.rem);
      ghost var head := ReadOpen(major, indef, buf.Abs.rem);
      var len :- DecodeBlockStart(major, indef);
      var n: int := len;
      if major == MAJOR_MAP {
        n := 2 * n % 0x1_0000_0000_0000_0000;
      }
      ghost var xs := Cbor.DecodeItems(buf.Abs.rem, if indef then None else Some(n));
      var items :- DecodeItems(indef, n);
      TopOfBody(Counted(old(blocks), 1), major, indef, BlockLen(head.value.head), xs.value.count);
      if major == MAJOR_MAP && |items| % 2 != 0 {
        return Err(ErrNitems);
      }
      var _ :- DecodeBlockEnd(major);
      r := Ok(if major == MAJOR_MAP then Map(indef, items) else Array(indef, items));
    }

    /** The tag case of `cbor_decode_item`, with `cbor_decode_tag`. */
    method DecodeTagged() returns (r: Result<Item>)
      requires DecReady()
      requires var b := buf.Abs.rem; b != [] && b[0] != BREAK && Major(b[0]) == MAJOR_TAG
      modifies this, buf, buf.Repr
      ensures DecReady() && buf.Repr == old(buf.Repr) && buf.Abs.written == old(buf.Abs.written)
      ensures var d := Cbor.Decode(old(buf.Abs.rem));
              if d.Err? then r == Err(d.error)
              else r == Ok(d.value.item) && buf.Abs.rem == d.value.rest && blocks == Counted(old(blocks), d.value.count)
      decreases |buf.Abs.rem|, 0
    {
      hide NbBuffer.Valid, Counted, Cbor.Decode, Cbor.Predecode, Major, LowBits;
      DecodeByTag(buf.Abs.rem);
      var head :- this.PredecodeCheck(MAJOR_TAG);
      if head.arg >= TWO_32 {
        return Err(ErrRange);
      }
      ghost var inner := Cbor.Decode(buf.Abs.rem);
      var item :- DecodeItem();
      CountedTwice(old(blocks), 1, inner.value.count);
      r := Ok(Tag(head.arg, 0, item));
    }

    /** `cbor_decode_item`: it takes one item off the input, counts it and its tags, and restores the block stack. */
    method DecodeItem() returns (r: Result<Item>)
      requires DecReady()
      modifies this, buf, buf.Repr
      ensures DecReady() && buf.Repr == old(buf.Repr) && buf.Abs.written == old(buf.Abs.written)
      ensures var d := Cbor.Decode(old(buf.Abs.rem));
              if d.Err? then r == Err(d.error)
              else r == Ok(d.value.item) && buf.Abs.rem == d.value.rest && blocks == Counted(old(blocks), d.value.count)
      decreases |buf.Abs.rem|, 1
    {
      hide NbBuffer.Valid, Counted, Cbor.Decode, Cbor.Predecode, Major, LowBits, ReadString;
      DecodeByMajor(buf.Abs.rem);
      var c := buf.Peek();
      if c == EOF_CHAR || c == BREAK {
        return Err(ErrUnsup);
      }
      var major, indef := Major(c), LowBits(c) == LBITS_INDEFINITE;
      if major == MAJOR_UINT {
        var u :- DecodeUint64();
        return Ok(UInt(u));
      } else if major == MAJOR_NEGINT {
        var i :- DecodeInt(-TWO_63, TWO_63 - 1);
        return Ok(Int(i));
      } else if major == MAJOR_7 {
        var v :- DecodeSval();
        return Ok(Sval(v));
      } else if major == MAJOR_BYTES || major == MAJOR_TEXT {
        var bytes :- DecodeString(major);
        return Ok(if major == MAJOR_BYTES then Bytes(indef, bytes) else Text(indef, bytes));
      } else if major == MAJOR_TAG {
        r := DecodeTagged();
      } else {
        r := DecodeBlock(major, indef);
      }
    }
  }
}
