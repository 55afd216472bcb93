/** CBOR items, what the encoder writes for them and what the decoder reads, as functions on byte sequences.
    The stream classes are proved against these functions; the round trip and the grammar are proved about them. */
module Cbor {
  import opened Prelude
  import opened Wire

  /** `struct cbor_item`. The array behind a map holds keys and values in turn. A tagged item keeps its number
      in two fields: the encoder reads `num` and the decoder writes `tag`. */
  datatype Item =
    | UInt(u: u64)
    | Int(i: i64)
    | Bytes(indef: bool, bytes: seq<byte>)
    | Text(indef: bool, bytes: seq<byte>)
    | Array(indef: bool, items: seq<Item>)
    | Map(indef: bool, items: seq<Item>)
    | Tag(tag: u32, num: u64, item: Item)
    | Sval(sval: nat)

  /** What a C value can hold: lengths are 64 bits wide, and a map is a whole number of pairs. */
  predicate Representable(t: Item) {
    match t
    case Bytes(_, bs) => |bs| < TWO_64
    case Text(_, bs) => |bs| < TWO_64
    case Array(_, ts) => |ts| < TWO_64 && AllRepresentable(ts)
    case Map(_, ts) => |ts| < TWO_64 && |ts| % 2 == 0 && AllRepresentable(ts)
    case Tag(_, _, x) => Representable(x)
    case _ => true
  }

  predicate AllRepresentable(ts: seq<Item>) {
    ts == [] || (Representable(ts[0]) && AllRepresentable(ts[1..]))
  }

  /** How much an item adds to `num_items` of its block: a tag and the item it tags count separately. */
  function Count(t: Item): (n: nat)
    ensures n >= 1
  {
    if t.Tag? then 1 + Count(t.item) else 1
  }

  function CountAll(ts: seq<Item>): (n: nat)
    ensures n >= |ts|
  {
    if ts == [] then 0 else Count(ts[0]) + CountAll(ts[1..])
  }

  // ---------- encoding ----------

  /** `cbor_encode_uint64` passes a value above 23 through a 32-bit parameter. */
  function Narrow(u: u64): (n: u64)
    ensures n <= u && (n == u <==> u < TWO_32)
  {
    if u <= 23 then u else u % 0x1_0000_0000
  }

  function EncodeSval(v: nat): Result<seq<byte>> {
    if v <= 23 then Ok([0xE0 + v])
    else if v <= 255 then Ok([0xF8, v])
    else Err(ErrRange)
  }

  function EncodeInt(i: i64): seq<byte> {
    if i >= 0 then Header(MAJOR_UINT, i) else Header(MAJOR_NEGINT, NegArg(i))
  }

  function Open(major: int, indef: bool, n: u64): (h: seq<byte>)
    requires MAJOR_BYTES <= major <= MAJOR_MAP
    ensures h != []
  {
    if indef then [32 * major + LBITS_INDEFINITE] else Header(major, n)
  }

  function Close(indef: bool): seq<byte> {
    if indef then [BREAK] else []
  }

  function Encode(t: Item): (r: Result<seq<byte>>)
    requires Representable(t)
    ensures r.Ok? ==> r.value != [] && r.value[0] != BREAK
    decreases t
  {
    match t
    case UInt(u) => Ok(Header(MAJOR_UINT, Narrow(u)))
    case Int(i) => Ok(EncodeInt(i))
    case Bytes(_, bs) => Ok(Header(MAJOR_BYTES, |bs|) + bs)
    case Text(_, bs) => Ok(Header(MAJOR_TEXT, |CStr(bs)|) + CStr(bs))
    case Array(indef, ts) =>
      var body :- EncodeAll(ts);
      Ok(Open(MAJOR_ARRAY, indef, |ts|) + body + Close(indef))
    case Map(indef, ts) =>
      var body :- EncodeAll(ts);
      if CountAll(ts) % 2 != 0 then Err(ErrNitems)
      else Ok(Open(MAJOR_MAP, indef, |ts| / 2) + body + Close(indef))
    case Tag(_, num, x) =>
      var body :- Encode(x);
      Ok(Header(MAJOR_TAG, num % 0x1_0000_0000) + body)
    case Sval(v) => EncodeSval(v)
  }

  function EncodeAll(ts: seq<Item>): (r: Result<seq<byte>>)
    requires AllRepresentable(ts)
    decreases ts
  {
    if ts == [] then Ok([])
    else
      var w :- Encode(ts[0]);
      var ws :- EncodeAll(ts[1..]);
      Ok(w + ws)
  }

  // ---------- decoding ----------

  /** What `predecode` learns from an initial byte and its argument. An indefinite item has no argument. */
  datatype Head = Break | Head(major: int, indef: bool, arg: u64)

  datatype Predecoded = Predecoded(head: Head, rest: seq<byte>)

  predicate AllowsIndefinite(major: int) {
    MAJOR_BYTES <= major <= MAJOR_MAP
  }

  function Predecode(b: seq<byte>): (r: Result<Predecoded>)
    ensures r.Ok? ==> |r.value.rest| < |b|
    ensures r.Ok? ==> r.value.head.Break? == (b[0] == BREAK)
    ensures r.Ok? && r.value.head.Head? ==>
              var h := r.value.head;
              h.major == Major(b[0]) && h.indef == (LowBits(b[0]) == LBITS_INDEFINITE) &&
              (h.indef ==> AllowsIndefinite(h.major)) && (h.major == MAJOR_NEGINT ==> h.arg < TWO_63)
  {
    if b == [] then Err(ErrEof)
    else if b[0] == BREAK then Ok(Predecoded(Break, b[1..]))
    else
      var major := Major(b[0]);
      var lbits := LowBits(b[0]);
      if major == MAJOR_7 then
        var a :- ReadArg(lbits, b[1..]);
        if lbits <= LBITS_1B then Ok(Predecoded(Head(major, false, a.n), a.rest)) else Err(ErrUnsup)
      else if lbits == LBITS_INDEFINITE then
        if AllowsIndefinite(major) then Ok(Predecoded(Head(major, true, 0), b[1..])) else Err(ErrIndef)
      else
        var a :- ReadArg(lbits, b[1..]);
        if major == MAJOR_NEGINT && a.n >= TWO_63 then Err(ErrRange)
        else Ok(Predecoded(Head(major, false, a.n), a.rest))
  }

  /** `predecode_check`: the next item has to be of the given type. */
  function PredecodeCheck(major: int, b: seq<byte>): (r: Result<Predecoded>)
    ensures r.Ok? ==> Predecode(b) == r && r.value.head.Head? && r.value.head.major == major
  {
    var p :- Predecode(b);
    if p.head.Head? && p.head.major == major then Ok(p) else Err(ErrItem)
  }

  predicate AtBreak(b: seq<byte>) {
    b != [] && b[0] == BREAK
  }

  datatype StringRead = StringRead(bytes: seq<byte>, count: nat, rest: seq<byte>)

  /** The chunks of an indefinite-length string. The loop stops at the break and leaves it in the input. */
  function ReadChunks(major: int, b: seq<byte>): (r: Result<StringRead>)
    ensures r.Ok? ==> |r.value.rest| <= |b| && AtBreak(r.value.rest)
    decreases |b|
  {
    if AtBreak(b) then Ok(StringRead([], 0, b))
    else
      var p :- PredecodeCheck(major, b);
      if p.head.indef then Err(ErrIndef)
      else if |p.rest| < p.head.arg then Err(ErrEof)
      else
        var more :- ReadChunks(major, p.rest[p.head.arg..]);
        Ok(StringRead(p.rest[..p.head.arg] + more.bytes, 1 + more.count, more.rest))
  }

  /** `cbor_decode_stream` behind a string header. */
  function ReadStream(h: Head, b: seq<byte>): (r: Result<StringRead>)
    requires h.Head?
    ensures r.Ok? ==> |r.value.rest| <= |b|
  {
    if h.indef then ReadChunks(h.major, b)
    else if |b| < h.arg then Err(ErrEof)
    else Ok(StringRead(b[..h.arg], 0, b[h.arg..]))
  }

  /** A string item. The terminating NUL that text gets is written through a null pointer when the
      indefinite-length form has no chunk. */
  function ReadString(major: int, b: seq<byte>): (r: Result<StringRead>)
    ensures r.Ok? ==> |r.value.rest| < |b|
  {
    var p :- PredecodeCheck(major, b);
    var s :- ReadStream(p.head, p.rest);
    if major == MAJOR_TEXT && p.head.indef && s.count == 0 then Err(ErrUndefined)
    else Ok(StringRead(s.bytes, 1 + s.count, s.rest))
  }

  datatype Decoded = Decoded(item: Item, count: nat, rest: seq<byte>)

  datatype DecodedItems = DecodedItems(items: seq<Item>, count: nat, rest: seq<byte>)

  /** The item count a definite-length block announces; that of a map is doubled in 64 bits. */
  function BlockLen(h: Head): (n: u64)
    requires h.Head?
  {
    if h.major == MAJOR_MAP then 2 * h.arg % 0x1_0000_0000_0000_0000 else h.arg
  }

  function Limit(h: Head): Option<nat>
    requires h.Head?
  {
    if h.indef then None else Some(BlockLen(h))
  }

  /** `decode_block_end`: a break closes an indefinite block, the item count has to match in a definite one. */
  function EndBlock(indef: bool, len: nat, count: nat, b: seq<byte>): (r: Result<seq<byte>>)
    ensures r.Ok? ==> |r.value| <= |b|
  {
    if indef then
      var p :- Predecode(b);
      if p.head.Break? then Ok(p.rest) else Err(ErrBreak)
    else if count != len then Err(ErrOper)
    else Ok(b)
  }

  /** The end of an array or a map whose items have been read. */
  function FinishBlock(h: Head, xs: DecodedItems): (r: Result<Decoded>)
    requires h.Head?
    ensures r.Ok? ==> |r.value.rest| <= |xs.rest| && r.value.count == 1
  {
    if h.major == MAJOR_MAP && |xs.items| % 2 != 0 then Err(ErrNitems)
    else
      var rest :- EndBlock(h.indef, BlockLen(h), xs.count, xs.rest);
      Ok(Decoded(if h.major == MAJOR_MAP then Map(h.indef, xs.items) else Array(h.indef, xs.items), 1, rest))
  }

  function DecodeString(major: int, indef: bool, b: seq<byte>): (r: Result<Decoded>)
    ensures r.Ok? ==> |r.value.rest| < |b| && r.value.count >= 1
  {
    var s :- ReadString(major, b);
    Ok(Decoded(if major == MAJOR_BYTES then Bytes(indef, s.bytes) else Text(indef, s.bytes), s.count, s.rest))
  }

  /** `cbor_decode_item`. At the end of input `cbor_peek` sees the byte 0xFF, which is a break. */
  function Decode(b: seq<byte>): (r: Result<Decoded>)
    ensures r.Ok? ==> |r.value.rest| < |b| && r.value.count >= 1
    decreases |b|, 0
  {
    if b == [] || b[0] == BREAK then Err(ErrUnsup)
    else
      var major := Major(b[0]);
      if major == MAJOR_BYTES || major == MAJOR_TEXT then DecodeString(major, LowBits(b[0]) == LBITS_INDEFINITE, b)
      else
        var p :- Predecode(b);
        DecodeBody(p.head, p.rest)
  }

  /** The part of an item behind its head. */
  function DecodeBody(h: Head, b: seq<byte>): (r: Result<Decoded>)
    requires h.Head? && (h.major == MAJOR_NEGINT ==> h.arg < TWO_63)
    ensures r.Ok? ==> |r.value.rest| <= |b| && r.value.count >= 1
    decreases |b|, 2
  {
    if h.major == MAJOR_UINT then Ok(Decoded(UInt(h.arg), 1, b))
    else if h.major == MAJOR_NEGINT then Ok(Decoded(Int(NegValue(h.arg)), 1, b))
    else if h.major == MAJOR_ARRAY || h.major == MAJOR_MAP then
      var xs :- DecodeItems(b, Limit(h));
      FinishBlock(h, xs)
    else if h.major == MAJOR_TAG then
      if h.arg >= TWO_32 then Err(ErrRange)
      else
        var x :- Decode(b);
        Ok(Decoded(Tag(h.arg, 0, x.item), 1 + x.count, x.rest))
    else Ok(Decoded(Sval(h.arg), 1, b))
  }

  function OneLess(limit: Option<nat>): Option<nat>
    requires limit != Some(0)
  {
    if limit.None? then None else Some(limit.value - 1)
  }

  /** `decode_array_items`: at most `limit` items, up to an early break. */
  function DecodeItems(b: seq<byte>, limit: Option<nat>): (r: Result<DecodedItems>)
    ensures r.Ok? ==> |r.value.rest| <= |b| && r.value.count >= |r.value.items|
    ensures r.Ok? && limit.None? ==> AtBreak(r.value.rest)
    decreases |b|, 1
  {
    if limit == Some(0) || AtBreak(b) then Ok(DecodedItems([], 0, b))
    else
      var x :- Decode(b);
      var xs :- DecodeItems(x.rest, OneLess(limit));
      Ok(DecodedItems([x.item] + xs.items, x.count + xs.count, xs.rest))
  }

  // ---------- reading single values ----------

  datatype NumberRead = NumberRead(n: int, rest: seq<byte>)

  /** `decode_uint` looks at the argument only, whatever the major type. There is none behind a break or the header
      of an indefinite-length item, and the code then uses an uninitialised field. */
  function ReadUint(b: seq<byte>, max: u64): (r: Result<NumberRead>)
    ensures r.Ok? ==> 0 <= r.value.n <= max && |r.value.rest| < |b|
  {
    var p :- Predecode(b);
    if p.head.Break? || p.head.indef then Err(ErrUndefined)
    else if p.head.arg > max then Err(ErrRange)
    else Ok(NumberRead(p.head.arg, p.rest))
  }

  /** `decode_int`. */
  function ReadInt(b: seq<byte>, min: i64, max: i64): (r: Result<NumberRead>)
    ensures r.Ok? ==> min <= r.value.n <= max && |r.value.rest| < |b|
  {
    var p :- Predecode(b);
    if p.head.Break? || p.head.major > MAJOR_NEGINT then Err(ErrItem)
    else if p.head.major == MAJOR_UINT && p.head.arg >= TWO_63 then Err(ErrRange)
    else
      var n := if p.head.major == MAJOR_UINT then p.head.arg else NegValue(p.head.arg);
      if min <= n <= max then Ok(NumberRead(n, p.rest)) else Err(ErrRange)
  }

  const SVAL_FALSE := 20
  const SVAL_TRUE := 21

  /** `cbor_decode_sval`. */
  function ReadSval(b: seq<byte>): (r: Result<NumberRead>)
    ensures r.Ok? ==> 0 <= r.value.n && |r.value.rest| < |b|
  {
    var p :- PredecodeCheck(MAJOR_7, b);
    Ok(NumberRead(p.head.arg, p.rest))
  }

  datatype BoolRead = BoolRead(value: bool, rest: seq<byte>)

  /** `cbor_decode_bool`. */
  function ReadBool(b: seq<byte>): (r: Result<BoolRead>)
    ensures r.Ok? ==> |r.value.rest| < |b|
  {
    var v :- ReadSval(b);
    if v.n == SVAL_TRUE || v.n == SVAL_FALSE then Ok(BoolRead(v.n == SVAL_TRUE, v.rest)) else Err(ErrRange)
  }

  /** `decode_block_start`: the header of an array or a map, of the expected kind of length. */
  function ReadOpen(major: int, indef: bool, b: seq<byte>): (r: Result<Predecoded>)
    ensures r.Ok? ==> r.value.head.Head? && r.value.head.indef == indef && |r.value.rest| < |b|
  {
    var p :- PredecodeCheck(major, b);
    if p.head.indef == indef then Ok(p) else Err(ErrIndef)
  }
}
