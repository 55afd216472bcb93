/** Decoding what was encoded: for every item the encoder accepts, the exact outcome of the decoder. */
module CborRoundTrip {
  import opened Prelude
  import opened Wire
  import opened Cbor

  /** What comes back. Unsigned values lose their high half, a non-negative `Int` is read as unsigned, text ends
      at its first NUL, strings come back with definite length, and a tag number moves to the other field. */
  function Received(t: Item): (r: Item)
    ensures Count(r) == Count(t)
  {
    match t
    case UInt(u) => UInt(Narrow(u))
    case Int(i) => if i >= 0 then UInt(i) else t
    case Bytes(_, bs) => Bytes(false, bs)
    case Text(_, bs) => Text(false, CStr(bs))
    case Array(indef, ts) => Array(indef, AllReceived(ts))
    case Map(indef, ts) => Map(indef, AllReceived(ts))
    case Tag(_, num, x) => Tag(num % 0x1_0000_0000, 0, Received(x))
    case Sval(_) => t
  }

  function AllReceived(ts: seq<Item>): (rs: seq<Item>)
    ensures |rs| == |ts|
  {
    if ts == [] then [] else [Received(ts[0])] + AllReceived(ts[1..])
  }

  /** No array or map of definite length directly holds a tagged item: its tag would be counted as an item. */
  predicate TagSafe(t: Item) {
    match t
    case Array(indef, ts) => AllTagSafe(ts) && (indef || CountAll(ts) == |ts|)
    case Map(indef, ts) => AllTagSafe(ts) && (indef || CountAll(ts) == |ts|)
    case Tag(_, _, x) => TagSafe(x)
    case _ => true
  }

  predicate AllTagSafe(ts: seq<Item>) {
    ts == [] || (TagSafe(ts[0]) && AllTagSafe(ts[1..]))
  }

  lemma PredecodeHeader(h: seq<byte>, major: int, n: u64, rest: seq<byte>)
    requires 0 <= major <= 6 && IsHeader(h, major, n)
    requires major == MAJOR_NEGINT ==> n < TWO_63
    ensures Predecode(h + rest) == Ok(Predecoded(Head(major, false, n), rest))
    ensures (h + rest)[0] == h[0] != BREAK
  {
    hide IsHeader, ReadArg, Major, LowBits;
    HeadersAreRead(h, major, n);
    ReadArgAppend(LowBits(h[0]), h[1..], rest);
    BreakByte(h[0]);
    assert (h + rest)[1..] == h[1..] + rest;
    assert [] + rest == rest;
  }

  lemma PredecodeWritten(major: int, n: u64, rest: seq<byte>)
    requires 0 <= major <= 6
    requires major == MAJOR_NEGINT ==> n < TWO_63
    ensures Predecode(Header(major, n) + rest) == Ok(Predecoded(Head(major, false, n), rest))
  {
    HeaderRoundTrip(major, n);
    PredecodeHeader(Header(major, n), major, n, rest);
  }

  lemma PredecodeOpen(major: int, indef: bool, n: u64, rest: seq<byte>)
    requires MAJOR_ARRAY <= major <= MAJOR_MAP
    ensures Predecode(Open(major, indef, n) + rest) == Ok(Predecoded(Head(major, indef, if indef then 0 else n), rest))
  {
    if indef {
      assert (Open(major, indef, n) + rest)[1..] == rest;
    } else {
      PredecodeWritten(major, n, rest);
    }
  }

  lemma ReadWrittenString(major: int, bs: seq<byte>, rest: seq<byte>)
    requires major == MAJOR_BYTES || major == MAJOR_TEXT
    requires |bs| < TWO_64
    ensures ReadString(major, Header(major, |bs|) + bs + rest) == Ok(StringRead(bs, 1, rest))
  {
    PredecodeWritten(major, |bs|, bs + rest);
    assert Header(major, |bs|) + bs + rest == Header(major, |bs|) + (bs + rest);
    assert (bs + rest)[..|bs|] == bs && (bs + rest)[|bs|..] == rest;
  }

  lemma RoundTripInt(i: i64, rest: seq<byte>)
    ensures Decode(EncodeInt(i) + rest) == Ok(Decoded(if i >= 0 then UInt(i) else Int(i), 1, rest))
  {
    if i >= 0 {
      PredecodeWritten(MAJOR_UINT, i, rest);
    } else {
      PredecodeWritten(MAJOR_NEGINT, NegArg(i), rest);
    }
  }

  lemma RoundTripSval(v: nat, rest: seq<byte>)
    requires v <= 255
    ensures Decode(EncodeSval(v).value + rest) == Ok(Decoded(Sval(v), 1, rest))
  {
    var w := EncodeSval(v).value;
    if v <= 23 {
      assert (w + rest)[1..] == rest;
    } else {
      assert (w + rest)[1..] == [v] + rest;
      assert ([v] + rest)[..1] == [v] && ([v] + rest)[1..] == rest;
      assert FromBigEndian([v]) == v;
    }
  }

  /** Of whatever was encoded, decoding gives back the item up to `Received` and stops at its last byte if the item is
      tag-safe, and fails with a count mismatch otherwise. */
  lemma {:induction false} RoundTripOf(t: Item, w: seq<byte>, rest: seq<byte>)
    requires Representable(t) && Encode(t) == Ok(w)
    ensures Decode(w + rest) == if TagSafe(t) then Ok(Decoded(Received(t), Count(t), rest)) else Err(ErrOper)
    decreases t, 1
  {
    match t
    case UInt(u) => RoundTripUInt(u, rest);
    case Int(i) => RoundTripInt(i, rest);
    case Bytes(_, bs) => RoundTripBytes(t, rest);
    case Text(_, bs) => RoundTripText(t, rest);
    case Array(_, _) => RoundTripBlock(t, w, rest);
    case Map(_, _) => RoundTripBlock(t, w, rest);
    case Tag(_, num, x) => RoundTripTag(t, w, rest);
    case Sval(v) => RoundTripSval(v, rest);
  }

  lemma RoundTripUInt(u: u64, rest: seq<byte>)
    ensures Decode(Header(MAJOR_UINT, Narrow(u)) + rest) == Ok(Decoded(UInt(Narrow(u)), 1, rest))
  {
    PredecodeWritten(MAJOR_UINT, Narrow(u), rest);
  }

  lemma RoundTripBytes(t: Item, rest: seq<byte>)
    requires t.Bytes? && Representable(t)
    ensures Decode(Encode(t).value + rest) == Ok(Decoded(Bytes(false, t.bytes), 1, rest))
  {
    ReadWrittenString(MAJOR_BYTES, t.bytes, rest);
  }

  lemma RoundTripText(t: Item, rest: seq<byte>)
    requires t.Text? && Representable(t)
    ensures Decode(Encode(t).value + rest) == Ok(Decoded(Text(false, CStr(t.bytes)), 1, rest))
  {
    ReadWrittenString(MAJOR_TEXT, CStr(t.bytes), rest);
  }

  /** Behind the header, decoding is decoding the body. */
  lemma DecodeOpened(h: seq<byte>, head: Head, b: seq<byte>)
    requires h != [] && head.Head? && Predecode(h + b) == Ok(Predecoded(head, b))
    requires head.major != MAJOR_BYTES && head.major != MAJOR_TEXT
    ensures Decode(h + b) == DecodeBody(head, b)
  {
    hide DecodeBody;
  }

  lemma DecodeTagged(n: u32, b: seq<byte>)
    ensures var x := Decode(b);
            Decode(Header(MAJOR_TAG, n) + b) ==
            if x.Err? then x else Ok(Decoded(Tag(n, 0, x.value.item), 1 + x.value.count, x.value.rest))
  {
    hide Decode, Predecode, Header;
    PredecodeWritten(MAJOR_TAG, n, b);
    DecodeOpened(Header(MAJOR_TAG, n), Head(MAJOR_TAG, false, n), b);
  }

  lemma {:induction false} RoundTripTag(t: Item, w: seq<byte>, rest: seq<byte>)
    requires t.Tag? && Representable(t) && Encode(t) == Ok(w)
    ensures Decode(w + rest) == if TagSafe(t) then Ok(Decoded(Received(t), Count(t), rest)) else Err(ErrOper)
    decreases t, 0
  {
    hide Decode, Header;
    var h := Header(MAJOR_TAG, t.num % 0x1_0000_0000);
    var body := Encode(t.item).value;
    assert h + body + rest == h + (body + rest);
    DecodeTagged(t.num % 0x1_0000_0000, body + rest);
    RoundTripOf(t.item, body, rest);
  }

  lemma EndWritten(indef: bool, len: nat, count: nat, rest: seq<byte>)
    ensures EndBlock(indef, len, count, Close(indef) + rest)
         == if indef || count == len then Ok(rest) else Err(ErrOper)
  {
    if indef {
      assert (Close(true) + rest)[1..] == rest;
    } else {
      assert Close(false) + rest == rest;
    }
  }

  lemma {:induction false} RoundTripBlock(t: Item, w: seq<byte>, rest: seq<byte>)
    requires (t.Array? || t.Map?) && Representable(t) && Encode(t) == Ok(w)
    ensures Decode(w + rest) == if TagSafe(t) then Ok(Decoded(Received(t), 1, rest)) else Err(ErrOper)
    decreases t, 0
  {
    hide Decode, DecodeItems, FinishBlock, Open, BlockLen, Encode, EncodeAll;
    var major := if t.Map? then MAJOR_MAP else MAJOR_ARRAY;
    var n := if t.Map? then |t.items| / 2 else |t.items|;
    var head := Head(major, t.indef, if t.indef then 0 else n);
    var body := EncodedBlock(t, w, rest);
    DecodeBlock(major, t.indef, n, body + (Close(t.indef) + rest));
    RoundTripAll(t.items, body, Close(t.indef) + rest, Limit(head));
    if AllTagSafe(t.items) {
      FinishWritten(head, AllReceived(t.items), CountAll(t.items), rest);
    }
  }

  lemma EncodedBlock(t: Item, w: seq<byte>, rest: seq<byte>) returns (body: seq<byte>)
    requires (t.Array? || t.Map?) && Representable(t) && Encode(t) == Ok(w)
    ensures AllRepresentable(t.items) && EncodeAll(t.items) == Ok(body)
    ensures var major := if t.Map? then MAJOR_MAP else MAJOR_ARRAY;
            var n := if t.Map? then |t.items| / 2 else |t.items|;
            w + rest == Open(major, t.indef, n) + (body + (Close(t.indef) + rest)) &&
            BlockLen(Head(major, false, n)) == |t.items|
    ensures t.Map? ==> |t.items| % 2 == 0
  {
    hide Open, Close, EncodeAll, AllRepresentable, CountAll;
    body := EncodeAll(t.items).value;
    var o := Open(if t.Map? then MAJOR_MAP else MAJOR_ARRAY, t.indef, if t.Map? then |t.items| / 2 else |t.items|);
    var c := Close(t.indef);
    assert w == o + body + c;
    assert o + body + c + rest == o + (body + (c + rest));
  }

  lemma DecodeBlock(major: int, indef: bool, n: u64, b: seq<byte>)
    requires MAJOR_ARRAY <= major <= MAJOR_MAP
    ensures var h := Head(major, indef, if indef then 0 else n);
            var xs := DecodeItems(b, Limit(h));
            Decode(Open(major, indef, n) + b) == if xs.Err? then Err(xs.error) else FinishBlock(h, xs.value)
  {
    hide DecodeItems, FinishBlock, Decode, Predecode, Open;
    PredecodeOpen(major, indef, n, b);
    DecodeOpened(Open(major, indef, n), Head(major, indef, if indef then 0 else n), b);
  }

  lemma FinishWritten(h: Head, ts: seq<Item>, count: nat, rest: seq<byte>)
    requires h.Head? && (h.major == MAJOR_MAP ==> |ts| % 2 == 0)
    ensures FinishBlock(h, DecodedItems(ts, count, Close(h.indef) + rest))
         == if h.indef || count == BlockLen(h)
            then Ok(Decoded(if h.major == MAJOR_MAP then Map(h.indef, ts) else Array(h.indef, ts), 1, rest))
            else Err(ErrOper)
  {
    EndWritten(h.indef, BlockLen(h), count, rest);
  }

  lemma {:induction false} RoundTripAll(ts: seq<Item>, w: seq<byte>, rest: seq<byte>, limit: Option<nat>)
    requires AllRepresentable(ts) && EncodeAll(ts) == Ok(w)
    requires limit == Some(|ts|) || ((limit.None? || limit.value > |ts|) && AtBreak(rest))
    ensures DecodeItems(w + rest, limit)
         == if AllTagSafe(ts) then Ok(DecodedItems(AllReceived(ts), CountAll(ts), rest)) else Err(ErrOper)
    decreases ts, 0
  {
    if ts == [] {
      assert w + rest == rest;
    } else {
      var w0 := Encode(ts[0]).value;
      var ws := EncodeAll(ts[1..]).value;
      assert w + rest == w0 + (ws + rest);
      RoundTripOf(ts[0], w0, ws + rest);
      if TagSafe(ts[0]) {
        RoundTripAll(ts[1..], ws, rest, OneLess(limit));
        DecodeItemsStep(w + rest, limit, Decoded(Received(ts[0]), Count(ts[0]), ws + rest));
        if AllTagSafe(ts[1..]) {
          var all := DecodeItems(w + rest, limit).value;
          assert all.items == AllReceived(ts) && all.count == CountAll(ts) && all.rest == rest;
        }
      }
    }
  }

  /** The first item decides how the loop goes on. */
  lemma DecodeItemsStep(b: seq<byte>, limit: Option<nat>, x: Decoded)
    requires !AtBreak(b) && limit != Some(0) && Decode(b) == Ok(x)
    ensures var more := DecodeItems(x.rest, OneLess(limit));
            DecodeItems(b, limit) ==
            if more.Err? then more
            else Ok(DecodedItems([x.item] + more.value.items, x.count + more.value.count, more.value.rest))
  {
    hide Decode;
  }

  // ---------- what can be encoded ----------

  function TagDepth(t: Item): nat {
    if t.Tag? then 1 + TagDepth(t.item) else 0
  }

  function NumTags(ts: seq<Item>): nat {
    if ts == [] then 0 else TagDepth(ts[0]) + NumTags(ts[1..])
  }

  lemma {:induction false} CountIsTags(t: Item)
    ensures Count(t) == 1 + TagDepth(t)
  {
    if t.Tag? {
      CountIsTags(t.item);
    }
  }

  lemma {:induction false} CountAllIsTags(ts: seq<Item>)
    ensures CountAll(ts) == |ts| + NumTags(ts)
  {
    if ts != [] {
      CountIsTags(ts[0]);
      CountAllIsTags(ts[1..]);
    }
  }

  /** Simple values are bytes, and the items in a map come in pairs although their tags count. */
  predicate Encodable(t: Item) {
    match t
    case Array(_, ts) => AllEncodable(ts)
    case Map(_, ts) => AllEncodable(ts) && NumTags(ts) % 2 == 0
    case Tag(_, _, x) => Encodable(x)
    case Sval(v) => v <= 255
    case _ => true
  }

  predicate AllEncodable(ts: seq<Item>) {
    ts == [] || (Encodable(ts[0]) && AllEncodable(ts[1..]))
  }

  /** What goes wrong first, from the leaves up and from left to right. */
  function FirstError(t: Item): Option<NbErr> {
    match t
    case Array(_, ts) => FirstErrorIn(ts)
    case Map(_, ts) =>
      if FirstErrorIn(ts).Some? then FirstErrorIn(ts)
      else if NumTags(ts) % 2 != 0 then Some(ErrNitems) else None
    case Tag(_, _, x) => FirstError(x)
    case Sval(v) => if v > 255 then Some(ErrRange) else None
    case _ => None
  }

  function FirstErrorIn(ts: seq<Item>): Option<NbErr> {
    if ts == [] then None
    else if FirstError(ts[0]).Some? then FirstError(ts[0])
    else FirstErrorIn(ts[1..])
  }

  /** Encoding succeeds if and only if the item is encodable, and fails with its first error otherwise. */
  lemma {:induction false} EncodesIff(t: Item)
    requires Representable(t)
    ensures Encode(t).Ok? <==> Encodable(t)
    ensures FirstError(t) == if Encode(t).Ok? then None else Some(Encode(t).error)
    decreases t, 1
  {
    hide Header, EncodeAll, EncodeInt;
    match t
    case Array(_, ts) => AllEncodeIff(ts);
    case Map(_, ts) =>
      AllEncodeIff(ts);
      CountAllIsTags(ts);
    case Tag(_, _, x) => EncodesIff(x);
    case _ =>
  }

  lemma {:induction false} AllEncodeIff(ts: seq<Item>)
    requires AllRepresentable(ts)
    ensures EncodeAll(ts).Ok? <==> AllEncodable(ts)
    ensures FirstErrorIn(ts) == if EncodeAll(ts).Ok? then None else Some(EncodeAll(ts).error)
    decreases ts, 0
  {
    hide Encode, Encodable, FirstError;
    if ts != [] {
      EncodesIff(ts[0]);
      AllEncodeIff(ts[1..]);
    }
  }

  /** The main result, for every item that a C value can hold: it is encoded if and only if it is encodable; and then
      decoding gives it back up to `Received`, with exactly the rest of the input left, if it is tag-safe, and fails
      with a count mismatch otherwise. */
  lemma RoundTrip(t: Item, rest: seq<byte>)
    requires Representable(t)
    ensures Encode(t).Ok? <==> Encodable(t)
    ensures Encodable(t) ==>
              Decode(Encode(t).value + rest) ==
              if TagSafe(t) then Ok(Decoded(Received(t), Count(t), rest)) else Err(ErrOper)
  {
    hide Decode, Encode, Encodable, Received, TagSafe, FirstError;
    EncodesIff(t);
    if Encodable(t) {
      RoundTripOf(t, Encode(t).value, rest);
    }
  }

  // ---------- when the item itself comes back ----------

  /** Items that the encoding loses nothing of. */
  predicate Faithful(t: Item) {
    match t
    case UInt(u) => u < TWO_32
    case Int(i) => i < 0
    case Bytes(indef, _) => !indef
    case Text(indef, bs) => !indef && 0 !in bs
    case Array(_, ts) => AllFaithful(ts)
    case Map(_, ts) => AllFaithful(ts)
    case Tag(tag, num, x) => num == 0 && tag == 0 && Faithful(x)
    case Sval(_) => true
  }

  predicate AllFaithful(ts: seq<Item>) {
    ts == [] || (Faithful(ts[0]) && AllFaithful(ts[1..]))
  }

  lemma {:induction false} ReceivedUnchanged(t: Item)
    ensures Received(t) == t <==> Faithful(t)
    decreases t, 1
  {
    match t
    case Text(_, bs) =>
      if 0 !in bs { CStrOfCString(bs); }
    case Array(_, ts) => AllReceivedUnchanged(ts);
    case Map(_, ts) => AllReceivedUnchanged(ts);
    case Tag(_, _, x) => ReceivedUnchanged(x);
    case _ =>
  }

  lemma {:induction false} AllReceivedUnchanged(ts: seq<Item>)
    ensures AllReceived(ts) == ts <==> AllFaithful(ts)
    decreases ts, 0
  {
    if ts != [] {
      ReceivedUnchanged(ts[0]);
      AllReceivedUnchanged(ts[1..]);
      var rs := AllReceived(ts);
      assert rs[0] == Received(ts[0]) && rs[1..] == AllReceived(ts[1..]);
      assert ts == [ts[0]] + ts[1..];
    }
  }

  /** An item comes back identical, with exactly the rest of the input left, if and only if no value was truncated, no
      string lost a NUL or its flag, and no tag is directly inside a definite-length block. */
  lemma IdentityRoundTrip(t: Item, rest: seq<byte>)
    requires Representable(t) && Encodable(t)
    ensures Encode(t).Ok?
    ensures Decode(Encode(t).value + rest) == Ok(Decoded(t, Count(t), rest)) <==> Faithful(t) && TagSafe(t)
  {
    RoundTrip(t, rest);
    ReceivedUnchanged(t);
  }

  /** The smallest value that the 32-bit path loses. */
  lemma WideUIntIsLost(rest: seq<byte>)
    ensures Encode(UInt(TWO_32)).Ok?
    ensures Decode(Encode(UInt(TWO_32)).value + rest) == Ok(Decoded(UInt(0), 1, rest))
  {
    hide Decode, Header;
    RoundTrip(UInt(TWO_32), rest);
  }
}
