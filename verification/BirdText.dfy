/** Routing tables as the text that BIRD prints: the serializer (`benchmark/src/serialize-bird.c`) and the
    recursive-descent parser (`benchmark/src/parser.c`) as functions on byte sequences. */
module BirdText {
  import opened Prelude

  // ---------- routing tables (`benchmark/src/benchmark.h`) ----------

  type i32 = x: int | -0x8000_0000 <= x < 0x8000_0000

  datatype Ip = Ip(a: byte, b: byte, c: byte, d: byte)

  /** `struct tm`, the three fields in use. */
  datatype Time = Time(hour: i32, min: i32, sec: i32)

  datatype Flag = Flag(flag: u32, asNo: u32)

  datatype Origin = Igp | Egp | Incomplete

  /** The union in `struct rte_attr`. In a path, `AS_LBRACE` and `AS_RBRACE` stand for the braces of a set. */
  datatype Value =
    | BgpOrigin(origin: Origin)
    | BgpNextHop(ip: Ip)
    | BgpAsPath(path: seq<i32>)
    | BgpLocalPref(pref: u32)
    | BgpCommunity(flags: seq<Flag>)
    | BgpAggregator(aggr: Ip, asNo: u32)
    | OtherAttr(key: seq<byte>, value: Option<seq<byte>>)

  const AS_LBRACE := -2
  const AS_RBRACE := -3

  datatype Attr = Attr(tflag: bool, value: Value)

  datatype RteType = RteType(bgp: bool, unicast: bool, univ: bool, static1: bool)

  datatype Source = Internal | External | U | WhoKnows

  /** `struct rte`, with names that are C strings; `uplink_from` and `as_no` are there only when their `valid` flag
      is set. */
  datatype Rte = Rte(netaddr: Ip, netmask: u32, gwaddr: Ip, ifname: seq<byte>, uplink: Time, uplinkFrom: Option<Ip>,
                     attrs: seq<Attr>, typ: RteType, asNo: Option<u32>, src: Source)

  datatype Rt = Rt(version: seq<byte>, entries: seq<Rte>)

  // ---------- characters ----------

  const EOF_BYTE := 0xFF  // read into a char, it equals BUF_EOF
  const NL := 10
  const TAB := 9
  const SPACE := 32

  function Ascii(s: string): (r: seq<byte>)
    ensures |r| == |s|
  {
    seq(|s|, i requires 0 <= i < |s| => s[i] as int % 0x100)
  }

  predicate IsDigit(c: byte) {
    '0' as int <= c <= '9' as int
  }

  /** `isalnum` in the C locale. */
  predicate IsAlnum(c: byte) {
    IsDigit(c) || 'A' as int <= c <= 'Z' as int || 'a' as int <= c <= 'z' as int
  }

  datatype CharClass = Alnum | KeyChars | LineChars {
    predicate Has(c: byte) {
      match this
      case Alnum => IsAlnum(c)
      case KeyChars => IsAlnum(c) || c == '.' as int || c == '_' as int
      case LineChars => c != NL && c != EOF_BYTE
    }
  }

  predicate IsBlank(c: byte) {
    c == SPACE || c == TAB
  }

  // ---------- the printer ----------

  function Decimal(n: nat): (r: seq<byte>)
    ensures r != [] && forall i :: 0 <= i < |r| ==> IsDigit(r[i])
  {
    (if n < 10 then [] else Decimal(n / 10)) + [48 + n % 10]
  }

  /** A negative int under `%u`. */
  function Unsigned(i: i32): u32 {
    if i < 0 then i + 0x1_0000_0000 else i
  }

  function Signed(n: u32): i32 {
    if n >= 0x8000_0000 then n - 0x1_0000_0000 else n
  }

  /** `%i` of a 32-bit value. */
  function PrintSigned(n: u32): seq<byte> {
    if n < 0x8000_0000 then Decimal(n) else Ascii("-") + Decimal(0x1_0000_0000 - n)
  }

  /** `%02u`. */
  function TwoDigits(n: nat): (r: seq<byte>)
    ensures r != []
  {
    (if n < 10 then Ascii("0") else []) + Decimal(n)
  }

  function PrintIp(ip: Ip): (r: seq<byte>)
    ensures r != [] && IsDigit(r[0])
  {
    Decimal(ip.a) + (Ascii(".") + (Decimal(ip.b) + (Ascii(".") + (Decimal(ip.c) + (Ascii(".") + Decimal(ip.d))))))
  }

  /** `print_ipv4_net`: the mask is passed as a byte. */
  function PrintNet(ip: Ip, netmask: u32): (r: seq<byte>)
    ensures r != [] && IsDigit(r[0])
  {
    PrintIp(ip) + (Ascii("/") + Decimal(netmask % 0x100))
  }

  function Spaces(n: nat): (r: seq<byte>)
    ensures |r| == n && forall i :: 0 <= i < n ==> r[i] == SPACE
  {
    seq(n, _ => SPACE)
  }

  /** The blanks that align a network with the column of "via". */
  function Padding(len: nat): seq<byte> {
    Spaces(if len <= 17 then 18 - len else 0)
  }

  function PrintTime(t: Time): (r: seq<byte>)
    ensures r != []
  {
    TwoDigits(Unsigned(t.hour)) +
    (Ascii(":") + (TwoDigits(Unsigned(t.min)) + (Ascii(":") + TwoDigits(Unsigned(t.sec)))))
  }

  function KeyOf(v: Value): seq<byte> {
    match v
    case BgpOrigin(_) => Ascii("BGP.origin")
    case BgpNextHop(_) => Ascii("BGP.next_hop")
    case BgpAsPath(_) => Ascii("BGP.as_path")
    case BgpLocalPref(_) => Ascii("BGP.local_pref")
    case BgpCommunity(_) => Ascii("BGP.community")
    case BgpAggregator(_, _) => Ascii("BGP.aggregator")
    case OtherAttr(key, _) => key
  }

  function OriginName(o: Origin): seq<byte> {
    match o
    case Igp => Ascii("IGP")
    case Egp => Ascii("EGP")
    case Incomplete => Ascii("Incomplete")
  }

  function PrintHop(i: i32): seq<byte> {
    if i == AS_LBRACE then Ascii("{ ")
    else if i == AS_RBRACE then Ascii("} ")
    else Decimal(Unsigned(i)) + Ascii(" ")
  }

  function PrintPath(path: seq<i32>): seq<byte> {
    if path == [] then [] else PrintHop(path[0]) + PrintPath(path[1..])
  }

  function PrintFlag(f: Flag): seq<byte> {
    Ascii("(") + (Decimal(f.flag) + (Ascii(",") + (Decimal(f.asNo) + Ascii(") "))))
  }

  function PrintFlags(fs: seq<Flag>): seq<byte> {
    if fs == [] then [] else PrintFlag(fs[0]) + PrintFlags(fs[1..])
  }

  function PrintValue(v: Value): seq<byte> {
    match v
    case BgpOrigin(o) => OriginName(o)
    case BgpNextHop(ip) => PrintIp(ip)
    case BgpAsPath(path) => PrintPath(path)
    case BgpLocalPref(n) => PrintSigned(n)
    case BgpCommunity(fs) => PrintFlags(fs)
    case BgpAggregator(ip, n) => PrintIp(ip) + (Ascii(" AS") + Decimal(n))
    case OtherAttr(_, value) => if value.Some? then value.value else []
  }

  function FlagMark(tflag: bool): seq<byte> {
    if tflag then Ascii(" [t]") else []
  }

  function PrintAttr(a: Attr): (r: seq<byte>)
    ensures r != [] && r[0] == TAB
  {
    [TAB] + (KeyOf(a.value) + (FlagMark(a.tflag) + (Ascii(": ") + (PrintValue(a.value) + [NL]))))
  }

  function PrintAttrs(attrs: seq<Attr>): seq<byte> {
    if attrs == [] then [] else PrintAttr(attrs[0]) + PrintAttrs(attrs[1..])
  }

  function TypeWords(t: RteType): seq<byte> {
    (if t.bgp then Ascii("BGP ") else []) +
    ((if t.unicast then Ascii("unicast ") else []) +
     ((if t.univ then Ascii("univ ") else []) +
      (if t.static1 then Ascii("static ") else [])))
  }

  function PrintType(t: RteType): seq<byte> {
    [TAB] + (Ascii("Type: ") + (TypeWords(t) + [NL]))
  }

  function SourceChar(s: Source): byte {
    match s
    case Internal => 'i' as int
    case External => 'e' as int
    case U => 'u' as int
    case WhoKnows => '?' as int
  }

  function PrintSource(asNo: Option<u32>, src: Source): seq<byte> {
    Ascii("[") + ((if asNo.Some? then Ascii("AS") + Decimal(asNo.value) else []) + ([SourceChar(src)] + Ascii("]")))
  }

  function PrintUplink(t: Time, from: Option<Ip>): seq<byte> {
    Ascii(" [") +
    ((if from.Some? then Ascii("uplink ") else Ascii("static1 ")) +
     (PrintTime(t) + ((if from.Some? then Ascii(" from ") + PrintIp(from.value) else []) + Ascii("]"))))
  }

  function PrintHead(e: Rte): (r: seq<byte>)
    ensures r != [] && IsDigit(r[0])
  {
    PrintNet(e.netaddr, e.netmask) +
    (Padding(|PrintNet(e.netaddr, e.netmask)|) +
     (Ascii(" via ") + (PrintIp(e.gwaddr) + (Ascii(" on ") + (e.ifname + (PrintUplink(e.uplink, e.uplinkFrom) +
      (Ascii(" * (100/?) ") + (PrintSource(e.asNo, e.src) + [NL]))))))))
  }

  function PrintRte(e: Rte): (r: seq<byte>)
    ensures r != [] && IsDigit(r[0])
  {
    PrintHead(e) + (PrintType(e.typ) + PrintAttrs(e.attrs))
  }

  function PrintEntries(es: seq<Rte>): seq<byte> {
    if es == [] then [] else PrintRte(es[0]) + PrintEntries(es[1..])
  }

  /** `serialize_bird`. */
  function PrintRt(rt: Rt): seq<byte> {
    Ascii("BIRD ") + (rt.version + (Ascii(" ready.\n") + PrintEntries(rt.entries)))
  }

  // ---------- the parser ----------

  datatype Read<+T> = Read(value: T, rest: seq<byte>)

  /** The byte 0xFF ends a run of characters like the end of the input does, and is consumed. */
  function EatWs(b: seq<byte>): (r: seq<byte>)
    ensures |r| <= |b|
  {
    if b == [] then b
    else if b[0] == EOF_BYTE then b[1..]
    else if IsBlank(b[0]) then EatWs(b[1..])
    else b
  }

  function Match(word: seq<byte>, b: seq<byte>): (r: Result<seq<byte>>)
    ensures r.Ok? ==> |r.value| == |b| - |word|
  {
    if word <= b then Ok(b[|word|..]) else Err(ErrParse)
  }

  function MatchWs(word: seq<byte>, b: seq<byte>): (r: Result<seq<byte>>)
    ensures r.Ok? ==> |r.value| <= |b| - |word|
  {
    Match(word, EatWs(b))
  }

  predicate Peeks(b: seq<byte>, c: byte) {
    b != [] && b[0] == c
  }

  datatype Digits = Digits(n: u32, count: nat, rest: seq<byte>)

  /** The digit loop of `parser_try_parse_int`, in 32 bits. */
  function ScanDigits(n: u32, count: nat, b: seq<byte>): (r: Digits)
    ensures count <= r.count && |r.rest| + (r.count - count) <= |b|
    decreases |b|
  {
    if b == [] then Digits(n, count, b)
    else if b[0] == EOF_BYTE then Digits(n, count, b[1..])
    else if IsDigit(b[0]) then ScanDigits((10 * n + (b[0] - 48)) % 0x1_0000_0000, count + 1, b[1..])
    else Digits(n, count, b)
  }

  function TryInt(b: seq<byte>): (r: Digits)
    ensures |r.rest| + r.count <= |b|
  {
    ScanDigits(0, 0, EatWs(b))
  }

  function ParseU32(b: seq<byte>): (r: Result<Read<u32>>)
    ensures r.Ok? ==> |r.value.rest| < |b|
  {
    var d := TryInt(b);
    if d.count == 0 then Err(ErrParse) else Ok(Read(d.n, d.rest))
  }

  /** The loop of `parser_try_accum`. */
  function Accum(cls: CharClass, word: seq<byte>, b: seq<byte>): (r: Read<seq<byte>>)
    ensures |word| <= |r.value| && |r.rest| + (|r.value| - |word|) <= |b|
    decreases |b|
  {
    if b == [] then Read(word, b)
    else if b[0] == EOF_BYTE then Read(word, b[1..])
    else if cls.Has(b[0]) then Accum(cls, word + [b[0]], b[1..])
    else Read(word, b)
  }

  /** `parser_try_accum`; no characters are a null pointer in C and the empty sequence here. */
  function TryAccum(cls: CharClass, b: seq<byte>): (r: Read<seq<byte>>)
    ensures |r.rest| + |r.value| <= |b|
  {
    Accum(cls, [], EatWs(b))
  }

  function ParseWord(cls: CharClass, b: seq<byte>): (r: Result<Read<seq<byte>>>)
    ensures r.Ok? ==> r.value.value != [] && |r.value.rest| < |b|
  {
    var w := TryAccum(cls, b);
    if w.value == [] then Err(ErrParse) else Ok(w)
  }

  /** One byte of an address: `ipv4_set_byte` keeps its low eight bits. */
  function ParseIpByte(b: seq<byte>): (r: Result<Read<byte>>)
    ensures r.Ok? ==> |r.value.rest| < |b|
  {
    var n :- ParseU32(b);
    Ok(Read(n.value % 0x100, n.rest))
  }

  function ParseIp(b: seq<byte>): (r: Result<Read<Ip>>)
    ensures r.Ok? ==> |r.value.rest| < |b|
  {
    var b0 :- ParseIpByte(EatWs(b));
    var d0 :- Match(Ascii("."), b0.rest);
    var b1 :- ParseIpByte(d0);
    var d1 :- Match(Ascii("."), b1.rest);
    var b2 :- ParseIpByte(d1);
    var d2 :- Match(Ascii("."), b2.rest);
    var b3 :- ParseIpByte(d2);
    Ok(Read(Ip(b0.value, b1.value, b2.value, b3.value), b3.rest))
  }

  function ParseTime(b: seq<byte>): (r: Result<Read<Time>>)
    ensures r.Ok? ==> |r.value.rest| < |b|
  {
    var h :- ParseU32(b);
    var c0 :- Match(Ascii(":"), h.rest);
    var m :- ParseU32(c0);
    var c1 :- Match(Ascii(":"), m.rest);
    var s :- ParseU32(c1);
    Ok(Read(Time(Signed(h.value), Signed(m.value), Signed(s.value)), s.rest))
  }

  /** `match_eol` behind a value. */
  function AtEol<T>(r: Result<Read<T>>): Result<Read<T>> {
    if r.Err? then r
    else
      var rest :- Match([NL], r.value.rest);
      Ok(Read(r.value.value, rest))
  }

  function ParseTypeWords(t: RteType, b: seq<byte>): (r: Result<Read<RteType>>)
    ensures r.Ok? ==> |r.value.rest| < |b|
    decreases |b|
  {
    var w := TryAccum(Alnum, b);
    if w.value == [] then
      var rest :- Match([NL], w.rest);
      Ok(Read(t, rest))
    else if w.value == Ascii("BGP") then ParseTypeWords(t.(bgp := true), w.rest)
    else if w.value == Ascii("unicast") then ParseTypeWords(t.(unicast := true), w.rest)
    else if w.value == Ascii("univ") then ParseTypeWords(t.(univ := true), w.rest)
    else if w.value == Ascii("static") then ParseTypeWords(t.(static1 := true), w.rest)
    else Err(ErrParse)
  }

  const NO_TYPE := RteType(false, false, false, false)

  function ParseOrigin(b: seq<byte>): (r: Result<Read<Value>>)
    ensures r.Ok? ==> |r.value.rest| < |b|
  {
    var w :- ParseWord(Alnum, b);
    if w.value == OriginName(Igp) then Ok(Read(BgpOrigin(Igp), w.rest))
    else if w.value == OriginName(Egp) then Ok(Read(BgpOrigin(Egp), w.rest))
    else if w.value == OriginName(Incomplete) then Ok(Read(BgpOrigin(Incomplete), w.rest))
    else Err(ErrParse)
  }

  /** The loop of `parse_attr_bgp_as_path`: numbers first, then a brace and again, or the end. */
  function ParsePath(path: seq<i32>, b: seq<byte>): (r: Read<seq<i32>>)
    ensures |r.rest| <= |b|
    decreases |b|
  {
    var d := TryInt(b);
    if d.count > 0 then ParsePath(path + [Signed(d.n)], d.rest)
    else
      var c := EatWs(d.rest);
      if Peeks(c, '{' as int) then ParsePath(path + [AS_LBRACE], c[1..])
      else if Peeks(c, '}' as int) then ParsePath(path + [AS_RBRACE], c[1..])
      else Read(path, c)
  }

  /** `parse_attr_bgp_as_path` puts back what it reads behind the path, which `nb_buffer_ungetc` does not allow at the
      end of the input. */
  function PathOf(b: seq<byte>): (r: Result<Read<seq<i32>>>)
    ensures r.Ok? ==> |r.value.rest| <= |b|
  {
    var p := ParsePath([], b);
    if p.rest == [] then Err(ErrAssert) else Ok(p)
  }

  function ParseFlag(b: seq<byte>): (r: Result<Read<Flag>>)
    ensures r.Ok? ==> |r.value.rest| < |b|
  {
    var b0 :- Match(Ascii("("), b);
    var f :- ParseU32(b0);
    var b1 :- Match(Ascii(","), f.rest);
    var n :- ParseU32(b1);
    var b2 :- Match(Ascii(")"), n.rest);
    Ok(Read(Flag(f.value, n.value), b2))
  }

  /** The loop of `parse_attr_bgp_community`. */
  function ParseFlags(fs: seq<Flag>, b: seq<byte>): (r: Result<Read<seq<Flag>>>)
    ensures r.Ok? ==> |r.value.rest| <= |b|
    decreases |b|
  {
    var c := EatWs(b);
    if !Peeks(c, '(' as int) then Ok(Read(fs, c))
    else
      var f :- ParseFlag(c);
      ParseFlags(fs + [f.value], f.rest)
  }

  function ParseAggregator(b: seq<byte>): (r: Result<Read<Value>>)
    ensures r.Ok? ==> |r.value.rest| < |b|
  {
    var ip :- ParseIp(b);
    var b1 :- MatchWs(Ascii("AS"), ip.rest);
    var n :- ParseU32(b1);
    Ok(Read(BgpAggregator(ip.value, n.value), n.rest))
  }

  /** The line is copied as a C string. */
  function ParseOther(key: seq<byte>, b: seq<byte>): (r: Read<Value>)
    ensures |r.rest| <= |b|
  {
    var v := TryAccum(LineChars, EatWs(b));
    Read(OtherAttr(key, if v.value == [] then None else Some(CStr(v.value))), v.rest)
  }

  /** The handlers of `parse_rte_attrs` that make an attribute, up to the end of the line. */
  function ParseValue(key: seq<byte>, b: seq<byte>): (r: Result<Read<Value>>)
    ensures r.Ok? ==> |r.value.rest| <= |b|
  {
    if key == Ascii("BGP.origin") then ParseOrigin(b)
    else if key == Ascii("BGP.as_path") then
      var p :- PathOf(b);
      Ok(Read(BgpAsPath(p.value), p.rest))
    else if key == Ascii("BGP.next_hop") then
      var ip :- ParseIp(b);
      Ok(Read(BgpNextHop(ip.value), ip.rest))
    else if key == Ascii("BGP.local_pref") then
      var n :- ParseU32(b);
      Ok(Read(BgpLocalPref(n.value), n.rest))
    else if key == Ascii("BGP.community") then
      var fs :- ParseFlags([], b);
      Ok(Read(BgpCommunity(fs.value), fs.rest))
    else if key == Ascii("BGP.aggregator") then ParseAggregator(b)
    else Ok(ParseOther(key, b))
  }

  datatype Key = Key(key: seq<byte>, tflag: bool)

  /** The key of an attribute, the `[t]` flag and the colon. */
  function ParseKey(b: seq<byte>): (r: Result<Read<Key>>)
    ensures r.Ok? ==> |r.value.rest| < |b|
  {
    var k :- ParseWord(KeyChars, b);
    var c := EatWs(k.rest);
    var tflag := Peeks(c, '[' as int);
    var v :- Match(if tflag then Ascii("[t]:") else Ascii(":"), c);
    Ok(Read(Key(k.value, tflag), EatWs(v)))
  }

  datatype Details = Details(typ: RteType, attrs: seq<Attr>)

  /** The line of one attribute behind its tabulator. */
  function ParseAttrLine(d: Details, b: seq<byte>): (r: Result<Read<Details>>)
    ensures r.Ok? ==> |r.value.rest| < |b|
  {
    var k :- ParseKey(b);
    if k.value.key == Ascii("Type") then
      var t :- ParseTypeWords(NO_TYPE, k.rest);
      if k.value.tflag then Err(ErrParse) else Ok(Read(d.(typ := t.value), t.rest))
    else
      var v :- AtEol(ParseValue(k.value.key, k.rest));
      Ok(Read(d.(attrs := d.attrs + [Attr(k.value.tflag, v.value)]), v.rest))
  }

  /** `parse_rte_attrs`. */
  function ParseAttrs(d: Details, b: seq<byte>): (r: Result<Read<Details>>)
    ensures r.Ok? ==> |r.value.rest| <= |b|
    decreases |b|
  {
    if b == [] then Ok(Read(d, b))
    else if b[0] == EOF_BYTE then Ok(Read(d, b[1..]))
    else if b[0] != TAB then Ok(Read(d, b))
    else
      var a :- ParseAttrLine(d, b[1..]);
      ParseAttrs(a.value, a.rest)
  }

  datatype Origins = Origins(asNo: Option<u32>, src: Source)

  /** `parse_as_name`. */
  function ParseSource(b: seq<byte>): (r: Result<Read<Origins>>)
    ensures r.Ok? ==> |r.value.rest| < |b|
  {
    if Peeks(b, 'A' as int) then
      var b1 :- Match(Ascii("AS"), b);
      var n :- ParseU32(b1);
      ParseSourceChar(Some(n.value), n.rest)
    else ParseSourceChar(None, b)
  }

  function ParseSourceChar(asNo: Option<u32>, b: seq<byte>): (r: Result<Read<Origins>>)
    ensures r.Ok? ==> |r.value.rest| < |b|
  {
    if Peeks(b, 'i' as int) then Ok(Read(Origins(asNo, Internal), b[1..]))
    else if Peeks(b, 'e' as int) then Ok(Read(Origins(asNo, External), b[1..]))
    else if Peeks(b, 'u' as int) then Ok(Read(Origins(asNo, U), b[1..]))
    else if Peeks(b, '?' as int) then Ok(Read(Origins(asNo, WhoKnows), b[1..]))
    else Err(ErrParse)
  }

  /** What stands between the uplink and the source, as far as a bracket, the end of the line, or 0xFF. */
  function SkipToBracket(b: seq<byte>): (r: Read<bool>)
    ensures |r.rest| <= |b|
  {
    if b == [] then Read(false, b)
    else if b[0] == EOF_BYTE then Read(false, b[1..])
    else if b[0] == NL then Read(false, b)
    else if b[0] == '[' as int then Read(true, b[1..])
    else SkipToBracket(b[1..])
  }

  /** A line without a source keeps the zeros of a new entry. */
  function ParseOrigins(b: seq<byte>): (r: Result<Read<Origins>>)
    ensures r.Ok? ==> |r.value.rest| <= |b|
  {
    var s := SkipToBracket(b);
    if s.value then
      var o :- ParseSource(s.rest);
      var rest :- Match(Ascii("]"), o.rest);
      Ok(Read(o.value, rest))
    else Ok(Read(Origins(None, Internal), s.rest))
  }

  datatype Uplink = Uplink(time: Time, from: Option<Ip>)

  function ParseUplink(b: seq<byte>): (r: Result<Read<Uplink>>)
    ensures r.Ok? ==> |r.value.rest| < |b|
  {
    var b0 :- MatchWs(Ascii("["), b);
    if Peeks(b0, 's' as int) then
      var b1 :- MatchWs(Ascii("static1"), b0);
      var t :- ParseTime(EatWs(b1));
      var b2 :- MatchWs(Ascii("]"), t.rest);
      Ok(Read(Uplink(t.value, None), b2))
    else
      var b1 :- MatchWs(Ascii("uplink"), b0);
      var t :- ParseTime(EatWs(b1));
      var b2 :- MatchWs(Ascii("from"), t.rest);
      var ip :- ParseIp(b2);
      var b3 :- MatchWs(Ascii("]"), ip.rest);
      Ok(Read(Uplink(t.value, Some(ip.value)), b3))
  }

  datatype Net = Net(ip: Ip, mask: u32)

  function ParseNet(b: seq<byte>): (r: Result<Read<Net>>)
    ensures r.Ok? ==> |r.value.rest| < |b|
  {
    var ip :- ParseIp(b);
    var b1 :- Match(Ascii("/"), ip.rest);
    var mask :- ParseU32(b1);
    Ok(Read(Net(ip.value, mask.value), EatWs(mask.rest)))
  }

  datatype Route = Route(net: Net, gwaddr: Ip, ifname: seq<byte>)

  /** The first line of an entry as far as the name of the interface. */
  function ParseRoute(b: seq<byte>): (r: Result<Read<Route>>)
    ensures r.Ok? ==> |r.value.rest| < |b|
  {
    var net :- ParseNet(b);
    var b1 :- MatchWs(Ascii("via"), net.rest);
    var gw :- ParseIp(b1);
    var b2 :- MatchWs(Ascii("on"), gw.rest);
    var name :- ParseWord(Alnum, b2);
    Ok(Read(Route(net.value, gw.value, name.value), name.rest))
  }

  /** `parse_rte` up to the attributes. */
  function ParseHead(b: seq<byte>): (r: Result<Read<Rte>>)
    ensures r.Ok? ==> |r.value.rest| < |b|
  {
    var route :- ParseRoute(b);
    var up :- ParseUplink(route.rest);
    var src :- AtEol(ParseOrigins(up.rest));
    Ok(Read(Rte(route.value.net.ip, route.value.net.mask, route.value.gwaddr, route.value.ifname, up.value.time,
                up.value.from, [], NO_TYPE, src.value.asNo, src.value.src), src.rest))
  }

  /** `parse_rte`. */
  function ParseRte(b: seq<byte>): (r: Result<Read<Rte>>)
    ensures r.Ok? ==> |r.value.rest| < |b|
  {
    var h :- ParseHead(b);
    var d :- ParseAttrs(Details(NO_TYPE, []), h.rest);
    Ok(Read(h.value.(typ := d.value.typ, attrs := d.value.attrs), d.rest))
  }

  function ParseEntries(es: seq<Rte>, b: seq<byte>): Result<seq<Rte>>
    decreases |b|
  {
    if b == [] || b[0] == EOF_BYTE then Ok(es)
    else
      var e :- ParseRte(b);
      ParseEntries(es + [e.value], e.rest)
  }

  /** `parser_parse_rt`. */
  function ParseRt(b: seq<byte>): Result<Rt> {
    var b1 :- Match(Ascii("BIRD "), b);
    var version :- ParseWord(KeyChars, b1);
    var b2 :- Match(Ascii(" ready."), version.rest);
    var b3 :- Match([NL], b2);
    var es :- ParseEntries([], b3);
    Ok(Rt(version.value, es))
  }
}
