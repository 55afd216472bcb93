/** What the parser makes of the text that the serializer prints. */
module BirdRoundTrip {
  import opened Prelude
  import opened BirdText

  // ---------- what comes back ----------

  /** Built-in keys, which an attribute of another kind cannot have. */
  predicate BuiltIn(key: seq<byte>) {
    key == Ascii("Type") || key == Ascii("BGP.origin") || key == Ascii("BGP.as_path") || key == Ascii("BGP.next_hop") ||
    key == Ascii("BGP.local_pref") || key == Ascii("BGP.community") || key == Ascii("BGP.aggregator")
  }

  predicate AllIn(cls: CharClass, w: seq<byte>) {
    forall i :: 0 <= i < |w| ==> cls.Has(w[i])
  }

  /** Keys are words that are not built in, and free values are single lines without leading blanks. */
  predicate LegalValue(v: Value) {
    v.OtherAttr? ==>
      && v.key != [] && AllIn(KeyChars, v.key) && !BuiltIn(v.key)
      && (v.value.Some? ==>
            0 !in v.value.value && AllIn(LineChars, v.value.value) &&
              (v.value.value != [] ==> !IsBlank(v.value.value[0])))
  }

  predicate LegalRte(e: Rte) {
    && e.ifname != [] && AllIn(Alnum, e.ifname)
    && forall i :: 0 <= i < |e.attrs| ==> LegalValue(e.attrs[i].value)
  }

  /** What the text format can express at all. */
  predicate Legal(rt: Rt) {
    && rt.version != [] && AllIn(KeyChars, rt.version)
    && forall i :: 0 <= i < |rt.entries| ==> LegalRte(rt.entries[i])
  }

  /** A local preference is printed with a sign and read without one. */
  predicate PrefFits(v: Value) {
    v.BgpLocalPref? ==> v.pref < 0x8000_0000
  }

  predicate RtePrefsFit(e: Rte) {
    forall i :: 0 <= i < |e.attrs| ==> PrefFits(e.attrs[i].value)
  }

  predicate PrefsFit(rt: Rt) {
    forall i :: 0 <= i < |rt.entries| ==> RtePrefsFit(rt.entries[i])
  }

  predicate PrintableValue(v: Value) {
    LegalValue(v) && PrefFits(v)
  }

  /** An empty free value comes back as none at all, and a netmask as its low byte. */
  function ReturnedValue(v: Value): Value {
    if v == OtherAttr(KeyOf(v), Some([])) then OtherAttr(v.key, None) else v
  }

  function ReturnedAttrs(attrs: seq<Attr>): (r: seq<Attr>)
    ensures |r| == |attrs| && forall i :: 0 <= i < |r| ==> r[i] == attrs[i].(value := ReturnedValue(attrs[i].value))
  {
    seq(|attrs|, i requires 0 <= i < |attrs| => attrs[i].(value := ReturnedValue(attrs[i].value)))
  }

  function ReturnedRte(e: Rte): Rte {
    e.(netmask := e.netmask % 0x100, attrs := ReturnedAttrs(e.attrs))
  }

  function ReturnedEntries(es: seq<Rte>): (r: seq<Rte>)
    ensures |r| == |es| && forall i :: 0 <= i < |r| ==> r[i] == ReturnedRte(es[i])
  {
    seq(|es|, i requires 0 <= i < |es| => ReturnedRte(es[i]))
  }

  function Returned(rt: Rt): Rt {
    rt.(entries := ReturnedEntries(rt.entries))
  }

  // ---------- characters and words ----------

  lemma Assoc(a: seq<byte>, b: seq<byte>, c: seq<byte>)
    ensures (a + b) + c == a + (b + c)
  {}

  lemma MatchOwn(w: seq<byte>, rest: seq<byte>)
    ensures Match(w, w + rest) == Ok(rest)
  {}

  /** The next character is neither a blank nor 0xFF. */
  predicate Solid(b: seq<byte>) {
    b != [] && b[0] != EOF_BYTE && !IsBlank(b[0])
  }

  lemma EatSpace(b: seq<byte>)
    ensures EatWs([SPACE] + b) == EatWs(b)
  {
    assert ([SPACE] + b)[1..] == b;
  }

  lemma {:induction false} EatSpaces(n: nat, b: seq<byte>)
    ensures EatWs(Spaces(n) + b) == EatWs(b)
  {
    if n == 0 {
      assert Spaces(n) + b == b;
    } else {
      assert Spaces(n) + b == [SPACE] + (Spaces(n - 1) + b);
      EatSpace(Spaces(n - 1) + b);
      EatSpaces(n - 1, b);
    }
  }

  /** The next character ends a run of the class. */
  predicate Ends(cls: CharClass, b: seq<byte>) {
    b != [] && b[0] != EOF_BYTE && !cls.Has(b[0])
  }

  lemma {:induction false} AccumWord(cls: CharClass, acc: seq<byte>, w: seq<byte>, rest: seq<byte>)
    requires AllIn(cls, w) && Ends(cls, rest)
    ensures Accum(cls, acc, w + rest) == Read(acc + w, rest)
    decreases |w|
  {
    if w == [] {
      assert w + rest == rest && acc + w == acc;
    } else {
      assert (w + rest)[1..] == w[1..] + rest && (w + rest)[0] == w[0];
      assert acc + [w[0]] + w[1..] == acc + w;
      AccumWord(cls, acc + [w[0]], w[1..], rest);
    }
  }

  lemma WordParsed(cls: CharClass, b: seq<byte>, w: seq<byte>, rest: seq<byte>)
    requires w != [] && AllIn(cls, w) && Ends(cls, rest) && EatWs(b) == w + rest
    ensures ParseWord(cls, b) == Ok(Read(w, rest)) && TryAccum(cls, b) == Read(w, rest)
  {
    AccumWord(cls, [], w, rest);
    assert [] + w == w;
  }

  // ---------- numbers ----------

  predicate EndsInt(b: seq<byte>) {
    b != [] && b[0] != EOF_BYTE && !IsDigit(b[0])
  }

  lemma ScanStep(n: u32, count: nat, d: byte, rest: seq<byte>)
    requires IsDigit(d)
    ensures ScanDigits(n, count, [d] + rest) == ScanDigits((10 * n + (d - 48)) % 0x1_0000_0000, count + 1, rest)
  {
    assert ([d] + rest)[1..] == rest;
  }

  lemma {:induction false} ScanDecimal(n: u32, count: nat, rest: seq<byte>)
    ensures ScanDigits(0, count, Decimal(n) + rest) == ScanDigits(n, count + |Decimal(n)|, rest)
    decreases n
  {
    hide ScanDigits;
    var d := 48 + n % 10;
    if n < 10 {
      assert Decimal(n) == [d];
      ScanStep(0, count, d, rest);
    } else {
      Assoc(Decimal(n / 10), [d], rest);
      ScanDecimal(n / 10, count, [d] + rest);
      ScanStep(n / 10, count + |Decimal(n / 10)|, d, rest);
      assert 10 * (n / 10) + n % 10 == n;
    }
  }

  lemma IntScanned(b: seq<byte>, n: u32, rest: seq<byte>)
    requires EatWs(b) == Decimal(n) + rest && EndsInt(rest)
    ensures ParseU32(b) == Ok(Read(n, rest)) && TryInt(b).n == n && TryInt(b).count > 0 && TryInt(b).rest == rest
  {
    hide Decimal, EatWs;
    ScanDecimal(n, 0, rest);
  }

  lemma DecimalIsSolid(n: nat, rest: seq<byte>)
    ensures EatWs(Decimal(n) + rest) == Decimal(n) + rest
  {
    hide Decimal;
    assert IsDigit((Decimal(n) + rest)[0]);
  }

  lemma IntParsed(n: u32, rest: seq<byte>)
    requires EndsInt(rest)
    ensures ParseU32(Decimal(n) + rest) == Ok(Read(n, rest))
  {
    hide *;
    DecimalIsSolid(n, rest);
    IntScanned(Decimal(n) + rest, n, rest);
  }

  lemma TwoDigitsParsed(i: i32, rest: seq<byte>)
    requires EndsInt(rest)
    ensures ParseU32(TwoDigits(Unsigned(i)) + rest) == Ok(Read(Unsigned(i), rest)) && Signed(Unsigned(i)) == i
  {
    hide Decimal;
    var n := Unsigned(i);
    if n < 10 {
      var b := Decimal(n) + rest;
      assert TwoDigits(n) + rest == [48] + b;
      assert ([48] + b)[1..] == b;
      ScanDecimal(n, 1, rest);
    } else {
      assert TwoDigits(n) == Decimal(n);
      IntParsed(n, rest);
    }
  }

  // ---------- addresses and times ----------

  lemma Sep(s: string, rest: seq<byte>)
    requires |s| > 0
    ensures (Ascii(s) + rest)[0] == s[0] as int % 0x100
  {}

  lemma IpByteParsed(n: byte, rest: seq<byte>)
    requires EndsInt(rest)
    ensures ParseIpByte(Decimal(n) + rest) == Ok(Read(n, rest))
  {
    hide Decimal, ParseU32, EndsInt;
    IntParsed(n, rest);
  }

  lemma DotParsed(rest: seq<byte>)
    ensures EndsInt(Ascii(".") + rest) && Match(Ascii("."), Ascii(".") + rest) == Ok(rest)
  {
    Sep(".", rest);
    MatchOwn(Ascii("."), rest);
  }

  lemma IpText(ip: Ip, rest: seq<byte>)
    ensures PrintIp(ip) + rest ==
            Decimal(ip.a) +
            (Ascii(".") + (Decimal(ip.b) + (Ascii(".") + (Decimal(ip.c) + (Ascii(".") + (Decimal(ip.d) + rest))))))
  {
    hide Decimal, Ascii;
    var t3 := Ascii(".") + Decimal(ip.d);
    var t2 := Ascii(".") + (Decimal(ip.c) + t3);
    var t1 := Ascii(".") + (Decimal(ip.b) + t2);
    Assoc(Decimal(ip.a), t1, rest);
    Assoc(Ascii("."), Decimal(ip.b) + t2, rest);
    Assoc(Decimal(ip.b), t2, rest);
    Assoc(Ascii("."), Decimal(ip.c) + t3, rest);
    Assoc(Decimal(ip.c), t3, rest);
    Assoc(Ascii("."), Decimal(ip.d), rest);
  }

  lemma IpParsed(b: seq<byte>, ip: Ip, rest: seq<byte>)
    requires EatWs(b) == PrintIp(ip) + rest && EndsInt(rest)
    ensures ParseIp(b) == Ok(Read(ip, rest))
  {
    hide Decimal, Ascii, EatWs, PrintIp, Match, ParseIpByte, EndsInt;
    IpText(ip, rest);
    var r3 := Decimal(ip.d) + rest;
    var r2 := Decimal(ip.c) + (Ascii(".") + r3);
    var r1 := Decimal(ip.b) + (Ascii(".") + r2);
    DotParsed(r1);
    DotParsed(r2);
    DotParsed(r3);
    IpByteParsed(ip.a, Ascii(".") + r1);
    IpByteParsed(ip.b, Ascii(".") + r2);
    IpByteParsed(ip.c, Ascii(".") + r3);
    IpByteParsed(ip.d, rest);
  }

  lemma IpIsSolid(ip: Ip, rest: seq<byte>)
    ensures EatWs(PrintIp(ip) + rest) == PrintIp(ip) + rest
  {
    hide PrintIp;
    assert IsDigit((PrintIp(ip) + rest)[0]);
  }

  lemma ColonParsed(rest: seq<byte>)
    ensures EndsInt(Ascii(":") + rest) && Match(Ascii(":"), Ascii(":") + rest) == Ok(rest)
  {
    Sep(":", rest);
    MatchOwn(Ascii(":"), rest);
  }

  lemma TimeText(t: Time, rest: seq<byte>)
    ensures PrintTime(t) + rest ==
            TwoDigits(Unsigned(t.hour)) +
            (Ascii(":") + (TwoDigits(Unsigned(t.min)) + (Ascii(":") + (TwoDigits(Unsigned(t.sec)) + rest))))
  {
    hide TwoDigits, Ascii, Unsigned;
    var h, m, s := TwoDigits(Unsigned(t.hour)), TwoDigits(Unsigned(t.min)), TwoDigits(Unsigned(t.sec));
    Assoc(h, Ascii(":") + (m + (Ascii(":") + s)), rest);
    Assoc(Ascii(":"), m + (Ascii(":") + s), rest);
    Assoc(m, Ascii(":") + s, rest);
    Assoc(Ascii(":"), s, rest);
  }

  lemma TimeParsed(t: Time, rest: seq<byte>)
    requires EndsInt(rest)
    ensures ParseTime(PrintTime(t) + rest) == Ok(Read(t, rest))
  {
    hide TwoDigits, Ascii, Unsigned, Signed, PrintTime, Match, ParseU32, EndsInt;
    TimeText(t, rest);
    var r2 := TwoDigits(Unsigned(t.sec)) + rest;
    var r1 := TwoDigits(Unsigned(t.min)) + (Ascii(":") + r2);
    ColonParsed(r1);
    ColonParsed(r2);
    TwoDigitsParsed(t.hour, Ascii(":") + r1);
    TwoDigitsParsed(t.min, Ascii(":") + r2);
    TwoDigitsParsed(t.sec, rest);
  }

  lemma TimeIsSolid(t: Time, rest: seq<byte>)
    ensures EatWs(PrintTime(t) + rest) == PrintTime(t) + rest
  {
    hide Decimal, PrintTime;
    TimeText(t, rest);
    TwoDigitsStart(Unsigned(t.hour));
    assert IsDigit(TwoDigits(Unsigned(t.hour))[0]);
  }

  lemma TwoDigitsStart(n: nat)
    ensures IsDigit(TwoDigits(n)[0])
  {
    hide Decimal;
  }

  // ---------- values ----------

  lemma SpaceText()
    ensures Ascii(" ") == [SPACE] && Ascii("{ ") == ['{' as int, SPACE] && Ascii("} ") == ['}' as int, SPACE]
  {}

  lemma SpaceBeforePath(acc: seq<i32>, b: seq<byte>)
    ensures ParsePath(acc, [SPACE] + b) == ParsePath(acc, b)
  {
    hide EatWs, ScanDigits;
    EatSpace(b);
  }

  lemma NumberInPath(acc: seq<i32>, i: i32, b: seq<byte>)
    ensures ParsePath(acc, Decimal(Unsigned(i)) + ([SPACE] + b)) == ParsePath(acc + [i], b)
  {
    hide EatWs, Decimal, ScanDigits;
    var rest := [SPACE] + b;
    var n := Unsigned(i);
    DecimalIsSolid(n, rest);
    IntScanned(Decimal(n) + rest, n, rest);
    SpaceBeforePath(acc + [i], b);
  }

  lemma NoInt(b: seq<byte>)
    requires Solid(b) && !IsDigit(b[0])
    ensures TryInt(b) == Digits(0, 0, b)
  {}

  lemma BraceInPath(acc: seq<i32>, left: bool, b: seq<byte>)
    ensures var c: byte, i := if left then '{' as int else '}' as int, if left then AS_LBRACE else AS_RBRACE;
            ParsePath(acc, [c, SPACE] + b) == ParsePath(acc + [i], b)
  {
    hide ScanDigits, TryInt;
    var c: byte, i := if left then '{' as int else '}' as int, if left then AS_LBRACE else AS_RBRACE;
    var text := [c, SPACE] + b;
    assert Solid(text) && !IsDigit(text[0]);
    NoInt(text);
    assert text[1..] == [SPACE] + b;
    SpaceBeforePath(acc + [i], b);
  }

  lemma {:induction false} PathParsed(acc: seq<i32>, path: seq<i32>, rest: seq<byte>)
    ensures ParsePath(acc, PrintPath(path) + ([NL] + rest)) == Read(acc + path, [NL] + rest)
    decreases |path|
  {
    hide ParsePath, Ascii, Decimal, Unsigned;
    var end := [NL] + rest;
    if path == [] {
      assert PrintPath(path) + end == end && acc + path == acc;
      PathEnds(acc, end);
    } else {
      SpaceText();
      var b := PrintPath(path[1..]) + end;
      PathParsed(acc + [path[0]], path[1..], rest);
      assert acc + [path[0]] + path[1..] == acc + path;
      if path[0] == AS_LBRACE {
        Assoc(Ascii("{ "), PrintPath(path[1..]), end);
        BraceInPath(acc, true, b);
      } else if path[0] == AS_RBRACE {
        Assoc(Ascii("} "), PrintPath(path[1..]), end);
        BraceInPath(acc, false, b);
      } else {
        var d := Decimal(Unsigned(path[0]));
        Assoc(d + [SPACE], PrintPath(path[1..]), end);
        Assoc(d, [SPACE], b);
        NumberInPath(acc, path[0], b);
      }
    }
  }

  lemma PathEnds(acc: seq<i32>, end: seq<byte>)
    requires end != [] && end[0] == NL
    ensures ParsePath(acc, end) == Read(acc, end)
  {
    hide TryInt;
    NoInt(end);
  }

  lemma FlagText(f: Flag, b: seq<byte>)
    ensures PrintFlag(f) + b ==
            Ascii("(") + (Decimal(f.flag) + (Ascii(",") + (Decimal(f.asNo) + (Ascii(")") + ([SPACE] + b)))))
  {
    hide Decimal;
    assert Ascii(") ") == Ascii(")") + [SPACE];
    var t := Decimal(f.asNo) + Ascii(") ");
    Assoc(Ascii("("), Decimal(f.flag) + (Ascii(",") + t), b);
    Assoc(Decimal(f.flag), Ascii(",") + t, b);
    Assoc(Ascii(","), t, b);
    Assoc(Decimal(f.asNo), Ascii(") "), b);
    Assoc(Ascii(")"), [SPACE], b);
  }

  lemma FlagParsed(f: Flag, b: seq<byte>)
    ensures ParseFlag(PrintFlag(f) + b) == Ok(Read(f, [SPACE] + b))
  {
    hide Decimal, Ascii, Match, PrintFlag, ParseU32;
    FlagText(f, b);
    var r2 := Ascii(")") + ([SPACE] + b);
    var r1 := Ascii(",") + (Decimal(f.asNo) + r2);
    Sep(")", [SPACE] + b);
    Sep(",", Decimal(f.asNo) + r2);
    MatchOwn(Ascii("("), Decimal(f.flag) + r1);
    MatchOwn(Ascii(","), Decimal(f.asNo) + r2);
    MatchOwn(Ascii(")"), [SPACE] + b);
    IntParsed(f.flag, r1);
    IntParsed(f.asNo, r2);
  }

  lemma SpaceBeforeFlags(acc: seq<Flag>, b: seq<byte>)
    ensures ParseFlags(acc, [SPACE] + b) == ParseFlags(acc, b)
  {
    hide EatWs, ParseFlag;
    EatSpace(b);
  }

  lemma FlagStart(f: Flag, b: seq<byte>)
    ensures Peeks(PrintFlag(f) + b, '(' as int) && EatWs(PrintFlag(f) + b) == PrintFlag(f) + b
  {
    hide PrintFlag;
    FlagText(f, b);
    Sep("(", Decimal(f.flag) + (Ascii(",") + (Decimal(f.asNo) + (Ascii(")") + ([SPACE] + b)))));
  }

  lemma {:induction false} FlagsParsed(acc: seq<Flag>, fs: seq<Flag>, rest: seq<byte>)
    ensures ParseFlags(acc, PrintFlags(fs) + ([NL] + rest)) == Ok(Read(acc + fs, [NL] + rest))
    decreases |fs|
  {
    hide PrintFlag, ParseFlag;
    var end := [NL] + rest;
    if fs == [] {
      assert PrintFlags(fs) + end == end && acc + fs == acc;
    } else {
      var b := PrintFlags(fs[1..]) + end;
      Assoc(PrintFlag(fs[0]), PrintFlags(fs[1..]), end);
      FlagStart(fs[0], b);
      FlagParsed(fs[0], b);
      SpaceBeforeFlags(acc + [fs[0]], b);
      FlagsParsed(acc + [fs[0]], fs[1..], rest);
      assert acc + [fs[0]] + fs[1..] == acc + fs;
    }
  }

  lemma OriginParsed(o: Origin, rest: seq<byte>)
    ensures ParseOrigin(OriginName(o) + ([NL] + rest)) == Ok(Read(BgpOrigin(o), [NL] + rest))
  {
    hide ParseWord;
    var w, end := OriginName(o), [NL] + rest;
    assert w != [] && AllIn(Alnum, w);
    assert (w + end)[0] == w[0];
    WordParsed(Alnum, w + end, w, end);
    assert OriginName(Igp)[0] != OriginName(Egp)[0];
  }

  lemma AggregatorParsed(ip: Ip, n: u32, rest: seq<byte>)
    requires EndsInt(rest)
    ensures ParseAggregator(PrintIp(ip) + (Ascii(" AS") + Decimal(n)) + rest) == Ok(Read(BgpAggregator(ip, n), rest))
  {
    hide PrintIp, ParseIp, Decimal, ParseU32;
    var b := Decimal(n) + rest;
    assert Ascii(" AS") == [SPACE] + Ascii("AS");
    Assoc(PrintIp(ip), Ascii(" AS") + Decimal(n), rest);
    Assoc(Ascii(" AS"), Decimal(n), rest);
    Assoc([SPACE], Ascii("AS"), b);
    var asPart := Ascii("AS") + b;
    EatSpace(asPart);
    Sep("AS", b);
    IpIsSolid(ip, [SPACE] + asPart);
    IpParsed(PrintIp(ip) + ([SPACE] + asPart), ip, [SPACE] + asPart);
    MatchOwn(Ascii("AS"), b);
    IntParsed(n, rest);
  }

  lemma OtherParsed(key: seq<byte>, value: seq<byte>, rest: seq<byte>)
    requires 0 !in value && AllIn(LineChars, value) && (value != [] ==> !IsBlank(value[0]))
    ensures EatWs(value + ([NL] + rest)) == value + ([NL] + rest)
    ensures ParseOther(key, value + ([NL] + rest)) ==
            Read(OtherAttr(key, if value == [] then None else Some(value)), [NL] + rest)
  {
    hide Accum, CStr;
    CStrOfCString(value);
    var b := value + ([NL] + rest);
    assert b[0] == if value == [] then NL else value[0];
    AccumWord(LineChars, [], value, [NL] + rest);
    assert [] + value == value;
  }

  /** What stands behind the colon is read back, up to the end of the line. */
  lemma ValueParsed(v: Value, rest: seq<byte>)
    requires PrintableValue(v)
    ensures ParseValue(KeyOf(v), PrintValue(v) + ([NL] + rest)) == Ok(Read(ReturnedValue(v), [NL] + rest))
  {
    hide ParsePath, PrintPath, ParseFlags, PrintFlags, ParseIp, PrintIp, ParseU32, Decimal, ParseOrigin, OriginName,
         ParseAggregator, ParseOther;
    var end := [NL] + rest;
    match v
    case BgpOrigin(o) => OriginParsed(o, rest);
    case BgpNextHop(ip) =>
      IpIsSolid(ip, end);
      IpParsed(PrintIp(ip) + end, ip, end);
    case BgpAsPath(path) =>
      PathParsed([], path, rest);
      assert [] + path == path;
    case BgpLocalPref(n) => IntParsed(n, end);
    case BgpCommunity(fs) =>
      FlagsParsed([], fs, rest);
      assert [] + fs == fs;
    case BgpAggregator(ip, n) =>
      KeysDiffer();
      AggregatorParsed(ip, n, end);
    case OtherAttr(key, value) => OtherParsed(key, if value.Some? then value.value else [], rest);
  }

  lemma KeysDiffer()
    ensures Ascii("BGP.aggregator") != Ascii("BGP.local_pref")
  {
    assert Ascii("BGP.aggregator")[4] != Ascii("BGP.local_pref")[4];
  }

  // ---------- attribute lines ----------

  lemma ValueIsSolid(v: Value, rest: seq<byte>)
    requires PrintableValue(v)
    ensures EatWs(PrintValue(v) + ([NL] + rest)) == PrintValue(v) + ([NL] + rest)
  {
    hide PrintIp, Decimal, PrintFlag;
    var end := [NL] + rest;
    var b := PrintValue(v) + end;
    match v
    case BgpOrigin(o) => assert b[0] == OriginName(o)[0];
    case BgpNextHop(ip) => IpIsSolid(ip, end);
    case BgpAsPath(path) => PathIsSolid(path, rest);
    case BgpLocalPref(n) => DecimalIsSolid(n, end);
    case BgpCommunity(fs) =>
      if fs != [] {
        Assoc(PrintFlag(fs[0]), PrintFlags(fs[1..]), end);
        FlagStart(fs[0], PrintFlags(fs[1..]) + end);
      }
    case BgpAggregator(ip, n) =>
      Assoc(PrintIp(ip), Ascii(" AS") + Decimal(n), end);
      IpIsSolid(ip, Ascii(" AS") + Decimal(n) + end);
    case OtherAttr(key, value) => OtherParsed(key, if value.Some? then value.value else [], rest);
  }

  lemma PathIsSolid(path: seq<i32>, rest: seq<byte>)
    ensures EatWs(PrintPath(path) + ([NL] + rest)) == PrintPath(path) + ([NL] + rest)
  {
    hide Decimal, Unsigned;
    var end := [NL] + rest;
    if path != [] {
      var b := PrintPath(path[1..]) + end;
      SpaceText();
      if path[0] == AS_LBRACE || path[0] == AS_RBRACE {
        assert (PrintPath(path) + end)[0] == PrintPath(path)[0];
      } else {
        var d := Decimal(Unsigned(path[0]));
        Assoc(d + Ascii(" "), PrintPath(path[1..]), end);
        Assoc(d, Ascii(" "), b);
        DecimalIsSolid(Unsigned(path[0]), Ascii(" ") + b);
      }
    }
  }

  lemma KeyIsWord(v: Value)
    requires PrintableValue(v)
    ensures KeyOf(v) != [] && AllIn(KeyChars, KeyOf(v)) && KeyOf(v) != Ascii("Type")
  {
    hide Ascii, AllIn;
    match v
    case BgpOrigin(_) => OriginKeyIsWord();
    case BgpAsPath(_) => AsPathKeyIsWord();
    case BgpNextHop(_) => NextHopKeyIsWord();
    case BgpLocalPref(_) => LocalPrefKeyIsWord();
    case BgpCommunity(_) => CommunityKeyIsWord();
    case BgpAggregator(_, _) => AggregatorKeyIsWord();
    case OtherAttr(_, _) =>
  }

  lemma OriginKeyIsWord()
    ensures AllIn(KeyChars, Ascii("BGP.origin"))
  {
    assert Ascii("BGP.origin") == [66, 71, 80, 46, 111, 114, 105, 103, 105, 110];
  }

  lemma AsPathKeyIsWord()
    ensures AllIn(KeyChars, Ascii("BGP.as_path"))
  {
    assert Ascii("BGP.as_path") == [66, 71, 80, 46, 97, 115, 95, 112, 97, 116, 104];
  }

  lemma NextHopKeyIsWord()
    ensures AllIn(KeyChars, Ascii("BGP.next_hop"))
  {
    assert Ascii("BGP.next_hop") == [66, 71, 80, 46, 110, 101, 120, 116, 95, 104, 111, 112];
  }

  lemma LocalPrefKeyIsWord()
    ensures AllIn(KeyChars, Ascii("BGP.local_pref"))
  {
    assert Ascii("BGP.local_pref") == [66, 71, 80, 46, 108, 111, 99, 97, 108, 95, 112, 114, 101, 102];
  }

  lemma CommunityKeyIsWord()
    ensures AllIn(KeyChars, Ascii("BGP.community"))
  {
    assert Ascii("BGP.community") == [66, 71, 80, 46, 99, 111, 109, 109, 117, 110, 105, 116, 121];
  }

  lemma AggregatorKeyIsWord()
    ensures AllIn(KeyChars, Ascii("BGP.aggregator"))
  {
    assert Ascii("BGP.aggregator") == [66, 71, 80, 46, 97, 103, 103, 114, 101, 103, 97, 116, 111, 114];
  }

  lemma WordIsSolid(cls: CharClass, w: seq<byte>, rest: seq<byte>)
    requires w != [] && AllIn(cls, w) && !cls.LineChars?
    ensures EatWs(w + rest) == w + rest
  {
    assert (w + rest)[0] == w[0];
  }

  /** The key of an attribute up to its value. */
  lemma KeyParsed(key: seq<byte>, tflag: bool, b: seq<byte>)
    requires key != [] && AllIn(KeyChars, key) && EatWs(b) == b
    ensures ParseKey(key + (FlagMark(tflag) + (Ascii(": ") + b))) == Ok(Read(Key(key, tflag), b))
  {
    hide ParseWord, AllIn;
    var mark := FlagMark(tflag) + (Ascii(": ") + b);
    var text := key + mark;
    WordIsSolid(KeyChars, key, mark);
    MarkText(tflag, b);
    WordParsed(KeyChars, text, key, mark);
    var colon := if tflag then Ascii("[t]:") else Ascii(":");
    MatchOwn(colon, [SPACE] + b);
    EatSpace(b);
  }

  lemma MarkText(tflag: bool, b: seq<byte>)
    ensures var mark, colon := FlagMark(tflag) + (Ascii(": ") + b), if tflag then Ascii("[t]:") else Ascii(":");
            Ends(KeyChars, mark) && EatWs(mark) == colon + ([SPACE] + b) && Peeks(EatWs(mark), '[' as int) == tflag
  {
    var mark := FlagMark(tflag) + (Ascii(": ") + b);
    assert Ascii(": ") == Ascii(":") + [SPACE];
    if tflag {
      assert mark == [SPACE] + (Ascii("[t]:") + ([SPACE] + b));
      EatSpace(Ascii("[t]:") + ([SPACE] + b));
      Sep("[t]:", [SPACE] + b);
    } else {
      assert mark == Ascii(":") + ([SPACE] + b);
      Sep(":", [SPACE] + b);
    }
  }

  lemma AttrText(a: Attr, rest: seq<byte>)
    ensures PrintAttr(a) + rest ==
            [TAB] + (KeyOf(a.value) + (FlagMark(a.tflag) + (Ascii(": ") + (PrintValue(a.value) + ([NL] + rest)))))
  {
    hide KeyOf, FlagMark, Ascii, PrintValue;
    var k, f, v := KeyOf(a.value), FlagMark(a.tflag), PrintValue(a.value);
    Assoc([TAB], k + (f + (Ascii(": ") + (v + [NL]))), rest);
    Assoc(k, f + (Ascii(": ") + (v + [NL])), rest);
    Assoc(f, Ascii(": ") + (v + [NL]), rest);
    Assoc(Ascii(": "), v + [NL], rest);
    Assoc(v, [NL], rest);
  }

  lemma AttrParsed(d: Details, a: Attr, rest: seq<byte>)
    requires PrintableValue(a.value)
    ensures Peeks(PrintAttr(a) + rest, TAB)
    ensures ParseAttrLine(d, (PrintAttr(a) + rest)[1..]) ==
            Ok(Read(d.(attrs := d.attrs + [a.(value := ReturnedValue(a.value))]), rest))
  {
    hide KeyOf, FlagMark, Ascii, PrintValue, ParseKey, ParseValue, PrintAttr, PrintableValue, ReturnedValue;
    AttrText(a, rest);
    KeyIsWord(a.value);
    ValueIsSolid(a.value, rest);
    var b := PrintValue(a.value) + ([NL] + rest);
    KeyParsed(KeyOf(a.value), a.tflag, b);
    ValueParsed(a.value, rest);
    MatchOwn([NL], rest);
    var line := KeyOf(a.value) + (FlagMark(a.tflag) + (Ascii(": ") + b));
    assert ([TAB] + line)[1..] == line;
  }

  /** What follows the attributes of an entry: the next entry, or nothing. */
  predicate EndsAttrs(b: seq<byte>) {
    b == [] || IsDigit(b[0])
  }

  /** A local preference of 2^31 or more is printed as a negative number, which the parser does not read. */
  lemma HighPreferenceIsLost(d: Details, a: Attr, rest: seq<byte>)
    requires !PrefFits(a.value)
    ensures Peeks(PrintAttr(a) + rest, TAB) && ParseAttrLine(d, (PrintAttr(a) + rest)[1..]) == Err(ErrParse)
  {
    hide KeyOf, FlagMark, Ascii, PrintValue, ParseKey, ParseValue, PrintAttr;
    AttrText(a, rest);
    LocalPrefKeyIsWord();
    MinusParsed(a.value.pref, [NL] + rest);
    var b := PrintValue(a.value) + ([NL] + rest);
    KeyParsed(KeyOf(a.value), a.tflag, b);
    var line := KeyOf(a.value) + (FlagMark(a.tflag) + (Ascii(": ") + b));
    assert ([TAB] + line)[1..] == line;
  }

  lemma MinusParsed(n: u32, rest: seq<byte>)
    requires n >= 0x8000_0000
    ensures var v := BgpLocalPref(n);
            var b := PrintValue(v) + rest;
            EatWs(b) == b && ParseValue(KeyOf(v), b) == Err(ErrParse) &&
            KeyOf(v) == Ascii("BGP.local_pref") && KeyOf(v) != [] && KeyOf(v) != Ascii("Type")
  {
    hide Decimal, ParseOrigin, ParseIp, ParsePath;
    var m := Decimal(0x1_0000_0000 - n);
    Assoc(Ascii("-"), m, rest);
    Sep("-", m + rest);
    NoInt(Ascii("-") + (m + rest));
  }

  lemma {:induction false} AttrsParsed(d: Details, attrs: seq<Attr>, rest: seq<byte>)
    requires EndsAttrs(rest) && forall i :: 0 <= i < |attrs| ==> LegalValue(attrs[i].value)
    ensures ParseAttrs(d, PrintAttrs(attrs) + rest) ==
            if forall i :: 0 <= i < |attrs| ==> PrefFits(attrs[i].value)
            then Ok(Read(d.(attrs := d.attrs + ReturnedAttrs(attrs)), rest)) else Err(ErrParse)
    decreases |attrs|
  {
    hide PrintAttr, ParseAttrLine, LegalValue, PrefFits, ReturnedValue;
    if attrs == [] {
      assert PrintAttrs(attrs) + rest == rest && d.attrs + ReturnedAttrs(attrs) == d.attrs;
    } else {
      var b := PrintAttrs(attrs[1..]) + rest;
      Assoc(PrintAttr(attrs[0]), PrintAttrs(attrs[1..]), rest);
      if !PrefFits(attrs[0].value) {
        HighPreferenceIsLost(d, attrs[0], b);
        return;
      }
      AttrParsed(d, attrs[0], b);
      var a := attrs[0].(value := ReturnedValue(attrs[0].value));
      var d' := d.(attrs := d.attrs + [a]);
      AttrsParsed(d', attrs[1..], rest);
      assert d'.attrs + ReturnedAttrs(attrs[1..]) == d.attrs + ReturnedAttrs(attrs);
    }
  }

  // ---------- the type line ----------

  lemma TypeWordParsed(t: RteType, w: seq<byte>, b: seq<byte>)
    requires w == Ascii("BGP") || w == Ascii("unicast") || w == Ascii("univ") || w == Ascii("static")
    ensures ParseTypeWords(t, w + ([SPACE] + b)) ==
            ParseTypeWords(if w == Ascii("BGP") then t.(bgp := true)
                           else if w == Ascii("unicast") then t.(unicast := true)
                           else if w == Ascii("univ") then t.(univ := true) else t.(static1 := true), b)
  {
    hide TryAccum, AllIn;
    TypeWordIsWord(w);
    WordIsSolid(Alnum, w, [SPACE] + b);
    WordParsed(Alnum, w + ([SPACE] + b), w, [SPACE] + b);
    var t' := if w == Ascii("BGP") then t.(bgp := true) else if w == Ascii("unicast") then t.(unicast := true)
              else if w == Ascii("univ") then t.(univ := true) else t.(static1 := true);
    SpaceBeforeType(t', b);
  }

  lemma TypeWordIsWord(w: seq<byte>)
    requires w == Ascii("BGP") || w == Ascii("unicast") || w == Ascii("univ") || w == Ascii("static")
    ensures w != [] && AllIn(Alnum, w)
  {
    assert Ascii("BGP") == [66, 71, 80];
    assert Ascii("unicast") == [117, 110, 105, 99, 97, 115, 116];
    assert Ascii("univ") == [117, 110, 105, 118];
    assert Ascii("static") == [115, 116, 97, 116, 105, 99];
  }

  lemma SpaceBeforeType(t: RteType, b: seq<byte>)
    ensures ParseTypeWords(t, [SPACE] + b) == ParseTypeWords(t, b)
  {
    hide EatWs, Ascii, Accum;
    EatSpace(b);
  }

  /** An optional word of the type line. */
  lemma TypeWordRead(t: RteType, w: string, spaced: string, there: bool, b: seq<byte>)
    requires w == "BGP" || w == "unicast" || w == "univ" || w == "static"
    requires Ascii(spaced) == Ascii(w) + [SPACE]
    ensures ParseTypeWords(t, (if there then Ascii(spaced) else []) + b) ==
            ParseTypeWords(if !there then t else if w == "BGP" then t.(bgp := true)
                           else if w == "unicast" then t.(unicast := true)
                           else if w == "univ" then t.(univ := true) else t.(static1 := true), b)
  {
    hide ParseTypeWords;
    if there {
      Assoc(Ascii(w), [SPACE], b);
      TypeWordParsed(t, Ascii(w), b);
    } else {
      assert [] + b == b;
    }
  }

  lemma TypeWordsParsed(t: RteType, rest: seq<byte>)
    ensures ParseTypeWords(NO_TYPE, TypeWords(t) + ([NL] + rest)) == Ok(Read(t, rest))
  {
    hide ParseTypeWords, Ascii;
    SpacedWords();
    var end := [NL] + rest;
    var w1, w2 := if t.bgp then Ascii("BGP ") else [], if t.unicast then Ascii("unicast ") else [];
    var w3, w4 := if t.univ then Ascii("univ ") else [], if t.static1 then Ascii("static ") else [];
    Assoc(w1, w2 + (w3 + w4), end);
    Assoc(w2, w3 + w4, end);
    Assoc(w3, w4, end);
    TypeWordRead(NO_TYPE, "BGP", "BGP ", t.bgp, w2 + (w3 + (w4 + end)));
    TypeWordRead(RteType(t.bgp, false, false, false), "unicast", "unicast ", t.unicast, w3 + (w4 + end));
    TypeWordRead(RteType(t.bgp, t.unicast, false, false), "univ", "univ ", t.univ, w4 + end);
    TypeWordRead(RteType(t.bgp, t.unicast, t.univ, false), "static", "static ", t.static1, end);
    TypeEnds(t, rest);
  }

  lemma SpacedWords()
    ensures Ascii("BGP ") == Ascii("BGP") + [SPACE] && Ascii("unicast ") == Ascii("unicast") + [SPACE]
    ensures Ascii("univ ") == Ascii("univ") + [SPACE] && Ascii("static ") == Ascii("static") + [SPACE]
  {}

  lemma TypeEnds(t: RteType, rest: seq<byte>)
    ensures ParseTypeWords(t, [NL] + rest) == Ok(Read(t, rest))
  {
    hide Ascii;
    MatchOwn([NL], rest);
  }

  lemma TypeIsSolid(t: RteType, rest: seq<byte>)
    ensures EatWs(TypeWords(t) + ([NL] + rest)) == TypeWords(t) + ([NL] + rest)
  {
    var b := TypeWords(t) + ([NL] + rest);
    assert b[0] ==
      if t.bgp then 'B' as int else if t.unicast || t.univ then 'u' as int else if t.static1 then 's' as int else NL;
  }

  lemma TypeText(t: RteType, rest: seq<byte>)
    ensures PrintType(t) + rest ==
            [TAB] + (Ascii("Type") + (FlagMark(false) + (Ascii(": ") + (TypeWords(t) + ([NL] + rest)))))
  {
    hide TypeWords;
    var w := TypeWords(t);
    assert Ascii("Type: ") == Ascii("Type") + Ascii(": ");
    Assoc([TAB], Ascii("Type: ") + (w + [NL]), rest);
    Assoc(Ascii("Type: "), w + [NL], rest);
    Assoc(w, [NL], rest);
    Assoc(Ascii("Type"), Ascii(": "), w + ([NL] + rest));
    assert FlagMark(false) + (Ascii(": ") + (w + ([NL] + rest))) == Ascii(": ") + (w + ([NL] + rest));
  }

  lemma TypeParsed(d: Details, t: RteType, rest: seq<byte>)
    ensures Peeks(PrintType(t) + rest, TAB)
    ensures ParseAttrLine(d, (PrintType(t) + rest)[1..]) == Ok(Read(d.(typ := t), rest))
  {
    hide Ascii, TypeWords, ParseKey, ParseTypeWords, PrintType, FlagMark;
    TypeText(t, rest);
    TypeIsSolid(t, rest);
    TypeKey();
    var b := TypeWords(t) + ([NL] + rest);
    KeyParsed(Ascii("Type"), false, b);
    TypeWordsParsed(t, rest);
    var line := Ascii("Type") + (FlagMark(false) + (Ascii(": ") + b));
    assert ([TAB] + line)[1..] == line;
  }

  lemma TypeKey()
    ensures Ascii("Type") != [] && AllIn(KeyChars, Ascii("Type"))
  {}

  // ---------- the first line of an entry ----------

  lemma MatchWsOwn(w: seq<byte>, rest: seq<byte>)
    requires Solid(w)
    ensures MatchWs(w, w + rest) == Ok(rest) && MatchWs(w, [SPACE] + (w + rest)) == Ok(rest)
  {
    EatSpace(w + rest);
    assert (w + rest)[0] == w[0];
    MatchOwn(w, rest);
  }

  /** The words of the line with the blanks around them. */
  lemma LineWords()
    ensures Ascii(" via ") == [SPACE] + (Ascii("via") + [SPACE]) && Solid(Ascii("via"))
    ensures Ascii(" on ") == [SPACE] + (Ascii("on") + [SPACE]) && Solid(Ascii("on"))
    ensures Ascii(" from ") == [SPACE] + (Ascii("from") + [SPACE]) && Solid(Ascii("from"))
  {}

  lemma UplinkWords()
    ensures Ascii(" [") == [SPACE] + Ascii("[") && Solid(Ascii("[")) && Solid(Ascii("]"))
    ensures Ascii("uplink ") == Ascii("uplink") + [SPACE] && Solid(Ascii("uplink")) && Ascii("uplink")[0] != 's' as int
    ensures Ascii("static1 ") == Ascii("static1") + [SPACE] && Solid(Ascii("static1"))
    ensures Ascii("static1")[0] == 's' as int
  {}

  lemma SpacedText(w: seq<byte>, b: seq<byte>)
    ensures [SPACE] + (w + [SPACE]) + b == [SPACE] + (w + ([SPACE] + b))
  {
    Assoc([SPACE], w + [SPACE], b);
    Assoc(w, [SPACE], b);
  }

  lemma NetParsed(ip: Ip, mask: u32, rest: seq<byte>)
    requires EndsInt(rest)
    ensures ParseNet(PrintNet(ip, mask) + rest) == Ok(Read(Net(ip, mask % 0x100), EatWs(rest)))
  {
    hide PrintIp, ParseIp, Decimal, ParseU32, EatWs;
    var b := Decimal(mask % 0x100) + rest;
    Assoc(PrintIp(ip), Ascii("/") + Decimal(mask % 0x100), rest);
    Assoc(Ascii("/"), Decimal(mask % 0x100), rest);
    Sep("/", b);
    IpIsSolid(ip, Ascii("/") + b);
    IpParsed(PrintIp(ip) + (Ascii("/") + b), ip, Ascii("/") + b);
    MatchOwn(Ascii("/"), b);
    IntParsed(mask % 0x100, rest);
  }

  lemma BracketParsed(rest: seq<byte>)
    ensures EndsInt(Ascii("]") + rest) && MatchWs(Ascii("]"), Ascii("]") + rest) == Ok(rest)
  {
    Sep("]", rest);
    MatchWsOwn(Ascii("]"), rest);
  }

  lemma UplinkFromParsed(t: Time, ip: Ip, rest: seq<byte>)
    ensures ParseUplink(PrintUplink(t, Some(ip)) + rest) == Ok(Read(Uplink(t, Some(ip)), rest))
  {
    hide PrintIp, ParseIp, PrintTime, ParseTime, MatchWs, EatWs, Ascii, Solid;
    UplinkWords();
    LineWords();
    var b4 := Ascii("]") + rest;
    var b3 := [SPACE] + (PrintIp(ip) + b4);
    var b2 := [SPACE] + (Ascii("from") + b3);
    var b1 := [SPACE] + (PrintTime(t) + b2);
    UplinkFromText(t, ip, rest);
    MatchWsOwn(Ascii("["), Ascii("uplink") + b1);
    MatchWsOwn(Ascii("uplink"), b1);
    EatSpace(PrintTime(t) + b2);
    TimeIsSolid(t, b2);
    TimeParsed(t, b2);
    MatchWsOwn(Ascii("from"), b3);
    EatSpace(PrintIp(ip) + b4);
    IpIsSolid(ip, b4);
    BracketParsed(rest);
    IpParsed(b3, ip, b4);
    assert (Ascii("uplink") + b1)[0] == Ascii("uplink")[0];
  }

  lemma UplinkFromText(t: Time, ip: Ip, rest: seq<byte>)
    ensures PrintUplink(t, Some(ip)) + rest ==
            [SPACE] + (Ascii("[") + (Ascii("uplink") + ([SPACE] + (PrintTime(t) +
              ([SPACE] + (Ascii("from") + ([SPACE] + (PrintIp(ip) + (Ascii("]") + rest)))))))))
  {
    hide PrintIp, PrintTime, Ascii, Solid;
    UplinkWords();
    LineWords();
    var i, f, p := PrintIp(ip), Ascii(" from "), PrintTime(t);
    var b4 := Ascii("]") + rest;
    Assoc(Ascii(" ["), Ascii("uplink ") + (p + ((f + i) + Ascii("]"))), rest);
    Assoc(Ascii("uplink "), p + ((f + i) + Ascii("]")), rest);
    Assoc(p, (f + i) + Ascii("]"), rest);
    Assoc(f + i, Ascii("]"), rest);
    Assoc(f, i, b4);
    SpacedText(Ascii("from"), i + b4);
    Assoc(Ascii("uplink"), [SPACE], p + (f + (i + b4)));
    Assoc([SPACE], Ascii("["), Ascii("uplink ") + (p + (f + (i + b4))));
  }

  lemma StaticParsed(t: Time, rest: seq<byte>)
    ensures ParseUplink(PrintUplink(t, None) + rest) == Ok(Read(Uplink(t, None), rest))
  {
    hide PrintTime, ParseTime, MatchWs, EatWs, Ascii, Solid;
    UplinkWords();
    var b2 := Ascii("]") + rest;
    var b1 := [SPACE] + (PrintTime(t) + b2);
    StaticText(t, rest);
    MatchWsOwn(Ascii("["), Ascii("static1") + b1);
    MatchWsOwn(Ascii("static1"), b1);
    EatSpace(PrintTime(t) + b2);
    TimeIsSolid(t, b2);
    BracketParsed(rest);
    TimeParsed(t, b2);
    assert (Ascii("static1") + b1)[0] == Ascii("static1")[0];
  }

  lemma StaticText(t: Time, rest: seq<byte>)
    ensures PrintUplink(t, None) + rest ==
            [SPACE] + (Ascii("[") + (Ascii("static1") + ([SPACE] + (PrintTime(t) + (Ascii("]") + rest)))))
  {
    hide PrintTime, Ascii, Solid;
    UplinkWords();
    var p := PrintTime(t);
    var b2 := Ascii("]") + rest;
    assert [] + Ascii("]") == Ascii("]");
    Assoc(Ascii(" ["), Ascii("static1 ") + (p + Ascii("]")), rest);
    Assoc(Ascii("static1 "), p + Ascii("]"), rest);
    Assoc(p, Ascii("]"), rest);
    Assoc(Ascii("static1"), [SPACE], p + b2);
    Assoc([SPACE], Ascii("["), Ascii("static1 ") + (p + b2));
  }

  lemma UplinkParsed(t: Time, from: Option<Ip>, rest: seq<byte>)
    ensures ParseUplink(PrintUplink(t, from) + rest) == Ok(Read(Uplink(t, from), rest))
  {
    hide *;
    if from.Some? {
      UplinkFromParsed(t, from.value, rest);
    } else {
      StaticParsed(t, rest);
    }
  }

  lemma SourceCharParsed(asNo: Option<u32>, src: Source, rest: seq<byte>)
    ensures EndsInt([SourceChar(src)] + rest) && SourceChar(src) != 'A' as int
    ensures ParseSourceChar(asNo, [SourceChar(src)] + rest) == Ok(Read(Origins(asNo, src), rest))
  {
    assert ([SourceChar(src)] + rest)[1..] == rest;
  }

  lemma SourceParsed(asNo: Option<u32>, src: Source, rest: seq<byte>)
    ensures ParseSource((if asNo.Some? then Ascii("AS") + Decimal(asNo.value) else []) + ([SourceChar(src)] + rest)) ==
            Ok(Read(Origins(asNo, src), rest))
  {
    hide Decimal, ParseU32, ParseSourceChar, EndsInt;
    var c := [SourceChar(src)] + rest;
    SourceCharParsed(asNo, src, rest);
    if asNo.Some? {
      Assoc(Ascii("AS"), Decimal(asNo.value), c);
      Sep("AS", Decimal(asNo.value) + c);
      MatchOwn(Ascii("AS"), Decimal(asNo.value) + c);
      IntParsed(asNo.value, c);
    } else {
      assert [] + c == c;
    }
  }

  lemma SkipStep(c: byte, b: seq<byte>)
    requires c != EOF_BYTE && c != NL && c != '[' as int
    ensures SkipToBracket([c] + b) == SkipToBracket(b)
  {
    assert ([c] + b)[1..] == b;
  }

  lemma {:induction false} Skipped(w: seq<byte>, b: seq<byte>)
    requires forall i :: 0 <= i < |w| ==> w[i] != EOF_BYTE && w[i] != NL && w[i] != '[' as int
    ensures SkipToBracket(w + (Ascii("[") + b)) == Read(true, b)
    decreases |w|
  {
    hide Ascii;
    if w == [] {
      Sep("[", b);
      assert w + (Ascii("[") + b) == Ascii("[") + b;
      assert (Ascii("[") + b)[1..] == b;
    } else {
      Assoc([w[0]], w[1..], Ascii("[") + b);
      assert [w[0]] + w[1..] == w;
      SkipStep(w[0], w[1..] + (Ascii("[") + b));
      Skipped(w[1..], b);
    }
  }

  lemma MetricText()
    ensures var w := Ascii(" * (100/?) ");
            forall i :: 0 <= i < |w| ==> w[i] != EOF_BYTE && w[i] != NL && w[i] != '[' as int
  {
    assert Ascii(" * (100/?) ") == [32, 42, 32, 40, 49, 48, 48, 47, 63, 41, 32];
  }

  /** From the metric to the end of the line. */
  lemma OriginsParsed(asNo: Option<u32>, src: Source, rest: seq<byte>)
    ensures AtEol(ParseOrigins(Ascii(" * (100/?) ") + (PrintSource(asNo, src) + ([NL] + rest)))) ==
            Ok(Read(Origins(asNo, src), rest))
  {
    hide Ascii, Decimal, ParseSource, SkipToBracket, SourceChar;
    MetricText();
    var end := [NL] + rest;
    var num := if asNo.Some? then Ascii("AS") + Decimal(asNo.value) else [];
    var c := [SourceChar(src)];
    Assoc(Ascii("["), num + (c + Ascii("]")), end);
    Assoc(num, c + Ascii("]"), end);
    Assoc(c, Ascii("]"), end);
    Skipped(Ascii(" * (100/?) "), num + (c + (Ascii("]") + end)));
    SourceParsed(asNo, src, Ascii("]") + end);
    MatchOwn(Ascii("]"), end);
    MatchOwn([NL], rest);
  }

  // ---------- entries and the whole table ----------

  lemma PaddingEaten(n: nat, w: seq<byte>, b: seq<byte>)
    requires Solid(w)
    ensures EndsInt(Padding(n) + ([SPACE] + (w + b))) && EatWs(Padding(n) + ([SPACE] + (w + b))) == w + b
  {
    EatSpace(w + b);
    assert (w + b)[0] == w[0];
    EatSpaces(if n <= 17 then 18 - n else 0, [SPACE] + (w + b));
    assert (Padding(n) + ([SPACE] + (w + b)))[0] == SPACE;
  }

  lemma HeadText(e: Rte, rest: seq<byte>)
    ensures PrintHead(e) + rest ==
            PrintNet(e.netaddr, e.netmask) +
            (Padding(|PrintNet(e.netaddr, e.netmask)|) +
             ([SPACE] + (Ascii("via") + ([SPACE] + (PrintIp(e.gwaddr) +
              ([SPACE] + (Ascii("on") + ([SPACE] + (e.ifname + (PrintUplink(e.uplink, e.uplinkFrom) +
               (Ascii(" * (100/?) ") + (PrintSource(e.asNo, e.src) + ([NL] + rest)))))))))))))
  {
    hide PrintNet, Padding, PrintIp, PrintUplink, PrintSource, Ascii, Solid;
    LineWords();
    var n, p, g := PrintNet(e.netaddr, e.netmask), Padding(|PrintNet(e.netaddr, e.netmask)|), PrintIp(e.gwaddr);
    var u, m, o := PrintUplink(e.uplink, e.uplinkFrom), Ascii(" * (100/?) "), PrintSource(e.asNo, e.src);
    var t5 := m + (o + [NL]);
    var t4 := e.ifname + (u + t5);
    var t3 := g + (Ascii(" on ") + t4);
    Assoc(n, p + (Ascii(" via ") + t3), rest);
    Assoc(p, Ascii(" via ") + t3, rest);
    Assoc(Ascii(" via "), t3, rest);
    Assoc(g, Ascii(" on ") + t4, rest);
    Assoc(Ascii(" on "), t4, rest);
    Assoc(e.ifname, u + t5, rest);
    Assoc(u, t5, rest);
    Assoc(m, o + [NL], rest);
    Assoc(o, [NL], rest);
    SpacedText(Ascii("via"), t3 + rest);
    SpacedText(Ascii("on"), t4 + rest);
  }

  lemma UplinkEndsName(t: Time, from: Option<Ip>, rest: seq<byte>)
    ensures Ends(Alnum, PrintUplink(t, from) + rest)
  {
    hide PrintTime, PrintIp;
    assert (PrintUplink(t, from) + rest)[0] == Ascii(" [")[0];
  }

  lemma HeadParsed(e: Rte, rest: seq<byte>)
    requires e.ifname != [] && AllIn(Alnum, e.ifname)
    ensures ParseHead(PrintHead(e) + rest) ==
            Ok(Read(e.(netmask := e.netmask % 0x100, attrs := [], typ := NO_TYPE), rest))
  {
    hide PrintNet, Padding, PrintIp, PrintUplink, PrintSource, Ascii, Solid, ParseNet, ParseIp, ParseWord, ParseUplink,
         ParseOrigins, AtEol, MatchWs, EatWs, PrintHead, AllIn;
    HeadText(e, rest);
    LineWords();
    var t6 := Ascii(" * (100/?) ") + (PrintSource(e.asNo, e.src) + ([NL] + rest));
    var t5 := PrintUplink(e.uplink, e.uplinkFrom) + t6;
    var t4 := [SPACE] + (e.ifname + t5);
    var t3 := [SPACE] + (Ascii("on") + t4);
    var t2 := [SPACE] + (PrintIp(e.gwaddr) + t3);
    PaddingEaten(|PrintNet(e.netaddr, e.netmask)|, Ascii("via"), t2);
    NetParsed(e.netaddr, e.netmask, Padding(|PrintNet(e.netaddr, e.netmask)|) + ([SPACE] + (Ascii("via") + t2)));
    ViaParsed(t2);
    EatSpace(PrintIp(e.gwaddr) + t3);
    IpIsSolid(e.gwaddr, t3);
    IpParsed(t2, e.gwaddr, t3);
    MatchWsOwn(Ascii("on"), t4);
    EatSpace(e.ifname + t5);
    WordIsSolid(Alnum, e.ifname, t5);
    UplinkEndsName(e.uplink, e.uplinkFrom, t6);
    WordParsed(Alnum, t4, e.ifname, t5);
    UplinkParsed(e.uplink, e.uplinkFrom, t6);
    OriginsParsed(e.asNo, e.src, rest);
  }

  lemma ViaParsed(b: seq<byte>)
    ensures MatchWs(Ascii("via"), Ascii("via") + b) == Ok(b)
  {
    LineWords();
    MatchWsOwn(Ascii("via"), b);
  }

  /** One entry, with its type and all its attributes. */
  lemma RteParsed(e: Rte, rest: seq<byte>)
    requires LegalRte(e) && EndsAttrs(rest)
    ensures ParseRte(PrintRte(e) + rest) == if RtePrefsFit(e) then Ok(Read(ReturnedRte(e), rest)) else Err(ErrParse)
  {
    hide PrintHead, ParseHead, PrintType, PrintAttrs, ParseAttrLine, LegalValue, PrefFits, AllIn, ReturnedAttrs,
         NO_TYPE;
    var b2 := PrintAttrs(e.attrs) + rest;
    var b1 := PrintType(e.typ) + b2;
    Assoc(PrintHead(e), PrintType(e.typ) + PrintAttrs(e.attrs), rest);
    Assoc(PrintType(e.typ), PrintAttrs(e.attrs), rest);
    HeadParsed(e, b1);
    var d := Details(NO_TYPE, []);
    TypeParsed(d, e.typ, b2);
    AttrsParsed(d.(typ := e.typ), e.attrs, rest);
    assert [] + ReturnedAttrs(e.attrs) == ReturnedAttrs(e.attrs);
  }

  lemma {:induction false} EntriesParsed(acc: seq<Rte>, es: seq<Rte>)
    requires forall i :: 0 <= i < |es| ==> LegalRte(es[i])
    ensures ParseEntries(acc, PrintEntries(es)) ==
            if forall i :: 0 <= i < |es| ==> RtePrefsFit(es[i]) then Ok(acc + ReturnedEntries(es)) else Err(ErrParse)
    decreases |es|
  {
    hide PrintRte, ParseRte, LegalRte, RtePrefsFit, ReturnedRte;
    if es == [] {
      assert acc + ReturnedEntries(es) == acc;
    } else {
      var b := PrintEntries(es[1..]);
      EntriesStart(es[1..]);
      RteParsed(es[0], b);
      EntriesParsed(acc + [ReturnedRte(es[0])], es[1..]);
      assert acc + [ReturnedRte(es[0])] + ReturnedEntries(es[1..]) == acc + ReturnedEntries(es);
    }
  }

  lemma EntriesStart(es: seq<Rte>)
    ensures EndsAttrs(PrintEntries(es))
  {
    hide PrintRte;
  }

  lemma BannerText(b: seq<byte>)
    ensures Ascii(" ready.\n") + b == Ascii(" ready.") + ([NL] + b) && Ends(KeyChars, Ascii(" ready.") + ([NL] + b))
  {
    assert Ascii(" ready.\n") == Ascii(" ready.") + [NL];
    Assoc(Ascii(" ready."), [NL], b);
    Sep(" ready.", [NL] + b);
  }

  lemma TableText(rt: Rt)
    requires Legal(rt)
    ensures var es := ParseEntries([], PrintEntries(rt.entries));
            ParseRt(PrintRt(rt)) == if es.Err? then Err(es.error) else Ok(Rt(rt.version, es.value))
  {
    hide Ascii, ParseWord, PrintEntries, ParseEntries, AllIn, LegalRte;
    var es := PrintEntries(rt.entries);
    var b2 := Ascii(" ready.") + ([NL] + es);
    var b1 := rt.version + b2;
    BannerText(es);
    MatchOwn(Ascii("BIRD "), b1);
    WordIsSolid(KeyChars, rt.version, b2);
    WordParsed(KeyChars, b1, rt.version, b2);
    MatchOwn(Ascii(" ready."), [NL] + es);
    MatchOwn([NL], es);
  }

  /** The parser gives back every legal table: all its entries in order, with all their attributes, flags, paths,
      negative times and optional fields; only netmasks are cut to a byte and empty free values become absent. The one
      thing that makes it fail is a local preference of 2^31 or more. */
  lemma TableRoundTrip(rt: Rt)
    requires Legal(rt)
    ensures ParseRt(PrintRt(rt)) == if PrefsFit(rt) then Ok(Returned(rt)) else Err(ErrParse)
  {
    hide ParseRt, PrintRt, ParseEntries, LegalRte, RtePrefsFit, AllIn, ReturnedEntries;
    TableText(rt);
    EntriesParsed([], rt.entries);
    assert [] + ReturnedEntries(rt.entries) == ReturnedEntries(rt.entries);
  }

  /** Netmasks are bytes and no free value is empty but present. */
  predicate Exact(rt: Rt) {
    forall i :: 0 <= i < |rt.entries| ==> ExactRte(rt.entries[i])
  }

  predicate ExactRte(e: Rte) {
    e.netmask < 0x100 &&
    forall k :: 0 <= k < |e.attrs| ==> !(e.attrs[k].value.OtherAttr? && e.attrs[k].value.value == Some([]))
  }

  /** A legal table comes back exactly as it was if and only if its preferences are below 2^31 and it is exact. */
  lemma ExactRoundTrip(rt: Rt)
    requires Legal(rt)
    ensures ParseRt(PrintRt(rt)) == Ok(rt) <==> PrefsFit(rt) && Exact(rt)
  {
    hide ParseRt, PrintRt, Legal, PrefsFit;
    TableRoundTrip(rt);
    if Exact(rt) {
      forall i | 0 <= i < |rt.entries|
        ensures ReturnedRte(rt.entries[i]) == rt.entries[i]
      {
        assert ReturnedAttrs(rt.entries[i].attrs) == rt.entries[i].attrs;
      }
      assert ReturnedEntries(rt.entries) == rt.entries;
    } else {
      var i :| 0 <= i < |rt.entries| && !ExactRte(rt.entries[i]);
      assert ReturnedEntries(rt.entries)[i] == ReturnedRte(rt.entries[i]);
      InexactRte(rt.entries[i]);
    }
  }

  lemma InexactRte(e: Rte)
    requires !ExactRte(e)
    ensures ReturnedRte(e) != e
  {
    if e.netmask < 0x100 {
      var k :| 0 <= k < |e.attrs| && e.attrs[k].value.OtherAttr? && e.attrs[k].value.value == Some([]);
      assert ReturnedAttrs(e.attrs)[k] != e.attrs[k];
    }
  }
}
