/** The parser of routing tables against a grammar of its text, for every input. A run of characters ends at the first
    other character, at the end of the input, or at a byte 0xFF, which is lost. */
module BirdGrammar {
  import opened Prelude
  import opened BirdText

  // ---------- runs of characters ----------

  datatype Kind = Blank | Digit | Alphanumeric | OfKey | OfLine

  predicate In(k: Kind, c: byte) {
    match k
    case Blank => c == 32 || c == 9
    case Digit => 48 <= c <= 57
    case Alphanumeric => 48 <= c <= 57 || 65 <= c <= 90 || 97 <= c <= 122
    case OfKey => 48 <= c <= 57 || 65 <= c <= 90 || 97 <= c <= 122 || c == 46 || c == 95
    case OfLine => c != 10 && c != 0xFF
  }

  predicate Run(k: Kind, b: seq<byte>, w: seq<byte>, rest: seq<byte>) {
    && w <= b && (forall i :: 0 <= i < |w| ==> w[i] != 0xFF && In(k, w[i]))
    && RunEnds(k, b[|w|..], rest)
  }

  predicate RunEnds(k: Kind, b: seq<byte>, rest: seq<byte>) {
    b == [0xFF] + rest || (b == rest && (b == [] || (b[0] != 0xFF && !In(k, b[0]))))
  }

  predicate Lit(s: string, b: seq<byte>, rest: seq<byte>) {
    |b| == |s| + |rest| && b[|s|..] == rest && forall i :: 0 <= i < |s| ==> b[i] as int == s[i] as int
  }

  /** The decimal value of digits. */
  function ValueOf(ds: seq<byte>): nat
    requires forall i :: 0 <= i < |ds| ==> In(Digit, ds[i])
  {
    if ds == [] then 0
    else
      var last := ds[|ds| - 1];
      assert In(Digit, last);
      10 * ValueOf(ds[..|ds| - 1]) + (last as int - 48)
  }

  ghost predicate Skips(b: seq<byte>, rest: seq<byte>) {
    exists w :: Run(Blank, b, w, rest)
  }

  ghost predicate IsWord(k: Kind, w: seq<byte>, b: seq<byte>, rest: seq<byte>) {
    exists x :: Skips(b, x) && Run(k, x, w, rest)
  }

  /** Numbers of any length, in 32 bits. */
  ghost predicate IsNumber(n: u32, b: seq<byte>, rest: seq<byte>) {
    exists ds :: ds != [] && IsWord(Digit, ds, b, rest) && IsValue(n, ds)
  }

  predicate IsValue(n: u32, ds: seq<byte>) {
    (forall i :: 0 <= i < |ds| ==> In(Digit, ds[i])) && n == ValueOf(ds) % 0x1_0000_0000
  }

  /** A word behind blanks. */
  ghost predicate Skip(s: string, b: seq<byte>, rest: seq<byte>) {
    exists x :: Skips(b, x) && Lit(s, x, rest)
  }

  // ---------- the grammar ----------

  ghost predicate IsByteDot(n: byte, b: seq<byte>, rest: seq<byte>) {
    exists m: u32, x :: IsNumber(m, b, x) && Lit(".", x, rest) && n == m % 0x100
  }

  ghost predicate IsIp(ip: Ip, b: seq<byte>, rest: seq<byte>) {
    exists x, x0, x1, x2, m: u32 ::
      Skips(b, x) && IsByteDot(ip.a, x, x0) && IsByteDot(ip.b, x0, x1) && IsByteDot(ip.c, x1, x2) &&
      IsNumber(m, x2, rest) && ip.d == m % 0x100
  }

  /** A field of a time is an `int`, so that numbers from 2^31 on are negative. */
  ghost predicate IsField(i: i32, b: seq<byte>, rest: seq<byte>) {
    exists n: u32 :: IsNumber(n, b, rest) && (n == i || n == i + 0x1_0000_0000)
  }

  ghost predicate IsTime(t: Time, b: seq<byte>, rest: seq<byte>) {
    exists x0, x1, x2, x3 ::
      IsField(t.hour, b, x0) && Lit(":", x0, x1) && IsField(t.min, x1, x2) && Lit(":", x2, x3) &&
      IsField(t.sec, x3, rest)
  }

  ghost predicate AreTypeWords(ws: seq<string>, b: seq<byte>, rest: seq<byte>)
    decreases |ws|
  {
    if ws == [] then IsWord(Alphanumeric, [], b, rest)
    else exists x, w ::
      IsWord(Alphanumeric, w, b, x) && Lit(ws[0], w, []) && ws[0] in {"BGP", "unicast", "univ", "static"} &&
      AreTypeWords(ws[1..], x, rest)
  }

  ghost predicate IsTypeLine(t: RteType, b: seq<byte>, rest: seq<byte>) {
    exists ws, x ::
      AreTypeWords(ws, b, x) && Lit("\n", x, rest) &&
      t == RteType("BGP" in ws, "unicast" in ws, "univ" in ws, "static" in ws)
  }

  ghost predicate IsOrigin(o: Origin, b: seq<byte>, rest: seq<byte>) {
    exists w :: IsWord(Alphanumeric, w, b, rest) && IsOriginWord(o, w)
  }

  predicate IsOriginWord(o: Origin, w: seq<byte>) {
    match o
    case Igp => Lit("IGP", w, [])
    case Egp => Lit("EGP", w, [])
    case Incomplete => Lit("Incomplete", w, [])
  }

  /** Numbers and braces. A number is an `int` as well, and the braces are -2 and -3. */
  ghost predicate IsPath(path: seq<i32>, b: seq<byte>, rest: seq<byte>)
    decreases |path|
  {
    if path == [] then exists x ::
      IsWord(Digit, [], b, x) && Skips(x, rest) && (rest != [] ==> rest[0] != '{' as int && rest[0] != '}' as int)
    else exists x :: IsHop(path[0], b, x) && IsPath(path[1..], x, rest)
  }

  ghost predicate IsHop(i: i32, b: seq<byte>, rest: seq<byte>) {
    IsField(i, b, rest) ||
    exists x :: IsWord(Digit, [], b, x) && ((i == -2 && Skip("{", x, rest)) || (i == -3 && Skip("}", x, rest)))
  }

  ghost predicate IsFlag(f: Flag, b: seq<byte>, rest: seq<byte>) {
    exists x0, x1, x2, x3 ::
      Lit("(", b, x0) && IsNumber(f.flag, x0, x1) && Lit(",", x1, x2) && IsNumber(f.asNo, x2, x3) && Lit(")", x3, rest)
  }

  ghost predicate AreFlags(fs: seq<Flag>, b: seq<byte>, rest: seq<byte>)
    decreases |fs|
  {
    if fs == [] then Skips(b, rest) && (rest != [] ==> rest[0] != '(' as int)
    else exists x, y :: Skips(b, x) && IsFlag(fs[0], x, y) && AreFlags(fs[1..], y, rest)
  }

  ghost predicate IsAggregator(ip: Ip, n: u32, b: seq<byte>, rest: seq<byte>) {
    exists x, y :: IsIp(ip, b, x) && Skip("AS", x, y) && IsNumber(n, y, rest)
  }

  /** The rest of the line as a C string. */
  ghost predicate IsFree(v: Option<seq<byte>>, b: seq<byte>, rest: seq<byte>) {
    exists x, line ::
      Skips(b, x) && IsWord(OfLine, line, x, rest) && v == if line == [] then None else Some(CStr(line))
  }

  /** Each value under the key of its kind, and free ones under any other. */
  ghost predicate IsValueOf(v: Value, key: seq<byte>, b: seq<byte>, rest: seq<byte>) {
    match v
    case BgpOrigin(o) => Lit("BGP.origin", key, []) && IsOrigin(o, b, rest)
    case BgpAsPath(path) => Lit("BGP.as_path", key, []) && IsPath(path, b, rest) && rest != []
    case BgpNextHop(ip) => Lit("BGP.next_hop", key, []) && IsIp(ip, b, rest)
    case BgpLocalPref(n) => Lit("BGP.local_pref", key, []) && IsNumber(n, b, rest)
    case BgpCommunity(fs) => Lit("BGP.community", key, []) && AreFlags(fs, b, rest)
    case BgpAggregator(ip, n) => Lit("BGP.aggregator", key, []) && IsAggregator(ip, n, b, rest)
    case OtherAttr(k, w) =>
      key == k && IsFree(w, b, rest) &&
      forall s | s in {"BGP.origin", "BGP.as_path", "BGP.next_hop", "BGP.local_pref", "BGP.community",
                       "BGP.aggregator"} :: !Lit(s, key, [])
  }

  ghost predicate IsKey(key: seq<byte>, tflag: bool, b: seq<byte>, rest: seq<byte>) {
    exists x, y, z ::
      key != [] && IsWord(OfKey, key, b, x) && Skips(x, y) && Lit(if tflag then "[t]:" else ":", y, z) && Skips(z, rest)
  }

  datatype Line = TypeLine(typ: RteType) | AttrLine(attr: Attr)

  ghost predicate IsLine(l: Line, b: seq<byte>, rest: seq<byte>) {
    exists key, x :: IsKey(key, l.AttrLine? && l.attr.tflag, b, x) && IsLineOf(l, key, x, rest)
  }

  ghost predicate IsLineOf(l: Line, key: seq<byte>, b: seq<byte>, rest: seq<byte>) {
    match l
    case TypeLine(t) => Lit("Type", key, []) && IsTypeLine(t, b, rest)
    case AttrLine(a) => !Lit("Type", key, []) && exists x :: IsValueOf(a.value, key, b, x) && Lit("\n", x, rest)
  }

  /** Lines that start with a tabulator. */
  ghost predicate AreLines(ls: seq<Line>, b: seq<byte>, rest: seq<byte>)
    decreases |ls|
  {
    if ls == [] then b == [0xFF] + rest || (b == rest && (b == [] || (b[0] != 0xFF && b[0] != 9)))
    else exists x, y :: Lit("\t", b, x) && IsLine(ls[0], x, y) && AreLines(ls[1..], y, rest)
  }

  /** The last type line counts. */
  function LastType(ls: seq<Line>, before: RteType): RteType
    decreases |ls|
  {
    if ls == [] then before
    else if ls[|ls| - 1].TypeLine? then ls[|ls| - 1].typ
    else LastType(ls[..|ls| - 1], before)
  }

  function AttrsOf(ls: seq<Line>): seq<Attr> {
    if ls == [] then [] else (if ls[0].AttrLine? then [ls[0].attr] else []) + AttrsOf(ls[1..])
  }

  ghost predicate IsSource(o: Origins, b: seq<byte>, rest: seq<byte>) {
    if o.asNo.None? then IsSourceChar(o.src, b, rest)
    else exists x, y :: Lit("AS", b, x) && IsNumber(o.asNo.value, x, y) && IsSourceChar(o.src, y, rest)
  }

  predicate IsSourceChar(src: Source, b: seq<byte>, rest: seq<byte>) {
    match src
    case Internal => Lit("i", b, rest)
    case External => Lit("e", b, rest)
    case U => Lit("u", b, rest)
    case WhoKnows => Lit("?", b, rest)
  }

  /** A metric has no bracket in it. */
  predicate IsMetric(m: seq<byte>) {
    forall i :: 0 <= i < |m| ==> m[i] != 10 && m[i] != '[' as int && m[i] != 0xFF
  }

  /** Behind the uplink there may be a source in brackets. */
  ghost predicate IsOrigins(o: Origins, b: seq<byte>, rest: seq<byte>) {
    exists m, t :: b == m + t && IsMetric(m) &&
      (IsBracketed(o, t, rest) || (o == Origins(None, Internal) && IsEnd(t, rest)))
  }

  ghost predicate IsBracketed(o: Origins, b: seq<byte>, rest: seq<byte>) {
    exists x, y :: Lit("[", b, x) && IsSource(o, x, y) && Lit("]", y, rest)
  }

  predicate IsEnd(b: seq<byte>, rest: seq<byte>) {
    b == [0xFF] + rest || (b == rest && (b == [] || b[0] == 10))
  }

  ghost predicate IsUplink(u: Uplink, b: seq<byte>, rest: seq<byte>) {
    exists x, y, z, t ::
      Skip("[", b, x) && (if u.from.Some? then Skip("uplink", x, y) else Lit("static1", x, y)) && Skips(y, z) &&
      IsTime(u.time, z, t) && IsUplinkEnd(u.from, t, rest)
  }

  ghost predicate IsUplinkEnd(from: Option<Ip>, b: seq<byte>, rest: seq<byte>) {
    if from.None? then Skip("]", b, rest)
    else exists x, y :: Skip("from", b, x) && IsIp(from.value, x, y) && Skip("]", y, rest)
  }

  ghost predicate IsNet(n: Net, b: seq<byte>, rest: seq<byte>) {
    exists x, y, z :: IsIp(n.ip, b, x) && Lit("/", x, y) && IsNumber(n.mask, y, z) && Skips(z, rest)
  }

  ghost predicate IsRoute(r: Route, b: seq<byte>, rest: seq<byte>) {
    exists x, y, z, t ::
      IsNet(r.net, b, x) && Skip("via", x, y) && IsIp(r.gwaddr, y, z) && Skip("on", z, t) &&
      IsWord(Alphanumeric, r.ifname, t, rest) && r.ifname != []
  }

  /** The first line of an entry. */
  ghost predicate IsHead(e: Rte, b: seq<byte>, rest: seq<byte>) {
    exists x, y, z ::
      IsRoute(Route(Net(e.netaddr, e.netmask), e.gwaddr, e.ifname), b, x) &&
      IsUplink(Uplink(e.uplink, e.uplinkFrom), x, y) &&
      IsOrigins(Origins(e.asNo, e.src), y, z) && Lit("\n", z, rest)
  }

  ghost predicate IsRte(e: Rte, b: seq<byte>, rest: seq<byte>) {
    exists x, ls ::
      IsHead(e, b, x) && AreLines(ls, x, rest) && e.typ == LastType(ls, RteType(false, false, false, false)) &&
      e.attrs == AttrsOf(ls)
  }

  ghost predicate AreEntries(es: seq<Rte>, b: seq<byte>)
    decreases |es|
  {
    if es == [] then b == [] || b[0] == 0xFF
    else b != [] && b[0] != 0xFF && exists x :: IsRte(es[0], b, x) && AreEntries(es[1..], x)
  }

  ghost predicate IsTable(rt: Rt, b: seq<byte>) {
    exists x, y, z ::
      Lit("BIRD ", b, x) && rt.version != [] && IsWord(OfKey, rt.version, x, y) && Lit(" ready.\n", y, z) &&
      AreEntries(rt.entries, z)
  }

  // ---------- runs are read ----------

  predicate IsClass(k: Kind, cls: CharClass) {
    match cls
    case Alnum => k == Alphanumeric
    case KeyChars => k == OfKey
    case LineChars => k == OfLine
  }

  lemma Classes(k: Kind, cls: CharClass, c: byte)
    ensures IsClass(k, cls) && c != 0xFF ==> (cls.Has(c) <==> In(k, c))
    ensures IsBlank(c) <==> In(Blank, c)
    ensures IsDigit(c) <==> In(Digit, c)
  {}

  lemma RunStep(k: Kind, b: seq<byte>, w: seq<byte>, rest: seq<byte>)
    requires b != [] && b[0] != 0xFF && In(k, b[0])
    ensures Run(k, b[1..], w, rest) <==> Run(k, b, [b[0]] + w, rest)
  {
    hide In;
    var v := [b[0]] + w;
    assert w <= b[1..] <==> v <= b;
    if w <= b[1..] {
      assert b[1..][|w|..] == b[|v|..];
    }
    assert forall i :: 0 <= i < |w| ==> v[i + 1] == w[i];
    assert forall i :: 1 <= i < |v| ==> v[i] == w[i - 1];
  }

  /** A run starts with the first character if that is of the class. */
  lemma RunStart(k: Kind, b: seq<byte>, w: seq<byte>, rest: seq<byte>)
    requires Run(k, b, w, rest)
    ensures w != [] <==> b != [] && b[0] != 0xFF && In(k, b[0])
    ensures w != [] ==> w[0] == b[0] && [b[0]] + w[1..] == w && Run(k, b[1..], w[1..], rest)
  {
    hide In;
    if w != [] {
      assert w[0] == b[0] && [b[0]] + w[1..] == w;
      RunStep(k, b, w[1..], rest);
    } else {
      assert b[0..] == b;
    }
  }

  lemma NoRun(k: Kind, b: seq<byte>, rest: seq<byte>)
    ensures Run(k, b, [], rest) <==> RunEnds(k, b, rest)
  {
    assert b[0..] == b;
  }

  lemma Restarts(b: seq<byte>)
    requires b != []
    ensures b == [b[0]] + b[1..]
  {}

  lemma {:induction false} SkipsIff(b: seq<byte>, rest: seq<byte>)
    ensures EatWs(b) == rest <==> Skips(b, rest)
    decreases |b|
  {
    hide In, Run, IsBlank;
    NoRun(Blank, b, rest);
    if b != [] && b[0] != 0xFF && In(Blank, b[0]) {
      Classes(Blank, Alnum, b[0]);
      SkipsIff(b[1..], rest);
      if Skips(b[1..], rest) {
        var w :| Run(Blank, b[1..], w, rest);
        RunStep(Blank, b, w, rest);
      }
      if Skips(b, rest) {
        var w :| Run(Blank, b, w, rest);
        RunStart(Blank, b, w, rest);
      }
    } else {
      SkipsNothing(b, rest);
    }
  }

  lemma SkipsNothing(b: seq<byte>, rest: seq<byte>)
    requires !(b != [] && b[0] != 0xFF && In(Blank, b[0]))
    ensures EatWs(b) == rest <==> Skips(b, rest)
  {
    hide Run;
    NoRun(Blank, b, rest);
    if Skips(b, rest) {
      var w :| Run(Blank, b, w, rest);
      RunStart(Blank, b, w, rest);
    }
    if b != [] {
      Restarts(b);
      Classes(Blank, Alnum, b[0]);
    }
  }

  lemma {:induction false} AccumIff(k: Kind, cls: CharClass, acc: seq<byte>, b: seq<byte>, w: seq<byte>,
                                      rest: seq<byte>)
    requires IsClass(k, cls)
    ensures Accum(cls, acc, b) == Read(acc + w, rest) <==> Run(k, b, w, rest)
    decreases |b|
  {
    hide In, Run, IsClass;
    if b != [] {
      Classes(k, cls, b[0]);
    }
    if b != [] && b[0] != 0xFF && In(k, b[0]) {
      if w != [] && w[0] == b[0] {
        assert acc + w == acc + [b[0]] + w[1..] && w == [b[0]] + w[1..];
        AccumIff(k, cls, acc + [b[0]], b[1..], w[1..], rest);
        RunStep(k, b, w[1..], rest);
      } else {
        if Run(k, b, w, rest) {
          RunStart(k, b, w, rest);
        }
        AccumGrows(cls, acc + [b[0]], b[1..]);
        Differs(acc, w, b[0]);
      }
    } else {
      AccumNothing(k, cls, acc, b, w, rest);
    }
  }

  lemma Differs(acc: seq<byte>, w: seq<byte>, c: byte)
    requires w == [] || w[0] != c
    ensures !(acc + [c] <= acc + w)
  {
    assert (acc + [c])[|acc|] == c;
    assert w != [] ==> (acc + w)[|acc|] == w[0];
  }

  lemma {:induction false} AccumGrows(cls: CharClass, acc: seq<byte>, b: seq<byte>)
    ensures acc <= Accum(cls, acc, b).value
    decreases |b|
  {
    if b != [] && b[0] != 0xFF && cls.Has(b[0]) {
      AccumGrows(cls, acc + [b[0]], b[1..]);
    }
  }

  lemma AccumNothing(k: Kind, cls: CharClass, acc: seq<byte>, b: seq<byte>, w: seq<byte>, rest: seq<byte>)
    requires IsClass(k, cls) && !(b != [] && b[0] != 0xFF && In(k, b[0]))
    ensures Accum(cls, acc, b) == Read(acc + w, rest) <==> Run(k, b, w, rest)
  {
    hide Run, IsClass;
    NoRun(k, b, rest);
    if Run(k, b, w, rest) {
      RunStart(k, b, w, rest);
    }
    if b != [] {
      Restarts(b);
      Classes(k, cls, b[0]);
    }
    assert acc + [] == acc;
    if w != [] {
      assert |acc + w| > |acc|;
    }
  }

  // ---------- numbers ----------

  lemma Mod32(v: nat, d: nat)
    ensures (10 * (v % 0x1_0000_0000) + d) % 0x1_0000_0000 == (10 * v + d) % 0x1_0000_0000
  {
    var q := v / 0x1_0000_0000;
    assert 10 * v + d == 10 * (v % 0x1_0000_0000) + d + 10 * q * 0x1_0000_0000;
  }

  lemma {:induction false} ScanRun(pre: seq<byte>, b: seq<byte>, ds: seq<byte>, rest: seq<byte>)
    requires (forall i :: 0 <= i < |pre| ==> In(Digit, pre[i])) && Run(Digit, b, ds, rest)
    ensures forall i :: 0 <= i < |pre + ds| ==> In(Digit, (pre + ds)[i])
    ensures ScanDigits(ValueOf(pre) % 0x1_0000_0000, |pre|, b) ==
            Digits(ValueOf(pre + ds) % 0x1_0000_0000, |pre| + |ds|, rest)
    decreases |ds|
  {
    hide Run;
    RunStart(Digit, b, ds, rest);
    if ds == [] {
      assert pre + ds == pre;
      NoRun(Digit, b, rest);
      ScanNothing(ValueOf(pre) % 0x1_0000_0000, |pre|, b, rest);
    } else {
      var more := pre + [b[0]];
      assert more[..|pre|] == pre && pre + ds == more + ds[1..];
      ScanRun(more, b[1..], ds[1..], rest);
      Mod32(ValueOf(pre), b[0] as int - 48);
      Classes(Digit, Alnum, b[0]);
    }
  }

  lemma ScanNothing(n: u32, count: nat, b: seq<byte>, rest: seq<byte>)
    requires Run(Digit, b, [], rest)
    ensures ScanDigits(n, count, b) == Digits(n, count, rest)
  {
    NoRun(Digit, b, rest);
  }

  lemma {:induction false} SomeRun(k: Kind, b: seq<byte>) returns (w: seq<byte>, rest: seq<byte>)
    ensures Run(k, b, w, rest)
    decreases |b|
  {
    hide In;
    if b != [] && b[0] != 0xFF && In(k, b[0]) {
      var v, r := SomeRun(k, b[1..]);
      RunStep(k, b, v, r);
      w, rest := [b[0]] + v, r;
    } else {
      w, rest := [], if b != [] && b[0] == 0xFF then b[1..] else b;
      NoRun(k, b, rest);
      if b != [] { Restarts(b); }
    }
  }

  /** How the digits behind blanks are read, if there are any. */
  lemma DigitsScanned(b: seq<byte>, ds: seq<byte>, rest: seq<byte>)
    requires IsWord(Digit, ds, b, rest)
    ensures forall i :: 0 <= i < |ds| ==> In(Digit, ds[i])
    ensures TryInt(b) == Digits(ValueOf(ds) % 0x1_0000_0000, |ds|, rest)
  {
    hide Skips, EatWs, ScanDigits, In, Run, ValueOf;
    var x :| Skips(b, x) && Run(Digit, x, ds, rest);
    SkipsIff(b, x);
    RunScanned(x, ds, rest);
  }

  lemma RunScanned(b: seq<byte>, ds: seq<byte>, rest: seq<byte>)
    requires Run(Digit, b, ds, rest)
    ensures forall i :: 0 <= i < |ds| ==> In(Digit, ds[i])
    ensures ScanDigits(0, 0, b) == Digits(ValueOf(ds) % 0x1_0000_0000, |ds|, rest)
  {
    hide ScanDigits, In, Run;
    ScanRun([], b, ds, rest);
    assert [] + ds == ds;
  }

  lemma SomeDigits(b: seq<byte>) returns (ds: seq<byte>)
    ensures IsWord(Digit, ds, b, TryInt(b).rest)
  {
    hide Skips, EatWs, ScanDigits, Run;
    SkipsIff(b, EatWs(b));
    var rest;
    ds, rest := SomeRun(Digit, EatWs(b));
    assert IsWord(Digit, ds, b, rest);
    DigitsScanned(b, ds, rest);
  }

  lemma NumberIff(b: seq<byte>, n: u32, rest: seq<byte>)
    ensures ParseU32(b) == Ok(Read(n, rest)) <==> IsNumber(n, b, rest)
  {
    hide IsWord, TryInt, In, ValueOf;
    if ParseU32(b) == Ok(Read(n, rest)) {
      var ds := SomeDigits(b);
      DigitsScanned(b, ds, rest);
      assert IsValue(n, ds);
    }
    if IsNumber(n, b, rest) {
      var ds :| ds != [] && IsWord(Digit, ds, b, rest) && IsValue(n, ds);
      DigitsScanned(b, ds, rest);
    }
  }

  lemma NoNumberIff(b: seq<byte>, rest: seq<byte>)
    ensures TryInt(b).count == 0 && TryInt(b).rest == rest <==> IsWord(Digit, [], b, rest)
  {
    hide IsWord, TryInt;
    var ds := SomeDigits(b);
    DigitsScanned(b, ds, TryInt(b).rest);
    if IsWord(Digit, [], b, rest) {
      DigitsScanned(b, [], rest);
    }
  }

  // ---------- words ----------

  lemma WordIff(k: Kind, cls: CharClass, b: seq<byte>, w: seq<byte>, rest: seq<byte>)
    requires IsClass(k, cls)
    ensures TryAccum(cls, b) == Read(w, rest) <==> IsWord(k, w, b, rest)
  {
    hide Skips, EatWs, Accum, Run;
    SkipsIff(b, EatWs(b));
    AccumIff(k, cls, [], EatWs(b), w, rest);
    assert [] + w == w;
    if IsWord(k, w, b, rest) {
      var x :| Skips(b, x) && Run(k, x, w, rest);
      SkipsIff(b, x);
    }
  }

  /** The characters of a literal word have codes below 256. */
  predicate IsLiteral(s: string) {
    forall i :: 0 <= i < |s| ==> s[i] as int < 0x100
  }

  lemma MatchIff(s: string, b: seq<byte>, rest: seq<byte>)
    requires IsLiteral(s)
    ensures Match(Ascii(s), b) == Ok(rest) <==> Lit(s, b, rest)
  {
    if Lit(s, b, rest) {
      assert b[..|s|] == Ascii(s);
    }
  }

  lemma SkipIff(s: string, b: seq<byte>, rest: seq<byte>)
    requires IsLiteral(s)
    ensures MatchWs(Ascii(s), b) == Ok(rest) <==> Skip(s, b, rest)
  {
    hide Skips, EatWs, Lit, Match;
    SkipsIff(b, EatWs(b));
    MatchIff(s, EatWs(b), rest);
    if Skip(s, b, rest) {
      var x :| Skips(b, x) && Lit(s, x, rest);
      SkipsIff(b, x);
    }
  }

  lemma WholeWord(s: string, w: seq<byte>)
    requires IsLiteral(s)
    ensures w == Ascii(s) <==> Lit(s, w, [])
  {
    if Lit(s, w, []) {
      assert w == Ascii(s);
    }
  }

  lemma LineEnd()
    ensures Ascii("\n") == [NL] && Ascii("\t") == [TAB]
  {}

  // ---------- addresses and times ----------

  lemma ByteDotIff(b: seq<byte>, n: byte, rest: seq<byte>)
    ensures var p := ParseIpByte(b);
            p.Ok? && p.value.value == n && Match(Ascii("."), p.value.rest) == Ok(rest) <==> IsByteDot(n, b, rest)
  {
    hide ParseU32, IsNumber, Match, Ascii, Lit;
    var p := ParseU32(b);
    if p.Ok? {
      NumberIff(b, p.value.value, p.value.rest);
      MatchIff(".", p.value.rest, rest);
    }
    if IsByteDot(n, b, rest) {
      var m: u32, x :| IsNumber(m, b, x) && Lit(".", x, rest) && n == m % 0x100;
      NumberIff(b, m, x);
    }
  }

  lemma IpIff(b: seq<byte>, ip: Ip, rest: seq<byte>)
    ensures ParseIp(b) == Ok(Read(ip, rest)) <==> IsIp(ip, b, rest)
  {
    hide ParseU32, IsNumber, Match, Ascii, Lit, IsByteDot, Skips, EatWs, ParseIpByte;
    if ParseIp(b) == Ok(Read(ip, rest)) {
      var x := EatWs(b);
      SkipsIff(b, x);
      var b0 := ParseIpByte(x).value;
      var x0 := Match(Ascii("."), b0.rest).value;
      var b1 := ParseIpByte(x0).value;
      var x1 := Match(Ascii("."), b1.rest).value;
      var b2 := ParseIpByte(x1).value;
      var x2 := Match(Ascii("."), b2.rest).value;
      ByteDotIff(x, b0.value, x0);
      ByteDotIff(x0, b1.value, x1);
      ByteDotIff(x1, b2.value, x2);
      LastByteIff(x2, ip.d, rest);
    }
    if IsIp(ip, b, rest) {
      var x, x0, x1, x2, m: u32 :|
        Skips(b, x) && IsByteDot(ip.a, x, x0) && IsByteDot(ip.b, x0, x1) && IsByteDot(ip.c, x1, x2) &&
        IsNumber(m, x2, rest) && ip.d == m % 0x100;
      SkipsIff(b, x);
      ByteDotIff(x, ip.a, x0);
      ByteDotIff(x0, ip.b, x1);
      ByteDotIff(x1, ip.c, x2);
      LastByteIff(x2, ip.d, rest);
    }
  }

  lemma LastByteIff(b: seq<byte>, n: byte, rest: seq<byte>)
    ensures ParseIpByte(b) == Ok(Read(n, rest)) <==> exists m: u32 :: IsNumber(m, b, rest) && n == m % 0x100
  {
    hide ParseU32, IsNumber;
    var p := ParseU32(b);
    if p.Ok? {
      NumberIff(b, p.value.value, p.value.rest);
    }
    if m: u32 :| IsNumber(m, b, rest) && n == m % 0x100 {
      NumberIff(b, m, rest);
    }
  }

  lemma FieldIff(b: seq<byte>, i: i32, rest: seq<byte>)
    ensures var p := ParseU32(b);
            p.Ok? && Signed(p.value.value) == i && p.value.rest == rest <==> IsField(i, b, rest)
  {
    hide ParseU32, IsNumber;
    var p := ParseU32(b);
    if p.Ok? {
      NumberIff(b, p.value.value, p.value.rest);
    }
    if IsField(i, b, rest) {
      var n: u32 :| IsNumber(n, b, rest) && (n == i || n == i + 0x1_0000_0000);
      NumberIff(b, n, rest);
    }
  }

  lemma TimeIff(b: seq<byte>, t: Time, rest: seq<byte>)
    ensures ParseTime(b) == Ok(Read(t, rest)) <==> IsTime(t, b, rest)
  {
    hide ParseU32, Match, Ascii, Lit, IsField, Signed;
    if ParseTime(b) == Ok(Read(t, rest)) {
      var h := ParseU32(b).value;
      var x1 := Match(Ascii(":"), h.rest).value;
      var m := ParseU32(x1).value;
      var x3 := Match(Ascii(":"), m.rest).value;
      FieldIff(b, t.hour, h.rest);
      MatchIff(":", h.rest, x1);
      FieldIff(x1, t.min, m.rest);
      MatchIff(":", m.rest, x3);
      FieldIff(x3, t.sec, rest);
    }
    if IsTime(t, b, rest) {
      var x0, x1, x2, x3 :|
        IsField(t.hour, b, x0) && Lit(":", x0, x1) && IsField(t.min, x1, x2) && Lit(":", x2, x3) &&
        IsField(t.sec, x3, rest);
      FieldIff(b, t.hour, x0);
      MatchIff(":", x0, x1);
      FieldIff(x1, t.min, x2);
      MatchIff(":", x2, x3);
      FieldIff(x3, t.sec, rest);
    }
  }

  // ---------- values ----------

  lemma OriginIff(b: seq<byte>, o: Origin, rest: seq<byte>)
    ensures ParseOrigin(b) == Ok(Read(BgpOrigin(o), rest)) <==> IsOrigin(o, b, rest)
  {
    hide OriginName, IsWord, TryAccum, IsOriginWord;
    var p := TryAccum(Alnum, b);
    WordIff(Alphanumeric, Alnum, b, p.value, p.rest);
    OriginNames(p.value);
    if IsOrigin(o, b, rest) {
      var w :| IsWord(Alphanumeric, w, b, rest) && IsOriginWord(o, w);
      WordIff(Alphanumeric, Alnum, b, w, rest);
    }
  }

  /** The words of the origins are different, and not empty. */
  lemma OriginNames(w: seq<byte>)
    ensures forall o :: IsOriginWord(o, w) <==> w == OriginName(o)
    ensures forall o :: OriginName(o) != []
    ensures forall o, q :: OriginName(o) == OriginName(q) ==> o == q
  {
    hide Lit;
    WholeWord("IGP", w);
    WholeWord("EGP", w);
    WholeWord("Incomplete", w);
    assert Ascii("IGP")[0] == 73 && Ascii("EGP")[0] == 69;
  }

  lemma HopIff(b: seq<byte>, i: i32, rest: seq<byte>)
    ensures IsHop(i, b, rest) <==> HopRead(b, i, rest)
  {
    hide TryInt, EatWs, Ascii, Skip, Skips, IsWord, Lit, IsNumber, Signed;
    var d := TryInt(b);
    FieldIff(b, i, rest);
    NoNumberIff(b, d.rest);
    BraceIff("{", d.rest, rest);
    BraceIff("}", d.rest, rest);
    forall x | IsWord(Digit, [], b, x)
      ensures d.count == 0 && d.rest == x
    {
      NoNumberIff(b, x);
    }
  }

  /** One step of the loop. */
  predicate HopRead(b: seq<byte>, i: i32, rest: seq<byte>) {
    var d := TryInt(b);
    var c := EatWs(d.rest);
    if d.count > 0 then i == Signed(d.n) && d.rest == rest
    else
      || (Peeks(c, '{' as int) && i == AS_LBRACE && rest == c[1..])
      || (Peeks(c, '}' as int) && i == AS_RBRACE && rest == c[1..])
  }

  lemma BraceIff(s: string, b: seq<byte>, rest: seq<byte>)
    requires s == "{" || s == "}"
    ensures Skip(s, b, rest) <==> Peeks(EatWs(b), s[0] as int) && rest == EatWs(b)[1..]
  {
    hide EatWs, Skip;
    SkipIff(s, b, rest);
    assert Ascii(s) == [s[0] as int];
  }

  lemma PathStep(acc: seq<i32>, b: seq<byte>, i: i32, rest: seq<byte>)
    requires HopRead(b, i, rest)
    ensures |rest| < |b| && ParsePath(acc, b) == ParsePath(acc + [i], rest)
  {
    hide TryInt, EatWs, Signed;
  }

  lemma {:induction false} PathAccepted(acc: seq<i32>, path: seq<i32>, b: seq<byte>, rest: seq<byte>)
    requires IsPath(path, b, rest)
    ensures ParsePath(acc, b) == Read(acc + path, rest)
    decreases |path|
  {
    hide IsHop, ParsePath, IsWord, Skips, HopRead;
    if path == [] {
      var x :| IsWord(Digit, [], b, x) && Skips(x, rest) &&
        (rest != [] ==> rest[0] != '{' as int && rest[0] != '}' as int);
      NoNumberIff(b, x);
      SkipsIff(x, rest);
      PathStops(acc, b);
      assert acc + [] == acc;
    } else {
      var x :| IsHop(path[0], b, x) && IsPath(path[1..], x, rest);
      HopIff(b, path[0], x);
      PathStep(acc, b, path[0], x);
      PathAccepted(acc + [path[0]], path[1..], x, rest);
      assert acc + [path[0]] + path[1..] == acc + path;
    }
  }

  lemma PathStops(acc: seq<i32>, b: seq<byte>)
    requires TryInt(b).count == 0
    ensures var c := EatWs(TryInt(b).rest);
            !Peeks(c, '{' as int) && !Peeks(c, '}' as int) ==> ParsePath(acc, b) == Read(acc, c)
  {
    hide TryInt, EatWs;
  }

  lemma {:induction false} SomePath(acc: seq<i32>, b: seq<byte>) returns (path: seq<i32>)
    ensures ParsePath(acc, b).value == acc + path && IsPath(path, b, ParsePath(acc, b).rest)
    decreases |b|
  {
    hide ParsePath, TryInt, EatWs, Signed, IsHop, IsWord, Skips;
    var d := TryInt(b);
    var c := EatWs(d.rest);
    var i, r;
    if d.count > 0 {
      i, r := Signed(d.n), d.rest;
    } else if Peeks(c, '{' as int) {
      i, r := AS_LBRACE, c[1..];
    } else if Peeks(c, '}' as int) {
      i, r := AS_RBRACE, c[1..];
    } else {
      path := [];
      NoNumberIff(b, d.rest);
      SkipsIff(d.rest, c);
      PathStops(acc, b);
      assert acc + [] == acc;
      return;
    }
    HopIff(b, i, r);
    PathStep(acc, b, i, r);
    var more := SomePath(acc + [i], r);
    path := [i] + more;
    assert path[1..] == more && acc + [i] + more == acc + path;
  }

  lemma PathIff(b: seq<byte>, path: seq<i32>, rest: seq<byte>)
    ensures PathOf(b) == Ok(Read(path, rest)) <==> IsPath(path, b, rest) && rest != []
  {
    hide ParsePath, IsPath;
    var p := SomePath([], b);
    assert [] + p == p;
    if IsPath(path, b, rest) {
      PathAccepted([], path, b, rest);
      assert [] + path == path;
    }
  }

  /** The assert of `nb_buffer_ungetc` fails if and only if the input can be read as a path to its end. */
  lemma PathAtEnd(b: seq<byte>)
    ensures PathOf(b) == Err(ErrAssert) <==> exists path :: IsPath(path, b, [])
  {
    hide ParsePath, IsPath;
    var p := SomePath([], b);
    assert [] + p == p;
    if path :| IsPath(path, b, []) {
      PathAccepted([], path, b, []);
    }
  }

  lemma FlagIff(b: seq<byte>, f: Flag, rest: seq<byte>)
    ensures ParseFlag(b) == Ok(Read(f, rest)) <==> IsFlag(f, b, rest)
  {
    hide ParseU32, IsNumber, Match, Ascii, Lit;
    if ParseFlag(b) == Ok(Read(f, rest)) {
      var x0 := Match(Ascii("("), b).value;
      var n := ParseU32(x0).value;
      var x2 := Match(Ascii(","), n.rest).value;
      var m := ParseU32(x2).value;
      MatchIff("(", b, x0);
      NumberIff(x0, f.flag, n.rest);
      MatchIff(",", n.rest, x2);
      NumberIff(x2, f.asNo, m.rest);
      MatchIff(")", m.rest, rest);
    }
    if IsFlag(f, b, rest) {
      var x0, x1, x2, x3 :|
        Lit("(", b, x0) && IsNumber(f.flag, x0, x1) && Lit(",", x1, x2) && IsNumber(f.asNo, x2, x3) &&
        Lit(")", x3, rest);
      MatchIff("(", b, x0);
      NumberIff(x0, f.flag, x1);
      MatchIff(",", x1, x2);
      NumberIff(x2, f.asNo, x3);
      MatchIff(")", x3, rest);
    }
  }

  lemma FlagStarts(b: seq<byte>)
    ensures ParseFlag(b).Ok? ==> b != [] && b[0] == '(' as int
  {
    hide ParseU32;
    assert Ascii("(")[0] == '(' as int;
  }

  lemma {:induction false} FlagsAccepted(acc: seq<Flag>, fs: seq<Flag>, b: seq<byte>, rest: seq<byte>)
    requires AreFlags(fs, b, rest)
    ensures ParseFlags(acc, b) == Ok(Read(acc + fs, rest))
    decreases |fs|
  {
    hide ParseFlag, IsFlag, Skips, EatWs;
    if fs == [] {
      SkipsIff(b, rest);
      assert acc + [] == acc;
    } else {
      var x, y :| Skips(b, x) && IsFlag(fs[0], x, y) && AreFlags(fs[1..], y, rest);
      SkipsIff(b, x);
      FlagIff(x, fs[0], y);
      FlagStarts(x);
      FlagsAccepted(acc + [fs[0]], fs[1..], y, rest);
      assert acc + [fs[0]] + fs[1..] == acc + fs;
    }
  }

  lemma {:induction false} SomeFlags(acc: seq<Flag>, b: seq<byte>) returns (fs: seq<Flag>)
    requires ParseFlags(acc, b).Ok?
    ensures ParseFlags(acc, b).value.value == acc + fs && AreFlags(fs, b, ParseFlags(acc, b).value.rest)
    decreases |b|
  {
    hide ParseFlag, IsFlag, Skips, EatWs;
    var c := EatWs(b);
    SkipsIff(b, c);
    if Peeks(c, '(' as int) {
      var f := ParseFlag(c).value;
      FlagIff(c, f.value, f.rest);
      var more := SomeFlags(acc + [f.value], f.rest);
      fs := [f.value] + more;
      assert fs[1..] == more && acc + [f.value] + more == acc + fs;
    } else {
      fs := [];
      assert acc + [] == acc;
    }
  }

  lemma FlagsIff(b: seq<byte>, fs: seq<Flag>, rest: seq<byte>)
    ensures ParseFlags([], b) == Ok(Read(fs, rest)) <==> AreFlags(fs, b, rest)
  {
    hide ParseFlags, AreFlags;
    if ParseFlags([], b).Ok? {
      var p := SomeFlags([], b);
      assert [] + p == p;
    }
    if AreFlags(fs, b, rest) {
      FlagsAccepted([], fs, b, rest);
      assert [] + fs == fs;
    }
  }

  lemma AggregatorIff(b: seq<byte>, ip: Ip, n: u32, rest: seq<byte>)
    ensures ParseAggregator(b) == Ok(Read(BgpAggregator(ip, n), rest)) <==> IsAggregator(ip, n, b, rest)
  {
    hide ParseIp, IsIp, MatchWs, Ascii, Skip, ParseU32, IsNumber;
    if ParseAggregator(b) == Ok(Read(BgpAggregator(ip, n), rest)) {
      var x := ParseIp(b).value;
      var y := MatchWs(Ascii("AS"), x.rest).value;
      IpIff(b, ip, x.rest);
      SkipIff("AS", x.rest, y);
      NumberIff(y, n, rest);
    }
    if IsAggregator(ip, n, b, rest) {
      var x, y :| IsIp(ip, b, x) && Skip("AS", x, y) && IsNumber(n, y, rest);
      IpIff(b, ip, x);
      SkipIff("AS", x, y);
      NumberIff(y, n, rest);
    }
  }

  lemma FreeIff(key: seq<byte>, b: seq<byte>, v: Option<seq<byte>>, rest: seq<byte>)
    ensures ParseOther(key, b) == Read(OtherAttr(key, v), rest) <==> IsFree(v, b, rest)
  {
    hide Skips, EatWs, IsWord, TryAccum, CStr;
    var x := EatWs(b);
    var line := TryAccum(LineChars, x);
    SkipsIff(b, x);
    WordIff(OfLine, LineChars, x, line.value, line.rest);
    if IsFree(v, b, rest) {
      var x', w :| Skips(b, x') && IsWord(OfLine, w, x', rest) && v == if w == [] then None else Some(CStr(w));
      SkipsIff(b, x');
      WordIff(OfLine, LineChars, x', w, rest);
    }
  }

  // ---------- lines ----------

  function WithWord(t: RteType, w: string): RteType {
    RteType(t.bgp || w == "BGP", t.unicast || w == "unicast", t.univ || w == "univ", t.static1 || w == "static")
  }

  function WithWords(t: RteType, ws: seq<string>): RteType {
    RteType(t.bgp || "BGP" in ws, t.unicast || "unicast" in ws, t.univ || "univ" in ws, t.static1 || "static" in ws)
  }

  predicate IsTypeWord(s: string) {
    s in {"BGP", "unicast", "univ", "static"}
  }

  lemma TypeWordStep(t: RteType, b: seq<byte>, s: string, w: seq<byte>, rest: seq<byte>)
    requires TryAccum(Alnum, b) == Read(w, rest) && IsTypeWord(s) && Lit(s, w, [])
    ensures |rest| < |b| && ParseTypeWords(t, b) == ParseTypeWords(WithWord(t, s), rest)
  {
    hide TryAccum, Lit;
    WholeWord(s, w);
    assert |Ascii("BGP")| == 3 && |Ascii("unicast")| == 7 && |Ascii("univ")| == 4 && |Ascii("static")| == 6;
  }

  /** The word that is read, unless it is refused. */
  function TypeWordOf(w: seq<byte>): (s: Option<string>)
    ensures s.Some? ==> IsTypeWord(s.value) && IsLiteral(s.value) && w == Ascii(s.value)
  {
    if w == Ascii("BGP") then Some("BGP")
    else if w == Ascii("unicast") then Some("unicast")
    else if w == Ascii("univ") then Some("univ")
    else if w == Ascii("static") then Some("static")
    else None
  }

  lemma {:induction false} SomeTypeWords(t: RteType, b: seq<byte>) returns (ws: seq<string>, x: seq<byte>)
    requires ParseTypeWords(t, b).Ok?
    ensures AreTypeWords(ws, b, x) && Lit("\n", x, ParseTypeWords(t, b).value.rest)
    ensures ParseTypeWords(t, b).value.value == WithWords(t, ws)
    decreases |b|
  {
    hide TryAccum, IsWord, Lit, Match, Ascii;
    var w := TryAccum(Alnum, b);
    WordIff(Alphanumeric, Alnum, b, w.value, w.rest);
    if w.value == [] {
      ws, x := [], w.rest;
      LineEnd();
      MatchIff("\n", w.rest, ParseTypeWords(t, b).value.rest);
    } else {
      var s := TypeWordOf(w.value).value;
      WholeWord(s, w.value);
      TypeWordStep(t, b, s, w.value, w.rest);
      var more, y := SomeTypeWords(WithWord(t, s), w.rest);
      ws, x := [s] + more, y;
      assert ws[1..] == more;
    }
  }

  lemma {:induction false} TypeWordsAccepted(t: RteType, ws: seq<string>, b: seq<byte>, x: seq<byte>, rest: seq<byte>)
    requires AreTypeWords(ws, b, x) && Lit("\n", x, rest)
    ensures ParseTypeWords(t, b) == Ok(Read(WithWords(t, ws), rest))
    decreases |ws|
  {
    hide TryAccum, IsWord, Lit, Match, Ascii;
    if ws == [] {
      WordIff(Alphanumeric, Alnum, b, [], x);
      LineEnd();
      MatchIff("\n", x, rest);
    } else {
      var y, w :| IsWord(Alphanumeric, w, b, y) && Lit(ws[0], w, []) && ws[0] in {"BGP", "unicast", "univ", "static"} &&
        AreTypeWords(ws[1..], y, x);
      WordIff(Alphanumeric, Alnum, b, w, y);
      TypeWordStep(t, b, ws[0], w, y);
      TypeWordsAccepted(WithWord(t, ws[0]), ws[1..], y, x, rest);
      assert ws == [ws[0]] + ws[1..];
    }
  }

  lemma TypeLineIff(b: seq<byte>, t: RteType, rest: seq<byte>)
    ensures ParseTypeWords(NO_TYPE, b) == Ok(Read(t, rest)) <==> IsTypeLine(t, b, rest)
  {
    hide ParseTypeWords, AreTypeWords, Lit;
    if ParseTypeWords(NO_TYPE, b) == Ok(Read(t, rest)) {
      var ws, x := SomeTypeWords(NO_TYPE, b);
    }
    if IsTypeLine(t, b, rest) {
      var ws, x :| AreTypeWords(ws, b, x) && Lit("\n", x, rest) &&
        t == RteType("BGP" in ws, "unicast" in ws, "univ" in ws, "static" in ws);
      TypeWordsAccepted(NO_TYPE, ws, b, x, rest);
    }
  }

  lemma KeyNames(key: seq<byte>)
    ensures key == Ascii("BGP.origin") <==> Lit("BGP.origin", key, [])
    ensures key == Ascii("BGP.as_path") <==> Lit("BGP.as_path", key, [])
    ensures key == Ascii("BGP.next_hop") <==> Lit("BGP.next_hop", key, [])
    ensures key == Ascii("BGP.local_pref") <==> Lit("BGP.local_pref", key, [])
    ensures key == Ascii("BGP.community") <==> Lit("BGP.community", key, [])
    ensures key == Ascii("BGP.aggregator") <==> Lit("BGP.aggregator", key, [])
    ensures |Ascii("BGP.origin")| == 10 && |Ascii("BGP.as_path")| == 11 && |Ascii("BGP.next_hop")| == 12
    ensures |Ascii("BGP.community")| == 13 && |Ascii("BGP.local_pref")| == 14 && |Ascii("BGP.aggregator")| == 14
    ensures Ascii("BGP.local_pref") != Ascii("BGP.aggregator")
  {
    hide Lit;
    WholeWord("BGP.origin", key);
    WholeWord("BGP.as_path", key);
    WholeWord("BGP.next_hop", key);
    WholeWord("BGP.local_pref", key);
    WholeWord("BGP.community", key);
    WholeWord("BGP.aggregator", key);
    assert Ascii("BGP.local_pref")[4] == 'l' as int && Ascii("BGP.aggregator")[4] == 'a' as int;
  }

  lemma ValueIff(key: seq<byte>, b: seq<byte>, v: Value, rest: seq<byte>)
    ensures ParseValue(key, b) == Ok(Read(v, rest)) <==> IsValueOf(v, key, b, rest)
  {
    hide ParseOrigin, PathOf, ParseIp, ParseU32, ParseFlags, ParseAggregator, ParseOther, Ascii, Lit;
    hide IsOrigin, IsPath, IsIp, IsNumber, AreFlags, IsAggregator, IsFree;
    KeyNames(key);
    OthersKind(key, b);
    match v
    case BgpOrigin(o) => OriginIff(b, o, rest);
    case BgpAsPath(path) => PathIff(b, path, rest);
    case BgpNextHop(ip) => IpIff(b, ip, rest);
    case BgpLocalPref(n) => NumberIff(b, n, rest);
    case BgpCommunity(fs) => FlagsIff(b, fs, rest);
    case BgpAggregator(ip, n) => AggregatorIff(b, ip, n, rest);
    case OtherAttr(k, w) => FreeIff(key, b, w, rest);
  }

  lemma OthersKind(key: seq<byte>, b: seq<byte>)
    ensures ParseOrigin(b).Ok? ==> ParseOrigin(b).value.value.BgpOrigin?
    ensures ParseAggregator(b).Ok? ==> ParseAggregator(b).value.value.BgpAggregator?
    ensures ParseOther(key, b).value.OtherAttr? && ParseOther(key, b).value.key == key
  {
    hide ParseIp, MatchWs, ParseU32, TryAccum, OriginName, CStr;
  }

  lemma KeyIff(b: seq<byte>, key: seq<byte>, tflag: bool, rest: seq<byte>)
    ensures ParseKey(b) == Ok(Read(Key(key, tflag), rest)) <==> IsKey(key, tflag, b, rest)
  {
    hide TryAccum, IsWord, EatWs, Skips, Match, Ascii, Lit;
    var k := TryAccum(KeyChars, b);
    WordIff(OfKey, KeyChars, b, k.value, k.rest);
    var c := EatWs(k.rest);
    SkipsIff(k.rest, c);
    if ParseKey(b) == Ok(Read(Key(key, tflag), rest)) {
      var v := Match(if tflag then Ascii("[t]:") else Ascii(":"), c).value;
      MatchIff(if tflag then "[t]:" else ":", c, v);
      SkipsIff(v, rest);
    }
    if IsKey(key, tflag, b, rest) {
      var x, y, z :|
        key != [] && IsWord(OfKey, key, b, x) && Skips(x, y) && Lit(if tflag then "[t]:" else ":", y, z) &&
        Skips(z, rest);
      WordIff(OfKey, KeyChars, b, key, x);
      SkipsIff(x, y);
      MatchIff(if tflag then "[t]:" else ":", y, z);
      SkipsIff(z, rest);
      LitStart(if tflag then "[t]:" else ":", y, z);
    }
  }

  lemma LitStart(s: string, b: seq<byte>, rest: seq<byte>)
    requires s != [] && Lit(s, b, rest)
    ensures b != [] && b[0] as int == s[0] as int
  {}

  function Extended(d: Details, l: Line): Details {
    match l
    case TypeLine(t) => d.(typ := t)
    case AttrLine(a) => d.(attrs := d.attrs + [a])
  }

  lemma SomeLine(d: Details, b: seq<byte>) returns (l: Line)
    requires ParseAttrLine(d, b).Ok?
    ensures ParseAttrLine(d, b).value.value == Extended(d, l) && IsLine(l, b, ParseAttrLine(d, b).value.rest)
  {
    hide ParseKey, ParseTypeWords, ParseValue, IsKey, IsTypeLine, IsValueOf, Match, Ascii, Lit;
    var k := ParseKey(b).value;
    var rest := ParseAttrLine(d, b).value.rest;
    KeyIff(b, k.value.key, k.value.tflag, k.rest);
    WholeWord("Type", k.value.key);
    if k.value.key == Ascii("Type") {
      l := TypeLine(ParseTypeWords(NO_TYPE, k.rest).value.value);
      TypeLineIff(k.rest, l.typ, rest);
    } else {
      var v := ParseValue(k.value.key, k.rest).value;
      l := AttrLine(Attr(k.value.tflag, v.value));
      ValueIff(k.value.key, k.rest, v.value, v.rest);
      LineEnd();
      MatchIff("\n", v.rest, rest);
    }
    assert IsLineOf(l, k.value.key, k.rest, rest);
  }

  lemma LineAccepted(d: Details, l: Line, b: seq<byte>, rest: seq<byte>)
    requires IsLine(l, b, rest)
    ensures ParseAttrLine(d, b) == Ok(Read(Extended(d, l), rest))
  {
    hide ParseKey, ParseTypeWords, ParseValue, IsKey, IsTypeLine, IsValueOf, Match, Ascii, Lit;
    var key, x :| IsKey(key, l.AttrLine? && l.attr.tflag, b, x) && IsLineOf(l, key, x, rest);
    KeyIff(b, key, l.AttrLine? && l.attr.tflag, x);
    WholeWord("Type", key);
    match l {
      case TypeLine(t) => TypeLineIff(x, t, rest);
      case AttrLine(a) =>
        var y :| IsValueOf(a.value, key, x, y) && Lit("\n", y, rest);
        ValueIff(key, x, a.value, y);
        LineEnd();
        MatchIff("\n", y, rest);
    }
  }

  lemma {:induction false} LastTypeFirst(l: Line, ls: seq<Line>, t: RteType)
    ensures LastType([l] + ls, t) == LastType(ls, if l.TypeLine? then l.typ else t)
    decreases |ls|
  {
    var all := [l] + ls;
    if ls == [] {
      assert all[..0] == [];
    } else {
      assert all[..|all| - 1] == [l] + ls[..|ls| - 1];
      LastTypeFirst(l, ls[..|ls| - 1], t);
    }
  }

  lemma LineCounts(d: Details, l: Line, ls: seq<Line>)
    ensures var e := Extended(d, l);
            Details(LastType(ls, e.typ), e.attrs + AttrsOf(ls)) ==
            Details(LastType([l] + ls, d.typ), d.attrs + AttrsOf([l] + ls))
  {
    hide LastType, AttrsOf;
    LastTypeFirst(l, ls, d.typ);
    AttrsOfFirst(d.attrs, l, ls);
  }

  lemma AttrsOfFirst(before: seq<Attr>, l: Line, ls: seq<Line>)
    ensures before + AttrsOf([l] + ls) == (if l.AttrLine? then before + [l.attr] else before) + AttrsOf(ls)
  {
    hide LastType;
    assert ([l] + ls)[1..] == ls && ([l] + ls)[0] == l;
    if l.AttrLine? {
      assert before + ([l.attr] + AttrsOf(ls)) == (before + [l.attr]) + AttrsOf(ls);
    } else {
      assert [] + AttrsOf(ls) == AttrsOf(ls);
    }
  }

  lemma {:induction false} SomeLines(d: Details, b: seq<byte>) returns (ls: seq<Line>)
    requires ParseAttrs(d, b).Ok?
    ensures AreLines(ls, b, ParseAttrs(d, b).value.rest)
    ensures ParseAttrs(d, b).value.value == Details(LastType(ls, d.typ), d.attrs + AttrsOf(ls))
    decreases |b|
  {
    hide ParseAttrLine, IsLine, Lit, LastType, AttrsOf;
    if b != [] && b[0] == TAB {
      var a := ParseAttrLine(d, b[1..]).value;
      var l := SomeLine(d, b[1..]);
      var more := SomeLines(a.value, a.rest);
      ls := [l] + more;
      assert ls[1..] == more;
      TabIff(b, b[1..]);
      LineCounts(d, l, more);
    } else {
      ls := [];
      NoLines(d);
      if b != [] { Restarts(b); }
    }
  }

  lemma TabIff(b: seq<byte>, rest: seq<byte>)
    ensures Lit("\t", b, rest) <==> b != [] && b[0] == TAB && rest == b[1..]
  {}

  lemma NoLines(d: Details)
    ensures LastType([], d.typ) == d.typ && d.attrs + AttrsOf([]) == d.attrs
  {}

  lemma {:induction false} LinesAccepted(d: Details, ls: seq<Line>, b: seq<byte>, rest: seq<byte>)
    requires AreLines(ls, b, rest)
    ensures ParseAttrs(d, b) == Ok(Read(Details(LastType(ls, d.typ), d.attrs + AttrsOf(ls)), rest))
    decreases |ls|
  {
    hide ParseAttrLine, IsLine, Lit, LastType, AttrsOf;
    if ls == [] {
      NoLines(d);
    } else {
      var x, y :| Lit("\t", b, x) && IsLine(ls[0], x, y) && AreLines(ls[1..], y, rest);
      TabIff(b, x);
      LineAccepted(d, ls[0], x, y);
      LinesAccepted(Extended(d, ls[0]), ls[1..], y, rest);
      LineCounts(d, ls[0], ls[1..]);
      assert [ls[0]] + ls[1..] == ls;
    }
  }

  // ---------- entries ----------

  lemma SourceCharIff(asNo: Option<u32>, b: seq<byte>, src: Source, rest: seq<byte>)
    ensures ParseSourceChar(asNo, b) == Ok(Read(Origins(asNo, src), rest)) <==> IsSourceChar(src, b, rest)
    ensures ParseSourceChar(asNo, b).Ok? ==> ParseSourceChar(asNo, b).value.value.asNo == asNo
  {}

  lemma SourceIff(b: seq<byte>, o: Origins, rest: seq<byte>)
    ensures ParseSource(b) == Ok(Read(o, rest)) <==> IsSource(o, b, rest)
  {
    hide ParseU32, IsNumber, Match, Ascii, ParseSourceChar;
    if Peeks(b, 'A' as int) {
      NoCharIsA(o.src, b, rest);
      var m := Match(Ascii("AS"), b);
      if m.Ok? {
        MatchIff("AS", b, m.value);
        var n := ParseU32(m.value);
        if n.Ok? {
          NumberIff(m.value, n.value.value, n.value.rest);
          SourceCharIff(Some(n.value.value), n.value.rest, o.src, rest);
        }
      }
    } else {
      SourceCharIff(None, b, o.src, rest);
    }
    if IsSource(o, b, rest) && o.asNo.Some? {
      var x, y :| Lit("AS", b, x) && IsNumber(o.asNo.value, x, y) && IsSourceChar(o.src, y, rest);
      MatchIff("AS", b, x);
      NumberIff(x, o.asNo.value, y);
      SourceCharIff(o.asNo, y, o.src, rest);
    }
  }

  lemma NoCharIsA(src: Source, b: seq<byte>, rest: seq<byte>)
    requires Peeks(b, 'A' as int)
    ensures !IsSourceChar(src, b, rest)
  {}

  lemma BracketChar(b: seq<byte>, rest: seq<byte>)
    ensures Lit("[", b, rest) <==> b != [] && b[0] == '[' as int && rest == b[1..]
  {}

  lemma {:induction false} SomeMetric(b: seq<byte>) returns (m: seq<byte>, t: seq<byte>)
    ensures b == m + t && IsMetric(m)
    ensures var s := SkipToBracket(b); if s.value then Lit("[", t, s.rest) else IsEnd(t, s.rest)
    decreases |b|
  {
    hide Lit;
    BracketChar(b, b[if b == [] then 0 else 1..]);
    if b == [] || b[0] == 10 || b[0] == 0xFF || b[0] == '[' as int {
      m, t := [], b;
      if b != [] { Restarts(b); }
    } else {
      var n;
      n, t := SomeMetric(b[1..]);
      m := [b[0]] + n;
      Restarts(b);
    }
  }

  lemma {:induction false} MetricSkipped(m: seq<byte>, t: seq<byte>)
    requires IsMetric(m)
    ensures SkipToBracket(m + t) == SkipToBracket(t)
    decreases |m|
  {
    if m == [] {
      assert m + t == t;
    } else {
      assert (m + t)[0] == m[0] && (m + t)[1..] == m[1..] + t;
      MetricSkipped(m[1..], t);
    }
  }

  lemma MetricEnds(t: seq<byte>, rest: seq<byte>)
    ensures Lit("[", t, rest) ==> SkipToBracket(t) == Read(true, rest)
    ensures IsEnd(t, rest) ==> SkipToBracket(t) == Read(false, rest)
  {}

  lemma OriginsIff(b: seq<byte>, o: Origins, rest: seq<byte>)
    ensures ParseOrigins(b) == Ok(Read(o, rest)) <==> IsOrigins(o, b, rest)
  {
    hide SkipToBracket, ParseSource, Match, Ascii, Lit, IsSource, IsEnd, IsMetric;
    if ParseOrigins(b) == Ok(Read(o, rest)) {
      var m, t := SomeMetric(b);
      var s := SkipToBracket(b);
      if s.value {
        var src := ParseSource(s.rest).value;
        SourceIff(s.rest, o, src.rest);
        MatchIff("]", src.rest, rest);
        assert IsBracketed(o, t, rest);
      }
      assert IsOrigins(o, b, rest);
    }
    if IsOrigins(o, b, rest) {
      var m, t :| b == m + t && IsMetric(m) &&
        (IsBracketed(o, t, rest) || (o == Origins(None, Internal) && IsEnd(t, rest)));
      MetricSkipped(m, t);
      MetricEnds(t, rest);
      if IsBracketed(o, t, rest) {
        var x, y :| Lit("[", t, x) && IsSource(o, x, y) && Lit("]", y, rest);
        MetricEnds(t, x);
        SourceIff(x, o, y);
        MatchIff("]", y, rest);
      }
    }
  }

  lemma LitOfSkip(s: string, b: seq<byte>, rest: seq<byte>)
    requires s != [] && IsLiteral(s) && s[0] as int != 32 && s[0] as int != 9 && s[0] as int != 0xFF
    ensures b != [] && b[0] as int == s[0] as int ==> (Skip(s, b, rest) <==> Lit(s, b, rest))
    ensures Lit(s, b, rest) ==> b != [] && b[0] as int == s[0] as int
  {
    hide Skips;
    if b != [] && b[0] as int == s[0] as int {
      assert EatWs(b) == b;
      SkipIff(s, b, rest);
      MatchIff(s, b, rest);
    }
  }

  lemma NoStatic(b: seq<byte>, rest: seq<byte>)
    ensures Skip("uplink", b, rest) ==> !Peeks(b, 's' as int)
  {
    SkipIff("uplink", b, rest);
    assert Ascii("uplink")[0] == 'u' as int;
  }

  lemma UplinkIff(b: seq<byte>, u: Uplink, rest: seq<byte>)
    ensures ParseUplink(b) == Ok(Read(u, rest)) <==> IsUplink(u, b, rest)
  {
    hide MatchWs, Match, Ascii, Lit, Skip, Skips, EatWs, ParseTime, IsTime, ParseIp, IsIp;
    if ParseUplink(b) == Ok(Read(u, rest)) {
      var x := MatchWs(Ascii("["), b).value;
      SkipIff("[", b, x);
      if Peeks(x, 's' as int) {
        var y := MatchWs(Ascii("static1"), x).value;
        SkipIff("static1", x, y);
        LitOfSkip("static1", x, y);
        var z := EatWs(y);
        SkipsIff(y, z);
        var t := ParseTime(z).value;
        TimeIff(z, u.time, t.rest);
        SkipIff("]", t.rest, rest);
      } else {
        var y := MatchWs(Ascii("uplink"), x).value;
        SkipIff("uplink", x, y);
        var z := EatWs(y);
        SkipsIff(y, z);
        var t := ParseTime(z).value;
        TimeIff(z, u.time, t.rest);
        UplinkEndIff(u.from.value, t.rest, rest);
      }
    }
    if IsUplink(u, b, rest) {
      var x, y, z, t :|
        Skip("[", b, x) && (if u.from.Some? then Skip("uplink", x, y) else Lit("static1", x, y)) && Skips(y, z) &&
        IsTime(u.time, z, t) && IsUplinkEnd(u.from, t, rest);
      SkipIff("[", b, x);
      SkipsIff(y, z);
      TimeIff(z, u.time, t);
      if u.from.Some? {
        NoStatic(x, y);
        SkipIff("uplink", x, y);
        UplinkEndIff(u.from.value, t, rest);
      } else {
        LitOfSkip("static1", x, y);
        SkipIff("static1", x, y);
        SkipIff("]", t, rest);
      }
    }
  }

  lemma UplinkEndIff(ip: Ip, b: seq<byte>, rest: seq<byte>)
    ensures IsUplinkEnd(Some(ip), b, rest) <==>
            var m := MatchWs(Ascii("from"), b);
            m.Ok? && ParseIp(m.value).Ok? && ParseIp(m.value).value.value == ip &&
            MatchWs(Ascii("]"), ParseIp(m.value).value.rest) == Ok(rest)
  {
    hide MatchWs, Ascii, Skip, ParseIp, IsIp;
    var m := MatchWs(Ascii("from"), b);
    if m.Ok? && ParseIp(m.value).Ok? {
      var p := ParseIp(m.value).value;
      SkipIff("from", b, m.value);
      IpIff(m.value, ip, p.rest);
      SkipIff("]", p.rest, rest);
    }
    if IsUplinkEnd(Some(ip), b, rest) {
      var x, y :| Skip("from", b, x) && IsIp(ip, x, y) && Skip("]", y, rest);
      SkipIff("from", b, x);
      IpIff(x, ip, y);
      SkipIff("]", y, rest);
    }
  }

  lemma NetIff(b: seq<byte>, n: Net, rest: seq<byte>)
    ensures ParseNet(b) == Ok(Read(n, rest)) <==> IsNet(n, b, rest)
  {
    hide Match, Ascii, Lit, ParseIp, IsIp, ParseU32, IsNumber, EatWs, Skips;
    if ParseNet(b) == Ok(Read(n, rest)) {
      var ip := ParseIp(b).value;
      var y := Match(Ascii("/"), ip.rest).value;
      var mask := ParseU32(y).value;
      IpIff(b, n.ip, ip.rest);
      MatchIff("/", ip.rest, y);
      NumberIff(y, n.mask, mask.rest);
      SkipsIff(mask.rest, rest);
    }
    if IsNet(n, b, rest) {
      var x, y, z :| IsIp(n.ip, b, x) && Lit("/", x, y) && IsNumber(n.mask, y, z) && Skips(z, rest);
      IpIff(b, n.ip, x);
      MatchIff("/", x, y);
      NumberIff(y, n.mask, z);
      SkipsIff(z, rest);
    }
  }

  lemma RouteIff(b: seq<byte>, r: Route, rest: seq<byte>)
    ensures ParseRoute(b) == Ok(Read(r, rest)) <==> IsRoute(r, b, rest)
  {
    hide MatchWs, Ascii, Skip, ParseIp, IsIp, ParseNet, IsNet, TryAccum, IsWord;
    if ParseRoute(b) == Ok(Read(r, rest)) {
      var net := ParseNet(b).value;
      var y := MatchWs(Ascii("via"), net.rest).value;
      var gw := ParseIp(y).value;
      var t := MatchWs(Ascii("on"), gw.rest).value;
      NetIff(b, r.net, net.rest);
      SkipIff("via", net.rest, y);
      IpIff(y, r.gwaddr, gw.rest);
      SkipIff("on", gw.rest, t);
      WordIff(Alphanumeric, Alnum, t, r.ifname, rest);
    }
    if IsRoute(r, b, rest) {
      var x, y, z, t :|
        IsNet(r.net, b, x) && Skip("via", x, y) && IsIp(r.gwaddr, y, z) && Skip("on", z, t) &&
        IsWord(Alphanumeric, r.ifname, t, rest) && r.ifname != [];
      NetIff(b, r.net, x);
      SkipIff("via", x, y);
      IpIff(y, r.gwaddr, z);
      SkipIff("on", z, t);
      WordIff(Alphanumeric, Alnum, t, r.ifname, rest);
    }
  }

  lemma HeadIff(b: seq<byte>, e: Rte, rest: seq<byte>)
    requires e.attrs == [] && e.typ == NO_TYPE
    ensures ParseHead(b) == Ok(Read(e, rest)) <==> IsHead(e, b, rest)
  {
    hide ParseRoute, IsRoute, ParseUplink, IsUplink, ParseOrigins, IsOrigins, Match, Ascii, Lit;
    LineEnd();
    if ParseHead(b) == Ok(Read(e, rest)) {
      var r := ParseRoute(b).value;
      var u := ParseUplink(r.rest).value;
      var o := ParseOrigins(u.rest).value;
      RouteIff(b, r.value, r.rest);
      UplinkIff(r.rest, u.value, u.rest);
      OriginsIff(u.rest, o.value, o.rest);
      MatchIff("\n", o.rest, rest);
    }
    if IsHead(e, b, rest) {
      var x, y, z :|
        IsRoute(Route(Net(e.netaddr, e.netmask), e.gwaddr, e.ifname), b, x) &&
        IsUplink(Uplink(e.uplink, e.uplinkFrom), x, y) &&
        IsOrigins(Origins(e.asNo, e.src), y, z) && Lit("\n", z, rest);
      RouteIff(b, Route(Net(e.netaddr, e.netmask), e.gwaddr, e.ifname), x);
      UplinkIff(x, Uplink(e.uplink, e.uplinkFrom), y);
      OriginsIff(y, Origins(e.asNo, e.src), z);
      MatchIff("\n", z, rest);
    }
  }

  /** The first line says nothing about type and attributes. */
  lemma HeadOnly(b: seq<byte>, e: Rte, f: Rte, rest: seq<byte>)
    requires f == e.(typ := f.typ, attrs := f.attrs)
    ensures IsHead(e, b, rest) <==> IsHead(f, b, rest)
    ensures ParseHead(b).Ok? ==> ParseHead(b).value.value.typ == NO_TYPE && ParseHead(b).value.value.attrs == []
  {
    hide ParseRoute, IsRoute, ParseUplink, IsUplink, ParseOrigins, IsOrigins, Match, Ascii, Lit;
  }

  lemma RteIff(b: seq<byte>, e: Rte, rest: seq<byte>)
    ensures ParseRte(b) == Ok(Read(e, rest)) <==> IsRte(e, b, rest)
  {
    hide ParseHead, IsHead, ParseAttrs, AreLines, LastType, AttrsOf;
    var e0 := e.(typ := NO_TYPE, attrs := []);
    forall x ensures IsHead(e, b, x) <==> ParseHead(b) == Ok(Read(e0, x)) {
      HeadIff(b, e0, x);
      HeadOnly(b, e0, e, x);
    }
    HeadOnly(b, e, e, b);
    if ParseRte(b) == Ok(Read(e, rest)) {
      var h := ParseHead(b).value;
      var ls := SomeLines(Details(NO_TYPE, []), h.rest);
      assert [] + AttrsOf(ls) == AttrsOf(ls);
      assert h.value == e0;
    }
    if IsRte(e, b, rest) {
      var x, ls :| IsHead(e, b, x) && AreLines(ls, x, rest) && e.typ
        == LastType(ls, RteType(false, false, false, false)) && e.attrs == AttrsOf(ls);
      LinesAccepted(Details(NO_TYPE, []), ls, x, rest);
      assert [] + AttrsOf(ls) == AttrsOf(ls);
    }
  }

  lemma {:induction false} EntriesAccepted(acc: seq<Rte>, es: seq<Rte>, b: seq<byte>)
    requires AreEntries(es, b)
    ensures ParseEntries(acc, b) == Ok(acc + es)
    decreases |es|
  {
    hide ParseRte, IsRte;
    if es == [] {
      assert acc + [] == acc;
    } else {
      var x :| IsRte(es[0], b, x) && AreEntries(es[1..], x);
      RteIff(b, es[0], x);
      EntriesAccepted(acc + [es[0]], es[1..], x);
      assert acc + [es[0]] + es[1..] == acc + es;
    }
  }

  lemma {:induction false} SomeEntries(acc: seq<Rte>, b: seq<byte>) returns (es: seq<Rte>)
    requires ParseEntries(acc, b).Ok?
    ensures ParseEntries(acc, b).value == acc + es && AreEntries(es, b)
    decreases |b|
  {
    hide ParseRte, IsRte;
    if b == [] || b[0] == 0xFF {
      es := [];
      assert acc + [] == acc;
    } else {
      var e := ParseRte(b).value;
      RteIff(b, e.value, e.rest);
      var more := SomeEntries(acc + [e.value], e.rest);
      es := [e.value] + more;
      assert es[1..] == more && acc + [e.value] + more == acc + es;
    }
  }

  /** For every input: the parser accepts exactly the tables of the grammar. */
  lemma ParsesTheGrammar(b: seq<byte>, rt: Rt)
    ensures ParseRt(b) == Ok(rt) <==> IsTable(rt, b)
  {
    hide Match, Ascii, Lit, TryAccum, IsWord, ParseEntries, AreEntries;
    if ParseRt(b) == Ok(rt) {
      var x := Match(Ascii("BIRD "), b).value;
      var v := TryAccum(KeyChars, x);
      var y := Match(Ascii(" ready."), v.rest).value;
      var z := Match([NL], y).value;
      MatchIff("BIRD ", b, x);
      WordIff(OfKey, KeyChars, x, v.value, v.rest);
      BannerIff(v.rest, z);
      var es := SomeEntries([], z);
      assert [] + es == es;
    }
    if IsTable(rt, b) {
      var x, y, z :|
        Lit("BIRD ", b, x) && rt.version != [] && IsWord(OfKey, rt.version, x, y) && Lit(" ready.\n", y, z) &&
        AreEntries(rt.entries, z);
      MatchIff("BIRD ", b, x);
      WordIff(OfKey, KeyChars, x, rt.version, y);
      BannerIff(y, z);
      EntriesAccepted([], rt.entries, z);
      assert [] + rt.entries == rt.entries;
    }
  }

  lemma BannerIff(b: seq<byte>, rest: seq<byte>)
    ensures var m := Match(Ascii(" ready."), b);
            Lit(" ready.\n", b, rest) <==> m.Ok? && Match([NL], m.value) == Ok(rest)
  {
    MatchIff(" ready.\n", b, rest);
    assert Ascii(" ready.\n") == Ascii(" ready.") + [NL];
    if Match(Ascii(" ready."), b).Ok? {
      var x := Match(Ascii(" ready."), b).value;
      assert b == Ascii(" ready.") + x;
    }
  }
}
