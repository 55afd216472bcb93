/** The parser of BIRD dumps over a buffered stream, and the serializer over a string buffer. */
module BirdStreams {
  import opened Prelude
  import opened Buffer
  import opened BirdText
  import opened BirdRoundTrip

  /** The outcome of a parser method against what the text says. */
  predicate Took<T(==)>(p: Result<Read<T>>, r: Result<T>, rem: seq<byte>) {
    if p.Err? then r == Err(p.error) else r == Ok(p.value.value) && rem == p.value.rest
  }

  predicate Moved(p: Result<seq<byte>>, r: Result<()>, rem: seq<byte>) {
    if p.Err? then r == Err(p.error) else r == Ok(()) && rem == p.value
  }

  lemma PutBack(b: seq<byte>)
    requires b != []
    ensures [b[0]] + b[1..] == b
  {}

  /** `match` one character at a time. */
  lemma MatchStep(word: seq<byte>, i: nat, b: seq<byte>)
    requires i < |word|
    ensures Match(word[i..], b) == if Peeks(b, word[i]) then Match(word[i + 1..], b[1..]) else Err(ErrParse)
  {
    if word[i..] <= b {
      assert word[i..][0] == b[0];
      assert word[i + 1..] == word[i..][1..] <= b[1..];
      assert b[|word[i..]|..] == b[1..][|word[i + 1..]|..];
    }
  }

  /** The loop of `parse_ipv4`. */
  function ParseIpFrom(ip: seq<byte>, b: seq<byte>): Result<Read<Ip>>
    requires |ip| <= 4
    decreases 4 - |ip|
  {
    if |ip| == 4 then Ok(Read(Ip(ip[0], ip[1], ip[2], ip[3]), b))
    else
      var n :- ParseU32(b);
      if |ip| == 3 then ParseIpFrom(ip + [n.value % 0x100], n.rest)
      else
        var rest :- Match(Ascii("."), n.rest);
        ParseIpFrom(ip + [n.value % 0x100], rest)
  }

  lemma IpStep(ip: seq<byte>, b: seq<byte>)
    requires |ip| < 4
    ensures var n := ParseIpByte(b);
            ParseIpFrom(ip, b) ==
            if n.Err? then Err(n.error)
            else if |ip| == 3 then Ok(Read(Ip(ip[0], ip[1], ip[2], n.value.value), n.value.rest))
            else
              var rest := Match(Ascii("."), n.value.rest);
              if rest.Err? then Err(rest.error) else ParseIpFrom(ip + [n.value.value], rest.value)
  {
    hide ParseU32, Match, Ascii;
    if |ip| == 3 && ParseU32(b).Ok? {
      var all := ip + [ParseU32(b).value.value % 0x100];
      assert all[0] == ip[0] && all[1] == ip[1] && all[2] == ip[2];
    }
  }

  lemma IpInALoop(b: seq<byte>)
    ensures ParseIp(b) == ParseIpFrom([], EatWs(b))
  {
    hide ParseIpByte, ParseIpFrom, Match, Ascii, EatWs;
    IpStep([], EatWs(b));
    var n0 := ParseIpByte(EatWs(b));
    if n0.Err? { return; }
    var d0 := Match(Ascii("."), n0.value.rest);
    if d0.Err? { return; }
    IpStep([] + [n0.value.value], d0.value);
    var n1 := ParseIpByte(d0.value);
    if n1.Err? { return; }
    var d1 := Match(Ascii("."), n1.value.rest);
    if d1.Err? { return; }
    IpStep([] + [n0.value.value] + [n1.value.value], d1.value);
    var n2 := ParseIpByte(d1.value);
    if n2.Err? { return; }
    var d2 := Match(Ascii("."), n2.value.rest);
    if d2.Err? { return; }
    IpStep([] + [n0.value.value] + [n1.value.value] + [n2.value.value], d2.value);
  }

  lemma DotIsText()
    ensures EOF_BYTE !in Ascii(".")
  {}

  /** Every literal of the grammar is text in ASCII. */
  lemma TextHasNoEof()
    ensures EOF_BYTE !in Ascii(":") && EOF_BYTE !in Ascii("(") && EOF_BYTE !in Ascii(",") && EOF_BYTE !in Ascii(")")
    ensures EOF_BYTE !in Ascii("[t]:") && EOF_BYTE !in Ascii("AS") && EOF_BYTE !in Ascii("]") && EOF_BYTE !in Ascii("[")
    ensures EOF_BYTE !in Ascii("static1") && EOF_BYTE !in Ascii("uplink") && EOF_BYTE !in Ascii("from")
    ensures EOF_BYTE !in Ascii("/") && EOF_BYTE !in Ascii("via") && EOF_BYTE !in Ascii("on")
    ensures EOF_BYTE !in Ascii("BIRD ") && EOF_BYTE !in Ascii(" ready.")
  {}

  /** The type line behind a word that has been read. */
  function TypeAfter(t: RteType, word: seq<byte>, rest: seq<byte>): Result<Read<RteType>> {
    if word == [] then
      var b :- Match([NL], rest);
      Ok(Read(t, b))
    else if word == Ascii("BGP") then ParseTypeWords(t.(bgp := true), rest)
    else if word == Ascii("unicast") then ParseTypeWords(t.(unicast := true), rest)
    else if word == Ascii("univ") then ParseTypeWords(t.(univ := true), rest)
    else if word == Ascii("static") then ParseTypeWords(t.(static1 := true), rest)
    else Err(ErrParse)
  }

  /** The path where no more number follows. */
  function PathBrace(path: seq<i32>, b: seq<byte>): Read<seq<i32>> {
    var c := EatWs(b);
    if Peeks(c, '{' as int) then ParsePath(path + [AS_LBRACE], c[1..])
    else if Peeks(c, '}' as int) then ParsePath(path + [AS_RBRACE], c[1..])
    else Read(path, c)
  }

  /** The flags behind the blanks. */
  function FlagsFrom(fs: seq<Flag>, b: seq<byte>): Result<Read<seq<Flag>>> {
    if !Peeks(b, '(' as int) then Ok(Read(fs, b))
    else
      var f :- ParseFlag(b);
      ParseFlags(fs + [f.value], f.rest)
  }

  class Parser {
    const buf: NbBuffer

    ghost predicate Ready()
      reads this, buf, buf.Repr
    {
      buf.Valid() && buf.mode != Writing
    }

    /** `parser_init`. */
    constructor (buf: NbBuffer)
      requires buf.Valid() && buf.mode != Writing
      ensures this.buf == buf && Ready()
    {
      this.buf := buf;
    }

    /** `parser_getc`: in a char, the byte 0xFF is the end of the input. */
    method Getc() returns (c: int)
      requires Ready()
      modifies buf, buf.Repr
      ensures Ready() && buf.Repr == old(buf.Repr)
      ensures var b := old(buf.Abs.rem);
              if b == [] then c == EOF_CHAR && buf.Abs.rem == b && buf.pos == 0
              else c == (if b[0] == EOF_BYTE then EOF_CHAR else b[0]) && buf.Abs.rem == b[1..] && buf.pos > 0
    {
      hide NbBuffer.Valid;
      c := buf.Getc();
      if c == EOF_BYTE {
        c := EOF_CHAR;
      }
    }

    /** `parser_ungetc`. */
    method Ungetc(c: byte)
      requires Ready() && buf.pos > 0
      modifies buf, buf.Repr
      ensures Ready() && buf.Repr == old(buf.Repr) && buf.Abs.rem == [c] + old(buf.Abs.rem)
    {
      assert buf.window in buf.Repr;
      buf.Ungetc(c);
    }

    /** `parser_peek`. */
    method Peek() returns (c: int)
      requires Ready()
      modifies buf, buf.Repr
      ensures Ready() && buf.Repr == old(buf.Repr) && buf.Abs.rem == old(buf.Abs.rem)
      ensures c == if buf.Abs.rem == [] || buf.Abs.rem[0] == EOF_BYTE then EOF_CHAR else buf.Abs.rem[0]
    {
      hide NbBuffer.Valid;
      c := buf.Peek();
      if c == EOF_BYTE {
        c := EOF_CHAR;
      }
    }

    /** `eat_ws`. */
    method SkipWs()
      requires Ready()
      modifies buf, buf.Repr
      ensures Ready() && buf.Repr == old(buf.Repr) && buf.Abs.rem == EatWs(old(buf.Abs.rem))
    {
      hide NbBuffer.Valid;
      while true
        invariant Ready() && buf.Repr == old(buf.Repr) && EatWs(buf.Abs.rem) == EatWs(old(buf.Abs.rem))
        decreases |buf.Abs.rem|
      {
        ghost var b := buf.Abs.rem;
        var c := Getc();
        if c == EOF_CHAR {
          return;
        }
        if !IsBlank(c) {
          PutBack(b);
          Ungetc(c);
          return;
        }
      }
    }

    /** `match`. */
    method Take(word: seq<byte>) returns (r: Result<()>)
      requires Ready() && EOF_BYTE !in word
      modifies buf, buf.Repr
      ensures Ready() && buf.Repr == old(buf.Repr) && Moved(Match(word, old(buf.Abs.rem)), r, buf.Abs.rem)
    {
      hide NbBuffer.Valid, Match;
      assert word[0..] == word;
      for i := 0 to |word|
        invariant Ready() && buf.Repr == old(buf.Repr)
        invariant Match(word, old(buf.Abs.rem)) == Match(word[i..], buf.Abs.rem)
      {
        MatchStep(word, i, buf.Abs.rem);
        var c := Getc();
        if c == EOF_CHAR || c != word[i] {
          return Err(ErrParse);
        }
      }
      MatchNothing(word, buf.Abs.rem);
      r := Ok(());
    }

    /** `match_ws`. */
    method TakeWs(word: seq<byte>) returns (r: Result<()>)
      requires Ready() && EOF_BYTE !in word
      modifies buf, buf.Repr
      ensures Ready() && buf.Repr == old(buf.Repr) && Moved(MatchWs(word, old(buf.Abs.rem)), r, buf.Abs.rem)
    {
      hide NbBuffer.Valid, Match;
      SkipWs();
      r := Take(word);
    }

    /** `parser_try_parse_int`. */
    method TryTakeInt() returns (n: u32, count: nat)
      requires Ready()
      modifies buf, buf.Repr
      ensures Ready() && buf.Repr == old(buf.Repr)
      ensures TryInt(old(buf.Abs.rem)) == Digits(n, count, buf.Abs.rem)
    {
      hide NbBuffer.Valid;
      SkipWs();
      n, count := 0, 0;
      while true
        invariant Ready() && buf.Repr == old(buf.Repr)
        invariant TryInt(old(buf.Abs.rem)) == ScanDigits(n, count, buf.Abs.rem)
        decreases |buf.Abs.rem|
      {
        ghost var b := buf.Abs.rem;
        var c := Getc();
        if c == EOF_CHAR {
          return;
        }
        if IsDigit(c) {
          n, count := (10 * n + (c - 48)) % 0x1_0000_0000, count + 1;
        } else {
          PutBack(b);
          Ungetc(c);
          return;
        }
      }
    }

    /** `parse_u32`. */
    method TakeU32() returns (r: Result<u32>)
      requires Ready()
      modifies buf, buf.Repr
      ensures Ready() && buf.Repr == old(buf.Repr) && Took(ParseU32(old(buf.Abs.rem)), r, buf.Abs.rem)
    {
      hide NbBuffer.Valid, TryInt;
      var n, count := TryTakeInt();
      r := if count == 0 then Err(ErrParse) else Ok(n);
    }

    /** `parser_try_accum`. */
    method TryTakeWord(cls: CharClass) returns (word: seq<byte>)
      requires Ready()
      modifies buf, buf.Repr
      ensures Ready() && buf.Repr == old(buf.Repr)
      ensures TryAccum(cls, old(buf.Abs.rem)) == Read(word, buf.Abs.rem)
    {
      hide NbBuffer.Valid;
      SkipWs();
      word := [];
      while true
        invariant Ready() && buf.Repr == old(buf.Repr)
        invariant TryAccum(cls, old(buf.Abs.rem)) == Accum(cls, word, buf.Abs.rem)
        decreases |buf.Abs.rem|
      {
        ghost var b := buf.Abs.rem;
        var c := Getc();
        if c == EOF_CHAR {
          return;
        }
        if !cls.Has(c) {
          PutBack(b);
          Ungetc(c);
          return;
        }
        word := word + [c];
      }
    }

    /** `parser_accum`. */
    method TakeWord(cls: CharClass) returns (r: Result<seq<byte>>)
      requires Ready()
      modifies buf, buf.Repr
      ensures Ready() && buf.Repr == old(buf.Repr) && Took(ParseWord(cls, old(buf.Abs.rem)), r, buf.Abs.rem)
    {
      hide NbBuffer.Valid, TryAccum;
      var word := TryTakeWord(cls);
      r := if word == [] then Err(ErrParse) else Ok(word);
    }

    /** `parse_ipv4`. */
    method TakeIp() returns (r: Result<Ip>)
      requires Ready()
      modifies buf, buf.Repr
      ensures Ready() && buf.Repr == old(buf.Repr) && Took(ParseIp(old(buf.Abs.rem)), r, buf.Abs.rem)
    {
      hide NbBuffer.Valid, ParseU32, ParseIp, Match, EatWs;
      IpInALoop(buf.Abs.rem);
      SkipWs();
      var ip: seq<byte> := [];
      while |ip| < 4
        invariant Ready() && buf.Repr == old(buf.Repr) && |ip| <= 4
        invariant ParseIp(old(buf.Abs.rem)) == ParseIpFrom(ip, buf.Abs.rem)
      {
        var n :- TakeU32();
        if |ip| < 3 {
          DotIsText();
          var _ :- Take(Ascii("."));
        }
        ip := ip + [n % 0x100];
      }
      r := Ok(Ip(ip[0], ip[1], ip[2], ip[3]));
    }

    /** `parse_time`. */
    method TakeTime() returns (r: Result<Time>)
      requires Ready()
      modifies buf, buf.Repr
      ensures Ready() && buf.Repr == old(buf.Repr) && Took(ParseTime(old(buf.Abs.rem)), r, buf.Abs.rem)
    {
      hide NbBuffer.Valid, ParseU32, Match, Ascii;
      TextHasNoEof();
      var hour :- TakeU32();
      var _ :- Take(Ascii(":"));
      var min :- TakeU32();
      var _ :- Take(Ascii(":"));
      var sec :- TakeU32();
      r := Ok(Time(Signed(hour), Signed(min), Signed(sec)));
    }

    /** `parse_attr_type`. */
    method TakeType() returns (r: Result<RteType>)
      requires Ready()
      modifies buf, buf.Repr
      ensures Ready() && buf.Repr == old(buf.Repr) && Took(ParseTypeWords(NO_TYPE, old(buf.Abs.rem)), r, buf.Abs.rem)
    {
      hide NbBuffer.Valid, TryAccum, Match, Ascii;
      var t := NO_TYPE;
      var word := TryTakeWord(Alnum);
      while word != []
        invariant Ready() && buf.Repr == old(buf.Repr)
        invariant ParseTypeWords(NO_TYPE, old(buf.Abs.rem)) == TypeAfter(t, word, buf.Abs.rem)
        decreases |word| + |buf.Abs.rem|
      {
        if word == Ascii("BGP") {
          t := t.(bgp := true);
        } else if word == Ascii("unicast") {
          t := t.(unicast := true);
        } else if word == Ascii("univ") {
          t := t.(univ := true);
        } else if word == Ascii("static") {
          t := t.(static1 := true);
        } else {
          return Err(ErrParse);
        }
        word := TryTakeWord(Alnum);
      }
      var _ :- Take([NL]);
      r := Ok(t);
    }

    /** `parse_attr_bgp_origin`. */
    method TakeOrigin() returns (r: Result<Value>)
      requires Ready()
      modifies buf, buf.Repr
      ensures Ready() && buf.Repr == old(buf.Repr) && Took(AtEol(ParseOrigin(old(buf.Abs.rem))), r, buf.Abs.rem)
    {
      hide NbBuffer.Valid, ParseWord, Match, OriginName;
      var origin :- TakeWord(Alnum);
      var v: Value;
      if origin == OriginName(Igp) {
        v := BgpOrigin(Igp);
      } else if origin == OriginName(Egp) {
        v := BgpOrigin(Egp);
      } else if origin == OriginName(Incomplete) {
        v := BgpOrigin(Incomplete);
      } else {
        return Err(ErrParse);
      }
      var _ :- Take([NL]);
      r := Ok(v);
    }

    /** `parse_attr_bgp_as_path`. What stands behind the path is put back, the byte 0xFF too; at the end of the input
        that fails the assertion of `nb_buffer_ungetc`. */
    method TakePath() returns (r: Result<seq<i32>>)
      requires Ready()
      modifies buf, buf.Repr
      ensures Ready() && buf.Repr == old(buf.Repr) && Took(AtEol(PathOf(old(buf.Abs.rem))), r, buf.Abs.rem)
    {
      hide NbBuffer.Valid, TryInt, EatWs;
      var path: seq<i32> := [];
      while true
        invariant Ready() && buf.Repr == old(buf.Repr)
        invariant ParsePath([], old(buf.Abs.rem)) == ParsePath(path, buf.Abs.rem)
        decreases |buf.Abs.rem|
      {
        ghost var b := buf.Abs.rem;
        var n, count := TryTakeInt();
        while count > 0
          invariant Ready() && buf.Repr == old(buf.Repr) && |buf.Abs.rem| + count <= |b|
          invariant ParsePath([], old(buf.Abs.rem)) ==
                    if count > 0 then ParsePath(path + [Signed(n)], buf.Abs.rem) else PathBrace(path, buf.Abs.rem)
          decreases |buf.Abs.rem| + count
        {
          path := path + [Signed(n)];
          n, count := TryTakeInt();
        }
        SkipWs();
        ghost var rest := buf.Abs.rem;
        var c := Getc();
        if c == '{' as int {
          path := path + [AS_LBRACE];
        } else if c == '}' as int {
          path := path + [AS_RBRACE];
        } else if buf.pos == 0 {
          return Err(ErrAssert);
        } else {
          PutBack(rest);
          Ungetc(if c == EOF_CHAR then EOF_BYTE else c);
          var _ :- Take([NL]);
          return Ok(path);
        }
      }
    }

    method TakeFlag() returns (r: Result<Flag>)
      requires Ready()
      modifies buf, buf.Repr
      ensures Ready() && buf.Repr == old(buf.Repr) && Took(ParseFlag(old(buf.Abs.rem)), r, buf.Abs.rem)
    {
      hide NbBuffer.Valid, ParseU32, Match, Ascii;
      TextHasNoEof();
      var _ :- Take(Ascii("("));
      var flag :- TakeU32();
      var _ :- Take(Ascii(","));
      var asNo :- TakeU32();
      var _ :- Take(Ascii(")"));
      r := Ok(Flag(flag, asNo));
    }

    /** `parse_attr_bgp_community`. */
    method TakeFlags() returns (r: Result<seq<Flag>>)
      requires Ready()
      modifies buf, buf.Repr
      ensures Ready() && buf.Repr == old(buf.Repr) && Took(AtEol(ParseFlags([], old(buf.Abs.rem))), r, buf.Abs.rem)
    {
      hide NbBuffer.Valid, ParseFlag, EatWs, Match;
      var fs: seq<Flag> := [];
      SkipWs();
      var c := Peek();
      while c == '(' as int
        invariant Ready() && buf.Repr == old(buf.Repr)
        invariant c == '(' as int <==> Peeks(buf.Abs.rem, '(' as int)
        invariant ParseFlags([], old(buf.Abs.rem)) == FlagsFrom(fs, buf.Abs.rem)
        decreases |buf.Abs.rem|
      {
        var f :- TakeFlag();
        fs := fs + [f];
        SkipWs();
        c := Peek();
      }
      var _ :- Take([NL]);
      r := Ok(fs);
    }

    /** `parse_attr_bgp_aggregator`. */
    method TakeAggregator() returns (r: Result<Value>)
      requires Ready()
      modifies buf, buf.Repr
      ensures Ready() && buf.Repr == old(buf.Repr) && Took(AtEol(ParseAggregator(old(buf.Abs.rem))), r, buf.Abs.rem)
    {
      hide NbBuffer.Valid, ParseIp, ParseU32, MatchWs, Match, Ascii;
      TextHasNoEof();
      var ip :- TakeIp();
      var _ :- TakeWs(Ascii("AS"));
      var asNo :- TakeU32();
      var _ :- Take([NL]);
      r := Ok(BgpAggregator(ip, asNo));
    }

    /** `parse_attr_other`, with `parse_line`. */
    method TakeOther(key: seq<byte>) returns (r: Result<Value>)
      requires Ready()
      modifies buf, buf.Repr
      ensures Ready() && buf.Repr == old(buf.Repr) && Took(AtEol(Ok(ParseOther(key, old(buf.Abs.rem)))), r, buf.Abs.rem)
    {
      hide NbBuffer.Valid, TryAccum, EatWs, Match;
      SkipWs();
      var line := TryTakeWord(LineChars);
      var _ :- Take([NL]);
      r := Ok(OtherAttr(key, if line == [] then None else Some(CStr(line))));
    }

    /** The handlers of `parse_rte_attrs` for the attributes of a route. */
    method TakeValue(key: seq<byte>) returns (r: Result<Value>)
      requires Ready()
      modifies buf, buf.Repr
      ensures Ready() && buf.Repr == old(buf.Repr) && Took(AtEol(ParseValue(key, old(buf.Abs.rem))), r, buf.Abs.rem)
    {
      hide NbBuffer.Valid, Ascii, Match, ParsePath, ParseFlags, ParseIp, ParseU32, ParseAggregator, ParseOther,
           ParseOrigin;
      if key == Ascii("BGP.origin") {
        r := TakeOrigin();
      } else if key == Ascii("BGP.as_path") {
        var path :- TakePath();
        r := Ok(BgpAsPath(path));
      } else if key == Ascii("BGP.next_hop") {
        var ip :- TakeIp();
        var _ :- Take([NL]);
        r := Ok(BgpNextHop(ip));
      } else if key == Ascii("BGP.local_pref") {
        var n :- TakeU32();
        var _ :- Take([NL]);
        r := Ok(BgpLocalPref(n));
      } else if key == Ascii("BGP.community") {
        var fs :- TakeFlags();
        r := Ok(BgpCommunity(fs));
      } else if key == Ascii("BGP.aggregator") {
        r := TakeAggregator();
      } else {
        r := TakeOther(key);
      }
    }

    /** The head of an attribute line. */
    method TakeKey() returns (r: Result<Key>)
      requires Ready()
      modifies buf, buf.Repr
      ensures Ready() && buf.Repr == old(buf.Repr) && Took(ParseKey(old(buf.Abs.rem)), r, buf.Abs.rem)
    {
      hide NbBuffer.Valid, Ascii, Match, ParseWord, EatWs;
      TextHasNoEof();
      var key :- TakeWord(KeyChars);
      SkipWs();
      var c := Peek();
      var tflag := c == '[' as int;
      if tflag {
        var _ :- Take(Ascii("[t]:"));
      } else {
        var _ :- Take(Ascii(":"));
      }
      SkipWs();
      r := Ok(Key(key, tflag));
    }

    /** One turn of the loop of `parse_rte_attrs`. */
    method TakeAttrLine(d: Details) returns (r: Result<Details>)
      requires Ready()
      modifies buf, buf.Repr
      ensures Ready() && buf.Repr == old(buf.Repr) && Took(ParseAttrLine(d, old(buf.Abs.rem)), r, buf.Abs.rem)
    {
      hide NbBuffer.Valid, Ascii, ParseKey, ParseTypeWords, ParseValue, AtEol;
      var key :- TakeKey();
      if key.key == Ascii("Type") {
        var t :- TakeType();
        return if key.tflag then Err(ErrParse) else Ok(d.(typ := t));
      }
      var v :- TakeValue(key.key);
      r := Ok(d.(attrs := d.attrs + [Attr(key.tflag, v)]));
    }

    /** `parse_rte_attrs`. */
    method TakeAttrs() returns (r: Result<Details>)
      requires Ready()
      modifies buf, buf.Repr
      ensures Ready() && buf.Repr == old(buf.Repr)
      ensures Took(ParseAttrs(Details(NO_TYPE, []), old(buf.Abs.rem)), r, buf.Abs.rem)
    {
      hide NbBuffer.Valid, ParseAttrLine;
      var d := Details(NO_TYPE, []);
      while true
        invariant Ready() && buf.Repr == old(buf.Repr)
        invariant ParseAttrs(Details(NO_TYPE, []), old(buf.Abs.rem)) == ParseAttrs(d, buf.Abs.rem)
        decreases |buf.Abs.rem|
      {
        ghost var b := buf.Abs.rem;
        var c := Getc();
        if c == EOF_CHAR {
          return Ok(d);
        }
        if c != TAB {
          PutBack(b);
          Ungetc(c);
          return Ok(d);
        }
        d :- TakeAttrLine(d);
      }
    }

    /** `parse_as_name`. */
    method TakeSource() returns (r: Result<Origins>)
      requires Ready()
      modifies buf, buf.Repr
      ensures Ready() && buf.Repr == old(buf.Repr) && Took(ParseSource(old(buf.Abs.rem)), r, buf.Abs.rem)
    {
      hide NbBuffer.Valid, ParseU32, Match, Ascii;
      TextHasNoEof();
      var asNo: Option<u32> := None;
      var a := Peek();
      if a == 'A' as int {
        var _ :- Take(Ascii("AS"));
        var n :- TakeU32();
        asNo := Some(n);
      }
      var c := Getc();
      if c == 'i' as int {
        r := Ok(Origins(asNo, Internal));
      } else if c == 'e' as int {
        r := Ok(Origins(asNo, External));
      } else if c == 'u' as int {
        r := Ok(Origins(asNo, U));
      } else if c == '?' as int {
        r := Ok(Origins(asNo, WhoKnows));
      } else {
        r := Err(ErrParse);
      }
    }

    /** The loop of `parse_rte` that skips the metric. */
    method SkipMetric() returns (found: bool)
      requires Ready()
      modifies buf, buf.Repr
      ensures Ready() && buf.Repr == old(buf.Repr) && SkipToBracket(old(buf.Abs.rem)) == Read(found, buf.Abs.rem)
    {
      hide NbBuffer.Valid;
      while true
        invariant Ready() && buf.Repr == old(buf.Repr)
        invariant SkipToBracket(old(buf.Abs.rem)) == SkipToBracket(buf.Abs.rem)
        decreases |buf.Abs.rem|
      {
        ghost var b := buf.Abs.rem;
        var c := Getc();
        if c == EOF_CHAR {
          return false;
        }
        if c == NL {
          PutBack(b);
          Ungetc(c);
          return false;
        }
        if c == '[' as int {
          return true;
        }
      }
    }

    /** The rest of the first line of an entry. */
    method TakeOrigins() returns (r: Result<Origins>)
      requires Ready()
      modifies buf, buf.Repr
      ensures Ready() && buf.Repr == old(buf.Repr) && Took(AtEol(ParseOrigins(old(buf.Abs.rem))), r, buf.Abs.rem)
    {
      hide NbBuffer.Valid, ParseSource, SkipToBracket, Match, Ascii;
      TextHasNoEof();
      var o := Origins(None, Internal);
      var found := SkipMetric();
      if found {
        o :- TakeSource();
        var _ :- Take(Ascii("]"));
      }
      var _ :- Take([NL]);
      r := Ok(o);
    }

    /** The bracket with the uplink. */
    method TakeUplink() returns (r: Result<Uplink>)
      requires Ready()
      modifies buf, buf.Repr
      ensures Ready() && buf.Repr == old(buf.Repr) && Took(ParseUplink(old(buf.Abs.rem)), r, buf.Abs.rem)
    {
      hide NbBuffer.Valid, ParseTime, ParseIp, MatchWs, EatWs, Ascii;
      TextHasNoEof();
      var _ :- TakeWs(Ascii("["));
      var c := Peek();
      if c == 's' as int {
        var _ :- TakeWs(Ascii("static1"));
        SkipWs();
        var t :- TakeTime();
        var _ :- TakeWs(Ascii("]"));
        return Ok(Uplink(t, None));
      }
      var _ :- TakeWs(Ascii("uplink"));
      SkipWs();
      var t :- TakeTime();
      var _ :- TakeWs(Ascii("from"));
      var ip :- TakeIp();
      var _ :- TakeWs(Ascii("]"));
      r := Ok(Uplink(t, Some(ip)));
    }

    method TakeNet() returns (r: Result<Net>)
      requires Ready()
      modifies buf, buf.Repr
      ensures Ready() && buf.Repr == old(buf.Repr) && Took(ParseNet(old(buf.Abs.rem)), r, buf.Abs.rem)
    {
      hide NbBuffer.Valid, ParseIp, ParseU32, Match, EatWs, Ascii;
      TextHasNoEof();
      var ip :- TakeIp();
      var _ :- Take(Ascii("/"));
      var mask :- TakeU32();
      SkipWs();
      r := Ok(Net(ip, mask));
    }

    method TakeRoute() returns (r: Result<Route>)
      requires Ready()
      modifies buf, buf.Repr
      ensures Ready() && buf.Repr == old(buf.Repr) && Took(ParseRoute(old(buf.Abs.rem)), r, buf.Abs.rem)
    {
      hide NbBuffer.Valid, ParseNet, ParseIp, ParseWord, MatchWs, Ascii;
      TextHasNoEof();
      var net :- TakeNet();
      var _ :- TakeWs(Ascii("via"));
      var gw :- TakeIp();
      var _ :- TakeWs(Ascii("on"));
      var name :- TakeWord(Alnum);
      r := Ok(Route(net, gw, name));
    }

    /** `parse_rte`. */
    method TakeRte() returns (r: Result<Rte>)
      requires Ready()
      modifies buf, buf.Repr
      ensures Ready() && buf.Repr == old(buf.Repr) && Took(ParseRte(old(buf.Abs.rem)), r, buf.Abs.rem)
    {
      hide NbBuffer.Valid, ParseRoute, ParseUplink, ParseOrigins, AtEol, ParseAttrs;
      var route :- TakeRoute();
      var up :- TakeUplink();
      var o :- TakeOrigins();
      var d :- TakeAttrs();
      r := Ok(Rte(route.net.ip, route.net.mask, route.gwaddr, route.ifname, up.time, up.from, d.attrs, d.typ,
                  o.asNo, o.src));
    }

    /** `parser_parse_rt`. */
    method ParseTable() returns (r: Result<Rt>)
      requires Ready()
      modifies buf, buf.Repr
      ensures Ready() && buf.Repr == old(buf.Repr) && r == ParseRt(old(buf.Abs.rem))
    {
      hide NbBuffer.Valid, ParseWord, Match, ParseRte, Ascii;
      TextHasNoEof();
      var _ :- Take(Ascii("BIRD "));
      var version :- TakeWord(KeyChars);
      var _ :- Take(Ascii(" ready."));
      var _ :- Take([NL]);
      var entries: seq<Rte> := [];
      ghost var text := buf.Abs.rem;
      var c := Peek();
      while c != EOF_CHAR
        invariant Ready() && buf.Repr == old(buf.Repr)
        invariant c == EOF_CHAR <==> buf.Abs.rem == [] || buf.Abs.rem[0] == EOF_BYTE
        invariant ParseEntries([], text) == ParseEntries(entries, buf.Abs.rem)
        decreases |buf.Abs.rem|
      {
        var e :- TakeRte();
        entries := entries + [e];
        c := Peek();
      }
      r := Ok(Rt(version, entries));
    }
  }

  lemma MatchNothing(word: seq<byte>, b: seq<byte>)
    ensures Match(word[|word|..], b) == Ok(b)
  {}

  // ---------- the serializer ----------

  function IpByte(ip: Ip, i: nat): byte
    requires i < 4
  {
    if i == 0 then ip.a else if i == 1 then ip.b else if i == 2 then ip.c else ip.d
  }

  /** The first `n` bytes of an address as `print_ipv4` prints them. */
  function IpPrefix(ip: Ip, n: nat): seq<byte>
    requires n <= 4
  {
    if n == 0 then [] else IpPrefix(ip, n - 1) + (if n > 1 then Ascii(".") else []) + Decimal(IpByte(ip, n - 1))
  }

  lemma IpInOnePiece(ip: Ip)
    ensures IpPrefix(ip, 4) == PrintIp(ip)
  {
    hide Decimal, Ascii;
    var a, b, c, d, dot := Decimal(ip.a), Decimal(ip.b), Decimal(ip.c), Decimal(ip.d), Ascii(".");
    assert IpPrefix(ip, 1) == a;
    Assoc(a, dot, b);
    var p2 := a + (dot + b);
    Assoc(p2, dot, c);
    Assoc(a, dot + b, dot + c);
    Assoc(dot, b, dot + c);
    var p3 := a + (dot + (b + (dot + c)));
    assert IpPrefix(ip, 3) == p3;
    Assoc(p3, dot, d);
    Assoc(a, dot + (b + (dot + c)), dot + d);
    Assoc(dot, b + (dot + c), dot + d);
    Assoc(b, dot + c, dot + d);
    Assoc(dot, c, dot + d);
  }

  /** `struct strbuf` and the printing functions over it. */
  class StrBuf {
    var str: seq<byte>

    constructor ()
      ensures str == []
    {
      str := [];
    }

    /** `strbuf_putc`, `strbuf_puts` and `strbuf_printf` of text that is already formatted. */
    method Put(text: seq<byte>)
      modifies this
      ensures str == old(str) + text
    {
      str := str + text;
    }

    /** `print_ipv4`. */
    method PutIp(ip: Ip) returns (len: nat)
      modifies this
      ensures str == old(str) + PrintIp(ip) && len == |PrintIp(ip)|
    {
      hide Decimal, Ascii, PrintIp;
      len := 0;
      for i := 0 to 4
        invariant str == old(str) + IpPrefix(ip, i) && len == |IpPrefix(ip, i)|
      {
        ghost var start := str;
        if i > 0 {
          Put(Ascii("."));
          len := len + |Ascii(".")|;
        }
        Put(Decimal(IpByte(ip, i)));
        len := len + |Decimal(IpByte(ip, i))|;
        Assoc(old(str), IpPrefix(ip, i), if i > 0 then Ascii(".") else []);
        Assoc(old(str), IpPrefix(ip, i) + (if i > 0 then Ascii(".") else []), Decimal(IpByte(ip, i)));
        assert i == 0 ==> start + [] == start;
      }
      IpInOnePiece(ip);
    }

    /** `print_ipv4_net`. */
    method PutNet(ip: Ip, netmask: u32) returns (len: nat)
      modifies this
      ensures str == old(str) + PrintNet(ip, netmask) && len == |PrintNet(ip, netmask)|
    {
      hide Decimal, Ascii, PrintIp;
      len := PutIp(ip);
      var mask := Ascii("/") + Decimal(netmask % 0x100);
      Assoc(old(str), PrintIp(ip), mask);
      Put(mask);
      len := len + |mask|;
    }

    /** The loop of `print_rte` that aligns the column of "via". */
    method PutPadding(len: nat)
      modifies this
      ensures str == old(str) + Padding(len)
    {
      var i := len;
      while i <= 17
        invariant i >= len && (i == len || i <= 18)
        invariant str == old(str) + Spaces(i - len)
      {
        Assoc(old(str), Spaces(i - len), [SPACE]);
        assert Spaces(i - len) + [SPACE] == Spaces(i + 1 - len);
        Put([SPACE]);
        i := i + 1;
      }
    }

    /** `print_attr_bgp_as_path` behind the key. */
    method PutPath(path: seq<i32>)
      modifies this
      ensures str == old(str) + PrintPath(path)
    {
      hide PrintHop;
      var i := 0;
      assert path[0..] == path;
      while i < |path|
        invariant i <= |path| && str + PrintPath(path[i..]) == old(str) + PrintPath(path)
      {
        assert path[i..][1..] == path[i + 1..];
        Assoc(str, PrintHop(path[i]), PrintPath(path[i + 1..]));
        Put(PrintHop(path[i]));
        i := i + 1;
      }
      assert str + PrintPath(path[i..]) == str;
    }

    /** `print_attr_bgp_community` behind the key. */
    method PutFlags(fs: seq<Flag>)
      modifies this
      ensures str == old(str) + PrintFlags(fs)
    {
      hide PrintFlag;
      var i := 0;
      assert fs[0..] == fs;
      while i < |fs|
        invariant i <= |fs| && str + PrintFlags(fs[i..]) == old(str) + PrintFlags(fs)
      {
        assert fs[i..][1..] == fs[i + 1..];
        Assoc(str, PrintFlag(fs[i]), PrintFlags(fs[i + 1..]));
        Put(PrintFlag(fs[i]));
        i := i + 1;
      }
      assert str + PrintFlags(fs[i..]) == str;
    }

    method PutValue(v: Value)
      modifies this
      ensures str == old(str) + PrintValue(v)
    {
      hide PrintPath, PrintFlags, PrintIp, Decimal, Ascii, PrintSigned, OriginName;
      match v
      case BgpOrigin(o) => Put(OriginName(o));
      case BgpNextHop(ip) => var _ := PutIp(ip);
      case BgpAsPath(path) => PutPath(path);
      case BgpLocalPref(n) => Put(PrintSigned(n));
      case BgpCommunity(fs) => PutFlags(fs);
      case BgpAggregator(ip, n) =>
        var _ := PutIp(ip);
        Assoc(old(str), PrintIp(ip), Ascii(" AS") + Decimal(n));
        Put(Ascii(" AS") + Decimal(n));
      case OtherAttr(_, value) => Put(if value.Some? then value.value else []);
    }

    /** `print_attr_key`. */
    method PutKey(a: Attr)
      modifies this
      ensures str == old(str) + ([TAB] + (KeyOf(a.value) + (FlagMark(a.tflag) + Ascii(": "))))
    {
      Put([TAB] + (KeyOf(a.value) + (FlagMark(a.tflag) + Ascii(": "))));
    }

    /** `print_rte_attr`. */
    method PutAttr(a: Attr)
      modifies this
      ensures str == old(str) + PrintAttr(a)
    {
      hide KeyOf, FlagMark, PrintValue, Ascii, PrintAttr;
      PutKey(a);
      PutValue(a.value);
      Put([NL]);
      AttrInOnePiece(old(str), a);
    }

    /** `print_rte`. */
    method PutRte(e: Rte)
      modifies this
      ensures str == old(str) + PrintRte(e)
    {
      hide PrintHead, PrintType, PrintAttr, PrintAttrs;
      PutHead(e);
      Put(PrintType(e.typ));
      ghost var start := str;
      var i := 0;
      assert e.attrs[0..] == e.attrs;
      while i < |e.attrs|
        invariant i <= |e.attrs| && str + PrintAttrs(e.attrs[i..]) == start + PrintAttrs(e.attrs)
      {
        AttrsStep(str, e.attrs, i);
        PutAttr(e.attrs[i]);
        i := i + 1;
      }
      AttrsEnd(str, e.attrs);
      Assoc(old(str), PrintHead(e), PrintType(e.typ));
      Assoc(old(str), PrintHead(e) + PrintType(e.typ), PrintAttrs(e.attrs));
      Assoc(PrintHead(e), PrintType(e.typ), PrintAttrs(e.attrs));
    }

    /** The first line of `print_rte`. */
    method PutHead(e: Rte)
      modifies this
      ensures str == old(str) + PrintHead(e)
    {
      hide PrintNet, Padding, PrintIp, PrintUplink, PrintSource, Ascii, PrintHead;
      var len := PutNet(e.netaddr, e.netmask);
      PutPadding(len);
      Put(Ascii(" via "));
      var _ := PutIp(e.gwaddr);
      Put(Ascii(" on "));
      Put(e.ifname);
      Put(PrintUplink(e.uplink, e.uplinkFrom));
      Put(Ascii(" * (100/?) "));
      Put(PrintSource(e.asNo, e.src));
      Put([NL]);
      HeadInOnePiece(old(str), e);
    }

    /** `serialize_bird` up to the write. */
    method PutTable(rt: Rt)
      modifies this
      ensures str == old(str) + PrintRt(rt)
    {
      hide Ascii, PrintRte;
      var banner := Ascii("BIRD ") + (rt.version + Ascii(" ready.\n"));
      Put(banner);
      ghost var start := str;
      var i := 0;
      assert rt.entries[0..] == rt.entries;
      while i < |rt.entries|
        invariant i <= |rt.entries| && str + PrintEntries(rt.entries[i..]) == start + PrintEntries(rt.entries)
      {
        EntriesStep(str, rt.entries, i);
        PutRte(rt.entries[i]);
        i := i + 1;
      }
      assert str + PrintEntries(rt.entries[i..]) == str;
      Assoc(old(str), banner, PrintEntries(rt.entries));
      Assoc(Ascii("BIRD "), rt.version + Ascii(" ready.\n"), PrintEntries(rt.entries));
      Assoc(rt.version, Ascii(" ready.\n"), PrintEntries(rt.entries));
    }
  }

  lemma AttrInOnePiece(s: seq<byte>, a: Attr)
    ensures s + ([TAB] + (KeyOf(a.value) + (FlagMark(a.tflag) + Ascii(": ")))) + PrintValue(a.value) + [NL] ==
            s + PrintAttr(a)
  {
    hide KeyOf, FlagMark, PrintValue, Ascii;
    var k, f, c, v := KeyOf(a.value), FlagMark(a.tflag), Ascii(": "), PrintValue(a.value);
    Assoc(s, [TAB] + (k + (f + c)), v);
    Assoc(s, [TAB] + (k + (f + c)) + v, [NL]);
    Assoc([TAB] + (k + (f + c)), v, [NL]);
    Assoc([TAB], k + (f + c), v + [NL]);
    Assoc(k, f + c, v + [NL]);
    Assoc(f, c, v + [NL]);
  }

  lemma AttrsStep(s: seq<byte>, attrs: seq<Attr>, i: nat)
    requires i < |attrs|
    ensures s + PrintAttrs(attrs[i..]) == (s + PrintAttr(attrs[i])) + PrintAttrs(attrs[i + 1..])
  {
    hide PrintAttr;
    assert attrs[i..][1..] == attrs[i + 1..];
    Assoc(s, PrintAttr(attrs[i]), PrintAttrs(attrs[i + 1..]));
  }

  lemma AttrsEnd(s: seq<byte>, attrs: seq<Attr>)
    ensures s + PrintAttrs(attrs[|attrs|..]) == s
  {}

  lemma EntriesStep(s: seq<byte>, es: seq<Rte>, i: nat)
    requires i < |es|
    ensures s + PrintEntries(es[i..]) == (s + PrintRte(es[i])) + PrintEntries(es[i + 1..])
  {
    hide PrintRte;
    assert es[i..][1..] == es[i + 1..];
    Assoc(s, PrintRte(es[i]), PrintEntries(es[i + 1..]));
  }

  lemma HeadInOnePiece(s: seq<byte>, e: Rte)
    ensures var net := PrintNet(e.netaddr, e.netmask);
            s + net + Padding(|net|) + Ascii(" via ") + PrintIp(e.gwaddr) + Ascii(" on ") + e.ifname +
            PrintUplink(e.uplink, e.uplinkFrom) + Ascii(" * (100/?) ") + PrintSource(e.asNo, e.src) + [NL] ==
            s + PrintHead(e)
  {
    hide PrintNet, Padding, PrintIp, PrintUplink, PrintSource, Ascii;
    var n, v, g := PrintNet(e.netaddr, e.netmask), Ascii(" via "), PrintIp(e.gwaddr);
    var p, o, i, u := Padding(|n|), Ascii(" on "), e.ifname, PrintUplink(e.uplink, e.uplinkFrom);
    var m, a := Ascii(" * (100/?) "), PrintSource(e.asNo, e.src);
    Assoc(s + n + p + v + g + o + i + u + m, a, [NL]);
    Assoc(s + n + p + v + g + o + i + u, m, a + [NL]);
    Assoc(s + n + p + v + g + o + i, u, m + (a + [NL]));
    Assoc(s + n + p + v + g + o, i, u + (m + (a + [NL])));
    Assoc(s + n + p + v + g, o, i + (u + (m + (a + [NL]))));
    Assoc(s + n + p + v, g, o + (i + (u + (m + (a + [NL])))));
    Assoc(s + n + p, v, g + (o + (i + (u + (m + (a + [NL]))))));
    Assoc(s + n, p, v + (g + (o + (i + (u + (m + (a + [NL])))))));
    Assoc(s, n, p + (v + (g + (o + (i + (u + (m + (a + [NL]))))))));
  }

  /** `serialize_bird`. */
  method SerializeBird(rt: Rt, buf: NbBuffer)
    requires buf.Valid() && buf.Writable()
    modifies buf.Repr
    ensures buf.Valid() && fresh(buf.Repr - old(buf.Repr)) && buf.mode == Writing
    ensures Grew(old(buf.Abs), buf.Abs, PrintRt(rt))
  {
    hide NbBuffer.Valid, PrintRt;
    var sb := new StrBuf();
    sb.PutTable(rt);
    assert [] + PrintRt(rt) == PrintRt(rt);
    buf.Write(sb.str);
  }

  /** A table that is serialized into a buffer, flushed, and parsed from it again: a legal one comes back, unless one of
      its local preferences is too high. */
  method SerializeAndParse(rt: Rt) returns (r: Result<Rt>)
    requires Legal(rt)
    ensures r == if PrefsFit(rt) then Ok(Returned(rt)) else Err(ErrParse)
  {
    hide NbBuffer.Valid, PrintRt, ParseRt, Legal, PrefsFit, Returned;
    var buf := new NbBuffer();
    SerializeBird(rt, buf);
    buf.Flush();
    assert [] + PrintRt(rt) == PrintRt(rt);
    var p := new Parser(buf);
    TableRoundTrip(rt);
    r := p.ParseTable();
  }
}
