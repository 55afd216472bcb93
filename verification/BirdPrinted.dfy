/** The text that the serializer prints: its words, its numbers and its columns, in terms of characters. */
module BirdPrinted {
  import opened Prelude
  import opened BirdText
  import opened BirdRoundTrip
  import opened BirdGrammar

  // ---------- words ----------

  /** Each word of letters and digits where an origin is expected: three are origins, and any other is an error. */
  lemma OriginWords(w: seq<byte>, rest: seq<byte>)
    requires w != [] && AllIn(Alnum, w) && Ends(Alnum, rest)
    ensures ParseOrigin(w + rest) ==
            if w == Ascii("IGP") then Ok(Read(BgpOrigin(Igp), rest))
            else if w == Ascii("EGP") then Ok(Read(BgpOrigin(Egp), rest))
            else if w == Ascii("Incomplete") then Ok(Read(BgpOrigin(Incomplete), rest))
            else Err(ErrParse)
  {
    hide TryAccum, ParseWord;
    assert (w + rest)[0] == w[0] && Alnum.Has(w[0]);
    WordParsed(Alnum, w + rest, w, rest);
    OriginNames(w);
    WholeWord("IGP", w);
    WholeWord("EGP", w);
    WholeWord("Incomplete", w);
  }

  lemma PrintedOrigins()
    ensures PrintValue(BgpOrigin(Igp)) == Ascii("IGP")
    ensures PrintValue(BgpOrigin(Egp)) == Ascii("EGP")
    ensures PrintValue(BgpOrigin(Incomplete)) == Ascii("Incomplete")
  {}

  /** The codes behind these literals. */
  lemma AsciiCodes()
    ensures Ascii("IGP") == [73, 71, 80] && Ascii("EGP") == [69, 71, 80]
    ensures Ascii("Incomplete") == [73, 110, 99, 111, 109, 112, 108, 101, 116, 101]
  {}

  // ---------- numbers ----------

  /** The decimal form of a number: its value, without a zero in front. */
  lemma {:induction false} DecimalValue(n: nat)
    ensures ValueOf(Decimal(n)) == n && (Decimal(n)[0] == '0' as int ==> n == 0 && |Decimal(n)| == 1)
  {
    var d: byte := 48 + n % 10;
    if n < 10 {
      assert Decimal(n) == [d] && Decimal(n)[..0] == [];
    } else {
      DecimalValue(n / 10);
      assert Decimal(n)[..|Decimal(n)| - 1] == Decimal(n / 10);
    }
  }

  /** And there is no other. */
  lemma {:induction false} DecimalUnique(ds: seq<byte>)
    requires ds != [] && (forall i :: 0 <= i < |ds| ==> In(Digit, ds[i])) && (ds[0] == 48 ==> |ds| == 1)
    ensures ds == Decimal(ValueOf(ds))
  {
    var front, last := ds[..|ds| - 1], ds[|ds| - 1];
    assert ds == front + [last];
    if front == [] {
      assert ValueOf(ds) == last - 48;
    } else {
      DecimalUnique(front);
      DecimalValue(ValueOf(front));
      assert ValueOf(front) > 0;
      var v := 10 * ValueOf(front) + (last - 48);
      assert v / 10 == ValueOf(front) && v % 10 == last - 48;
    }
  }

  /** `%02u`: at least two digits. */
  lemma TwoDigitsValue(n: nat)
    ensures |TwoDigits(n)| >= 2 && (|TwoDigits(n)| > 2 ==> TwoDigits(n) == Decimal(n))
    ensures (forall i :: 0 <= i < |TwoDigits(n)| ==> In(Digit, TwoDigits(n)[i])) && ValueOf(TwoDigits(n)) == n
  {
    DecimalValue(n);
    if n < 10 {
      assert Decimal(n) == [48 + n];
      assert TwoDigits(n) == [48, 48 + n] && TwoDigits(n)[..1] == [48] && [48][..0] == [];
    } else {
      assert |Decimal(n / 10)| >= 1;
    }
  }

  /** `%i` and `%u` of 32 bits. */
  lemma SignedValue(n: u32, i: i32)
    ensures (Unsigned(i) - i) % 0x1_0000_0000 == 0 && (Signed(n) - n) % 0x1_0000_0000 == 0
    ensures var v: int := Signed(n); PrintSigned(n) == if v >= 0 then Decimal(v) else [45] + Decimal(-v)
  {
    assert Ascii("-") == [45];
  }

  /** The word "via" starts behind column 18, or behind the network if that is longer. */
  lemma ViaColumn(e: Rte)
    ensures var net := PrintNet(e.netaddr, e.netmask);
            var col := Max(|net|, 18);
            |PrintHead(e)| > col + 5 && net <= PrintHead(e) && PrintHead(e)[col..col + 5] == Ascii(" via ") &&
            forall i :: |net| <= i < col ==> PrintHead(e)[i] == ' ' as int
  {
    hide PrintNet, PrintIp, PrintUplink, PrintSource;
    var net := PrintNet(e.netaddr, e.netmask);
    var col := Max(|net|, 18);
    var pad := Padding(|net|);
    var more := PrintIp(e.gwaddr) + (Ascii(" on ") + (e.ifname + (PrintUplink(e.uplink, e.uplinkFrom) +
      (Ascii(" * (100/?) ") + (PrintSource(e.asNo, e.src) + [NL])))));
    assert PrintHead(e) == net + (pad + (Ascii(" via ") + more));
    assert |net + pad| == col;
    assert PrintHead(e) == (net + pad) + Ascii(" via ") + more;
  }

  // ---------- whole tables ----------

  /** What is printed for a legal table is a sentence of the grammar, for what comes back of the table. */
  lemma PrintedIsTable(rt: Rt)
    requires Legal(rt)
    ensures PrefsFit(rt) <==> exists back :: IsTable(back, PrintRt(rt))
    ensures PrefsFit(rt) ==> IsTable(Returned(rt), PrintRt(rt))
  {
    hide ParseRt, PrintRt, IsTable, Legal, PrefsFit, Returned;
    TableRoundTrip(rt);
    ParsesTheGrammar(PrintRt(rt), Returned(rt));
    forall back ensures ParseRt(PrintRt(rt)) == Ok(back) <==> IsTable(back, PrintRt(rt)) {
      ParsesTheGrammar(PrintRt(rt), back);
    }
  }

  // ---------- an entry in full ----------

  const EXAMPLE_ATTRS := [
    Attr(false, BgpOrigin(Igp)), Attr(true, BgpAsPath([12, -2, 1, -3])), Attr(false, BgpNextHop(Ip(10, 0, 0, 2))),
    Attr(false, BgpLocalPref(100)), Attr(false, BgpCommunity([Flag(1, 2), Flag(3, 4)])),
    Attr(true, BgpAggregator(Ip(1, 2, 3, 4), 7)), Attr(false, OtherAttr(Ascii("Key"), Some(Ascii("a b"))))]

  const EXAMPLE := Rte(Ip(10, 1, 0, 0), 16, Ip(10, 0, 0, 2), Ascii("eth0"), Time(7, 5, 59), Some(Ip(1, 2, 3, 4)),
                       EXAMPLE_ATTRS, RteType(true, true, true, true), Some(650), External)

  lemma DecimalDigits(n: nat)
    ensures n < 10 ==> Decimal(n) == [48 + n]
    ensures 10 <= n < 100 ==> Decimal(n) == [48 + n / 10, 48 + n % 10]
    ensures 100 <= n < 1000 ==> Decimal(n) == [48 + n / 100, 48 + n / 10 % 10, 48 + n % 10]
  {
    if 10 <= n {
      assert n / 10 < 10 ==> Decimal(n / 10) == [48 + n / 10];
    }
    if 100 <= n < 1000 {
      assert n / 10 / 10 == n / 100 < 10;
      assert Decimal(n / 100) == [48 + n / 100];
      assert Decimal(n / 10) == [48 + n / 100, 48 + n / 10 % 10];
    }
  }

  lemma PrintedIps()
    ensures PrintIp(Ip(10, 1, 0, 0)) == Ascii("10.1.0.0") && PrintIp(Ip(10, 0, 0, 2)) == Ascii("10.0.0.2")
  {
    hide Decimal;
    DecimalDigits(0);
    DecimalDigits(1);
    DecimalDigits(2);
    DecimalDigits(10);
  }

  lemma PrintedIp()
    ensures PrintIp(Ip(1, 2, 3, 4)) == Ascii("1.2.3.4")
  {
    hide Decimal;
    DecimalDigits(1);
    DecimalDigits(2);
    DecimalDigits(3);
    DecimalDigits(4);
  }

  lemma PrintedTime()
    ensures PrintTime(Time(7, 5, 59)) == Ascii("07:05:59")
  {
    hide Decimal;
    DecimalDigits(7);
    DecimalDigits(5);
    DecimalDigits(59);
  }

  lemma PrintedNet()
    ensures PrintNet(Ip(10, 1, 0, 0), 16) == Ascii("10.1.0.0/16") && Padding(11) == Ascii("       ")
  {
    hide Decimal, PrintIp;
    PrintedIps();
    DecimalDigits(16);
  }

  lemma PrintedSources()
    ensures PrintSource(Some(650), Internal) == Ascii("[AS650i]")
    ensures PrintSource(Some(650), External) == Ascii("[AS650e]")
    ensures PrintSource(None, U) == Ascii("[u]") && PrintSource(None, WhoKnows) == Ascii("[?]")
  {
    hide Decimal;
    DecimalDigits(650);
  }

  lemma PrintedUplinks()
    ensures PrintUplink(EXAMPLE.uplink, EXAMPLE.uplinkFrom) ==
            Ascii(" [") + (Ascii("uplink ") + (Ascii("07:05:59") + ((Ascii(" from ") + Ascii("1.2.3.4")) + Ascii("]"))))
    ensures PrintUplink(EXAMPLE.uplink, None) == Ascii(" [") + (Ascii("static1 ") + (Ascii("07:05:59") + Ascii("]")))
  {
    hide PrintIp, PrintTime, Ascii;
    PrintedIp();
    PrintedTime();
    assert [] + Ascii("]") == Ascii("]");
  }

  /** The first line of the example, character by character. */
  lemma PrintedHead()
    ensures PrintHead(EXAMPLE) ==
            Ascii("10.1.0.0/16") + (Ascii("       ") + (Ascii(" via ") + (Ascii("10.0.0.2") + (Ascii(" on ") +
            (Ascii("eth0") + ((Ascii(" [") + (Ascii("uplink ") + (Ascii("07:05:59") +
            ((Ascii(" from ") + Ascii("1.2.3.4")) + Ascii("]"))))) +
            (Ascii(" * (100/?) ") + (Ascii("[AS650e]") + [10]))))))))
  {
    hide PrintIp, PrintNet, PrintUplink, PrintSource, Padding;
    PrintedNet();
    PrintedIps();
    PrintedUplinks();
    PrintedSources();
    assert |Ascii("10.1.0.0/16")| == 11;
  }

  lemma PrintedValues()
    ensures PrintValue(BgpAsPath([12, -2, 1, -3])) == Ascii("12 ") + (Ascii("{ ") + (Ascii("1 ") + Ascii("} ")))
    ensures PrintValue(BgpCommunity([Flag(1, 2), Flag(3, 4)])) == Ascii("(1,2) ") + Ascii("(3,4) ")
    ensures PrintValue(BgpLocalPref(100)) == Ascii("100")
  {
    hide Decimal, PrintPath, PrintFlag;
    DecimalDigits(100);
    PrintedHops();
    FlagDigits(1, 2);
    FlagDigits(3, 4);
    assert Ascii("100") == [49, 48, 48];
    assert Ascii("(1,2) ") == [40, 49, 44, 50, 41, 32] && Ascii("(3,4) ") == [40, 51, 44, 52, 41, 32];
    var fs := [Flag(1, 2), Flag(3, 4)];
    assert fs[1..] == [Flag(3, 4)] && fs[1..][1..] == [];
  }

  lemma FlagDigits(n: nat, m: nat)
    requires n < 10 && m < 10
    ensures PrintFlag(Flag(n, m)) == [40, 48 + n, 44, 48 + m, 41, 32]
  {
    hide Decimal;
    DecimalDigits(n);
    DecimalDigits(m);
    assert Ascii("(") == [40] && Ascii(",") == [44] && Ascii(") ") == [41, 32];
  }

  lemma PrintedHops()
    ensures PrintPath([12, -2, 1, -3]) == Ascii("12 ") + (Ascii("{ ") + (Ascii("1 ") + Ascii("} ")))
  {
    hide Decimal, Ascii;
    HopTexts();
    var path: seq<i32> := [12, -2, 1, -3];
    assert path[1..] == [-2, 1, -3] && path[1..][1..] == [1, -3] && path[1..][1..][1..] == [-3];
    assert path[1..][1..][1..][1..] == [] && PrintPath([]) == [];
    assert Ascii("} ") + [] == Ascii("} ");
  }

  lemma HopTexts()
    ensures PrintHop(12) == Ascii("12 ") && PrintHop(1) == Ascii("1 ")
    ensures PrintHop(-2) == Ascii("{ ") && PrintHop(-3) == Ascii("} ")
  {
    hide Decimal;
    DecimalDigits(1);
    DecimalDigits(12);
  }

  /** And the lines behind it. */
  lemma PrintedLines()
    ensures PrintType(EXAMPLE.typ) ==
            [9] + (Ascii("Type: ") +
            ((Ascii("BGP ") + (Ascii("unicast ") + (Ascii("univ ") + Ascii("static ")))) + [10]))
    ensures PrintAttr(EXAMPLE_ATTRS[0]) == [9] + (Ascii("BGP.origin") + (Ascii(": ") + (Ascii("IGP") + [10])))
    ensures PrintAttr(EXAMPLE_ATTRS[1]) ==
            [9] + (Ascii("BGP.as_path") + (Ascii(" [t]") + (Ascii(": ") +
            ((Ascii("12 ") + (Ascii("{ ") + (Ascii("1 ") + Ascii("} ")))) + [10]))))
    ensures PrintAttr(EXAMPLE_ATTRS[3]) == [9] + (Ascii("BGP.local_pref") + (Ascii(": ") + (Ascii("100") + [10])))
    ensures PrintAttr(EXAMPLE_ATTRS[4]) ==
            [9] + (Ascii("BGP.community") + (Ascii(": ") + ((Ascii("(1,2) ") + Ascii("(3,4) ")) + [10])))
  {
    hide Decimal, Ascii, PrintIp, PrintPath, PrintFlags;
    PrintedValues();
    assert forall w: seq<byte> :: [] + w == w;
  }

  lemma PrintedPlaces()
    ensures PrintAttr(EXAMPLE_ATTRS[2]) == [9] + (Ascii("BGP.next_hop") + (Ascii(": ") + (Ascii("10.0.0.2") + [10])))
    ensures PrintAttr(EXAMPLE_ATTRS[5]) ==
            [9] + (Ascii("BGP.aggregator") + (Ascii(" [t]") + (Ascii(": ") +
            ((Ascii("1.2.3.4") + (Ascii(" AS") + [55])) + [10]))))
    ensures PrintAttr(EXAMPLE_ATTRS[6]) == [9] + (Ascii("Key") + (Ascii(": ") + (Ascii("a b") + [10])))
  {
    hide Decimal, Ascii, PrintIp;
    PrintedIps();
    PrintedIp();
    DecimalDigits(7);
    assert forall w: seq<byte> :: [] + w == w;
  }
}
