/** Dumps that end in the middle of an AS path: `parse_attr_bgp_as_path` puts the end of the input back. */
module BirdCutOff {
  import opened Prelude
  import opened BirdText
  import opened BirdRoundTrip

  /** The characters of paths. */
  predicate InPath(c: byte) {
    IsDigit(c) || IsBlank(c) || c == '{' as int || c == '}' as int
  }

  predicate AllInPath(b: seq<byte>) {
    forall i :: 0 <= i < |b| ==> InPath(b[i])
  }

  lemma AllButFirst(b: seq<byte>)
    requires b != []
    ensures AllInPath(b) <==> InPath(b[0]) && AllInPath(b[1..])
    ensures EOF_BYTE !in b ==> b[0] != EOF_BYTE && EOF_BYTE !in b[1..]
    ensures NL !in b ==> b[0] != NL && NL !in b[1..]
  {
    if InPath(b[0]) && AllInPath(b[1..]) {
      assert forall i :: 0 < i < |b| ==> b[i] == b[1..][i - 1];
    }
  }

  /** What is left of an input without 0xFF: it is in the path if and only if the whole is. */
  ghost predicate LeftOf(b: seq<byte>, r: seq<byte>) {
    EOF_BYTE !in r && (AllInPath(r) <==> AllInPath(b)) && (NL !in b ==> NL !in r)
  }

  lemma {:induction false} BlanksLeft(b: seq<byte>)
    requires EOF_BYTE !in b
    ensures LeftOf(b, EatWs(b)) && (EatWs(b) == [] || !IsBlank(EatWs(b)[0]))
    decreases |b|
  {
    hide AllInPath;
    if b != [] {
      AllButFirst(b);
      if IsBlank(b[0]) {
        BlanksLeft(b[1..]);
      }
    }
  }

  lemma {:induction false} DigitsLeft(n: u32, count: nat, b: seq<byte>)
    requires EOF_BYTE !in b
    ensures var d := ScanDigits(n, count, b);
            && LeftOf(b, d.rest) && (d.rest == [] || !IsDigit(d.rest[0])) && (d.count == count ==> d.rest == b)
    decreases |b|
  {
    hide AllInPath;
    if b != [] {
      AllButFirst(b);
      if IsDigit(b[0]) {
        DigitsLeft((10 * n + (b[0] - 48)) % 0x1_0000_0000, count + 1, b[1..]);
      }
    }
  }

  /** The loop of the path reaches the end of the input if and only if there is nothing but path. */
  lemma {:induction false} PathLeft(path: seq<i32>, b: seq<byte>)
    requires EOF_BYTE !in b
    ensures var r := ParsePath(path, b).rest;
            (r == [] <==> AllInPath(b)) && (NL !in b && r != [] ==> r[0] != NL)
    decreases |b|
  {
    hide AllInPath, EatWs, ScanDigits;
    var d := TryInt(b);
    BlanksLeft(b);
    DigitsLeft(0, 0, EatWs(b));
    if d.count > 0 {
      PathLeft(path + [Signed(d.n)], d.rest);
    } else {
      var c := EatWs(d.rest);
      BlanksLeft(d.rest);
      if c == [] {
        assert AllInPath(c) by { NothingInPath(); }
      } else {
        AllButFirst(c);
        if Peeks(c, '{' as int) {
          PathLeft(path + [AS_LBRACE], c[1..]);
        } else if Peeks(c, '}' as int) {
          PathLeft(path + [AS_RBRACE], c[1..]);
        } else {
          EatenTwice(b);
        }
      }
    }
  }

  lemma NothingInPath()
    ensures AllInPath([])
  {}

  lemma {:induction false} EatenTwice(b: seq<byte>)
    requires EOF_BYTE !in b
    ensures EatWs(EatWs(b)) == EatWs(b)
    decreases |b|
  {
    BlanksLeft(b);
  }

  /** Exactly when the assert fails that there is a place for what is put back: on an input without the byte 0xFF, if
      all of it is digits, blanks and braces. */
  lemma PathAtEndIff(b: seq<byte>)
    requires EOF_BYTE !in b
    ensures PathOf(b) == Err(ErrAssert) <==> forall i :: 0 <= i < |b| ==> InPath(b[i])
  {
    hide ParsePath;
    PathLeft([], b);
  }

  // ---------- in a table ----------

  /** Attributes that fit are taken off the input, whatever follows them. */
  lemma {:induction false} AttrsTaken(d: Details, attrs: seq<Attr>, rest: seq<byte>)
    requires forall i :: 0 <= i < |attrs| ==> PrintableValue(attrs[i].value)
    ensures ParseAttrs(d, PrintAttrs(attrs) + rest) ==
            ParseAttrs(d.(attrs := d.attrs + ReturnedAttrs(attrs)), rest)
    decreases |attrs|
  {
    hide PrintAttr, ParseAttrLine, PrintableValue, ReturnedValue;
    if attrs == [] {
      assert PrintAttrs(attrs) + rest == rest && d.attrs + ReturnedAttrs(attrs) == d.attrs;
    } else {
      var b := PrintAttrs(attrs[1..]) + rest;
      Assoc(PrintAttr(attrs[0]), PrintAttrs(attrs[1..]), rest);
      AttrParsed(d, attrs[0], b);
      var d' := d.(attrs := d.attrs + [attrs[0].(value := ReturnedValue(attrs[0].value))]);
      AttrsTaken(d', attrs[1..], rest);
      assert d'.attrs + ReturnedAttrs(attrs[1..]) == d.attrs + ReturnedAttrs(attrs);
    }
  }

  /** The line of a path that ends with the input. */
  function CutLine(tflag: bool, w: seq<byte>): seq<byte> {
    [TAB] + (Ascii("BGP.as_path") + (FlagMark(tflag) + (Ascii(": ") + w)))
  }

  predicate Cut(w: seq<byte>) {
    EOF_BYTE !in w && NL !in w && (w == [] || !IsBlank(w[0]))
  }

  function CutError(w: seq<byte>): NbErr {
    if AllInPath(w) then ErrAssert else ErrParse
  }

  lemma CutLineParsed(d: Details, tflag: bool, w: seq<byte>)
    requires Cut(w)
    ensures ParseAttrs(d, CutLine(tflag, w)) == Err(CutError(w))
  {
    hide Ascii, FlagMark, ParseKey, ParsePath;
    AsPathKeyIsWord();
    AsPathKey();
    PathLeft([], w);
    KeyParsed(Ascii("BGP.as_path"), tflag, w);
    var line := Ascii("BGP.as_path") + (FlagMark(tflag) + (Ascii(": ") + w));
    assert ([TAB] + line)[1..] == line;
  }

  lemma AsPathKey()
    ensures Ascii("BGP.as_path") != Ascii("Type") && Ascii("BGP.as_path") != Ascii("BGP.origin")
  {
    assert Ascii("BGP.as_path")[4] != Ascii("BGP.origin")[4];
  }

  lemma CutRteParsed(e: Rte, tflag: bool, w: seq<byte>)
    requires LegalRte(e) && RtePrefsFit(e) && Cut(w)
    ensures ParseRte(PrintRte(e) + CutLine(tflag, w)) == Err(CutError(w))
  {
    hide PrintHead, ParseHead, PrintType, PrintAttrs, ParseAttrLine, LegalValue, PrefFits, AllIn, ReturnedAttrs,
         NO_TYPE, CutLine, Cut, CutError;
    var line := CutLine(tflag, w);
    var b2 := PrintAttrs(e.attrs) + line;
    var b1 := PrintType(e.typ) + b2;
    Assoc(PrintHead(e), PrintType(e.typ) + PrintAttrs(e.attrs), line);
    Assoc(PrintType(e.typ), PrintAttrs(e.attrs), line);
    HeadParsed(e, b1);
    var d := Details(NO_TYPE, []);
    TypeParsed(d, e.typ, b2);
    AttrsTaken(d.(typ := e.typ), e.attrs, line);
    CutLineParsed(d.(typ := e.typ, attrs := [] + ReturnedAttrs(e.attrs)), tflag, w);
  }

  lemma {:induction false} CutEntriesParsed(acc: seq<Rte>, es: seq<Rte>, tflag: bool, w: seq<byte>)
    requires es != [] && Cut(w)
    requires forall i :: 0 <= i < |es| ==> LegalRte(es[i]) && RtePrefsFit(es[i])
    ensures ParseEntries(acc, PrintEntries(es) + CutLine(tflag, w)) == Err(CutError(w))
    decreases |es|
  {
    hide PrintRte, ParseRte, LegalRte, RtePrefsFit, ReturnedRte, CutLine, Cut, CutError;
    var line := CutLine(tflag, w);
    Assoc(PrintRte(es[0]), PrintEntries(es[1..]), line);
    if |es| == 1 {
      assert es[1..] == [] && PrintEntries(es[1..]) + line == line;
      CutRteParsed(es[0], tflag, w);
    } else {
      var b := PrintEntries(es[1..]) + line;
      assert b[0] == PrintRte(es[1])[0];
      RteParsed(es[0], b);
      CutEntriesParsed(acc + [ReturnedRte(es[0])], es[1..], tflag, w);
    }
  }

  /** A whole dump, printed up to some place in an AS path, or up to any other text behind the key of one: parsing it
      fails an assert if and only if what there is behind the key can all be path; otherwise it is an error. */
  lemma CutTableFails(rt: Rt, tflag: bool, w: seq<byte>)
    requires Legal(rt) && PrefsFit(rt) && rt.entries != [] && Cut(w)
    ensures ParseRt(PrintRt(rt) + CutLine(tflag, w)) == Err(if AllInPath(w) then ErrAssert else ErrParse)
  {
    hide Ascii, ParseWord, PrintEntries, ParseEntries, AllIn, LegalRte, RtePrefsFit, CutLine, Cut, AllInPath;
    var line := CutLine(tflag, w);
    var es := PrintEntries(rt.entries) + line;
    var b2 := Ascii(" ready.") + ([NL] + es);
    var b1 := rt.version + b2;
    Assoc(Ascii("BIRD "), rt.version + (Ascii(" ready.\n") + PrintEntries(rt.entries)), line);
    Assoc(rt.version, Ascii(" ready.\n") + PrintEntries(rt.entries), line);
    Assoc(Ascii(" ready.\n"), PrintEntries(rt.entries), line);
    BannerText(es);
    MatchOwn(Ascii("BIRD "), b1);
    WordIsSolid(KeyChars, rt.version, b2);
    WordParsed(KeyChars, b1, rt.version, b2);
    MatchOwn(Ascii(" ready."), [NL] + es);
    MatchOwn([NL], es);
    CutEntriesParsed([], rt.entries, tflag, w);
  }
}
