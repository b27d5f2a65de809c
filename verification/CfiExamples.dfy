/** The strings that the CFI unit tests try, with the values and errors they come to. */
module CfiExamples {
  import opened Prelude
  import opened CfiNumbers
  import opened CfiSplitter
  import opened CfiComponent
  import opened CfiComponentLaws
  import opened CfiCompiler
  import opened CfiLaws
  import opened CfiRoundTrip

  function Id(n: uint32, id: string): Component { Fresh(n).(hasQualifier := true, qualifier := id) }

  function AtOffset(n: uint32, offset: uint32): Component { Fresh(n).(hasOffset := true, characterOffset := offset) }

  function Bang(c: Component): Component { c.(isIndirector := true) }

  /** Steps whose rereading is themselves. */
  predicate Exact(c: Component) { WellFormed(c) && Reread(c) == c }

  lemma {:induction false} RereadExact(cs: seq<Component>)
    requires forall c <- cs :: Exact(c)
    ensures AllScannable(cs) && RereadAll(cs) == cs
  {
    forall i | 0 <= i < |cs|
      ensures RereadAll(cs)[i] == cs[i]
    {
      assert cs[i] in cs;
    }
  }

  lemma {:induction false} PrintNext(c: Component, cs: seq<Component>)
    ensures PrintedSteps([c] + cs) == "/" + Body(c) + PrintedSteps(cs)
  {
    assert ([c] + cs)[1..] == cs;
  }

  // ------------------------------------------------------------------- locations

  lemma {:induction false} PrintedLocation(cs: seq<Component>, text: string)
    requires PrintedSteps(cs) == text
    ensures Printed(Path(cs, false, [], [])) == "epubcfi(" + text + ")"
  {
    assert text + "" == text;
  }

  /** A location of exact steps: what its text compiles to, with the wrapping and without. */
  lemma {:induction false} LocationText(h: Handler, cs: seq<Component>, text: string)
    requires cs != [] && (forall c <- cs :: Exact(c)) && PrintedSteps(cs) == text
    ensures Compiled(h, text) == Compiled(h, "epubcfi(" + text + ")") == Ok(Path(cs, false, [], []))
  {
    RereadExact(cs);
    CompileLocation(h, Path(cs, false, [], []));
    PrintedLocation(cs, text);
    assert text[0] == '/';
    WrappingOptional(h, text, ')');
  }

  /** The steps of `/c/d:k`. */
  function TailSteps(c: uint32, d: uint32, k: uint32): seq<Component> { [Fresh(c)] + [AtOffset(d, k)] }

  /** The steps of `/a/b!/c/d:k`. */
  function HeaderSteps(a: uint32, b: uint32, c: uint32, d: uint32, k: uint32): seq<Component> {
    [Fresh(a)] + ([Bang(Fresh(b))] + TailSteps(c, d, k))
  }

  lemma {:induction false} TailText(c: uint32, d: uint32, k: uint32)
    ensures PrintedSteps(TailSteps(c, d, k)) == "/" + Decimal(c) + ("/" + (Decimal(d) + (":" + Decimal(k))))
  {
    var last := AtOffset(d, k);
    PrintNext(last, []);
    assert [last] + [] == [last];
    assert Body(last) == Decimal(d) + (":" + Decimal(k));
    PrintNext(Fresh(c), [last]);
    assert Body(Fresh(c)) == Decimal(c);
  }

  lemma {:induction false} HeaderText(a: uint32, b: uint32, c: uint32, d: uint32, k: uint32)
    ensures PrintedSteps(HeaderSteps(a, b, c, d, k))
         == "/" + Decimal(a) + ("/" + (Decimal(b) + "!") + PrintedSteps(TailSteps(c, d, k)))
  {
    var bang := Bang(Fresh(b));
    PrintNext(bang, TailSteps(c, d, k));
    assert Body(bang) == Decimal(b) + "!";
    PrintNext(Fresh(a), [bang] + TailSteps(c, d, k));
    assert Body(Fresh(a)) == Decimal(a);
  }

  lemma {:induction false} Digits()
    ensures Decimal(2) == "2" && Decimal(4) == "4" && Decimal(5) == "5" && Decimal(6) == "6" && Decimal(11) == "11"
  {
    assert Decimal(11) == "1" + "1";
  }

  lemma {:induction false} HeaderString(cs: seq<Component>)
    requires cs == HeaderSteps(6, 4, 2, 11, 5)
    ensures PrintedSteps(cs) == "/6/4!/2/11:5"
    ensures cs != [] && forall c <- cs :: Exact(c)
  {
    Digits();
    HeaderText(6, 4, 2, 11, 5);
    TailText(2, 11, 5);
  }

  /** The header's example compiles to its four steps and prints as itself, wrapped. */
  lemma {:induction false} HeaderExample(h: Handler, cs: seq<Component>, bare: string)
    requires cs == HeaderSteps(6, 4, 2, 11, 5) && bare == "/6/4!/2/11:5"
    ensures Compiled(h, bare) == Compiled(h, "epubcfi(" + bare + ")") == Ok(Path(cs, false, [], []))
    ensures Printed(Path(cs, false, [], [])) == "epubcfi(" + bare + ")"
  {
    HeaderString(cs);
    LocationText(h, cs, bare);
    PrintedLocation(cs, bare);
  }

  /** Its sub-CFI from the second step on. */
  lemma {:induction false} HeaderSubCfi(cs: seq<Component>, tail: string)
    requires cs == HeaderSteps(6, 4, 2, 11, 5) && tail == "/2/11:5"
    ensures SubPrinted(Path(cs, false, [], []), 2) == Ok("epubcfi(" + tail + ")")
  {
    assert PrintedSteps(cs[2..]) == tail by {
      Digits();
      TailText(2, 11, 5);
      assert cs[2..] == TailSteps(2, 11, 5);
    }
    PrintedLocation(cs[2..], tail);
  }

  // ---------------------------------------------------------------------- ranges

  lemma {:induction false} CheckPoints(h: Handler, s: Component, e: Component)
    requires Exact(s) && Exact(e) && s.hasOffset && e.hasOffset
    ensures Checked(h, [s], [e]) ==
            if s.nodeIndex < e.nodeIndex || (s.nodeIndex == e.nodeIndex && s.characterOffset <= e.characterOffset)
            then Ok(()) else Raised(RangeInvalid)
  {
    assert Ordered([s], [e], 1, s.nodeIndex < e.nodeIndex) == Ok(s.nodeIndex < e.nodeIndex);
  }

  /** A range between two character offsets compiles exactly when they are in order. */
  lemma {:induction false} RangeOfPoints(h: Handler, base: seq<Component>, s: Component, e: Component)
    requires base != [] && (forall c <- base :: Exact(c))
    requires Exact(s) && Exact(e) && s.hasOffset && e.hasOffset
    ensures var p := Path(base, true, [s], [e]);
            Compiled(h, Printed(p)) ==
            if s.nodeIndex < e.nodeIndex || (s.nodeIndex == e.nodeIndex && s.characterOffset <= e.characterOffset)
            then Ok(p) else Raised(RangeInvalid)
  {
    var p := Path(base, true, [s], [e]);
    RereadExact(base);
    RereadExact([s]);
    RereadExact([e]);
    CheckPoints(h, s, e);
    RangeAcceptance(h, [s], [e]);
    if Checked(h, [s], [e]).Ok? {
      CompileRange(h, p);
    } else {
      RefuseRange(h, p);
      PrintedShape(h, p);
    }
  }

  // ---------------------------------------------------------------------- errors

  /** Strings that do not start as a CFI must. */
  lemma {:induction false} StartErrors(h: Handler)
    ensures Compiled(h, "") == Raised(ParseFailed)
    ensures Compiled(h, "6/4") == Compiled(h, "epubcfi/6") == Compiled(h, "Henry Fitzwilliam") == Raised(NonSlashStart)
  {
    assert "epubcfi/6"[7] == '/' && "epubcfi("[7] == '(';
    assert "epubcfi("[0] == 'e';
    BareStart(h, "");
    BareStart(h, "6/4");
    BareStart(h, "epubcfi/6");
    BareStart(h, "Henry Fitzwilliam");
  }

  /** A step without a number. */
  lemma {:induction false} NumberMissing(h: Handler)
    ensures Compiled(h, "/:22") == Raised(ParseFailed)
  {
    var steps := [":22"];
    ReadNoNumber(0, "", ":22");
    assert "" + ":22" == ":22";
    CleanPlain(":22", '/');
    CleanPlain("/:22", ',');
    SplitPrefixed(steps, '/');
    assert steps[1..] == [] && Prefixed(steps, '/') == "/:22";
    SplitOne("/:22", ',');
    assert "epubcfi("[0] == 'e';
  }

  /** A piece missing: the strict handler refuses, the default one takes the base alone. */
  lemma {:induction false} PieceMissing(h: Handler, str: string, base: string, more: string)
    requires str == "/6/4!,1:22" && base == "/6/4!" && more == "1:22"
    ensures Compiled(h, str) == if h.Strict? then Raised(RangeComponentCount) else Compiled(h, base)
  {
    CleanPlain(base, ',');
    CleanPlain(more, ',');
    SplitOne(more, ',');
    SplitNext(base, more, ',');
    assert base + ("," + more) == str;
    assert Push([], base) + Push([], more) == [base, more];
    TwoPieces(h, str, base, more);
  }

  /** The last piece empty: the same. */
  lemma {:induction false} PieceEmpty(h: Handler, str: string, base: string, more: string)
    requires str == "/6/4!,/1:22," && base == "/6/4!" && more == "/1:22"
    ensures Compiled(h, str) == if h.Strict? then Raised(RangeComponentCount) else Compiled(h, base)
  {
    CleanPlain(base, ',');
    CleanPlain(more, ',');
    CleanPlain("", ',');
    SplitOne("", ',');
    SplitNext(more, "", ',');
    assert more + "," == more + ("," + "");
    SplitNext(base, more + ",", ',');
    assert base + ("," + (more + ",")) == str;
    assert Push([], more) + [] == [more] && Push([], base) + [more] == [base, more];
    TwoPieces(h, str, base, more);
  }

  lemma {:induction false} TwoPieces(h: Handler, cfi: string, base: string, more: string)
    requires cfi != "" && cfi[0] == '/' && base != "" && base[0] == '/'
    requires Split(cfi, ',') == Some([base, more])
    ensures Compiled(h, cfi) == if h.Strict? then Raised(RangeComponentCount) else Compiled(h, base)
  {
    PieceCounts(h, cfi, [base, more]);
    WrappingOptional(h, cfi, ')');
    WrappingOptional(h, base, ')');
  }

  // ------------------------------------------------------------------- side bias

  lemma {:induction false} BiasStep(n: uint32, offset: uint32, x: string, str: string)
    requires offset != 0 && ']' !in x
    requires str == Decimal(n) + (":" + Decimal(offset) + ("[" + ("" + (";s=" + x)) + "]"))
    ensures x == "b" ==> Parsed(str) == Ok(AtOffset(n, offset).(hasText := true, sideBias := Before))
    ensures x == "a" ==> Parsed(str) == Ok(AtOffset(n, offset).(hasText := true, sideBias := After))
  {
    ScanBias(n, offset, "", x);
  }

  lemma {:induction false} BiasText(before: string, after: string)
    requires before == "3:22[;s=b]" && after == "12:3[;s=a]"
    ensures before == Decimal(3) + (":" + Decimal(22) + ("[" + ("" + (";s=" + "b")) + "]"))
    ensures after == Decimal(12) + (":" + Decimal(3) + ("[" + ("" + (";s=" + "a")) + "]"))
  {
    assert Decimal(3) == "3" && Decimal(22) == "22" && Decimal(12) == "12";
  }

  /** The tested bias clauses, before and after the offset. */
  lemma {:induction false} BiasExamples(before: string, after: string)
    requires before == "3:22[;s=b]" && after == "12:3[;s=a]"
    ensures Parsed(before) == Ok(AtOffset(3, 22).(hasText := true, sideBias := Before))
    ensures Parsed(after) == Ok(AtOffset(12, 3).(hasText := true, sideBias := After))
  {
    BiasText(before, after);
    BiasStep(3, 22, "b", before);
    BiasStep(12, 3, "a", after);
  }
}
