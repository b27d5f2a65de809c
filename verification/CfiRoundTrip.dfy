/** Compiling a printed CFI gives an equal CFI, exactly on the CFIs described here. */
module CfiRoundTrip {
  import opened Prelude
  import opened CfiNumbers
  import opened CfiSplitter
  import opened CfiComponent
  import opened CfiComponentLaws
  import opened CfiCompiler
  import opened CfiLaws

  predicate AllScannable(cs: seq<Component>) { forall c <- cs :: Scannable(c) }

  predicate AllWellFormed(cs: seq<Component>) { forall c <- cs :: WellFormed(c) }

  predicate ScannablePath(p: Path) {
    && AllScannable(p.components)
    && (p.isRange ==> AllScannable(p.rangeStart) && AllScannable(p.rangeEnd))
  }

  /** The CFIs that survive: a non-empty base, well-formed steps, and acceptable range ends. */
  predicate Canonical(p: Path) {
    && p.components != [] && AllWellFormed(p.components)
    && (p.isRange ==>
          && AllWellFormed(p.rangeStart) && AllWellFormed(p.rangeEnd)
          && Acceptable(p.rangeStart, p.rangeEnd))
  }

  // --------------------------------------------------------------- lists of steps

  function RereadAll(cs: seq<Component>): (r: seq<Component>)
    ensures |r| == |cs| && forall i :: 0 <= i < |cs| ==> r[i] == Reread(cs[i])
  {
    if cs == [] then [] else [Reread(cs[0])] + RereadAll(cs[1..])
  }

  lemma {:induction false} ParseBodies(cs: seq<Component>)
    requires AllScannable(cs)
    ensures ParsedAll(Bodies(cs)) == Ok(RereadAll(cs))
  {
    if cs != [] {
      ScanBody(cs[0]);
      ParseBodies(cs[1..]);
      assert Bodies(cs)[1..] == Bodies(cs[1..]);
    }
  }

  lemma {:induction false} BodiesArePieces(cs: seq<Component>, d: char)
    requires AllScannable(cs) && (d == '/' || d == ',')
    ensures Pieces(Bodies(cs), d)
  {
    if cs != [] {
      BodyClean(cs[0], d);
      BodiesArePieces(cs[1..], d);
    }
  }

  /** Printed steps are one piece to the comma splitter, and compile to what was printed. */
  lemma {:induction false} CompilePrintedSteps(cs: seq<Component>)
    requires AllScannable(cs)
    ensures Clean(PrintedSteps(cs), ',')
    ensures PrintedSteps(cs) == "" <==> cs == []
    ensures CompiledSteps(PrintedSteps(cs)) == Ok(RereadAll(cs))
  {
    PrintedIsPrefixed(cs);
    BodiesArePieces(cs, '/');
    BodiesArePieces(cs, ',');
    CleanPrefixed(Bodies(cs), ',', '/');
    SplitPrefixed(Bodies(cs), '/');
    ParseBodies(cs);
  }

  lemma {:induction false} ParsedAllScannable(strings: seq<string>)
    requires ParsedAll(strings).Ok?
    ensures AllScannable(ParsedAll(strings).value)
  {
    if strings != [] {
      ParsedScannable(strings[0]);
      ParsedAllScannable(strings[1..]);
    }
  }

  lemma {:induction false} CompiledStepsScannable(piece: string)
    requires CompiledSteps(piece).Ok?
    ensures AllScannable(CompiledSteps(piece).value)
  {
    ParsedAllScannable(Split(piece, '/').value);
  }

  lemma {:induction false} CompiledPiecesScannable(h: Handler, pieces: seq<string>)
    requires CompiledPieces(h, pieces).Ok?
    ensures ScannablePath(CompiledPieces(h, pieces).value)
  {
    CompiledStepsScannable(pieces[0]);
    if 3 <= |pieces| {
      AssembledParts(CompiledSteps(pieces[0]), CompiledEnds(h, pieces[1], pieces[2]));
      EndsParts(h, pieces[1], pieces[2]);
      CompiledStepsScannable(pieces[1]);
      CompiledStepsScannable(pieces[2]);
    }
  }

  /** Whatever any string compiles to is scannable. */
  lemma {:induction false} CompiledScannable(h: Handler, str: string)
    requires Compiled(h, str).Ok?
    ensures ScannablePath(Compiled(h, str).value)
  {
    CompiledPiecesScannable(h, Split(Unwrapped(str).value, ',').value);
  }

  // ------------------------------------------------------------------ whole CFIs

  lemma {:induction false} UnwrapPrinted(p: Path)
    ensures Unwrapped(Printed(p)) == Ok(Inner(p))
  {
    var s := Printed(p);
    assert OPEN <= s;
    assert s[|OPEN|..|s| - 1] == Inner(p);
  }

  /** The comma pieces of a printed CFI: empty lists leave no piece. */
  function RangePieces(p: Path): seq<string> {
    Push([], PrintedSteps(p.components)) +
    if p.isRange then Push([], PrintedSteps(p.rangeStart)) + Push([], PrintedSteps(p.rangeEnd)) else []
  }

  lemma {:induction false} RangeText(b: string, c: string)
    ensures "," + b + "," + c == "," + (b + ("," + c))
  {
  }

  lemma {:induction false} SplitPrinted(p: Path)
    requires ScannablePath(p)
    ensures Split(Inner(p), ',') == Some(RangePieces(p))
  {
    var a := PrintedSteps(p.components);
    CompilePrintedSteps(p.components);
    if p.isRange {
      var b, c := PrintedSteps(p.rangeStart), PrintedSteps(p.rangeEnd);
      CompilePrintedSteps(p.rangeStart);
      CompilePrintedSteps(p.rangeEnd);
      SplitOne(c, ',');
      SplitNext(b, c, ',');
      SplitNext(a, b + ("," + c), ',');
      RangeText(b, c);
    } else {
      SplitOne(a, ',');
      assert a + "" == a && Push([], a) + [] == Push([], a);
    }
  }

  /** Rereading changes nothing the range checks look at, and drops the bias. */
  lemma {:induction false} CheckReread(h: Handler, s: seq<Component>, e: seq<Component>)
    ensures Checked(h, RereadAll(s), RereadAll(e)).Ok? <==> Acceptable(s, e)
  {
    RangeAcceptance(h, RereadAll(s), RereadAll(e));
    if s != [] && |s| == |e| {
      RereadInOrder(s, e);
      assert Pointwise(RereadAll(s), RereadAll(e)) <==> Pointwise(s, e) by {
        assert forall i :: 0 <= i < |s| ==> RereadAll(s)[i].nodeIndex == s[i].nodeIndex;
        assert forall i :: 0 <= i < |e| ==> RereadAll(e)[i].nodeIndex == e[i].nodeIndex;
      }
    }
  }

  lemma {:induction false} RereadInOrder(s: seq<Component>, e: seq<Component>)
    requires s != [] && |s| == |e|
    ensures InOrder(RereadAll(s), RereadAll(e)) <==> InOrder(s, e)
  {
    if 1 < |s| {
      RereadInOrder(s[1..], e[1..]);
      assert RereadAll(s)[1..] == RereadAll(s[1..]) && RereadAll(e)[1..] == RereadAll(e[1..]);
    }
  }

  /** Three pieces are left exactly when none is empty. */
  lemma {:induction false} ThreePieces(a: string, b: string, c: string)
    ensures var pieces := Push([], a) + (Push([], b) + Push([], c));
            if a != "" && b != "" && c != "" then pieces == [a, b, c] else |pieces| < 3
  {
  }

  /** A scannable location compiles to its rereading, unless it is empty. */
  lemma {:induction false} CompileLocation(h: Handler, p: Path)
    requires ScannablePath(p) && !p.isRange
    ensures p.components != [] ==> Compiled(h, Printed(p)) == Ok(Path(RereadAll(p.components), false, [], []))
    ensures p.components == [] ==> !Compiled(h, Printed(p)).Ok?
  {
    UnwrapPrinted(p);
    SplitPrinted(p);
    CompilePrintedSteps(p.components);
    var a := PrintedSteps(p.components);
    assert RangePieces(p) == if a == "" then [] else [a];
  }

  lemma {:induction false} FewPieces(h: Handler, pieces: seq<string>)
    requires |pieces| < 3 && CompiledPieces(h, pieces).Ok?
    ensures !CompiledPieces(h, pieces).value.isRange
  {
  }

  lemma {:induction false} CompileTriplet(h: Handler, a: string, b: string, c: string,
                       base: seq<Component>, s: seq<Component>, e: seq<Component>)
    requires CompiledSteps(a) == Ok(base) && CompiledSteps(b) == Ok(s) && CompiledSteps(c) == Ok(e)
    ensures if Checked(h, s, e).Ok? then CompiledPieces(h, [a, b, c]) == Ok(Path(base, true, s, e))
            else !CompiledPieces(h, [a, b, c]).Ok?
  {
  }

  lemma {:induction false} RefuseTriplet(h: Handler, a: string, b: string, c: string,
                       base: seq<Component>, s: seq<Component>, e: seq<Component>)
    requires CompiledSteps(a) == Ok(base) && CompiledSteps(b) == Ok(s) && CompiledSteps(c) == Ok(e)
    requires !Checked(h, s, e).Ok?
    ensures CompiledPieces(h, [a, b, c]) == Checked(h, s, e).PropagateFailure()
  {
  }

  /** The comma pieces of a scannable range, compiled. */
  lemma {:induction false} CompilePrinted(h: Handler, p: Path)
    requires ScannablePath(p) && p.isRange
    ensures var a, b, c := PrintedSteps(p.components), PrintedSteps(p.rangeStart), PrintedSteps(p.rangeEnd);
            Compiled(h, Printed(p)) == CompiledPieces(h, Push([], a) + (Push([], b) + Push([], c)))
  {
    UnwrapPrinted(p);
    SplitPrinted(p);
  }

  /** A scannable range compiles to its rereading, or not to a range at all. */
  lemma {:induction false} CompileRange(h: Handler, p: Path)
    requires ScannablePath(p) && p.isRange
    ensures var r := Compiled(h, Printed(p));
      if p.components != [] && Acceptable(p.rangeStart, p.rangeEnd) then
        r == Ok(Path(RereadAll(p.components), true, RereadAll(p.rangeStart), RereadAll(p.rangeEnd)))
      else r.Ok? ==> !r.value.isRange
  {
    var a, b, c := PrintedSteps(p.components), PrintedSteps(p.rangeStart), PrintedSteps(p.rangeEnd);
    CompilePrinted(h, p);
    CompilePrintedSteps(p.components);
    CompilePrintedSteps(p.rangeStart);
    CompilePrintedSteps(p.rangeEnd);
    ThreePieces(a, b, c);
    CheckReread(h, p.rangeStart, p.rangeEnd);
    if a != "" && b != "" && c != "" {
      CompileTriplet(h, a, b, c, RereadAll(p.components), RereadAll(p.rangeStart), RereadAll(p.rangeEnd));
    } else if Compiled(h, Printed(p)).Ok? {
      FewPieces(h, Push([], a) + (Push([], b) + Push([], c)));
    }
  }

  /** A scannable range with nothing empty fails as its checks fail, with the wrapping and without. */
  lemma {:induction false} RefuseRange(h: Handler, p: Path)
    requires ScannablePath(p) && p.isRange
    requires p.components != [] && p.rangeStart != [] && p.rangeEnd != []
    requires !Checked(h, RereadAll(p.rangeStart), RereadAll(p.rangeEnd)).Ok?
    ensures Compiled(h, Inner(p)) == Checked(h, RereadAll(p.rangeStart), RereadAll(p.rangeEnd)).PropagateFailure()
  {
    var a, b, c := PrintedSteps(p.components), PrintedSteps(p.rangeStart), PrintedSteps(p.rangeEnd);
    CompilePrinted(h, p);
    CompilePrintedSteps(p.components);
    CompilePrintedSteps(p.rangeStart);
    CompilePrintedSteps(p.rangeEnd);
    ThreePieces(a, b, c);
    RefuseTriplet(h, a, b, c, RereadAll(p.components), RereadAll(p.rangeStart), RereadAll(p.rangeEnd));
    WrappingOptional(h, Inner(p), ')');
  }

  lemma {:induction false} RereadAscending(s: seq<Component>, e: seq<Component>)
    ensures CommonAscending(RereadAll(s), RereadAll(e), 0) <==> CommonAscending(s, e, 0)
  {
    var s', e' := RereadAll(s), RereadAll(e);
    forall j | 0 <= j < |s| && j < |e|
      ensures s'[j].nodeIndex == s[j].nodeIndex && e'[j].nodeIndex == e[j].nodeIndex
    {
    }
  }

  lemma {:induction false} RunsOffReread(h: Handler, s: seq<Component>, e: seq<Component>)
    ensures Checked(h, RereadAll(s), RereadAll(e)) == Undefined <==> RunsOff(s, e)
  {
    RereadAscending(s, e);
    var s', e' := RereadAll(s), RereadAll(e);
    ChecksRunOff(h, s', e');
    if s != [] && e != [] {
      assert Last(s') == Reread(Last(s)) && Last(e') == Reread(Last(e));
    }
  }

  lemma {:induction false} PrintDigit(d: uint32, cs: seq<Component>)
    requires d < 10
    ensures PrintedSteps([Fresh(d)] + cs) == "/" + [DigitChar(d)] + PrintedSteps(cs)
  {
    assert ([Fresh(d)] + cs)[1..] == cs;
    assert Body(Fresh(d)) == [DigitChar(d)];
  }

  lemma {:induction false} PrintOneDigit(d: uint32)
    requires d < 10
    ensures PrintedSteps([Fresh(d)]) == "/" + [DigitChar(d)]
  {
    PrintDigit(d, []);
    assert [Fresh(d)] + [] == [Fresh(d)];
  }

  /** A string whose comparison runs off the shorter end: `/6,/2,/2/4`. */
  lemma {:induction false} RunsOffWitness(h: Handler)
    ensures Compiled(h, "/6,/2,/2/4") == Undefined
  {
    var p := Path([Fresh(6)], true, [Fresh(2)], [Fresh(2)] + [Fresh(4)]);
    assert Inner(p) == "/6,/2,/2/4" by {
      PrintOneDigit(6);
      PrintOneDigit(2);
      PrintOneDigit(4);
      PrintDigit(2, [Fresh(4)]);
    }
    RunsOffReread(h, p.rangeStart, p.rangeEnd);
    RefuseRange(h, p);
  }

  /** A string whose ends are in document order, yet refused: `/6,/2/8,/4/2`. */
  lemma {:induction false} OrderedStringRejected(h: Handler)
    ensures Compiled(h, "/6,/2/8,/4/2") == Raised(RangeInvalid)
  {
    var s, e := [Fresh(2)] + [Fresh(8)], [Fresh(4)] + [Fresh(2)];
    var p := Path([Fresh(6)], true, s, e);
    assert Inner(p) == "/6,/2/8,/4/2" by {
      PrintOneDigit(6);
      PrintOneDigit(8);
      PrintOneDigit(2);
      PrintDigit(2, [Fresh(8)]);
      PrintDigit(4, [Fresh(2)]);
    }
    assert Checked(h, RereadAll(s), RereadAll(e)) == Raised(RangeInvalid) by {
      assert RereadAll(s) == [Fresh(2), Fresh(8)] && RereadAll(e) == [Fresh(4), Fresh(2)];
      OrderedRangeRejected(h);
    }
    RefuseRange(h, p);
  }

  lemma {:induction false} RereadSame(cs: seq<Component>)
    requires AllScannable(cs)
    ensures SameSteps(RereadAll(cs), cs) <==> AllWellFormed(cs)
  {
    forall c | c in cs
      ensures SameStep(Reread(c), c) <==> WellFormed(c)
    {
      ScanBody(c);
      StepRoundTrip(c);
    }
    if SameSteps(RereadAll(cs), cs) {
      forall c | c in cs
        ensures WellFormed(c)
      {
        var i :| 0 <= i < |cs| && cs[i] == c;
        assert SameStep(RereadAll(cs)[i], cs[i]);
      }
    }
  }

  lemma {:induction false} SameStepsScannable(a: seq<Component>, b: seq<Component>)
    requires SameSteps(a, b) && AllScannable(a)
    ensures AllScannable(b)
  {
    forall i | 0 <= i < |b|
      ensures Scannable(b[i])
    {
      assert SameStep(a[i], b[i]) && a[i] in a;
    }
  }

  predicate Survives(h: Handler, p: Path) {
    Compiled(h, Printed(p)).Ok? && Same(Compiled(h, Printed(p)).value, p)
  }

  /**
   The round trip: compiling `String()` succeeds with an equal CFI if and only if the CFI
   is canonical. No assumption is made on the CFI.
   */
  lemma {:induction false} RoundTrip(h: Handler, p: Path)
    ensures Survives(h, p) <==> Canonical(p)
  {
    if Survives(h, p) {
      var v := Compiled(h, Printed(p)).value;
      CompiledScannable(h, Printed(p));
      SameStepsScannable(v.components, p.components);
      if p.isRange {
        SameStepsScannable(v.rangeStart, p.rangeStart);
        SameStepsScannable(v.rangeEnd, p.rangeEnd);
      }
    }
    if ScannablePath(p) {
      RereadSame(p.components);
      if !p.isRange {
        CompileLocation(h, p);
      } else {
        CompileRange(h, p);
        RereadSame(p.rangeStart);
        RereadSame(p.rangeEnd);
      }
    }
  }

  /** A lone step behind its slash. */
  lemma {:induction false} CompileLoneStep(step: string, c: Component)
    requires step != "" && Clean(step, '/') && Parsed(step) == Ok(c)
    ensures CompiledSteps("/" + step) == Ok([c])
  {
    var steps := [step];
    SplitPrefixed(steps, '/');
    assert steps[1..] == [];
    assert Prefixed(steps, '/') == "/" + step + "" == "/" + step;
    assert ParsedAll(steps) == Ok([c] + []) && [c] + [] == [c];
  }

  /** A string without the wrapping and without a range. */
  lemma {:induction false} CompileBare(h: Handler, str: string, cs: seq<Component>)
    requires str != "" && str[0] == '/' && Clean(str, ',') && CompiledSteps(str) == Ok(cs)
    ensures Compiled(h, str) == Ok(Path(cs, false, [], []))
  {
    SplitOne(str, ',');
    assert !(OPEN <= str) by {
      assert OPEN[0] == 'e';
    }
  }

  /** The step `n:k[t]:0`, alone in its CFI, compiles to a text assertion at offset 0. */
  lemma {:induction false} ReoffsetCompiles(h: Handler, n: uint32, k: uint32, t: string)
    requires k != 0 && ']' !in t && !HasBias(t)
    ensures Compiled(h, "/" + Reoffset(n, k, t))
         == Ok(Path([Fresh(n).(hasOffset := true, hasText := true, textQualifier := t)], false, [], []))
  {
    var step, c := Reoffset(n, k, t), Fresh(n).(hasOffset := true, hasText := true, textQualifier := t);
    ScanReoffset(n, k, t);
    ReoffsetClean(n, k, t, '/');
    CompileLoneStep(step, c);
    ReoffsetClean(n, k, t, ',');
    CleanPlain("/", ',');
    CleanAppend("/", step, ',');
    CompileBare(h, "/" + step, [c]);
  }

  /** A compiled text assertion that does not survive: at offset zero it is read back as an id. */
  lemma {:induction false} TextAtOffsetZeroLost(h: Handler, n: uint32, k: uint32, t: string)
    requires k != 0 && ']' !in t && !HasBias(t)
    ensures Compiled(h, "/" + Reoffset(n, k, t)).Ok?
    ensures !Survives(h, Compiled(h, "/" + Reoffset(n, k, t)).value)
  {
    ReoffsetCompiles(h, n, k, t);
    var p := Compiled(h, "/" + Reoffset(n, k, t)).value;
    RoundTrip(h, p);
    assert p.components[0] in p.components;
  }

  // --------------------------------------------------------------- consequences

  /** On canonical CFIs, `operator==` and equality of `String()` are the same relation. */
  lemma {:induction false} PrinterInjective(a: Path, b: Path)
    requires Canonical(a) && Canonical(b)
    ensures Same(a, b) <==> Printed(a) == Printed(b)
  {
    if Same(a, b) {
      SamePrintsAlike(a, b);
    }
    if Printed(a) == Printed(b) {
      RoundTrip(Default, a);
      RoundTrip(Default, b);
      var v := Compiled(Default, Printed(a)).value;
      SameIsEquivalence(v, a, b);
      SameIsEquivalence(a, v, b);
    }
  }

  /** Equal CFIs are canonical together. */
  lemma {:induction false} SameCanonical(a: Path, b: Path)
    requires Same(a, b) && Canonical(a)
    ensures Canonical(b)
  {
    RoundTrip(Default, a);
    SamePrintsAlike(a, b);
    SameIsEquivalence(Compiled(Default, Printed(a)).value, a, b);
    RoundTrip(Default, b);
  }

  /** Comparing with a string answers what compiling it and comparing would. */
  predicate ComparesAlike(a: Path, str: string, p: Path) { Printed(a) == str <==> Same(a, p) }

  /**
   For any CFI and any string that compiles: the two comparisons agree exactly when a CFI
   printing as the string is canonical, and one equal to the compiled CFI meets its printed form.
   */
  lemma {:induction false} CompareWithString(h: Handler, a: Path, str: string)
    requires Compiled(h, str).Ok?
    ensures var p := Compiled(h, str).value;
            ComparesAlike(a, str, p) <==>
              (Printed(a) == str ==> Canonical(a)) && (Same(a, p) ==> str == Printed(p))
  {
    var p := Compiled(h, str).value;
    if Printed(a) == str {
      RoundTrip(h, a);
      SameIsEquivalence(a, p, a);
    }
    if Same(a, p) {
      SamePrintsAlike(a, p);
    }
  }

  /**
   A string compares as its compiled CFI does, with every canonical CFI, exactly when that
   CFI is not canonical or the string is its printed form.
   */
  lemma {:induction false} StringsThatCompare(h: Handler, str: string)
    requires Compiled(h, str).Ok?
    ensures var p := Compiled(h, str).value;
            (forall a :: Canonical(a) ==> ComparesAlike(a, str, p)) <==> (Canonical(p) ==> str == Printed(p))
  {
    var p := Compiled(h, str).value;
    forall a | Canonical(a) && (Canonical(p) ==> str == Printed(p))
      ensures ComparesAlike(a, str, p)
    {
      CompareWithString(h, a, str);
      if Same(a, p) {
        SameCanonical(a, p);
      }
    }
    if Canonical(p) && ComparesAlike(p, str, p) {
      SameIsEquivalence(p, p, p);
    }
  }

  /** Compiling, printing and compiling again keeps a CFI whose steps are well formed, and no other. */
  lemma {:induction false} CompileStable(h: Handler, str: string)
    requires Compiled(h, str).Ok?
    ensures var p := Compiled(h, str).value;
            Survives(h, p) <==>
              p.components != [] && AllWellFormed(p.components) &&
              (p.isRange ==> AllWellFormed(p.rangeStart) && AllWellFormed(p.rangeEnd))
  {
    var p := Compiled(h, str).value;
    RoundTrip(h, p);
    if p.isRange {
      CompiledRangeOrdered(h, str);
    }
  }

  /** The bare form of a canonical CFI compiles alike, yet never compares equal as a string. */
  lemma {:induction false} BareStringCompares(h: Handler, p: Path)
    requires Canonical(p)
    ensures Compiled(h, Inner(p)) == Compiled(h, Printed(p))
    ensures Printed(p) != Inner(p)
  {
    assert Inner(p)[0] == '/';
    WrappingOptional(h, Inner(p), ')');
    assert Printed(p)[0] == OPEN[0] == 'e';
  }

  /** A base with a lone second piece: the strict handler refuses it, the default one drops the piece. */
  lemma {:induction false} LonePiece(h: Handler, a: seq<Component>, b: seq<Component>)
    requires a != [] && b != [] && AllScannable(a) && AllScannable(b)
    ensures Compiled(h, PrintedSteps(a) + ("," + PrintedSteps(b)))
         == if h.Strict? then Raised(RangeComponentCount) else Ok(Path(RereadAll(a), false, [], []))
  {
    var s, t := PrintedSteps(a), PrintedSteps(b);
    CompilePrintedSteps(a);
    CompilePrintedSteps(b);
    SplitOne(t, ',');
    SplitNext(s, t, ',');
    assert Push([], s) + Push([], t) == [s, t];
    var str := s + ("," + t);
    assert str[0] == '/' && !(OPEN <= str) by {
      assert OPEN[0] == 'e';
    }
  }

  // ------------------------------------------------------------ append and print

  lemma {:induction false} PrintAppended(a: seq<Component>, b: seq<Component>)
    ensures PrintedSteps(a + b) == PrintedSteps(a) + PrintedSteps(b)
  {
    PrintedIsPrefixed(a);
    PrintedIsPrefixed(b);
    PrintedIsPrefixed(a + b);
    TextsAppend(Body, a, b);
    PrefixedAppend(Bodies(a), Bodies(b), '/');
  }

  /** Appending CFIs and writing their texts one after the other are the same thing. */
  lemma {:induction false} AppendPrints(a: Path, b: Path)
    requires !a.isRange
    ensures Inner(Appended(a, b).value) == Inner(a) + Inner(b)
  {
    PrintAppended(a.components, b.components);
    assert PrintedSteps(a.components) + "" == PrintedSteps(a.components);
    assert b.isRange ==> RangePart(Appended(a, b).value) == RangePart(b);
    Regroup(PrintedSteps(a.components), PrintedSteps(b.components), RangePart(b));
  }

  /** Compiling the joined texts of canonical CFIs gives the appended CFI, range included. */
  lemma {:induction false} CompileJoined(h: Handler, a: Path, b: Path)
    requires Canonical(a) && !a.isRange && Canonical(b)
    ensures var r := Compiled(h, OPEN + (Inner(a) + Inner(b)) + ")");
            r.Ok? && Same(r.value, Appended(a, b).value)
  {
    AppendPrints(a, b);
    RoundTrip(h, Appended(a, b).value);
  }
}
