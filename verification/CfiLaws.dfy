/** What compiling, printing, comparing, appending and cutting promise each other. */
module CfiLaws {
  import opened Prelude
  import opened CfiSplitter
  import opened CfiComponent
  import opened CfiComponentLaws
  import opened CfiCompiler

  // ------------------------------------------------------------- equality laws

  lemma {:induction false} SameStepsTransitive(a: seq<Component>, b: seq<Component>, c: seq<Component>)
    requires SameSteps(a, b) && SameSteps(b, c)
    ensures SameSteps(a, c)
  {
    forall i | 0 <= i < |a|
      ensures SameStep(a[i], c[i])
    {
      assert SameStep(a[i], b[i]) && SameStep(b[i], c[i]);
    }
  }

  /** `operator==` is an equivalence relation. */
  lemma {:induction false} SameIsEquivalence(a: Path, b: Path, c: Path)
    ensures Same(a, a)
    ensures Same(a, b) == Same(b, a)
    ensures Same(a, b) && Same(b, c) ==> Same(a, c)
  {
    if Same(a, b) && Same(b, c) {
      SameStepsTransitive(a.components, b.components, c.components);
      if a.isRange {
        SameStepsTransitive(a.rangeStart, b.rangeStart, c.rangeStart);
        SameStepsTransitive(a.rangeEnd, b.rangeEnd, c.rangeEnd);
      }
    }
  }

  lemma {:induction false} SameStepsSamePrint(a: seq<Component>, b: seq<Component>)
    requires SameSteps(a, b)
    ensures PrintedSteps(a) == PrintedSteps(b)
  {
    if a != [] {
      SameStepSameBody(a[0], b[0]);
      SameStepsSamePrint(a[1..], b[1..]);
    }
  }

  /** Equal CFIs print alike, well formed or not. */
  lemma {:induction false} SamePrintsAlike(a: Path, b: Path)
    requires Same(a, b)
    ensures Printed(a) == Printed(b)
  {
    SameStepsSamePrint(a.components, b.components);
    if a.isRange {
      SameStepsSamePrint(a.rangeStart, b.rangeStart);
      SameStepsSamePrint(a.rangeEnd, b.rangeEnd);
    }
  }

  // ----------------------------------------------------------- range acceptance

  /** No start index above its end index, and both lists equally long. */
  predicate Pointwise(s: seq<Component>, e: seq<Component>) {
    |s| == |e| && forall i :: 0 <= i < |s| ==> s[i].nodeIndex <= e[i].nodeIndex
  }

  predicate SameIndices(s: seq<Component>, e: seq<Component>)
    requires |s| == |e|
  {
    forall i :: 0 <= i < |s| ==> s[i].nodeIndex == e[i].nodeIndex
  }

  function OffsetOf(c: Component): nat { if c.hasOffset then c.characterOffset else 0 }

  /** Document order: lexicographic in the node indices, then the offset of the last step. */
  predicate InOrder(s: seq<Component>, e: seq<Component>)
    requires |s| == |e| && s != []
  {
    s[0].nodeIndex < e[0].nodeIndex ||
    (s[0].nodeIndex == e[0].nodeIndex &&
     if |s| == 1 then OffsetOf(s[0]) <= OffsetOf(e[0]) else InOrder(s[1..], e[1..]))
  }

  predicate Unbiased(h: Handler, s: seq<Component>, e: seq<Component>)
    requires s != [] && e != []
  {
    h.Strict? ==> Last(s).sideBias == Unspecified && Last(e).sideBias == Unspecified
  }

  /** Two range ends that `CompileCFI` lets through. */
  predicate Acceptable(s: seq<Component>, e: seq<Component>) {
    && s != [] && |s| == |e|
    && Last(s).hasOffset == Last(e).hasOffset
    && InOrder(s, e) && Pointwise(s, e)
  }

  lemma {:induction false} OrderedMeans(s: seq<Component>, e: seq<Component>, i: nat, below: bool)
    requires i <= |s| && i <= |e|
    ensures Ordered(s, e, i, below).Ok? <==>
              |s| == |e| && forall j :: i <= j < |s| ==> s[j].nodeIndex <= e[j].nodeIndex
    ensures Ordered(s, e, i, below).Ok? ==>
              (Ordered(s, e, i, below).value <==>
               below || exists j :: i <= j < |s| && s[j].nodeIndex < e[j].nodeIndex)
    decreases |s| - i
  {
    if i < |s| && i < |e| && s[i].nodeIndex <= e[i].nodeIndex {
      OrderedMeans(s, e, i + 1, below || s[i].nodeIndex < e[i].nodeIndex);
    }
  }

  /** Under pointwise order, document order only depends on the last offset when all indices agree. */
  lemma {:induction false} PointwiseInOrder(s: seq<Component>, e: seq<Component>)
    requires s != [] && Pointwise(s, e)
    ensures InOrder(s, e) <==> (SameIndices(s, e) ==> OffsetOf(Last(s)) <= OffsetOf(Last(e)))
  {
    if 1 < |s| && s[0].nodeIndex == e[0].nodeIndex {
      PointwiseInOrder(s[1..], e[1..]);
      assert SameIndices(s, e) <==> SameIndices(s[1..], e[1..]) by {
        assert forall i :: 1 <= i < |s| ==> s[i] == s[1..][i - 1] && e[i] == e[1..][i - 1];
      }
    }
  }

  /**
   A range is accepted exactly when its ends carry the same kind of offset, are equally
   long, stand in document order, and no node index decreases from start to end.
   */
  lemma {:induction false} RangeAcceptance(h: Handler, s: seq<Component>, e: seq<Component>)
    ensures Checked(h, s, e).Ok? <==> Acceptable(s, e) && Unbiased(h, s, e)
  {
    OrderedMeans(s, e, 0, false);
    if s != [] && Pointwise(s, e) {
      PointwiseInOrder(s, e);
    }
  }

  /** Document order alone is not enough: a later index may not decrease. */
  lemma {:induction false} OrderedRangeRejected(h: Handler)
    ensures var s, e := [Fresh(2), Fresh(8)], [Fresh(4), Fresh(2)];
            InOrder(s, e) && Checked(h, s, e) == Raised(RangeInvalid)
  {
    var s, e := [Fresh(2), Fresh(8)], [Fresh(4), Fresh(2)];
    assert Ordered(s, e, 1, true) == Raised(RangeInvalid);
  }

  /** No index decreases where both ends have one. */
  predicate CommonAscending(s: seq<Component>, e: seq<Component>, i: nat) {
    forall j :: i <= j < |s| && j < |e| ==> s[j].nodeIndex <= e[j].nodeIndex
  }

  lemma {:induction false} UnequalLengths(s: seq<Component>, e: seq<Component>, i: nat, below: bool)
    requires i <= |s| && i <= |e|
    ensures Ordered(s, e, i, below) == Undefined <==> |s| != |e| && CommonAscending(s, e, i)
    decreases |s| - i
  {
    if i < |s| && i < |e| && s[i].nodeIndex <= e[i].nodeIndex {
      UnequalLengths(s, e, i + 1, below || s[i].nodeIndex < e[i].nodeIndex);
    }
  }

  /** Ends that get past the first checks and differ in length, with no decrease to stop at. */
  predicate RunsOff(s: seq<Component>, e: seq<Component>) {
    && s != [] && e != [] && Last(s).hasOffset == Last(e).hasOffset
    && |s| != |e| && CommonAscending(s, e, 0)
  }

  /** The checks read past the shorter end exactly on such ends; other unequal ends are refused before. */
  lemma {:induction false} ChecksRunOff(h: Handler, s: seq<Component>, e: seq<Component>)
    ensures Checked(h, s, e) == Undefined <==> RunsOff(s, e) && Unbiased(h, s, e)
    ensures |s| != |e| ==> Checked(h, s, e) == Undefined || Checked(h, s, e).Raised?
  {
    UnequalLengths(s, e, 0, false);
    OrderedEnds(s, e, 0, false);
    RangeAcceptance(h, s, e);
  }

  /** Which error the checks raise: a side bias is only noticed behind ends of one kind. */
  lemma {:induction false} RefusalKinds(h: Handler, s: seq<Component>, e: seq<Component>)
    ensures Checked(h, s, e) == Raised(RangeSideBias) <==>
            s != [] && e != [] && Last(s).hasOffset == Last(e).hasOffset && !Unbiased(h, s, e)
    ensures Checked(h, s, e).Raised? ==> Checked(h, s, e).error == RangeSideBias || Checked(h, s, e).error == RangeInvalid
  {
    OrderedRaises(s, e, 0, false);
  }

  lemma {:induction false} OrderedRaises(s: seq<Component>, e: seq<Component>, i: nat, below: bool)
    ensures Ordered(s, e, i, below).Raised? ==> Ordered(s, e, i, below).error == RangeInvalid
    decreases (if |s| < |e| then |e| else |s|) - i
  {
    if i < |s| && i < |e| {
      OrderedRaises(s, e, i + 1, below || s[i].nodeIndex < e[i].nodeIndex);
    }
  }

  lemma {:induction false} OrderedEnds(s: seq<Component>, e: seq<Component>, i: nat, below: bool)
    ensures !Ordered(s, e, i, below).Hangs? && !Ordered(s, e, i, below).Float?
    decreases (if |s| < |e| then |e| else |s|) - i
  {
    if i < |s| && i < |e| {
      OrderedEnds(s, e, i + 1, below || s[i].nodeIndex < e[i].nodeIndex);
    }
  }

  /** What an assembled range is made of. */
  lemma {:induction false} AssembledParts(base: Outcome<seq<Component>>,
                                          ends: Outcome<(seq<Component>, seq<Component>)>)
    requires Assembled(base, ends).Ok?
    ensures base.Ok? && ends.Ok?
    ensures Assembled(base, ends).value == Path(base.value, true, ends.value.0, ends.value.1)
  {
  }

  /** What compiled range ends are made of. */
  lemma {:induction false} EndsParts(h: Handler, start: string, end: string)
    requires CompiledEnds(h, start, end).Ok?
    ensures CompiledSteps(start).Ok? && CompiledSteps(end).Ok?
    ensures CompiledEnds(h, start, end).value == (CompiledSteps(start).value, CompiledSteps(end).value)
    ensures Checked(h, CompiledSteps(start).value, CompiledSteps(end).value).Ok?
  {
  }

  lemma {:induction false} CompiledRangeChecked(h: Handler, pieces: seq<string>)
    requires CompiledPieces(h, pieces).Ok? && CompiledPieces(h, pieces).value.isRange
    ensures var p := CompiledPieces(h, pieces).value; Checked(h, p.rangeStart, p.rangeEnd).Ok?
  {
    if 3 <= |pieces| {
      AssembledParts(CompiledSteps(pieces[0]), CompiledEnds(h, pieces[1], pieces[2]));
      EndsParts(h, pieces[1], pieces[2]);
    }
  }

  /** Every accepted string denotes a range in document order, with one kind of offset. */
  lemma {:induction false} CompiledRangeOrdered(h: Handler, str: string)
    requires Compiled(h, str).Ok? && Compiled(h, str).value.isRange
    ensures var p := Compiled(h, str).value; Acceptable(p.rangeStart, p.rangeEnd)
  {
    var pieces := Split(Unwrapped(str).value, ',').value;
    CompiledRangeChecked(h, pieces);
    var p := CompiledPieces(h, pieces).value;
    RangeAcceptance(h, p.rangeStart, p.rangeEnd);
  }

  // -------------------------------------------------------- append and sub-path

  /** Only a location can be appended to. */
  lemma {:induction false} AppendToRange(a: Path, b: Path)
    ensures Appended(a, b) == Raised(RangedAppend) <==> a.isRange
    ensures Appended(a, b).Ok? <==> !a.isRange
  {
  }

  /** Any CFI is its first components with the sub-path from there appended, wherever it is cut. */
  lemma {:induction false} AppendBack(o: Path, k: nat)
    ensures if k < |o.components| then
              var head := Path(o.components[..k], false, [], []);
              SubPath(o, k).Ok? && Appended(head, SubPath(o, k).value).Ok? &&
              Same(Appended(head, SubPath(o, k).value).value, o)
            else SubPath(o, k) == Raised(OutOfRange)
  {
    if k < |o.components| {
      assert o.components[..k] + o.components[k..] == o.components;
    }
  }

  /** Cutting an appended CFI where it was joined gives the appended one back, range included. */
  lemma {:induction false} SubOfAppended(base: Path, rest: Path)
    requires !base.isRange
    ensures Appended(base, rest).Ok?
    ensures var cut := SubPath(Appended(base, rest).value, |base.components|);
            if rest.components == [] then cut == Raised(OutOfRange) else cut.Ok? && Same(cut.value, rest)
  {
    assert (base.components + rest.components)[|base.components|..] == rest.components;
  }

  function AppendedTo(a: Outcome<Path>, b: Outcome<Path>): Outcome<Path> {
    var x :- b;
    var y :- a;
    Appended(y, x)
  }

  /** Appending is associative, the raised errors included. */
  lemma {:induction false} AppendAssociative(a: Path, b: Path, c: Path)
    ensures AppendedTo(Appended(a, b), Ok(c)) == AppendedTo(Ok(a), Appended(b, c))
  {
    assert (a.components + b.components) + c.components == a.components + (b.components + c.components);
  }

  /** The text of a sub-path is the printed sub-path exactly below the base length. */
  lemma {:induction false} SubPrintedIsPrintedSub(p: Path, k: nat)
    ensures k < |p.components| <==>
              SubPrinted(p, k).Ok? && SubPath(p, k).Ok? && SubPrinted(p, k).value == Printed(SubPath(p, k).value)
    ensures var ends := if p.isRange then |p.rangeStart| + |p.rangeEnd| else 0;
            && (SubPrinted(p, k) == Undefined <==> |p.components| < k < |p.components| + ends)
            && (SubPrinted(p, k) == Raised(OutOfRange) <==> |p.components| + ends <= k)
            && (SubPrinted(p, k).Ok? && k == |p.components| ==> SubPrinted(p, k).value == "epubcfi(" + RangePart(p) + ")")
  {
    if SubPrinted(p, k).Ok? && k == |p.components| {
      assert p.components[k..] == [] && "" + RangePart(p) == RangePart(p);
    }
  }

  /** A sub-path does not depend on what the assigned object held before. */
  lemma {:induction false} AssignForgets(self: Path, o: Path, k: nat)
    ensures Assigned(self, o, k).Ok? <==> SubPath(o, k).Ok?
    ensures SubPath(o, k).Ok? ==> Same(Assigned(self, o, k).value, SubPath(o, k).value)
  {
  }

  // ------------------------------------------------------------------- wrapping

  /** The `epubcfi(...)` wrapping is optional; its last character is not even looked at. */
  lemma {:induction false} WrappingOptional(h: Handler, s: string, last: char)
    requires s != "" && s[0] == '/'
    ensures Compiled(h, "epubcfi(" + s + [last]) == Compiled(h, s)
  {
    UnwrapWrapped(s, last);
    assert !("epubcfi(" <= s) by {
      assert "epubcfi("[0] == 'e';
    }
  }

  lemma {:induction false} UnwrapWrapped(s: string, last: char)
    ensures Unwrapped("epubcfi(" + s + [last]) == Ok(s)
  {
    var w := "epubcfi(" + s + [last];
    assert w[8..|w| - 1] == s;
    assert "epubcfi(" <= w;
  }

  /** `String()` is wrapped in `epubcfi(` and `)`, and what stands between compiles alike. */
  lemma {:induction false} PrintedShape(h: Handler, p: Path)
    ensures var s := Printed(p);
            && 9 <= |s| && s[..8] == "epubcfi(" && s[|s| - 1] == ')'
            && (p.components != [] ==> Compiled(h, s[8..|s| - 1]) == Compiled(h, s))
  {
    var s := Printed(p);
    assert s[8..|s| - 1] == Inner(p);
    if p.components != [] {
      assert Inner(p)[0] == '/';
      WrappingOptional(h, Inner(p), ')');
    }
  }

  /** How the number of comma pieces decides: 0 or 2, and more than 3, only get past the default handler. */
  lemma {:induction false} PieceCounts(h: Handler, cfi: string, pieces: seq<string>)
    requires Split(cfi, ',') == Some(pieces)
    ensures var r := Compiled(h, "epubcfi(" + cfi + ")");
            && (h.Strict? && |pieces| != 1 && |pieces| != 3 ==> r == Raised(RangeComponentCount))
            && (h.Default? && |pieces| == 0 ==> r == Raised(ParseFailed))
            && (h.Default? && |pieces| == 2 ==> r == Compiled(h, "epubcfi(" + pieces[0] + ")"))
            && (h.Default? && 3 < |pieces| ==> r == Compiled(h, "epubcfi(" + Join(pieces[..3], ',') + ")"))
  {
    UnwrapWrapped(cfi, ')');
    SplitCorrect(cfi, ',', "");
    if |pieces| == 2 {
      UnwrapWrapped(pieces[0], ')');
      SplitOne(pieces[0], ',');
    } else if 3 < |pieces| {
      UnwrapWrapped(Join(pieces[..3], ','), ')');
      SplitJoin(pieces[..3], ',');
    }
  }

  /** An unterminated bracket is refused. */
  lemma {:induction false} UnclosedRefused(h: Handler, cfi: string)
    requires !Closed(cfi)
    ensures Compiled(h, "epubcfi(" + cfi + ")") == Raised(ParseFailed)
    ensures CompiledSteps(cfi) == Raised(ParseFailed)
  {
    UnwrapWrapped(cfi, ')');
    SplitSucceeds(cfi, ',', "");
    SplitSucceeds(cfi, '/', "");
  }

  /** Without the wrapping a string must start with a slash. */
  lemma {:induction false} BareStart(h: Handler, str: string)
    requires !("epubcfi(" <= str)
    ensures str == "" ==> Compiled(h, str) == Raised(ParseFailed)
    ensures str != "" && str[0] != '/' ==> Compiled(h, str) == Raised(NonSlashStart)
  {
  }

  /** The wrapping on its own holds nothing to compile. */
  lemma {:induction false} EmptyWrapping(h: Handler)
    ensures Compiled(h, "epubcfi(") == Compiled(h, "epubcfi()")
         == Raised(if h.Strict? then RangeComponentCount else ParseFailed)
  {
    UnwrapWrapped("", ')');
    assert "epubcfi(" + "" + ")" == "epubcfi()";
    assert "epubcfi("[..8] == "epubcfi(";
  }
}
