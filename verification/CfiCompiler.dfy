/** Whole CFIs as values: compiling a string, printing, equality, append and sub-path. */
module CfiCompiler {
  import opened CfiSplitter
  import opened CfiComponent

  /** The four fields of the class; the range lists only count when `isRange` is set. */
  datatype Path = Path(components: seq<Component>, isRange: bool, rangeStart: seq<Component>, rangeEnd: seq<Component>)

  const EMPTY := Path([], false, [], [])

  /**
   The installed error handler: the default one lets violations of medium severity pass,
   the strict one raises them too. Both raise major ones.
   */
  datatype Handler = Default | Strict

  // ------------------------------------------------------------------- equality

  predicate SameSteps(a: seq<Component>, b: seq<Component>) {
    |a| == |b| && forall i :: 0 <= i < |a| ==> SameStep(a[i], b[i])
  }

  /** `CFI::operator==`. */
  predicate Same(a: Path, b: Path) {
    && a.isRange == b.isRange
    && SameSteps(a.components, b.components)
    && (a.isRange ==> SameSteps(a.rangeStart, b.rangeStart) && SameSteps(a.rangeEnd, b.rangeEnd))
  }

  // ------------------------------------------------------------------- printing

  function RangePart(p: Path): string {
    if p.isRange then "," + PrintedSteps(p.rangeStart) + "," + PrintedSteps(p.rangeEnd) else ""
  }

  /** What stands between `epubcfi(` and `)`. */
  function Inner(p: Path): string { PrintedSteps(p.components) + RangePart(p) }

  const OPEN := "epubcfi("

  /** `CFI::String()`. */
  function Printed(p: Path): string { OPEN + Inner(p) + ")" }

  // ------------------------------------------------------------------ compiling

  /** `CompileComponentsToList`. */
  function ParsedAll(strings: seq<string>): (r: Outcome<seq<Component>>)
    ensures r.Ok? ==> |r.value| == |strings|
  {
    if strings == [] then Ok([])
    else
      var c :- Parsed(strings[0]);
      var cs :- ParsedAll(strings[1..]);
      Ok([c] + cs)
  }

  /** Splitting one range piece on slashes and scanning its steps. */
  function CompiledSteps(piece: string): Outcome<seq<Component>> {
    match Split(piece, '/')
    case None => Raised(ParseFailed)
    case Some(strings) => ParsedAll(strings)
  }

  /**
   The index comparison from `i` on; the answer tells whether some start index was below
   its end index. The source runs to the longer length, past the end of the shorter list.
   */
  function Ordered(s: seq<Component>, e: seq<Component>, i: nat, below: bool): Outcome<bool>
    decreases (if |s| < |e| then |e| else |s|) - i
  {
    if i >= |s| && i >= |e| then Ok(below)
    else if i >= |s| || i >= |e| then Undefined
    else if s[i].nodeIndex > e[i].nodeIndex then Raised(RangeInvalid)
    else Ordered(s, e, i + 1, below || s[i].nodeIndex < e[i].nodeIndex)
  }

  function Last(cs: seq<Component>): Component
    requires cs != []
  {
    cs[|cs| - 1]
  }

  /** The sanity checks on the two ends of a range. */
  function Checked(h: Handler, s: seq<Component>, e: seq<Component>): Outcome<()> {
    if s == [] || e == [] then Raised(RangeInvalid)
    else if Last(s).hasOffset != Last(e).hasOffset then Raised(RangeInvalid)
    else if h.Strict? && (Last(s).sideBias != Unspecified || Last(e).sideBias != Unspecified) then
      Raised(RangeSideBias)
    else
      var below :- Ordered(s, e, 0, false);
      if !below && |s| == |e| && Last(s).hasOffset && Last(s).characterOffset > Last(e).characterOffset then
        Raised(RangeInvalid)
      else Ok(())
  }

  /** Takes off the `epubcfi(...)` wrapping, or insists on a leading slash. */
  function Unwrapped(str: string): Outcome<string> {
    if OPEN <= str then Ok(if |str| == |OPEN| then "" else str[|OPEN|..|str| - 1])
    else if str == "" then Raised(ParseFailed)
    else if str[0] != '/' then Raised(NonSlashStart)
    else Ok(str)
  }

  /** Compiling and checking the two ends of a range. */
  function CompiledEnds(h: Handler, start: string, end: string): Outcome<(seq<Component>, seq<Component>)> {
    var s :- CompiledSteps(start);
    var e :- CompiledSteps(end);
    var _ :- Checked(h, s, e);
    Ok((s, e))
  }

  /** A base and, for a range, its two ends put together. */
  function Assembled(base: Outcome<seq<Component>>, ends: Outcome<(seq<Component>, seq<Component>)>): Outcome<Path> {
    var cs :- base;
    var (s, e) :- ends;
    Ok(Path(cs, true, s, e))
  }

  function CompiledLocation(base: string): Outcome<Path> {
    var cs :- CompiledSteps(base);
    Ok(Path(cs, false, [], []))
  }

  function CompiledRange(h: Handler, base: string, start: string, end: string): Outcome<Path> {
    Assembled(CompiledSteps(base), CompiledEnds(h, start, end))
  }

  /** Compiling the pieces between unbracketed commas. */
  function CompiledPieces(h: Handler, pieces: seq<string>): Outcome<Path> {
    if |pieces| != 1 && |pieces| != 3 && h.Strict? then Raised(RangeComponentCount)
    else if pieces == [] then Raised(ParseFailed)
    else if |pieces| < 3 then CompiledLocation(pieces[0])
    else CompiledRange(h, pieces[0], pieces[1], pieces[2])
  }

  /** The constructor from a string: `CompileCFI`, its `false` turned into an error. */
  function Compiled(h: Handler, str: string): Outcome<Path> {
    var cfi :- Unwrapped(str);
    match Split(cfi, ',')
    case None => Raised(ParseFailed)
    case Some(pieces) => CompiledPieces(h, pieces)
  }

  // -------------------------------------------------------- append and sub-path

  /** `Append`: a location takes over the other's range, a range cannot be appended to. */
  function Appended(a: Path, b: Path): Outcome<Path> {
    if a.isRange then Raised(RangedAppend)
    else if b.isRange then Ok(Path(a.components + b.components, true, b.rangeStart, b.rangeEnd))
    else Ok(a.(components := a.components + b.components))
  }

  /** `Assign(o, fromIndex)` onto an object holding `self`. */
  function Assigned(self: Path, o: Path, k: nat): Outcome<Path> {
    if k >= |o.components| then Raised(OutOfRange)
    else if o.isRange then Ok(Path(o.components[k..], true, o.rangeStart, o.rangeEnd))
    else if self.isRange then Ok(Path(o.components[k..], false, [], []))
    else Ok(self.(components := o.components[k..]))
  }

  /** The constructor `CFI(o, fromIndex)`. */
  function SubPath(o: Path, k: nat): Outcome<Path> { Assigned(EMPTY, o, k) }

  function TotalComponents(p: Path): nat {
    |p.components| + if p.isRange then |p.rangeStart| + |p.rangeEnd| else 0
  }

  /** `SubCFIFromIndex`: bounded by all components, but it only walks the base ones. */
  function SubPrinted(p: Path, k: nat): Outcome<string> {
    if k >= TotalComponents(p) then Raised(OutOfRange)
    else if k > |p.components| then Undefined
    else Ok(Printed(p.(components := p.components[k..])))
  }
}
