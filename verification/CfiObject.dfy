/** The CFI class, whose methods update its component lists in place. */
module CfiObject {
  import opened Prelude
  import opened CfiSplitter
  import opened CfiComponent
  import opened CfiCompiler

  /** The outcome of a call that leaves its value in an object. */
  function Done(o: Outcome<Path>): Outcome<()> {
    var _ :- o;
    Ok(())
  }

  /** `CompileComponentsToList`: scans each string in turn and appends the step to the list. */
  method CompileComponentsToList(strings: seq<string>) returns (r: Outcome<seq<Component>>)
    ensures r == ParsedAll(strings)
  {
    var list: seq<Component> := [];
    var i := 0;
    assert strings[0..] == strings;
    OntoNone(ParsedAll(strings));
    while i < |strings|
      invariant i <= |strings|
      invariant ParsedAll(strings) == Onto(list, ParsedAll(strings[i..]))
    {
      var c := Parse(strings[i]);
      assert strings[i..][1..] == strings[i + 1..];
      if !c.Ok? {
        return c.PropagateFailure();
      }
      OntoOne(list, c.value, ParsedAll(strings[i + 1..]));
      list := list + [c.value];
      i := i + 1;
    }
    assert strings[i..] == [] && list + [] == list;
    return Ok(list);
  }

  function Onto(list: seq<Component>, rest: Outcome<seq<Component>>): Outcome<seq<Component>> {
    var cs :- rest;
    Ok(list + cs)
  }

  lemma {:induction false} OntoNone(rest: Outcome<seq<Component>>)
    ensures Onto([], rest) == rest
  {
    if rest.Ok? {
      assert [] + rest.value == rest.value;
    }
  }

  lemma {:induction false} OntoOne(list: seq<Component>, c: Component, rest: Outcome<seq<Component>>)
    ensures Onto(list, Onto([c], rest)) == Onto(list + [c], rest)
  {
    if rest.Ok? {
      assert list + ([c] + rest.value) == list + [c] + rest.value;
    }
  }

  /** A range piece, split on slashes and scanned. */
  method CompileSteps(piece: string) returns (r: Outcome<seq<Component>>)
    ensures r == CompiledSteps(piece)
  {
    var strings := ComponentStrings(piece, '/');
    if strings.None? {
      return Raised(ParseFailed);
    }
    r := CompileComponentsToList(strings.value);
  }

  /** The loop comparing the node indices of the two range ends. */
  method CompareIndices(s: seq<Component>, e: seq<Component>) returns (r: Outcome<bool>)
    ensures r == Ordered(s, e, 0, false)
  {
    var maxsz := if |s| < |e| then |e| else |s|;
    var inequalNodeIndexFound := false;
    for i := 0 to maxsz
      invariant Ordered(s, e, 0, false) == Ordered(s, e, i, inequalNodeIndexFound)
    {
      if i >= |s| || i >= |e| {
        return Undefined;
      }
      if s[i].nodeIndex > e[i].nodeIndex {
        return Raised(RangeInvalid);
      } else if !inequalNodeIndexFound && s[i].nodeIndex < e[i].nodeIndex {
        inequalNodeIndexFound := true;
      }
    }
    return Ok(inequalNodeIndexFound);
  }

  /** The checks on the two ends of a range. */
  method CheckRange(h: Handler, s: seq<Component>, e: seq<Component>) returns (r: Outcome<()>)
    ensures r == Checked(h, s, e)
  {
    if s == [] || e == [] {
      return Raised(RangeInvalid);
    }
    if Last(s).hasOffset != Last(e).hasOffset {
      return Raised(RangeInvalid);
    }
    if h.Strict? && (Last(s).sideBias != Unspecified || Last(e).sideBias != Unspecified) {
      return Raised(RangeSideBias);
    }
    var below := CompareIndices(s, e);
    if !below.Ok? {
      return below.PropagateFailure();
    }
    if !below.value && |s| == |e| && Last(s).hasOffset && Last(s).characterOffset > Last(e).characterOffset {
      return Raised(RangeInvalid);
    }
    return Ok(());
  }

  /** The two ends of a range and their checks. */
  method CompileEnds(h: Handler, start: string, end: string)
    returns (r: Outcome<(seq<Component>, seq<Component>)>)
    ensures r == CompiledEnds(h, start, end)
  {
    var s := CompileSteps(start);
    if !s.Ok? {
      return s.PropagateFailure();
    }
    var e := CompileSteps(end);
    if !e.Ok? {
      return e.PropagateFailure();
    }
    var check := CheckRange(h, s.value, e.value);
    if !check.Ok? {
      return check.PropagateFailure();
    }
    return Ok((s.value, e.value));
  }

  lemma {:induction false} RegroupRange(head: string, b: string, c: string)
    ensures head + "," + b + "," + c == head + ("," + b + "," + c)
  {
    Regroup(head, ",", b);
    Regroup(head, "," + b, ",");
    Regroup(head, "," + b + ",", c);
  }

  class CFI {
    var components: seq<Component>
    var isRange: bool
    var rangeStart: seq<Component>
    var rangeEnd: seq<Component>

    function Value(): Path
      reads this
    {
      Path(components, isRange, rangeStart, rangeEnd)
    }

    constructor ()
      ensures Value() == EMPTY && components == [] && !isRange
    {
      components, isRange, rangeStart, rangeEnd := [], false, [], [];
    }

    constructor Triplet(base: CFI, start: CFI, end: CFI)
      ensures Value() == Path(base.components, true, start.components, end.components)
    {
      components, isRange, rangeStart, rangeEnd := base.components, true, start.components, end.components;
    }

    /**
     `CompileCFI` with the constructor's check of its result, on a fresh object. When it fails
     the constructor throws, so the half-filled object is never seen.
     */
    method CompileCFI(h: Handler, str: string) returns (r: Outcome<()>)
      requires Value() == EMPTY
      modifies this
      ensures r == Done(Compiled(h, str))
      ensures r.Ok? ==> Value() == Compiled(h, str).value
    {
      var cfi := Unwrapped(str);
      if !cfi.Ok? {
        return cfi.PropagateFailure();
      }
      var rangePieces := ComponentStrings(cfi.value, ',');
      if rangePieces.None? {
        return Raised(ParseFailed);
      }
      r := CompilePieces(h, rangePieces.value);
    }

    /** The base and, with three pieces, the two ends and their checks. */
    method CompilePieces(h: Handler, pieces: seq<string>) returns (r: Outcome<()>)
      requires Value() == EMPTY
      modifies this
      ensures r == Done(CompiledPieces(h, pieces))
      ensures r.Ok? ==> Value() == CompiledPieces(h, pieces).value
    {
      if |pieces| != 1 && |pieces| != 3 {
        if h.Strict? {
          return Raised(RangeComponentCount);
        }
        if pieces == [] {
          return Raised(ParseFailed);
        }
      }
      if |pieces| < 3 {
        r := CompileLocation(pieces[0]);
      } else {
        r := CompileRange(h, pieces[0], pieces[1], pieces[2]);
      }
    }

    method CompileLocation(base: string) returns (r: Outcome<()>)
      requires Value() == EMPTY
      modifies this
      ensures r == Done(CompiledLocation(base))
      ensures r.Ok? ==> Value() == CompiledLocation(base).value
    {
      var steps := CompileSteps(base);
      if !steps.Ok? {
        return steps.PropagateFailure();
      }
      components := steps.value;
      return Ok(());
    }

    method CompileRange(h: Handler, base: string, start: string, end: string) returns (r: Outcome<()>)
      requires Value() == EMPTY
      modifies this
      ensures r == Done(CompiledRange(h, base, start, end))
      ensures r.Ok? ==> Value() == CompiledRange(h, base, start, end).value
    {
      var steps := CompileSteps(base);
      if !steps.Ok? {
        return steps.PropagateFailure();
      }
      components := steps.value;
      var ends := CompileEnds(h, start, end);
      if !ends.Ok? {
        return ends.PropagateFailure();
      }
      rangeStart, rangeEnd, isRange := ends.value.0, ends.value.1, true;
      return Ok(());
    }

    /** `Append(const CFI&)`; appending an object to itself is undefined in the source. */
    method Append(cfi: CFI) returns (r: Outcome<()>)
      requires cfi != this
      modifies this
      ensures var s := Appended(old(Value()), cfi.Value());
              r == Done(s) && Value() == if s.Ok? then s.value else old(Value())
    {
      if isRange {
        return Raised(RangedAppend);
      }
      components := components + cfi.components;
      if cfi.isRange {
        rangeStart, rangeEnd, isRange := cfi.rangeStart, cfi.rangeEnd, true;
      }
      return Ok(());
    }

    /** `Append(const string&)`: the range check comes before the string is compiled. */
    method AppendString(h: Handler, str: string) returns (r: Outcome<()>)
      modifies this
      ensures r == if old(isRange) then Raised(RangedAppend) else Done(Compiled(h, str))
      ensures Value() == if r.Ok? then Appended(old(Value()), Compiled(h, str).value).value else old(Value())
    {
      if isRange {
        return Raised(RangedAppend);
      }
      var tmp := new CFI();
      r := tmp.CompileCFI(h, str);
      if r.Ok? {
        components := components + tmp.components;
        if tmp.isRange {
          rangeStart, rangeEnd, isRange := tmp.rangeStart, tmp.rangeEnd, true;
        }
      }
    }

    /** `Assign(const CFI&, size_t)`: a sub-path; cutting an object out of itself is undefined. */
    method AssignFrom(o: CFI, fromIndex: nat) returns (r: Outcome<()>)
      requires o != this
      modifies this
      ensures var s := Assigned(old(Value()), o.Value(), fromIndex);
              r == Done(s) && Value() == if s.Ok? then s.value else old(Value())
    {
      if fromIndex >= |o.components| {
        return Raised(OutOfRange);
      }
      components := o.components[fromIndex..];
      if o.isRange {
        rangeStart, rangeEnd, isRange := o.rangeStart, o.rangeEnd, true;
      } else if isRange {
        rangeStart, rangeEnd, isRange := [], [], false;
      }
      return Ok(());
    }

    /** `Stringify(_components.begin() + index, _components.end())`. */
    method Stringify(index: nat) returns (s: string)
      requires index <= |components|
      ensures s == Printed(Value().(components := components[index..]))
    {
      s := AppendComponents(OPEN, components[index..]);
      if isRange {
        ghost var head := s;
        s := s + ",";
        s := AppendComponents(s, rangeStart);
        s := s + ",";
        s := AppendComponents(s, rangeEnd);
        RegroupRange(head, PrintedSteps(rangeStart), PrintedSteps(rangeEnd));
        Regroup(OPEN, PrintedSteps(components[index..]), RangePart(Value()));
      } else {
        assert PrintedSteps(components[index..]) + "" == PrintedSteps(components[index..]);
      }
      s := s + ")";
    }

    /** `operator==(const string&)`: compares the printed form. */
    method EqualsString(str: string) returns (r: bool)
      ensures r <==> Printed(Value()) == str
    {
      assert components[0..] == components;
      var s := Stringify(0);
      return s == str;
    }

    method SubCFIFromIndex(index: nat) returns (r: Outcome<string>)
      ensures r == SubPrinted(Value(), index)
    {
      if index >= TotalComponents(Value()) {
        return Raised(OutOfRange);
      }
      if index > |components| {
        return Undefined;
      }
      var s := Stringify(index);
      return Ok(s);
    }
  }
}
