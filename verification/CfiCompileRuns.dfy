/** Whole strings on which compiling never ends, or reads past the end of a list. */
module CfiCompileRuns {
  import opened CfiSplitter
  import opened CfiComponent
  import opened CfiCompiler
  import opened CfiLaws
  import opened CfiScannerRuns

  // --------------------------------------------------------------------- step lists

  lemma {:induction false} ParsedAllDefined(strings: seq<string>)
    ensures ParsedAll(strings) != Undefined
  {
    if strings != [] {
      ParseFate(strings[0]);
      ParsedAllDefined(strings[1..]);
    }
  }

  /** The scan reaches string `i`, and hangs on it. */
  predicate HangsOn(strings: seq<string>, i: nat) {
    i < |strings| && Hanging(strings[i]) && forall j :: 0 <= j < i ==> Parsed(strings[j]).Ok?
  }

  /** A step list hangs exactly when one of its strings does and all before it scan. */
  lemma {:induction false} StepListHangs(strings: seq<string>)
    ensures ParsedAll(strings) == Hangs <==> exists i: nat :: HangsOn(strings, i)
  {
    if strings != [] {
      ParseFate(strings[0]);
      StepListHangs(strings[1..]);
      if ParsedAll(strings[1..]) == Hangs && Parsed(strings[0]).Ok? {
        var i: nat :| HangsOn(strings[1..], i);
        assert forall j :: 1 <= j < i + 1 ==> strings[j] == strings[1..][j - 1];
        assert HangsOn(strings, i + 1);
      } else if Parsed(strings[0]) == Hangs {
        assert HangsOn(strings, 0);
      }
      if i: nat :| HangsOn(strings, i) {
        if 0 < i {
          assert forall j :: 0 <= j < i - 1 ==> strings[1..][j] == strings[j + 1];
          assert HangsOn(strings[1..], i - 1);
        }
      }
    }
  }

  // ------------------------------------------------------------------ whole strings

  /** The comma pieces that the handler lets through to be compiled. */
  function CommaPieces(h: Handler, str: string): seq<string> {
    var cfi := Unwrapped(str);
    if !cfi.Ok? then []
    else
      match Split(cfi.value, ',')
      case None => []
      case Some(pieces) => if h.Strict? && |pieces| != 1 && |pieces| != 3 then [] else pieces
  }

  lemma {:induction false} CompiledFromPieces(h: Handler, str: string)
    ensures if CommaPieces(h, str) == [] then Compiled(h, str).Raised?
            else Compiled(h, str) == CompiledPieces(h, CommaPieces(h, str))
  {
  }

  lemma {:induction false} CheckedEnds(h: Handler, s: seq<Component>, e: seq<Component>)
    ensures Checked(h, s, e) != Hangs
  {
    OrderedEnds(s, e, 0, false);
  }

  /** Some step of a piece hangs, and all before it scan. */
  ghost predicate PieceHangs(piece: string) {
    var strings := Split(piece, '/');
    strings.Some? && exists i: nat :: HangsOn(strings.value, i)
  }

  lemma {:induction false} PieceEnds(piece: string)
    ensures CompiledSteps(piece) == Hangs <==> PieceHangs(piece)
    ensures CompiledSteps(piece) != Undefined
  {
    var strings := Split(piece, '/');
    if strings.Some? {
      StepListHangs(strings.value);
      ParsedAllDefined(strings.value);
    }
  }

  /** Compiling never ends exactly when a piece hangs and all pieces compiled before it do compile. */
  lemma {:induction false} CompileHangs(h: Handler, str: string)
    ensures Compiled(h, str) == Hangs <==>
            var ps := CommaPieces(h, str);
            ps != [] &&
            (PieceHangs(ps[0]) ||
             (3 <= |ps| && CompiledSteps(ps[0]).Ok? &&
              (PieceHangs(ps[1]) || (CompiledSteps(ps[1]).Ok? && PieceHangs(ps[2])))))
  {
    CompiledFromPieces(h, str);
    var ps := CommaPieces(h, str);
    if ps != [] {
      PieceEnds(ps[0]);
      if 3 <= |ps| {
        PieceEnds(ps[1]);
        PieceEnds(ps[2]);
        EndsHang(h, ps[1], ps[2]);
      }
    }
  }

  lemma {:induction false} EndsHang(h: Handler, start: string, end: string)
    ensures CompiledEnds(h, start, end) == Hangs <==>
            CompiledSteps(start) == Hangs || (CompiledSteps(start).Ok? && CompiledSteps(end) == Hangs)
  {
    if CompiledSteps(start).Ok? && CompiledSteps(end).Ok? {
      CheckedEnds(h, CompiledSteps(start).value, CompiledSteps(end).value);
    }
  }

  /** Compiling reads past the shorter end exactly when all three pieces compile and the ends run off. */
  lemma {:induction false} CompileRunsOff(h: Handler, str: string)
    ensures Compiled(h, str) == Undefined <==>
            var ps := CommaPieces(h, str);
            && 3 <= |ps|
            && CompiledSteps(ps[0]).Ok? && CompiledSteps(ps[1]).Ok? && CompiledSteps(ps[2]).Ok?
            && RunsOff(CompiledSteps(ps[1]).value, CompiledSteps(ps[2]).value)
            && Unbiased(h, CompiledSteps(ps[1]).value, CompiledSteps(ps[2]).value)
  {
    CompiledFromPieces(h, str);
    var ps := CommaPieces(h, str);
    if ps != [] {
      PieceEnds(ps[0]);
      if 3 <= |ps| {
        PieceEnds(ps[1]);
        PieceEnds(ps[2]);
        EndsRunOff(h, ps[1], ps[2]);
      }
    }
  }

  lemma {:induction false} EndsRunOff(h: Handler, start: string, end: string)
    requires CompiledSteps(start) != Undefined && CompiledSteps(end) != Undefined
    ensures CompiledEnds(h, start, end) == Undefined <==>
            && CompiledSteps(start).Ok? && CompiledSteps(end).Ok?
            && RunsOff(CompiledSteps(start).value, CompiledSteps(end).value)
            && Unbiased(h, CompiledSteps(start).value, CompiledSteps(end).value)
  {
    if CompiledSteps(start).Ok? && CompiledSteps(end).Ok? {
      ChecksRunOff(h, CompiledSteps(start).value, CompiledSteps(end).value);
    }
  }
}
