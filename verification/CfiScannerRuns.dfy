/** When the step scanner ends: its loop turn by turn, and the texts that keep it going forever. */
module CfiScannerRuns {
  import opened Prelude
  import opened CfiNumbers
  import opened CfiSplitter
  import opened CfiComponent
  import opened CfiComponentLaws

  // ------------------------------------------------------------------ turn by turn

  /** How the loop has ended within that many turns, if it has. */
  function EndedWithin(z: Scanner, turns: nat): Option<Outcome<Component>>
    decreases turns
  {
    if z.eof then Some(Ok(z.c))
    else if turns == 0 then None
    else
      match LoopTurn(z)
      case Go(next) => EndedWithin(next, turns - 1)
      case Stop(outcome) => Some(outcome)
  }

  lemma {:induction false} HangingRuns(z: Scanner, turns: nat)
    requires Scan(z) == Hangs
    ensures EndedWithin(z, turns) == None
    decreases turns
  {
    if 0 < turns && LoopTurn(z).Go? {
      HangingRuns(LoopTurn(z).next, turns - 1);
    }
  }

  lemma {:induction false} EndingRuns(z: Scanner, turns: nat)
    requires Scan(z) != Hangs && |z.s| < turns
    ensures EndedWithin(z, turns) == Some(Scan(z))
    decreases turns
  {
    if !z.eof && LoopTurn(z).Go? && !LoopTurn(z).next.eof {
      EndingRuns(LoopTurn(z).next, turns - 1);
    }
  }

  /** `Hangs` means that the loop is still going after every number of turns; otherwise each turn eats a character. */
  lemma {:induction false} ScanHangs(z: Scanner)
    ensures Scan(z) == Hangs <==> forall turns: nat :: EndedWithin(z, turns) == None
    ensures Scan(z) != Hangs ==> EndedWithin(z, |z.s| + 1) == Some(Scan(z))
  {
    if Scan(z) == Hangs {
      forall turns: nat
        ensures EndedWithin(z, turns) == None
      {
        HangingRuns(z, turns);
      }
    } else {
      EndingRuns(z, |z.s| + 1);
    }
  }

  /** `Component::Parse` given that many turns of its loop. */
  function ParsedWithin(str: string, turns: nat): Option<Outcome<Component>> {
    if str == "" then Some(Raised(ParseFailed))
    else
      var x := ReadUint(0, str);
      if x.value == 0 && x.fail then Some(Raised(ParseFailed))
      else EndedWithin(Scanner(Fresh(x.value), x.rest, x.fail, x.eof), turns)
  }

  /** The whole call never returns exactly on `Hangs`, and otherwise returns within the length of its text. */
  lemma {:induction false} ParseReturns(str: string)
    ensures Parsed(str) == Hangs <==> forall turns: nat :: ParsedWithin(str, turns) == None
    ensures Parsed(str) != Hangs ==> ParsedWithin(str, |str| + 1) == Some(Parsed(str))
  {
    var x := ReadUint(0, str);
    var z := Scanner(Fresh(x.value), x.rest, x.fail, x.eof);
    if str == "" || (x.value == 0 && x.fail) {
      assert ParsedWithin(str, 0) == Some(Raised(ParseFailed));
    } else if Parsed(str) == Hangs {
      forall turns: nat
        ensures ParsedWithin(str, turns) == None
      {
        HangingRuns(z, turns);
      }
    } else {
      EndingRuns(z, |str| + 1);
      assert ParsedWithin(str, |str| + 1) == Some(Parsed(str));
    }
  }

  // ---------------------------------------------------------------- reading numbers

  /** Characters a number can be made of, none of which means anything to the scanner. */
  predicate IsPlain(c: char) { IsSpace(c) || IsDigit(c) || c == '+' || c == '-' }

  lemma {:induction false} SkipSpaceDrops(s: string) returns (k: nat)
    ensures k <= |s| && SkipSpace(s) == s[k..] && forall i :: 0 <= i < k ==> IsSpace(s[i])
  {
    if s == "" || !IsSpace(s[0]) {
      k := 0;
    } else {
      var j := SkipSpaceDrops(s[1..]);
      k := j + 1;
      assert s[1..][j..] == s[k..];
      assert forall i :: 1 <= i < k ==> s[i] == s[1..][i - 1];
    }
  }

  lemma {:induction false} DigitsArePlain(u: string)
    ensures forall i :: 0 <= i < DigitRun(u) ==> IsPlain(u[i])
  {
    var d := DigitRun(u);
    assert forall i :: 0 <= i < d ==> u[..d][i] == u[i];
  }

  lemma {:induction false} DropTwice(s: string, a: nat, b: nat)
    requires a <= |s| && b <= |s[a..]|
    requires forall i :: 0 <= i < a ==> IsPlain(s[i])
    requires forall i :: 0 <= i < b ==> IsPlain(s[a..][i])
    ensures s[a..][b..] == s[a + b..] && forall i :: 0 <= i < a + b ==> IsPlain(s[i])
  {
    forall i | 0 <= i < a + b
      ensures IsPlain(s[i])
    {
      assert a <= i ==> s[i] == s[a..][i - a];
    }
  }

  /** Reading a number, or failing to, passes over plain characters only. */
  lemma {:induction false} ReadDropsPrefix(held: uint32, s: string) returns (k: nat)
    ensures k <= |s| && ReadUint(held, s).rest == s[k..] && forall i :: 0 <= i < k ==> IsPlain(s[i])
  {
    k := SkipSpaceDrops(s);
    var t := SkipSpace(s);
    if t != "" {
      if t[0] == '-' || t[0] == '+' {
        DropTwice(s, k, 1);
        k := k + 1;
      }
      var u := s[k..];
      DigitsArePlain(u);
      DropTwice(s, k, DigitRun(u));
      k := k + DigitRun(u);
    }
  }

  /** Whatever the target held, the read fails or not alike. */
  lemma {:induction false} ReadFailsAlike(held: uint32, s: string)
    ensures ReadUint(held, s).fail == ReadUint(0, s).fail && ReadUint(held, s).eof == ReadUint(0, s).eof
  {
  }

  // ------------------------------------------------------------- the fate of a text

  /** No number can be read there, or none of 32 bits, and the text goes on behind it. */
  predicate Unreadable(s: string) {
    var x := ReadUint(0, s);
    x.fail && !x.eof
  }

  /** How the scan of a text ends, if it does. */
  datatype Fate = Ends | Loops | Unterminated | MeetsFloat

  /**
   A walk over the text that gathers nothing. A bracket group is passed over; a colon before an
   unreadable number is where the loop hangs; and `~` or `@` starts a float, unless an offset
   was read before, which `offset` tells. All other characters mean nothing.
   */
  function FateOf(s: string, offset: bool): Fate
    decreases |s|
  {
    if s == "" then Ends
    else if s[0] == '[' then
      var k := Find(s, ']');
      if k == |s| then Unterminated else FateOf(s[k + 1..], offset)
    else if s[0] == ':' then if Unreadable(s[1..]) then Loops else FateOf(s[1..], true)
    else if (s[0] == '~' || s[0] == '@') && !offset then MeetsFloat
    else FateOf(s[1..], offset)
  }

  lemma {:induction false} FateOfPlain(s: string, k: nat, offset: bool)
    requires k <= |s| && forall i :: 0 <= i < k ==> IsPlain(s[i])
    ensures FateOf(s, offset) == FateOf(s[k..], offset)
  {
    if 0 < k {
      FateOfPlain(s[1..], k - 1, offset);
      assert s[1..][k - 1..] == s[k..];
    } else {
      assert s[0..] == s;
    }
  }

  lemma {:induction false} FateOfRead(held: uint32, s: string, offset: bool)
    ensures FateOf(s, offset) == FateOf(ReadUint(held, s).rest, offset)
  {
    var k := ReadDropsPrefix(held, s);
    FateOfPlain(s, k, offset);
  }

  /** An outcome and a fate that say the same. */
  predicate Meets(o: Outcome<Component>, f: Fate) {
    match o
    case Ok(_) => f == Ends
    case Hangs => f == Loops
    case Raised(error) => f == Unterminated && error == ParseFailed
    case Float => f == MeetsFloat
    case Undefined => false
  }

  /** Whatever step was gathered before, the scan ends, or does not, as the walk over the text says. */
  lemma {:induction false} ScanFate(c: Component, s: string)
    ensures Meets(Scan(At(c, s)), FateOf(s, c.hasOffset))
    decreases |s|
  {
    var k := SkipSpaceDrops(s);
    FateOfPlain(s, k, c.hasOffset);
    ScanSpaces(c, s);
    var t := SkipSpace(s);
    if t != "" {
      ScanFateAt(c, t);
    }
  }

  lemma {:induction false} ScanFateAt(c: Component, t: string)
    requires t != "" && !IsSpace(t[0])
    ensures Meets(Scan(At(c, t)), FateOf(t, c.hasOffset))
    decreases |t|, 1
  {
    var rest := t[1..];
    assert t == [t[0]] + rest;
    if t[0] == '[' {
      ScanFateOfGroup(c, t);
    } else if t[0] == ':' {
      ScanFateOfColon(c, t);
    } else if Meaningless(c, t[0], rest) {
      ScanMeaningless(c, t[0], rest);
      ScanFate(c, rest);
    } else {
      ScanOne(c, t[0], rest);
    }
  }

  lemma {:induction false} ScanFateOfGroup(c: Component, t: string)
    requires t != "" && t[0] == '['
    ensures Meets(Scan(At(c, t)), FateOf(t, c.hasOffset))
    decreases |t|, 0
  {
    var k := Find(t, ']');
    if k < |t| {
      var c', rest := Bracket(c, t[1..k]), t[k + 1..];
      assert c'.hasOffset == c.hasOffset;
      ScanFate(c', rest);
      assert Scan(At(c, t)) == Scan(At(c', rest)) by {
        ScanBracket(c, t);
      }
    } else {
      ScanBracket(c, t);
    }
  }

  lemma {:induction false} ScanFateOfColon(c: Component, t: string)
    requires t != "" && t[0] == ':'
    ensures Meets(Scan(At(c, t)), FateOf(t, c.hasOffset))
    decreases |t|, 0
  {
    var rest := t[1..];
    var x := ReadUint(c.characterOffset, rest);
    FateOfRead(c.characterOffset, rest, true);
    ReadFailsAlike(c.characterOffset, rest);
    assert t == [':'] + rest;
    ScanOne(c, ':', rest);
    if !x.eof && !x.fail {
      ScanFate(c.(hasOffset := true, characterOffset := x.value), x.rest);
    }
  }

  /**
   The texts on which `Component::Parse` never returns: a first number beyond 32 bits with
   more text behind it, or a readable first number and a text that loops.
   */
  predicate Hanging(str: string) {
    var x := ReadUint(0, str);
    if x.fail then x.value != 0 && !x.eof else FateOf(str, false) == Loops
  }

  /** For every string, how the call ends: it hangs, is refused, meets a float or gives a step. */
  lemma {:induction false} ParseFate(str: string)
    ensures Parsed(str) == Hangs <==> Hanging(str)
    ensures var x := ReadUint(0, str);
            && (Parsed(str) == Raised(ParseFailed) <==>
                  if x.fail then x.value == 0 else FateOf(str, false) == Unterminated)
            && (Parsed(str) == Float <==> !x.fail && FateOf(str, false) == MeetsFloat)
            && (Parsed(str).Ok? <==> if x.fail then x.value != 0 && x.eof else FateOf(str, false) == Ends)
  {
    var x := ReadUint(0, str);
    if str != "" && !x.fail {
      FateOfRead(0, str, false);
      ScanFate(Fresh(x.value), x.rest);
    }
  }
}
