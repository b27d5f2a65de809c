/** The scanner and the printer of one step undo each other, exactly on well-formed steps. */
module CfiComponentLaws {
  import opened Prelude
  import opened CfiNumbers
  import opened CfiSplitter
  import opened CfiComponent

  /** What the scanner can leave in the string fields: no `]`, and no bias clause in a text. */
  predicate Scannable(c: Component) {
    && (c.hasQualifier ==> ']' !in c.qualifier)
    && (c.hasText ==> ']' !in c.textQualifier && !HasBias(c.textQualifier))
  }

  /**
   The steps that survive printing and scanning: scannable, a text assertion only behind
   a non-zero offset, an indirection only without an offset.
   */
  predicate WellFormed(c: Component) {
    && Scannable(c)
    && (c.hasText ==> c.hasOffset && c.characterOffset != 0)
    && (c.isIndirector ==> !c.hasOffset)
  }

  // ------------------------------------------------------- what every scan keeps

  lemma {:induction false} TurnScannable(c: Component, ch: char, rest: string)
    requires Scannable(c) && TakeTurn(c, ch, rest).Go?
    ensures Scannable(TakeTurn(c, ch, rest).next.c)
  {
    if ch == '[' {
      BiasPrefix(rest[..Find(rest, ']')]);
    }
  }

  lemma {:induction false} ScanScannable(z: Scanner)
    requires Scannable(z.c)
    ensures Scan(z).Ok? ==> Scannable(Scan(z).value)
    decreases |z.s|, !z.eof
  {
    if !z.eof && !z.fail && LoopTurn(z).Go? {
      var t := SkipSpace(z.s);
      if t != "" {
        TurnScannable(z.c, t[0], t[1..]);
      }
      ScanScannable(LoopTurn(z).next);
    }
  }

  /** Whatever the scanner accepts, from any string, is scannable. */
  lemma {:induction false} ParsedScannable(str: string)
    requires Parsed(str).Ok?
    ensures Scannable(Parsed(str).value)
  {
    var x := ReadUint(0, str);
    ScanScannable(Scanner(Fresh(x.value), x.rest, x.fail, x.eof));
  }

  // ----------------------------------------------------- scanning printed pieces

  function At(c: Component, s: string): Scanner { Scanner(c, s, false, false) }

  lemma {:induction false} ScanOne(c: Component, ch: char, rest: string)
    requires !IsSpace(ch)
    ensures Scan(At(c, [ch] + rest)) ==
            match TakeTurn(c, ch, rest) { case Go(next) => Scan(next) case Stop(outcome) => outcome }
  {
    var s := [ch] + rest;
    assert SkipSpace(s) == s && s[1..] == rest;
  }

  /** Spaces between the parts of a step are skipped. */
  lemma {:induction false} ScanSpaces(c: Component, s: string)
    ensures Scan(At(c, s)) == Scan(At(c, SkipSpace(s)))
  {
    assert SkipSpace(SkipSpace(s)) == SkipSpace(s);
  }

  /** At the end of the text the end-of-file bit makes no difference. */
  lemma {:induction false} ScanNothing(c: Component, eof: bool)
    ensures Scan(Scanner(c, "", false, eof)) == Ok(c)
  {
  }

  /** The turn at an opening bracket. */
  lemma {:induction false} ScanBracket(c: Component, t: string)
    requires t != "" && t[0] == '['
    ensures var k := Find(t, ']');
            Scan(At(c, t)) ==
            if k == |t| then Raised(ParseFailed) else Scan(At(Bracket(c, t[1..k]), t[k + 1..]))
  {
    var rest := t[1..];
    var j := Find(rest, ']');
    assert SkipSpace(t) == t && Find(t, ']') == j + 1;
    if j < |rest| {
      assert rest[..j] == t[1..j + 1] && rest[j + 1..] == t[j + 2..];
    }
  }

  lemma {:induction false} ScanGroup(c: Component, q: string, rest: string)
    requires ']' !in q
    ensures Scan(At(c, Group(q) + rest)) == Scan(At(Bracket(c, q), rest))
  {
    var t := Group(q) + rest;
    assert Find(t, ']') == |q| + 1 by {
      assert t[|q| + 1] == ']' && forall i :: 1 <= i <= |q| ==> t[i] == q[i - 1];
      FindIs(t, ']', |q| + 1);
    }
    assert t[1..|q| + 1] == q && t[|q| + 2..] == rest;
    ScanBracket(c, t);
  }

  lemma {:induction false} ScanOffset(c: Component, n: uint32, rest: string)
    requires rest == "" || !IsDigit(rest[0])
    ensures Scan(At(c, ":" + Decimal(n) + rest)) == Scan(At(c.(hasOffset := true, characterOffset := n), rest))
  {
    assert ":" + Decimal(n) + rest == [':'] + (Decimal(n) + rest);
    ScanOne(c, ':', Decimal(n) + rest);
    ReadDecimal(c.characterOffset, n, rest);
    if rest == "" {
      ScanNothing(c.(hasOffset := true, characterOffset := n), true);
    }
  }

  /** The end of a printed step: nothing, or a bang that an offset makes void. */
  lemma {:induction false} ScanBang(c: Component, bang: bool)
    requires !c.isIndirector
    ensures Scan(At(c, if bang then "!" else "")) == Ok(c.(isIndirector := bang && !c.hasOffset))
  {
    if bang {
      assert "!" == ['!'] + "";
      ScanOne(c, '!', "");
    }
  }

  /** What scanning a printed scannable step gives. */
  function Reread(c: Component): Component {
    var misplaced := c.hasOffset && c.hasText && c.characterOffset == 0;
    Component(
      c.nodeIndex,
      c.hasQualifier || misplaced,
      if misplaced then c.textQualifier else if c.hasQualifier then c.qualifier else "",
      c.hasOffset, if c.hasOffset then c.characterOffset else 0,
      c.hasOffset && c.hasText && !misplaced,
      if c.hasOffset && c.hasText && !misplaced then c.textQualifier else "",
      c.isIndirector && !c.hasOffset,
      Unspecified)
  }

  /** The offset part, then the bang: the bang is void. */
  lemma {:induction false} ScanOffsetPart(c: Component, b: Component, d: Component)
    requires Scannable(c) && c.hasOffset && !b.isIndirector
    requires d == b.(hasOffset := true, characterOffset := c.characterOffset)
    ensures Scan(At(b, OffsetPart(c) + BangPart(c)))
         == Ok(if c.hasText then Bracket(d, c.textQualifier) else d)
  {
    var head := ":" + Decimal(c.characterOffset);
    var text := if c.hasText then Group(c.textQualifier) else "";
    Regroup(head, text, BangPart(c));
    ScanOffset(b, c.characterOffset, text + BangPart(c));
    if c.hasText {
      ScanGroup(d, c.textQualifier, BangPart(c));
      ScanBang(Bracket(d, c.textQualifier), c.isIndirector);
    } else {
      assert text + BangPart(c) == BangPart(c);
      ScanBang(d, c.isIndirector);
    }
  }

  lemma {:induction false} ScanBody(c: Component)
    requires Scannable(c)
    ensures Parsed(Body(c)) == Ok(Reread(c))
  {
    var b := Fresh(c.nodeIndex);
    var b' := if c.hasQualifier then Bracket(b, c.qualifier) else b;
    ScanHead(c, b, b');
    if c.hasOffset {
      ScanOffsetPart(c, b', b'.(hasOffset := true, characterOffset := c.characterOffset));
      if c.hasText && c.characterOffset != 0 {
        assert c.textQualifier[..|c.textQualifier|] == c.textQualifier;
      }
    } else {
      assert OffsetPart(c) + BangPart(c) == BangPart(c);
      ScanBang(b', c.isIndirector);
    }
  }

  /** The node number and the id. */
  lemma {:induction false} ScanHead(c: Component, b: Component, b': Component)
    requires Scannable(c) && b == Fresh(c.nodeIndex)
    requires b' == if c.hasQualifier then Bracket(b, c.qualifier) else b
    ensures Parsed(Body(c)) == Scan(At(b', OffsetPart(c) + BangPart(c)))
  {
    var offset := OffsetPart(c) + BangPart(c);
    var tail := (if c.hasQualifier then Group(c.qualifier) else "") + offset;
    ReadDecimal(0, c.nodeIndex, tail);
    if tail == "" {
      ScanNothing(b, true);
    }
    assert Parsed(Body(c)) == Scan(At(b, tail));
    if c.hasQualifier {
      ScanGroup(b, c.qualifier, offset);
    } else {
      assert tail == offset;
    }
  }

  /** Scanning a printed step gives an equal step exactly when the step is well formed. */
  lemma {:induction false} StepRoundTrip(c: Component)
    ensures (Parsed(Body(c)).Ok? && SameStep(Parsed(Body(c)).value, c)) <==> WellFormed(c)
  {
    if Scannable(c) {
      ScanBody(c);
    } else if Parsed(Body(c)).Ok? {
      ParsedScannable(Body(c));
    }
  }

  /** Steps that compare equal print alike, well formed or not. */
  lemma {:induction false} SameStepSameBody(a: Component, b: Component)
    requires SameStep(a, b)
    ensures Body(a) == Body(b)
  {
  }

  /** A printed step is one piece to the splitter. */
  lemma {:induction false} BodyClean(c: Component, d: char)
    requires Scannable(c) && (d == '/' || d == ',')
    ensures Body(c) != "" && Clean(Body(c), d)
  {
    CleanPlain(Decimal(c.nodeIndex), d);
    CleanPlain("", d);
    CleanPlain(BangPart(c), d);
    var q := if c.hasQualifier then Group(c.qualifier) else "";
    var t := if c.hasText then Group(c.textQualifier) else "";
    if c.hasQualifier {
      CleanGroup(c.qualifier, d);
    }
    if c.hasText {
      CleanGroup(c.textQualifier, d);
    }
    CleanPlain(":" + Decimal(c.characterOffset), d);
    CleanAppend(":" + Decimal(c.characterOffset), t, d);
    CleanAppend(OffsetPart(c), BangPart(c), d);
    CleanAppend(q, OffsetPart(c) + BangPart(c), d);
    CleanAppend(Decimal(c.nodeIndex), q + (OffsetPart(c) + BangPart(c)), d);
  }

  // ------------------------------------------------------- beyond printed steps

  /** The first bias clause behind a text that holds none. */
  lemma {:induction false} BiasBehind(t: string, x: string)
    requires !HasBias(t)
    ensures BiasAt(t + (BIAS + x)) == |t|
  {
    var s := t + (BIAS + x);
    assert s[|t|..] == BIAS + x;
    forall i | 0 <= i < |t|
      ensures !(BIAS <= s[i..])
    {
      if i + 3 <= |t| {
        assert s[i..][..3] == t[i..][..3];
        assert !(BIAS <= t[i..]);
      } else {
        assert s[i..][|t| - i] == ';';
      }
    }
    assert BIAS <= s[|t|..];
  }

  function BiasOf(x: string): SideBias {
    if x != "" && x[0] == 'b' then Before else if x != "" && x[0] == 'a' then After else Unspecified
  }

  /** A clause that names no side keeps the one read before. */
  lemma {:induction false} BracketBias(c: Component, t: string, x: string)
    requires c.characterOffset != 0 && !HasBias(t)
    ensures Bracket(c, t) == c.(hasText := true, textQualifier := t)
    ensures Bracket(c, t + (BIAS + x)) ==
            c.(hasText := true, textQualifier := t, sideBias := if x == "" then c.sideBias else BiasOf(x))
  {
    BiasBehind(t, x);
    var s := t + (BIAS + x);
    assert s[..|t|] == t && t[..|t|] == t;
    assert x != "" ==> s[|t| + 3] == x[0];
  }

  /** Nowhere in the text stands `;s=`. */
  lemma {:induction false} NoBias(t: string)
    ensures !HasBias(t) <==> forall i :: 0 <= i <= |t| ==> !(";s=" <= t[i..])
  {
  }

  /**
   A text assertion with a bias clause, as in `/3:22[text;s=b]`: the text is kept without the
   clause, and its first letter gives the side.
   */
  lemma {:induction false} ScanBias(n: uint32, offset: uint32, t: string, x: string)
    requires offset != 0 && ']' !in t && ']' !in x
    requires forall i :: 0 <= i <= |t| ==> !(";s=" <= t[i..])
    ensures Parsed(Decimal(n) + (":" + Decimal(offset) + ("[" + (t + (";s=" + x)) + "]")))
         == Ok(Fresh(n).(hasOffset := true, characterOffset := offset, hasText := true, textQualifier := t,
                         sideBias := if x == "" then Unspecified else if x[0] == 'b' then Before
                                     else if x[0] == 'a' then After else Unspecified))
  {
    NoBias(t);
    var group := Group(t + (BIAS + x));
    var tail := ":" + Decimal(offset) + group;
    var c := Fresh(n).(hasOffset := true, characterOffset := offset);
    ReadDecimal(0, n, tail);
    ScanOffset(Fresh(n), offset, group);
    assert group + "" == group;
    ScanGroup(c, t + (BIAS + x), "");
    ScanNothing(Bracket(c, t + (BIAS + x)), false);
    BracketBias(c, t, x);
  }

  /** Characters that mean nothing where they stand: a bang before the end, a float behind an offset, and all but five others. */
  predicate Meaningless(c: Component, ch: char, rest: string) {
    || (ch == '!' && rest != "")
    || ((ch == '~' || ch == '@') && c.hasOffset)
    || ch !in "[~@:!"
  }

  lemma {:induction false} ScanMeaningless(c: Component, ch: char, rest: string)
    requires Meaningless(c, ch, rest)
    ensures Scan(At(c, [ch] + rest)) == Scan(At(c, rest))
  {
    var s := [ch] + rest;
    assert s[0] == ch && s[1..] == rest;
    if !IsSpace(ch) {
      ScanOne(c, ch, rest);
    }
  }

  /** A step with a text assertion behind its offset, and then the offset 0, as in `4:5[y]:0`. */
  function Reoffset(n: uint32, offset: uint32, t: string): string {
    Decimal(n) + (":" + Decimal(offset) + (Group(t) + ":0"))
  }

  /** It scans to a text assertion at offset 0. */
  lemma {:induction false} ScanReoffset(n: uint32, offset: uint32, t: string)
    requires offset != 0 && ']' !in t && !HasBias(t)
    ensures Parsed(Reoffset(n, offset, t))
         == Ok(Fresh(n).(hasOffset := true, hasText := true, textQualifier := t))
  {
    var tail := Group(t) + ":0";
    ReadDecimal(0, n, ":" + Decimal(offset) + tail);
    ScanOffset(Fresh(n), offset, tail);
    var c := Fresh(n).(hasOffset := true, characterOffset := offset);
    ScanGroup(c, t, ":0");
    assert t[..|t|] == t;
    assert ":" + Decimal(0) + "" == ":0";
    ScanOffset(Bracket(c, t), 0, "");
    ScanNothing(Bracket(c, t).(characterOffset := 0), false);
  }

  lemma {:induction false} ReoffsetClean(n: uint32, offset: uint32, t: string, d: char)
    requires ']' !in t && (d == '/' || d == ',')
    ensures Clean(Reoffset(n, offset, t), d)
  {
    CleanPlain(Decimal(n), d);
    CleanPlain(":" + Decimal(offset), d);
    CleanGroup(t, d);
    CleanPlain(":0", d);
    CleanAppend(Group(t), ":0", d);
    CleanAppend(":" + Decimal(offset), Group(t) + ":0", d);
    CleanAppend(Decimal(n), ":" + Decimal(offset) + (Group(t) + ":0"), d);
  }

  /** A colon with no number behind it keeps the scanner in its loop, unless the text ends there. */
  lemma {:induction false} ColonWithoutNumber(n: uint32, rest: string)
    requires rest == "" || !(IsSpace(rest[0]) || IsDigit(rest[0]) || rest[0] == '+' || rest[0] == '-')
    ensures Parsed(Decimal(n) + (":" + rest))
         == if rest == "" then Ok(Fresh(n).(hasOffset := true)) else Hangs
  {
    ReadDecimal(0, n, ":" + rest);
    assert ":" + rest == [':'] + rest;
    ScanOne(Fresh(n), ':', rest);
    ReadNoNumber(0, "", rest);
    assert "" + rest == rest;
  }

  /** A node number beyond 32 bits is clamped at the end of the text, and hangs before it. */
  lemma {:induction false} OversizedNumber(n: nat, rest: string)
    requires n >= WORD && (rest == "" || !IsDigit(rest[0]))
    ensures Parsed(Decimal(n) + rest) == if rest == "" then Ok(Fresh(WORD - 1)) else Hangs
  {
    ReadNumber(0, "", n, rest);
    assert "" + (Decimal(n) + rest) == Decimal(n) + rest;
  }
}
