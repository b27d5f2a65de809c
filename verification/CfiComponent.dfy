/** One step of a CFI: its scanner, its printer, its equality, and how they fit together. */
module CfiComponent {
  import opened Prelude
  import opened CfiNumbers
  import opened CfiSplitter

  // ------------------------------------------------------------------- outcomes

  datatype CfiError =
    | ParseFailed | NonSlashStart | RangeComponentCount | RangeInvalid | RangeSideBias
    | OutOfRange | RangedAppend

  /** How a call ends. */
  datatype Outcome<+T> =
    | Ok(value: T)
    | Raised(error: CfiError)
    | Hangs        // the scanner loop goes round forever
    | Undefined    // reads past the end of a vector
    | Float        // reaches a temporal or spatial offset, whose numbers are not modelled
  {
    predicate IsFailure() { !Ok? }

    function PropagateFailure<U>(): Outcome<U>
      requires IsFailure()
    {
      match this
      case Raised(e) => Raised(e)
      case Hangs => Hangs
      case Undefined => Undefined
      case Float => Float
    }

    function Extract(): T
      requires Ok?
    {
      value
    }
  }

  // ------------------------------------------------------------------ components

  datatype SideBias = Unspecified | Before | After

  datatype Component = Component(
    nodeIndex: uint32,
    hasQualifier: bool, qualifier: string,
    hasOffset: bool, characterOffset: uint32,
    hasText: bool, textQualifier: string,
    isIndirector: bool,
    sideBias: SideBias)

  function Fresh(nodeIndex: uint32): Component {
    Component(nodeIndex, false, "", false, 0, false, "", false, Unspecified)
  }

  /** `Component::operator==`: the side bias is not compared. */
  predicate SameStep(a: Component, b: Component) {
    && a.hasQualifier == b.hasQualifier && a.hasOffset == b.hasOffset
    && a.hasText == b.hasText && a.isIndirector == b.isIndirector
    && a.nodeIndex == b.nodeIndex
    && (a.hasQualifier ==> a.qualifier == b.qualifier)
    && (a.hasOffset ==> a.characterOffset == b.characterOffset)
    && (a.hasText ==> a.textQualifier == b.textQualifier)
  }

  // ---------------------------------------------------------------- text clauses

  const BIAS := ";s="

  /** `sub.find(";s=")`, with `|sub|` standing for `npos`. */
  function BiasAt(sub: string): (k: nat)
    ensures k <= |sub| && (k < |sub| ==> BIAS <= sub[k..])
    ensures forall i :: 0 <= i < k ==> !(BIAS <= sub[i..])
  {
    if sub == "" || BIAS <= sub then 0 else
      var k := BiasAt(sub[1..]);
      assert forall i :: 1 <= i <= |sub| ==> sub[i..] == sub[1..][i - 1..];
      k + 1
  }

  predicate HasBias(sub: string) { BiasAt(sub) < |sub| }

  /** The text kept in front of a bias clause holds none. */
  lemma {:induction false} BiasPrefix(sub: string)
    ensures !HasBias(sub[..BiasAt(sub)])
  {
    var k := BiasAt(sub);
    forall i | 0 <= i < k
      ensures !(BIAS <= sub[..k][i..])
    {
      assert sub[..k][i..] <= sub[i..];
    }
  }

  /** A bracket clause: a text assertion once a non-zero offset was read, an id before. */
  function Bracket(c: Component, sub: string): Component {
    if c.characterOffset != 0 then
      var k := BiasAt(sub);
      var bias :=
        if |sub| <= k + 3 then c.sideBias
        else if sub[k + 3] == 'b' then Before
        else if sub[k + 3] == 'a' then After
        else Unspecified;
      c.(hasText := true, textQualifier := sub[..k], sideBias := bias)
    else
      c.(hasQualifier := true, qualifier := sub)
  }

  // ------------------------------------------------------------------- the scanner

  /** The scanner between two turns of its loop: unread text and the stream's status bits. */
  datatype Scanner = Scanner(c: Component, s: string, fail: bool, eof: bool)

  /** A turn of the loop either goes on or ends the call. */
  datatype Turn = Go(next: Scanner) | Stop(outcome: Outcome<Component>)

  /** The turn that has just read the character `ch`, with `rest` behind it. */
  function TakeTurn(c: Component, ch: char, rest: string): (r: Turn)
    ensures r.Go? ==> |r.next.s| <= |rest|
  {
    match ch
    case '[' =>
      var k := Find(rest, ']');
      if k == |rest| then Stop(Raised(ParseFailed))
      else Go(Scanner(Bracket(c, rest[..k]), rest[k + 1..], false, false))
    case '~' => if c.hasOffset then Go(Scanner(c, rest, false, false)) else Stop(Float)
    case '@' => if c.hasOffset then Go(Scanner(c, rest, false, false)) else Stop(Float)
    case ':' =>
      var x := ReadUint(c.characterOffset, rest);
      Go(Scanner(c.(hasOffset := true, characterOffset := x.value), x.rest, x.fail, x.eof))
    case '!' =>
      if rest != "" then Go(Scanner(c, rest, false, false))
      else Go(Scanner(if c.hasOffset then c else c.(isIndirector := true), "", false, true))
    case _ => Go(Scanner(c, rest, false, false))
  }

  /**
   The loop body on any state in which the end-of-file bit is not set. On a failed stream
   every read is a no-op and the switch takes its default branch: nothing changes.
   */
  function LoopTurn(z: Scanner): (r: Turn)
    ensures !z.fail && r.Go? ==> |r.next.s| < |z.s| || (|r.next.s| == |z.s| && r.next.eof)
  {
    if z.fail then Go(z)
    else
      var t := SkipSpace(z.s);
      if t == "" then Go(Scanner(z.c, "", true, true)) else TakeTurn(z.c, t[0], t[1..])
  }

  /** The scanner loop; `ScanHangs` justifies the answer `Hangs`. */
  function Scan(z: Scanner): Outcome<Component>
    decreases |z.s|, !z.eof
  {
    if z.eof then Ok(z.c)
    else if z.fail then Hangs
    else
      match LoopTurn(z)
      case Go(next) => Scan(next)
      case Stop(outcome) => outcome
  }

  /** `Component::Parse`. */
  function Parsed(str: string): Outcome<Component> {
    if str == "" then Raised(ParseFailed)
    else
      var x := ReadUint(0, str);
      if x.value == 0 && x.fail then Raised(ParseFailed)
      else Scan(Scanner(Fresh(x.value), x.rest, x.fail, x.eof))
  }

  /** `Component::Parse`, with the loop of the source. */
  method Parse(str: string) returns (r: Outcome<Component>)
    ensures r == Parsed(str)
  {
    if str == "" {
      return Raised(ParseFailed);
    }
    var x := ReadUint(0, str);
    if x.value == 0 && x.fail {
      return Raised(ParseFailed);
    }
    var c, s, fail, eof := Fresh(x.value), x.rest, x.fail, x.eof;
    while !eof
      invariant Parsed(str) == Scan(Scanner(c, s, fail, eof))
      decreases |s|, !eof
    {
      if fail {
        return Hangs;
      }
      var t := SkipSpace(s);
      if t == "" {
        s, fail, eof := "", true, true;
        continue;
      }
      s := t[1..];
      ghost var turn := TakeTurn(c, t[0], s);
      assert Parsed(str) == if turn.Go? then Scan(turn.next) else turn.outcome;
      match t[0] {
        case '[' =>
          var k := Find(s, ']');
          if k == |s| {
            return Raised(ParseFailed);
          }
          c, s := Bracket(c, s[..k]), s[k + 1..];
        case '~' =>
          if !c.hasOffset {
            return Float;
          }
        case '@' =>
          if !c.hasOffset {
            return Float;
          }
        case ':' =>
          x := ReadUint(c.characterOffset, s);
          c := c.(hasOffset := true, characterOffset := x.value);
          s, fail, eof := x.rest, x.fail, x.eof;
        case '!' =>
          if s == "" {
            eof := true;
            if !c.hasOffset {
              c := c.(isIndirector := true);
            }
          }
        case _ =>
      }
      assert turn == Go(Scanner(c, s, fail, eof));
    }
    return Ok(c);
  }

  // ------------------------------------------------------------------- the printer

  function Group(s: string): string { "[" + s + "]" }

  function OffsetPart(c: Component): string {
    if c.hasOffset then
      ":" + Decimal(c.characterOffset) + (if c.hasText then Group(c.textQualifier) else "")
    else ""
  }

  function BangPart(c: Component): string { if c.isIndirector then "!" else "" }

  /** A step as `AppendComponents` prints it, after its slash. */
  function Body(c: Component): string {
    Decimal(c.nodeIndex) + ((if c.hasQualifier then Group(c.qualifier) else "") + (OffsetPart(c) + BangPart(c)))
  }

  /** The texts of a list, one by one. */
  function Texts<T>(text: T -> string, list: seq<T>): (r: seq<string>)
    ensures |r| == |list|
  {
    if list == [] then [] else [text(list[0])] + Texts(text, list[1..])
  }

  lemma {:induction false} TextsAppend<T>(text: T -> string, a: seq<T>, b: seq<T>)
    ensures Texts(text, a + b) == Texts(text, a) + Texts(text, b)
  {
    if a == [] {
      assert a + b == b;
    } else {
      TextsAppend(text, a[1..], b);
      assert (a + b)[1..] == a[1..] + b;
    }
  }

  function Bodies(cs: seq<Component>): seq<string> { Texts(Body, cs) }

  function PrintedSteps(cs: seq<Component>): string {
    if cs == [] then "" else "/" + Body(cs[0]) + PrintedSteps(cs[1..])
  }

  lemma {:induction false} PrintedIsPrefixed(cs: seq<Component>)
    ensures PrintedSteps(cs) == Prefixed(Bodies(cs), '/')
  {
    if cs != [] {
      PrintedIsPrefixed(cs[1..]);
      assert Bodies(cs)[1..] == Bodies(cs[1..]);
    }
  }

  /** `AppendComponents`, appending to a stream that holds `builder`. */
  method AppendComponents(builder: string, cs: seq<Component>) returns (out: string)
    ensures out == builder + PrintedSteps(cs)
  {
    out := builder;
    var pos := 0;
    assert cs[0..] == cs;
    while pos != |cs|
      invariant pos <= |cs|
      invariant out + PrintedSteps(cs[pos..]) == builder + PrintedSteps(cs)
    {
      var step := PrintOne(out, cs[pos]);
      Regroup(out, "/" + Body(cs[pos]), PrintedSteps(cs[pos + 1..]));
      assert cs[pos..][1..] == cs[pos + 1..];
      out := step;
      pos := pos + 1;
    }
    assert cs[pos..] == [] && out + "" == out;
  }

  lemma {:induction false} RegroupStep(a: string, b: string, c: string, d: string, e: string, f: string)
    ensures a + b + c + d + e + f == a + (b + (c + (d + (e + f))))
  {
    Regroup(a + b + c + d, e, f);
    Regroup(a + b + c, d, e + f);
    Regroup(a + b, c, d + (e + f));
    Regroup(a, b, c + (d + (e + f)));
  }

  /** The body of the printing loop. */
  method PrintOne(builder: string, c: Component) returns (out: string)
    ensures out == builder + ("/" + Body(c))
  {
    var q, o := "", "";
    if c.hasQualifier {
      q := "[" + c.qualifier + "]";
    }
    if c.hasOffset {
      o := PrintOffset(c);
    }
    var e := if c.isIndirector then "!" else "";
    out := builder + "/" + Decimal(c.nodeIndex) + q + o + e;
    RegroupStep(builder, "/", Decimal(c.nodeIndex), q, o, e);
  }

  /** The offset part of the printing loop. */
  method PrintOffset(c: Component) returns (out: string)
    requires c.hasOffset
    ensures out == OffsetPart(c)
  {
    out := ":" + Decimal(c.characterOffset);
    ghost var head := out;
    if c.hasText {
      out := out + "[" + c.textQualifier + "]";
      Regroup(head, "[", c.textQualifier);
      Regroup(head, "[" + c.textQualifier, "]");
    } else {
      assert head + "" == head;
    }
  }
}
