/**
 The bracket-aware splitter of CFI strings. A string is read as a run of tokens: a
 bracket group `[...]` (up to the first `]`) or a single character. A delimiter only
 separates pieces when it is a token of its own.
 */
module CfiSplitter {
  import opened Prelude

  // ---------------------------------------------------------------- searching

  /** `s.find_first_of(c)`, with `|s|` standing for `npos`. */
  function Find(s: string, c: char): (k: nat)
    ensures k <= |s| && forall i :: 0 <= i < k ==> s[i] != c
    ensures k < |s| ==> s[k] == c
  {
    if s == "" || s[0] == c then 0 else Find(s[1..], c) + 1
  }

  lemma {:induction false} FindIs(s: string, c: char, k: nat)
    requires k < |s| && s[k] == c && forall i :: 0 <= i < k ==> s[i] != c
    ensures Find(s, c) == k
  {
  }

  // ------------------------------------------------- the reference definitions

  /** Every `[` outside a bracket group has a closing `]`. */
  predicate Closed(s: string)
    decreases |s|
  {
    s == "" ||
    if s[0] == '[' then
      var k := Find(s, ']');
      k < |s| && Closed(s[k + 1..])
    else Closed(s[1..])
  }

  /** Closed, and without an unbracketed `d`. */
  predicate Clean(s: string, d: char)
    decreases |s|
  {
    s == "" ||
    if s[0] == '[' then
      var k := Find(s, ']');
      k < |s| && Clean(s[k + 1..], d)
    else s[0] != d && Clean(s[1..], d)
  }

  /** `s` without its unbracketed delimiters. */
  function Strip(s: string, d: char): string
    decreases |s|
  {
    if s == "" then ""
    else if s[0] == '[' then
      var k := Find(s, ']');
      if k == |s| then s else s[..k + 1] + Strip(s[k + 1..], d)
    else (if s[0] == d then "" else [s[0]]) + Strip(s[1..], d)
  }

  function Concat(pieces: seq<string>): string {
    if pieces == [] then "" else pieces[0] + Concat(pieces[1..])
  }

  function Join(pieces: seq<string>, d: char): string {
    if pieces == [] then ""
    else if |pieces| == 1 then pieces[0]
    else pieces[0] + [d] + Join(pieces[1..], d)
  }

  /** Each piece preceded by a delimiter, as the printer writes component lists. */
  function Prefixed(pieces: seq<string>, d: char): string {
    if pieces == [] then "" else [d] + pieces[0] + Prefixed(pieces[1..], d)
  }

  predicate Pieces(pieces: seq<string>, d: char) {
    forall i :: 0 <= i < |pieces| ==> pieces[i] != "" && Clean(pieces[i], d)
  }

  function Push(pieces: seq<string>, cur: string): seq<string> {
    if cur == "" then pieces else pieces + [cur]
  }

  /** The pieces of `s` once `cur` has been gathered; `None` for an unterminated bracket. */
  function Split(s: string, d: char, cur: string := ""): Option<seq<string>>
    decreases |s|
  {
    if s == "" then Some(Push([], cur))
    else if s[0] == '[' then
      var k := Find(s, ']');
      if k == |s| then None else Split(s[k + 1..], d, cur + s[..k + 1])
    else if s[0] == d then
      match Split(s[1..], d)
      case None => None
      case Some(rest) => Some(Push([], cur) + rest)
    else Split(s[1..], d, cur + [s[0]])
  }

  // ------------------------------------------------------------- clean strings

  lemma {:induction false} CleanAppend(a: string, b: string, d: char)
    requires Clean(a, d) && Clean(b, d)
    ensures Clean(a + b, d)
    decreases |a|
  {
    if a == "" {
      assert a + b == b;
    } else if a[0] == '[' {
      var k := Find(a, ']');
      FindIs(a + b, ']', k);
      CleanAppend(a[k + 1..], b, d);
      assert (a + b)[k + 1..] == a[k + 1..] + b;
    } else {
      CleanAppend(a[1..], b, d);
      assert (a + b)[1..] == a[1..] + b;
    }
  }

  /** A bracket group hides whatever it holds. */
  lemma {:induction false} CleanGroup(q: string, d: char)
    requires ']' !in q
    ensures Clean("[" + q + "]", d)
  {
    var s := "[" + q + "]";
    FindIs(s, ']', |q| + 1);
    assert s[|q| + 2..] == "";
  }

  lemma {:induction false} CleanPlain(s: string, d: char)
    requires d !in s && '[' !in s
    ensures Clean(s, d)
  {
    if s != "" {
      CleanPlain(s[1..], d);
    }
  }

  lemma {:induction false} CleanPrefixed(pieces: seq<string>, d: char, e: char)
    requires d != e && e != '['
    requires forall i :: 0 <= i < |pieces| ==> Clean(pieces[i], d)
    ensures Clean(Prefixed(pieces, e), d)
  {
    if pieces != [] {
      CleanPrefixed(pieces[1..], d, e);
      CleanPlain([e], d);
      CleanAppend([e], pieces[0], d);
      CleanAppend([e] + pieces[0], Prefixed(pieces[1..], e), d);
    }
  }

  // ------------------------------------------------------- splitter correctness

  /** A clean prefix is gathered whole. */
  lemma {:induction false} SplitClean(p: string, rest: string, d: char, cur: string)
    requires Clean(p, d)
    ensures Split(p + rest, d, cur) == Split(rest, d, cur + p)
    decreases |p|
  {
    if p == "" {
      assert p + rest == rest && cur + p == cur;
    } else if p[0] == '[' {
      var k := Find(p, ']');
      FindIs(p + rest, ']', k);
      assert (p + rest)[k + 1..] == p[k + 1..] + rest;
      assert (p + rest)[..k + 1] == p[..k + 1];
      SplitClean(p[k + 1..], rest, d, cur + p[..k + 1]);
      Regroup(cur, p[..k + 1], p[k + 1..]);
      assert p[..k + 1] + p[k + 1..] == p;
    } else {
      assert (p + rest)[1..] == p[1..] + rest;
      SplitClean(p[1..], rest, d, cur + [p[0]]);
      Regroup(cur, [p[0]], p[1..]);
      assert [p[0]] + p[1..] == p;
    }
  }

  lemma {:induction false} PushFront(cur: string, rest: seq<string>, d: char)
    requires Clean(cur, d) && Pieces(rest, d)
    ensures Pieces(Push([], cur) + rest, d)
    ensures Concat(Push([], cur) + rest) == cur + Concat(rest)
  {
    if cur == "" {
      assert Push([], cur) + rest == rest;
    } else {
      assert Push([], cur) == [cur];
      assert ([cur] + rest)[1..] == rest;
    }
  }

  /** Splitting succeeds exactly on closed strings. */
  lemma {:induction false} SplitSucceeds(s: string, d: char, cur: string)
    requires d != '['
    ensures Split(s, d, cur).Some? <==> Closed(s)
    decreases |s|
  {
    if s == "" {
    } else if s[0] == '[' {
      var k := Find(s, ']');
      if k < |s| {
        SplitSucceeds(s[k + 1..], d, cur + s[..k + 1]);
      }
    } else if s[0] == d {
      SplitSucceeds(s[1..], d, "");
    } else {
      SplitSucceeds(s[1..], d, cur + [s[0]]);
    }
  }

  /** The pieces are non-empty and clean, and hold the input minus its unbracketed delimiters. */
  ghost predicate SplitsTo(s: string, d: char, cur: string, pieces: seq<string>) {
    Pieces(pieces, d) && Concat(pieces) == cur + Strip(s, d)
  }

  lemma {:induction false} SplitCorrect(s: string, d: char, cur: string)
    requires d != '[' && Clean(cur, d)
    requires Split(s, d, cur).Some?
    ensures SplitsTo(s, d, cur, Split(s, d, cur).value)
    decreases |s|
  {
    if s == "" {
    } else if s[0] == '[' {
      GatherToken(s, d, cur, Find(s, ']') + 1);
    } else if s[0] == d {
      SplitCorrect(s[1..], d, "");
      PushFront(cur, Split(s[1..], d).value, d);
      assert "" + Strip(s[1..], d) == Strip(s[1..], d);
    } else {
      GatherToken(s, d, cur, 1);
    }
  }

  /** The case of a token that is not a delimiter. */
  lemma {:induction false} GatherToken(s: string, d: char, cur: string, n: nat)
    requires d != '[' && Clean(cur, d)
    requires Split(s, d, cur).Some?
    requires s != "" && s[0] != d && n == (if s[0] == '[' then Find(s, ']') + 1 else 1)
    ensures SplitsTo(s, d, cur, Split(s, d, cur).value)
    decreases |s|, 0
  {
    var head, tail := s[..n], s[n..];
    assert Clean(head, d) by {
      if s[0] == '[' {
        assert head == "[" + s[1..n - 1] + "]";
        CleanGroup(s[1..n - 1], d);
      } else {
        assert head == [s[0]];
        CleanPlain(head, d);
      }
    }
    CleanAppend(cur, head, d);
    assert s[0] != '[' ==> head == [s[0]];
    assert Split(s, d, cur) == Split(tail, d, cur + head);
    SplitCorrect(tail, d, cur + head);
    Regroup(cur, head, Strip(tail, d));
    assert Strip(s, d) == head + Strip(tail, d);
  }

  /** A clean string is at most one piece. */
  lemma {:induction false} SplitOne(a: string, d: char)
    requires Clean(a, d)
    ensures Split(a, d) == Some(Push([], a))
  {
    SplitClean(a, "", d, "");
    assert a + "" == a == "" + a;
  }

  /** A clean string in front of a delimiter is the first piece, unless it is empty. */
  lemma {:induction false} SplitNext(a: string, rest: string, d: char)
    requires d != '[' && Clean(a, d) && Split(rest, d).Some?
    ensures Split(a + ([d] + rest), d) == Some(Push([], a) + Split(rest, d).value)
  {
    SplitClean(a, [d] + rest, d, "");
    assert "" + a == a && ([d] + rest)[1..] == rest;
  }

  /** Splitting undoes joining. */
  lemma {:induction false} SplitJoin(pieces: seq<string>, d: char)
    requires d != '[' && Pieces(pieces, d)
    ensures Split(Join(pieces, d), d) == Some(pieces)
  {
    if |pieces| == 1 {
      SplitOne(pieces[0], d);
      assert Push([], pieces[0]) == pieces;
    } else if 1 < |pieces| {
      var rest := pieces[1..];
      SplitJoin(rest, d);
      SplitNext(pieces[0], Join(rest, d), d);
      Regroup(pieces[0], [d], Join(rest, d));
      assert Push([], pieces[0]) + rest == pieces;
    }
  }

  /** Splitting undoes the printer's delimiter-before-each-piece form. */
  lemma {:induction false} SplitPrefixed(pieces: seq<string>, d: char)
    requires d != '[' && Pieces(pieces, d)
    ensures Split(Prefixed(pieces, d), d) == Some(pieces)
  {
    PrefixedIsJoin(pieces, d);
    if pieces != [] {
      SplitJoin(pieces, d);
      assert ([d] + Join(pieces, d))[1..] == Join(pieces, d);
      assert Push([], "") + pieces == pieces;
    }
  }

  lemma {:induction false} PrefixedAppend(a: seq<string>, b: seq<string>, d: char)
    ensures Prefixed(a + b, d) == Prefixed(a, d) + Prefixed(b, d)
  {
    if a == [] {
      assert a + b == b && "" + Prefixed(b, d) == Prefixed(b, d);
    } else {
      PrefixedAppend(a[1..], b, d);
      assert (a + b)[1..] == a[1..] + b;
      Regroup([d] + a[0], Prefixed(a[1..], d), Prefixed(b, d));
    }
  }

  lemma {:induction false} PrefixedIsJoin(pieces: seq<string>, d: char)
    ensures Prefixed(pieces, d) == if pieces == [] then "" else [d] + Join(pieces, d)
  {
    if |pieces| == 1 {
      assert Prefixed(pieces[1..], d) == "";
    } else if 1 < |pieces| {
      PrefixedIsJoin(pieces[1..], d);
    }
  }

  // --------------------------------------------------------------- the splitter

  /** A run of ordinary characters is gathered whole. */
  lemma {:induction false} SplitRun(s: string, d: char, cur: string, k: nat)
    requires k <= |s| && forall i :: 0 <= i < k ==> s[i] != d && s[i] != '['
    ensures Split(s, d, cur) == Split(s[k..], d, cur + s[..k])
  {
    CleanPlain(s[..k], d);
    SplitClean(s[..k], s[k..], d, cur);
    assert s[..k] + s[k..] == s;
  }

  /** What remains to be found, behind the pieces found already. */
  function Behind(found: seq<string>, rest: Option<seq<string>>): Option<seq<string>> {
    match rest
    case None => None
    case Some(pieces) => Some(found + pieces)
  }

  /** `cfi.find_first_of(breaks, pos)` for the two-character set `{d, '['}`. */
  method FindBreak(s: string, pos: nat, d: char) returns (loc: nat)
    requires pos <= |s|
    ensures pos <= loc <= |s|
    ensures forall i :: pos <= i < loc ==> s[i] != d && s[i] != '['
    ensures loc < |s| ==> s[loc] == d || s[loc] == '['
  {
    loc := pos;
    while loc < |s| && s[loc] != d && s[loc] != '['
      invariant pos <= loc <= |s|
      invariant forall i :: pos <= i < loc ==> s[i] != d && s[i] != '['
    {
      loc := loc + 1;
    }
  }

  /** The loop has found `found`, has `tmp` in hand and `s` still to read. */
  ghost predicate Pending(cfi: string, d: char, found: seq<string>, tmp: string, s: string) {
    Split(cfi, d) == Behind(found, Split(s, d, tmp))
  }

  /** Over a run of ordinary characters from `pos` to `loc`. */
  lemma {:induction false} PendingRun(cfi: string, d: char, found: seq<string>, tmp: string, pos: nat, loc: nat)
    requires pos <= loc <= |cfi| && Pending(cfi, d, found, tmp, cfi[pos..])
    requires forall i :: pos <= i < loc ==> cfi[i] != d && cfi[i] != '['
    ensures Pending(cfi, d, found, tmp + cfi[pos..loc], cfi[loc..])
  {
    var s := cfi[pos..];
    SplitRun(s, d, tmp, loc - pos);
    assert s[..loc - pos] == cfi[pos..loc] && s[loc - pos..] == cfi[loc..];
  }

  /** At a delimiter: the piece in hand is taken. */
  lemma {:induction false} PendingDelimiter(cfi: string, d: char, found: seq<string>, tmp: string, loc: nat)
    requires d != '[' && loc < |cfi| && cfi[loc] == d && Pending(cfi, d, found, tmp, cfi[loc..])
    ensures Pending(cfi, d, Push(found, tmp), "", cfi[loc + 1..])
  {
    assert cfi[loc..][1..] == cfi[loc + 1..];
    var rest := Split(cfi[loc + 1..], d);
    if rest.Some? {
      assert found + (Push([], tmp) + rest.value) == Push(found, tmp) + rest.value;
    }
  }

  /** At a bracket group: it is gathered whole, or never closes. */
  lemma {:induction false} PendingGroup(cfi: string, d: char, found: seq<string>, tmp: string, loc: nat, k: nat)
    requires loc < |cfi| && cfi[loc] == '[' && k == Find(cfi[loc..], ']')
    requires Pending(cfi, d, found, tmp, cfi[loc..])
    ensures if k == |cfi| - loc then Split(cfi, d).None?
            else Pending(cfi, d, found, tmp + cfi[loc..loc + k + 1], cfi[loc + k + 1..])
  {
    if k < |cfi| - loc {
      assert cfi[loc..][..k + 1] == cfi[loc..loc + k + 1] && cfi[loc..][k + 1..] == cfi[loc + k + 1..];
    }
  }

  lemma {:induction false} PendingDone(cfi: string, d: char, found: seq<string>, tmp: string)
    requires Pending(cfi, d, found, tmp, "")
    ensures Split(cfi, d) == Some(Push(found, tmp))
  {
    assert found + Push([], tmp) == Push(found, tmp);
  }

  lemma {:induction false} PendingStart(cfi: string, d: char)
    ensures Pending(cfi, d, [], "", cfi[0..])
  {
    assert cfi[0..] == cfi;
    if Split(cfi, d).Some? {
      assert [] + Split(cfi, d).value == Split(cfi, d).value;
    }
  }

  /** `CFIComponentStrings`: `None` is the raised "unterminated qualifier". */
  method ComponentStrings(cfi: string, d: char) returns (r: Option<seq<string>>)
    requires d != '['
    ensures r == Split(cfi, d)
  {
    var components: seq<string> := [];
    var tmp, pos := "", 0;
    PendingStart(cfi, d);
    while pos < |cfi|
      invariant pos <= |cfi|
      invariant Pending(cfi, d, components, tmp, cfi[pos..])
    {
      var loc := FindBreak(cfi, pos, d);
      PendingRun(cfi, d, components, tmp, pos, loc);
      tmp, pos := tmp + cfi[pos..loc], loc;
      if loc == |cfi| {
        break;
      } else if cfi[loc] == '[' {
        var k := Find(cfi[loc..], ']');
        PendingGroup(cfi, d, components, tmp, loc, k);
        if k == |cfi| - loc {
          return None;
        }
        tmp, pos := tmp + cfi[loc..loc + k + 1], loc + k + 1;
      } else {
        PendingDelimiter(cfi, d, components, tmp, loc);
        components := Push(components, tmp);
        tmp, pos := "", loc + 1;
      }
    }
    assert cfi[pos..] == "";
    PendingDone(cfi, d, components, tmp);
    return Some(Push(components, tmp));
  }
}
