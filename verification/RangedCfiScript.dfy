/**
 The reader's own range splitter, `splitRangedCFI` of the JavaScript resolver, and
 exactly when it agrees with the C++ splitter.
 */
module RangedCfiScript {
  import opened Prelude
  import opened CfiSplitter

  /** All pieces between unbracketed delimiters, empty ones included. */
  function AllPieces(s: string, d: char, cur: string := ""): (r: seq<string>)
    ensures r != []
    decreases |s|
  {
    if s == "" then [cur]
    else if s[0] == '[' then
      var k := Find(s, ']');
      if k == |s| then [cur + s] else AllPieces(s[k + 1..], d, cur + s[..k + 1])
    else if s[0] == d then [cur] + AllPieces(s[1..], d)
    else AllPieces(s[1..], d, cur + [s[0]])
  }

  function NonEmpty(pieces: seq<string>): (r: seq<string>)
    ensures "" !in r
  {
    if pieces == [] then [] else Push([], pieces[0]) + NonEmpty(pieces[1..])
  }

  /** The script drops an empty piece only at the end. */
  function DropEmptyEnd(pieces: seq<string>): seq<string>
    requires pieces != []
  {
    Push(pieces[..|pieces| - 1], pieces[|pieces| - 1])
  }

  /** The C++ splitter drops every empty piece. */
  lemma {:induction false} SplitIsNonEmpty(s: string, d: char, cur: string)
    requires d != '[' && Closed(s)
    ensures Split(s, d, cur) == Some(NonEmpty(AllPieces(s, d, cur)))
    decreases |s|
  {
    if s == "" {
      assert NonEmpty([cur]) == Push([], cur) + [] == Push([], cur);
    } else if s[0] == '[' {
      var k := Find(s, ']');
      SplitIsNonEmpty(s[k + 1..], d, cur + s[..k + 1]);
    } else if s[0] == d {
      SplitIsNonEmpty(s[1..], d, "");
      assert ([cur] + AllPieces(s[1..], d))[1..] == AllPieces(s[1..], d);
    } else {
      SplitIsNonEmpty(s[1..], d, cur + [s[0]]);
    }
  }

  lemma {:induction false} NonEmptyKeepsAll(pieces: seq<string>)
    requires pieces != [] && forall i :: 0 <= i < |pieces| - 1 ==> pieces[i] != ""
    ensures NonEmpty(pieces) == DropEmptyEnd(pieces)
  {
    if |pieces| == 1 {
      assert NonEmpty(pieces[1..]) == [];
    } else {
      NonEmptyKeepsAll(pieces[1..]);
      assert [pieces[0]] + pieces[1..][..|pieces| - 2] == pieces[..|pieces| - 1];
    }
  }

  /** What the script computes; an unterminated bracket reaches to the end of the string. */
  function ScriptPieces(s: string): seq<string> {
    DropEmptyEnd(AllPieces(s, ','))
  }

  /**
   The two range splitters agree exactly when all brackets are closed and no piece before the
   last is empty: the string starts with no comma and holds no two commas in a row.
   */
  lemma {:induction false} SplittersAgree(s: string)
    ensures var pieces := AllPieces(s, ',');
            Split(s, ',') == Some(ScriptPieces(s))
            <==> Closed(s) && forall i :: 0 <= i < |pieces| - 1 ==> pieces[i] != ""
  {
    var pieces := AllPieces(s, ',');
    SplitSucceeds(s, ',', "");
    if Closed(s) {
      SplitIsNonEmpty(s, ',', "");
      if i :| 0 <= i < |pieces| - 1 && pieces[i] == "" {
        assert DropEmptyEnd(pieces)[i] == "";
      } else {
        NonEmptyKeepsAll(pieces);
      }
    }
  }

  /** An input on which they differ: the script keeps the empty base. */
  lemma {:induction false} SplittersDisagree()
    ensures Split(",1", ',') == Some(["1"])
    ensures ScriptPieces(",1") == ["", "1"]
  {
    assert ",1"[1..] == "1" && "1"[1..] == "";
    assert "" + ['1'] == "1";
    assert AllPieces("1", ',') == AllPieces("", ',', "1") == ["1"];
    assert Split("1", ',') == Split("", ',', "1") == Some(Push([], "1"));
    assert Push([], "1") == ["1"];
    assert Push([], "") + ["1"] == ["1"];
    assert AllPieces(",1", ',') == ["", "1"];
    assert ["", "1"][..1] == [""];
  }

  // ------------------------------------------------------------------ the loop

  /** `s.indexOf(c, from)`. */
  function IndexOf(s: string, c: char, from: nat): (r: int)
    requires from <= |s|
    ensures r == -1 || (from <= r < |s| && s[r] == c)
    ensures forall i :: from <= i < (if r == -1 then |s| else r) ==> s[i] != c
  {
    var k := Find(s[from..], c);
    assert forall i :: from <= i < from + k ==> s[i] == s[from..][i - from];
    if k == |s[from..]| then -1 else from + k
  }

  lemma {:induction false} PiecesRun(s: string, d: char, cur: string, k: nat)
    requires k <= |s| && forall i :: 0 <= i < k ==> s[i] != d && s[i] != '['
    ensures AllPieces(s, d, cur) == AllPieces(s[k..], d, cur + s[..k])
  {
    if k == 0 {
      assert s[0..] == s && cur + s[..0] == cur;
    } else {
      PiecesRun(s[1..], d, cur + [s[0]], k - 1);
      assert s[1..][k - 1..] == s[k..] && cur + [s[0]] + s[1..][..k - 1] == cur + s[..k];
    }
  }

  lemma {:induction false} NoMoreDelimiters(s: string, d: char, cur: string)
    requires d != '[' && d !in s
    ensures AllPieces(s, d, cur) == [cur + s]
    decreases |s|
  {
    if s == "" {
      assert cur + s == cur;
    } else if s[0] == '[' {
      var k := Find(s, ']');
      if k < |s| {
        NoMoreDelimiters(s[k + 1..], d, cur + s[..k + 1]);
        assert cur + s[..k + 1] + s[k + 1..] == cur + s;
      }
    } else {
      NoMoreDelimiters(s[1..], d, cur + [s[0]]);
      assert cur + [s[0]] + s[1..] == cur + s;
    }
  }

  /** The loop has `found`, is gathering from `start`, and has `s[scan..]` to read. */
  ghost predicate Gathering(s: string, found: seq<string>, start: nat, scan: nat) {
    && start <= scan <= |s|
    && AllPieces(s, ',') == found + AllPieces(s[scan..], ',', s[start..scan])
  }

  /** Moving over ordinary characters. */
  lemma {:induction false} GatherRun(s: string, found: seq<string>, start: nat, scan: nat, to: nat)
    requires Gathering(s, found, start, scan) && scan <= to <= |s|
    requires forall i :: scan <= i < to ==> s[i] != ',' && s[i] != '['
    ensures Gathering(s, found, start, to)
  {
    PiecesRun(s[scan..], ',', s[start..scan], to - scan);
    assert s[scan..][to - scan..] == s[to..];
    assert s[start..scan] + s[scan..][..to - scan] == s[start..to];
  }

  /** Moving from a `[` to its `]`, which the script then reads as an ordinary character. */
  lemma {:induction false} GatherGroup(s: string, found: seq<string>, start: nat, brace: nat, close: nat)
    requires Gathering(s, found, start, brace) && brace < close < |s| && s[brace] == '[' && s[close] == ']'
    requires forall i :: brace < i < close ==> s[i] != ']'
    ensures Gathering(s, found, start, close)
  {
    FindIs(s[brace..], ']', close - brace);
    assert s[brace..][close - brace + 1..] == s[close..][1..];
    assert s[start..brace] + s[brace..][..close - brace + 1] == s[start..close] + [s[close..][0]];
  }

  /** Taking a piece at a comma. */
  lemma {:induction false} GatherPiece(s: string, found: seq<string>, start: nat, comma: nat)
    requires Gathering(s, found, start, comma) && comma < |s| && s[comma] == ','
    ensures Gathering(s, found + [s[start..comma]], comma + 1, comma + 1)
  {
    var rest := AllPieces(s[comma + 1..], ',');
    assert s[comma..][1..] == s[comma + 1..] && s[comma + 1..comma + 1] == "";
    assert found + ([s[start..comma]] + rest) == found + [s[start..comma]] + rest;
  }

  /** The loop invariant; behind an unterminated bracket the scan has failed and the rest is one piece. */
  ghost predicate Scanning(s: string, found: seq<string>, start: nat, scan: int) {
    if 0 <= scan then Gathering(s, found, start, scan)
    else start <= |s| && AllPieces(s, ',') == found + [s[start..]]
  }

  lemma {:induction false} ScanStart(s: string)
    ensures Scanning(s, [], 0, 0)
  {
    assert s[0..] == s && s[0..0] == "" && [] + AllPieces(s, ',') == AllPieces(s, ',');
  }

  lemma {:induction false} ScanBrace(s: string, found: seq<string>, start: nat, scan: nat, brace: nat)
    requires scan <= |s| && Scanning(s, found, start, scan) && brace == IndexOf(s, '[', scan)
    requires forall i :: scan <= i < brace ==> s[i] != ','
    ensures Scanning(s, found, start, IndexOf(s, ']', brace + 1))
  {
    GatherRun(s, found, start, scan, brace);
    var close := IndexOf(s, ']', brace + 1);
    if close == -1 {
      GatherRest(s, found, start, brace);
    } else {
      GatherGroup(s, found, start, brace, close);
    }
  }

  /** A bracket that is never closed. */
  lemma {:induction false} GatherRest(s: string, found: seq<string>, start: nat, brace: nat)
    requires Gathering(s, found, start, brace) && brace < |s| && s[brace] == '['
    requires forall i :: brace < i < |s| ==> s[i] != ']'
    ensures AllPieces(s, ',') == found + [s[start..]]
  {
    var rest := s[brace..];
    assert forall i :: 0 <= i < |rest| ==> rest[i] == s[brace + i];
    assert s[start..brace] + rest == s[start..];
  }

  lemma {:induction false} ScanComma(s: string, found: seq<string>, start: nat, scan: nat, comma: nat)
    requires start <= scan <= |s| && Scanning(s, found, start, scan) && comma == IndexOf(s, ',', scan)
    requires forall i :: scan <= i < comma ==> s[i] != '['
    ensures Scanning(s, found + [s[start..comma]], comma + 1, comma + 1)
  {
    GatherRun(s, found, start, scan, comma);
    GatherPiece(s, found, start, comma);
  }

  lemma {:induction false} ScanEnd(s: string, found: seq<string>, start: nat, scan: nat)
    requires start <= scan <= |s| && Scanning(s, found, start, scan) && IndexOf(s, ',', scan) == -1
    ensures AllPieces(s, ',') == found + [s[start..]]
  {
    NoMoreDelimiters(s[scan..], ',', s[start..scan]);
    assert s[start..scan] + s[scan..] == s[start..];
  }

  /** `splitRangedCFI`. */
  method SplitRangedCfi(s: string) returns (components: seq<string>)
    ensures components == ScriptPieces(s)
  {
    components := [];
    var scan: int := 0;
    var start := 0;
    ScanStart(s);
    while 0 <= scan <= |s|
      invariant 0 <= start <= |s| && scan <= |s| && (0 <= scan ==> start <= scan)
      invariant Scanning(s, components, start, scan)
      decreases if scan < 0 then 0 else |s| - scan + 1
    {
      var brace := IndexOf(s, '[', scan);
      var comma := IndexOf(s, ',', scan);
      if brace != -1 && brace < comma {
        ScanBrace(s, components, start, scan, brace);
        scan := IndexOf(s, ']', brace + 1);
      } else if comma != -1 {
        ScanComma(s, components, start, scan, comma);
        components := components + [s[start..comma]];
        start, scan := comma + 1, comma + 1;
      } else {
        ScanEnd(s, components, start, scan);
        break;
      }
    }
    ghost var last := s[start..];
    assert AllPieces(s, ',') == components + [last];
    assert (components + [last])[..|components|] == components;
    if start < |s| {
      components := components + [s[start..]];
    }
  }
}
