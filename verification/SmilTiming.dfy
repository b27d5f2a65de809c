/**
 The timing tree of a SMIL document: four traversals with `uint32_t` accumulators, each
 proved against one flat list of clips.
 */
module SmilTiming {
  import opened Prelude

  // --------------------------------------------------------------------- the tree

  type ManifestItem = nat

  datatype Audio = Audio(clipBegin: uint32, clipEnd: uint32)

  datatype Text = Text(source: Option<ManifestItem>)

  /** A parallel container; `id` stands for the identity of the shared pointer. */
  datatype Parallel = Parallel(id: nat, owner: nat, audio: Option<Audio>, text: Option<Text>)

  datatype Container = Par(par: Parallel) | Seq(children: seq<Container>)

  /** `Audio::ClipDurationMilliseconds`. */
  function ClipDuration(a: Audio): uint32 {
    if a.clipEnd <= 0 || a.clipEnd <= a.clipBegin then 0 else Sub32(a.clipEnd, a.clipBegin)
  }

  /** A clip lasts from its beginning to its end, if that comes later. */
  lemma {:induction false} ClipDurationEnds(a: Audio)
    ensures a.clipBegin + ClipDuration(a) == if a.clipBegin < a.clipEnd then a.clipEnd else a.clipBegin
  {
  }

  /** Whether the loops count a parallel's audio: it has some, and its text, if it names an item, names the document's own. */
  predicate Counts(p: Parallel, spine: ManifestItem) {
    && p.audio.Some?
    && (p.text.None? || p.text.value.source.None? || p.text.value.source.value == spine)
  }

  function Counted(p: Parallel, spine: ManifestItem): uint32 {
    if Counts(p, spine) then ClipDuration(p.audio.value) else 0
  }

  // ------------------------------------------------------------ the flat reference

  /** A parallel with the time it takes. */
  datatype Clip = Clip(par: Parallel, dur: uint32)

  function ClipsIn(c: Container, spine: ManifestItem): seq<Clip>
    decreases c, 0
  {
    match c
    case Par(p) => [Clip(p, Counted(p, spine))]
    case Seq(children) => Flatten(children, spine)
  }

  /** The clips of a sequence in document order, from child `from` on. */
  function Flatten(children: seq<Container>, spine: ManifestItem, from: nat := 0): seq<Clip>
    requires from <= |children|
    decreases children, |children| - from
  {
    if from == |children| then [] else ClipsIn(children[from], spine) + Flatten(children, spine, from + 1)
  }

  function Sum(clips: seq<Clip>): nat {
    if clips == [] then 0 else clips[0].dur + Sum(clips[1..])
  }

  /** When the `i`-th clip starts. */
  function Start(clips: seq<Clip>, i: nat): nat
    requires i <= |clips|
  {
    Sum(clips[..i])
  }

  /** The clip sounding at time `t`: the first one of positive length that has not ended before `t`. */
  function Lookup(clips: seq<Clip>, t: nat): Option<Parallel> {
    if clips == [] then None
    else if 0 < clips[0].dur && t <= clips[0].dur then Some(clips[0].par)
    else Lookup(clips[1..], t - clips[0].dur)
  }

  predicate Has(clips: seq<Clip>, id: nat) { exists c <- clips :: c.par.id == id }

  /** The time before the first clip of that identity, or all the time if there is none. */
  function Before(clips: seq<Clip>, id: nat): nat {
    if clips == [] || clips[0].par.id == id then 0 else clips[0].dur + Before(clips[1..], id)
  }

  /** Counting up from `count` until `index` comes round. */
  function Nth(clips: seq<Clip>, index: uint32, count: uint32): (Option<Parallel>, uint32) {
    if clips == [] then (None, count)
    else if Add32(count, 1) == index then (Some(clips[0].par), index)
    else Nth(clips[1..], index, Add32(count, 1))
  }

  // ----------------------------------------------------------- joining clip lists

  lemma {:induction false} SumAppend(a: seq<Clip>, b: seq<Clip>)
    ensures Sum(a + b) == Sum(a) + Sum(b)
  {
    if a == [] {
      assert a + b == b;
    } else {
      SumAppend(a[1..], b);
      assert (a + b)[1..] == a[1..] + b;
    }
  }

  lemma {:induction false} LookupAppend(a: seq<Clip>, b: seq<Clip>, t: nat)
    ensures Lookup(a, t).Some? ==> Lookup(a + b, t) == Lookup(a, t)
    ensures Lookup(a, t).None? ==> Sum(a) <= t && Lookup(a + b, t) == Lookup(b, t - Sum(a))
  {
    if a == [] {
      assert a + b == b;
    } else {
      assert (a + b)[1..] == a[1..] + b;
      if !(0 < a[0].dur && t <= a[0].dur) {
        LookupAppend(a[1..], b, t - a[0].dur);
      }
    }
  }

  lemma {:induction false} BeforeAppend(a: seq<Clip>, b: seq<Clip>, id: nat)
    ensures Has(a + b, id) <==> Has(a, id) || Has(b, id)
    ensures Before(a + b, id) == if Has(a, id) then Before(a, id) else Sum(a) + Before(b, id)
  {
    if a == [] {
      assert a + b == b;
    } else {
      BeforeAppend(a[1..], b, id);
      assert (a + b)[1..] == a[1..] + b;
      assert a == [a[0]] + a[1..] && a + b == [a[0]] + (a[1..] + b);
      assert Has(a, id) <==> a[0].par.id == id || Has(a[1..], id);
      assert Has(a + b, id) <==> a[0].par.id == id || Has(a[1..] + b, id);
    }
  }

  lemma {:induction false} NthAppend(a: seq<Clip>, b: seq<Clip>, index: uint32, count: uint32)
    ensures Nth(a + b, index, count) ==
            if Nth(a, index, count).0.Some? then Nth(a, index, count) else Nth(b, index, Nth(a, index, count).1)
  {
    if a == [] {
      assert a + b == b;
    } else {
      assert (a + b)[1..] == a[1..] + b;
      NthAppend(a[1..], b, index, Add32(count, 1));
    }
  }

  /** Looking up from child `i` on: in the child, or past it. */
  lemma {:induction false} LookupNext(children: seq<Container>, spine: ManifestItem, i: nat, t: nat)
    requires i < |children|
    ensures Lookup(ClipsIn(children[i], spine), t).Some? ==>
              Lookup(Flatten(children, spine, i), t) == Lookup(ClipsIn(children[i], spine), t)
    ensures Lookup(ClipsIn(children[i], spine), t).None? ==>
              var past := Sum(ClipsIn(children[i], spine));
              && past <= t
              && Lookup(Flatten(children, spine, i), t) == Lookup(Flatten(children, spine, i + 1), t - past)
  {
    LookupAppend(ClipsIn(children[i], spine), Flatten(children, spine, i + 1), t);
  }

  lemma {:induction false} OneClip(p: Parallel, dur: uint32, t: nat)
    ensures Sum([Clip(p, dur)]) == dur
    ensures Lookup([Clip(p, dur)], t) == if 0 < dur && t <= dur then Some(p) else None
  {
    assert [Clip(p, dur)][1..] == [];
  }

  /** The running total, once the children before `i` are added. */
  ghost predicate Added(children: seq<Container>, spine: ManifestItem, i: nat, total: uint32)
    requires i <= |children|
  {
    Wrap(total + Sum(Flatten(children, spine, i))) == Wrap(Sum(Flatten(children, spine)))
  }

  lemma {:induction false} AddChild(children: seq<Container>, spine: ManifestItem, i: nat, total: uint32, d: uint32)
    requires i < |children| && Added(children, spine, i, total) && d == Wrap(Sum(ClipsIn(children[i], spine)))
    ensures Added(children, spine, i + 1, Add32(total, d))
  {
    SumAppend(ClipsIn(children[i], spine), Flatten(children, spine, i + 1));
    AddOn(total, Sum(ClipsIn(children[i], spine)), Sum(Flatten(children, spine, i + 1)));
  }

  /** Below a 32-bit bound nothing wraps. */
  lemma {:induction false} NoWrap(a: uint32, b: nat, bound: uint32)
    requires a + b <= bound
    ensures Add32(a, Wrap(b)) == a + b
  {
  }

  // --------------------------------------------------------------- the traversals

  /** `Sequence::DurationMilliseconds`. */
  method DurationMilliseconds(children: seq<Container>, spine: ManifestItem) returns (total: uint32)
    ensures total == Wrap(Sum(Flatten(children, spine)))
    decreases children, 0
  {
    total := 0;
    for i := 0 to |children|
      invariant Added(children, spine, i, total)
    {
      var d := ChildDuration(children[i], spine);
      AddChild(children, spine, i, total, d);
      total := Add32(total, d);
    }
  }

  /** What one child adds to the total: nothing when the loop skips it. */
  method ChildDuration(container: Container, spine: ManifestItem) returns (d: uint32)
    ensures d == Wrap(Sum(ClipsIn(container, spine)))
    decreases container, 1
  {
    match container {
      case Par(para) =>
        OneClip(para, Counted(para, spine), 0);
        if !Counts(para, spine) {
          return 0;
        }
        d := ClipDuration(para.audio.value);
      case Seq(nested) =>
        d := DurationMilliseconds(nested, spine);
    }
  }

  /** What `ClipOffset` answers from accumulator `offset` on a list of clips. */
  function Offset(clips: seq<Clip>, offset: uint32, id: nat): (bool, uint32) {
    (Has(clips, id), Wrap(offset + Before(clips, id)))
  }

  lemma {:induction false} OffsetAppend(a: seq<Clip>, b: seq<Clip>, offset: uint32, id: nat)
    ensures Offset(a + b, offset, id) ==
            if Has(a, id) then Offset(a, offset, id) else Offset(b, Offset(a, offset, id).1, id)
  {
    BeforeAppend(a, b, id);
    if !Has(a, id) {
      NotBefore(a, id);
      WrapTwice(offset + Sum(a), Before(b, id));
    }
  }

  lemma {:induction false} OffsetOne(p: Parallel, dur: uint32, offset: uint32, id: nat)
    ensures Offset([Clip(p, dur)], offset, id) == if p.id == id then (true, offset) else (false, Add32(offset, dur))
  {
    var clips := [Clip(p, dur)];
    assert clips[1..] == [] && clips[0] in clips;
    assert Before(clips, id) == if p.id == id then 0 else dur + Before([], id);
    assert Has(clips, id) <==> p.id == id;
  }

  /** The offset from child `i` on: in the child, or past it. */
  lemma {:induction false} OffsetNext(children: seq<Container>, spine: ManifestItem, i: nat, offset: uint32, id: nat)
    requires i < |children|
    ensures Offset(Flatten(children, spine, i), offset, id) ==
            var here := Offset(ClipsIn(children[i], spine), offset, id);
            if here.0 then here else Offset(Flatten(children, spine, i + 1), here.1, id)
  {
    OffsetAppend(ClipsIn(children[i], spine), Flatten(children, spine, i + 1), offset, id);
  }

  /** `Sequence::ClipOffset`: the accumulator passed by reference comes back as `offset'`. */
  method ClipOffset(children: seq<Container>, spine: ManifestItem, offset: uint32, par: nat)
    returns (found: bool, offset': uint32)
    ensures (found, offset') == Offset(Flatten(children, spine), offset, par)
    decreases children
  {
    found, offset' := false, offset;
    for i := 0 to |children|
      invariant Offset(Flatten(children, spine), offset, par) == Offset(Flatten(children, spine, i), offset', par)
    {
      OffsetNext(children, spine, i, offset', par);
      match children[i] {
        case Par(para) =>
          OffsetOne(para, Counted(para, spine), offset', par);
          if para.id == par {
            return true, offset';
          }
          if !Counts(para, spine) {
            continue;
          }
          offset' := Add32(offset', ClipDuration(para.audio.value));
        case Seq(nested) =>
          found, offset' := ClipOffset(nested, spine, offset', par);
          if found {
            return;
          }
      }
    }
    return false, offset';
  }

  lemma {:induction false} NotBefore(clips: seq<Clip>, id: nat)
    requires !Has(clips, id)
    ensures Before(clips, id) == Sum(clips)
  {
    if clips != [] {
      assert clips[0] in clips;
      NotBefore(clips[1..], id);
    }
  }

  /**
   `Sequence::ParallelAt`, for every tree and every time, whatever the total duration:
   `offset` never passes the time asked for, so the unsigned subtraction never wraps.
   */
  method ParallelAt(children: seq<Container>, spine: ManifestItem, timeMilliseconds: uint32)
    returns (r: Option<Parallel>)
    ensures r == Lookup(Flatten(children, spine), timeMilliseconds)
    decreases children
  {
    var offset: uint32 := 0;
    for i := 0 to |children|
      invariant offset <= timeMilliseconds
      invariant Lookup(Flatten(children, spine), timeMilliseconds)
             == Lookup(Flatten(children, spine, i), timeMilliseconds - offset)
    {
      var timeAdjusted := Sub32(timeMilliseconds, offset);
      LookupNext(children, spine, i, timeAdjusted);
      match children[i] {
        case Par(para) =>
          OneClip(para, Counted(para, spine), timeAdjusted);
          if !Counts(para, spine) {
            continue;
          }
          var clipDur := ClipDuration(para.audio.value);
          if clipDur > 0 && timeAdjusted <= clipDur {
            return Some(para);
          }
          offset := Add32(offset, clipDur);
        case Seq(nested) =>
          var para := ParallelAt(nested, spine, timeAdjusted);
          if para.Some? {
            return para;
          }
          var d := DurationMilliseconds(nested, spine);
          NoWrap(offset, Sum(Flatten(nested, spine)), timeMilliseconds);
          offset := Add32(offset, d);
      }
    }
    return None;
  }

  /** `Sequence::NthParallel`, with the counter passed by reference. */
  method NthParallel(children: seq<Container>, ghost spine: ManifestItem, index: uint32, count: uint32)
    returns (r: Option<Parallel>, count': uint32)
    ensures (r, count') == Nth(Flatten(children, spine), index, count)
    decreases children
  {
    count' := count;
    for i := 0 to |children|
      invariant Nth(Flatten(children, spine), index, count) == Nth(Flatten(children, spine, i), index, count')
    {
      ghost var here, rest := ClipsIn(children[i], spine), Flatten(children, spine, i + 1);
      NthAppend(here, rest, index, count');
      match children[i] {
        case Par(para) =>
          assert here[0].par == para && here[1..] == [];
          count' := Add32(count', 1);
          if count' == index {
            return Some(para), count';
          }
        case Seq(nested) =>
          r, count' := NthParallel(nested, spine, index, count');
          if r.Some? {
            return;
          }
      }
    }
    return None, count';
  }
}
