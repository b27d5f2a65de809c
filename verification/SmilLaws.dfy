/** What the four traversals of a timing tree promise each other. */
module SmilLaws {
  import opened Prelude
  import opened SmilTiming

  /** A real tree: each parallel occurs once. */
  predicate Distinct(clips: seq<Clip>) {
    forall i, j :: 0 <= i < j < |clips| ==> clips[i].par.id != clips[j].par.id
  }

  // ------------------------------------------------------------- the flat list

  lemma {:induction false} FlattenFrom(children: seq<Container>, spine: ManifestItem, from: nat)
    requires from <= |children|
    ensures Flatten(children, spine, from) == Flatten(children[from..], spine)
    decreases |children| - from
  {
    FlattenShift(children, children[from..], spine, from, 0);
  }

  lemma {:induction false} FlattenShift(a: seq<Container>, b: seq<Container>, spine: ManifestItem, i: nat, j: nat)
    requires i <= |a| && j <= |b| && a[i..] == b[j..]
    ensures Flatten(a, spine, i) == Flatten(b, spine, j)
    decreases |a| - i
  {
    if i < |a| {
      assert a[i] == a[i..][0] == b[j];
      assert a[i + 1..] == a[i..][1..] && b[j + 1..] == b[j..][1..];
      FlattenShift(a, b, spine, i + 1, j + 1);
    }
  }

  lemma {:induction false} FlattenAppend(a: seq<Container>, b: seq<Container>, spine: ManifestItem)
    ensures Flatten(a + b, spine) == Flatten(a, spine) + Flatten(b, spine)
  {
    if a == [] {
      assert a + b == b;
    } else {
      FlattenFrom(a, spine, 1);
      FlattenFrom(a + b, spine, 1);
      assert (a + b)[1..] == a[1..] + b;
      FlattenAppend(a[1..], b, spine);
      Regroup(ClipsIn(a[0], spine), Flatten(a[1..], spine), Flatten(b, spine));
    }
  }

  /** A nested sequence counts as its children in its place, at any depth. */
  lemma {:induction false} NestingIrrelevant(a: seq<Container>, nested: seq<Container>, b: seq<Container>, spine: ManifestItem)
    ensures Flatten(a + [Seq(nested)] + b, spine) == Flatten(a + nested + b, spine)
  {
    assert Flatten([Seq(nested)], spine, 1) == [];
    assert Flatten([Seq(nested)], spine) == Flatten(nested, spine) + [] == Flatten(nested, spine);
    FlattenAppend(a, [Seq(nested)], spine);
    FlattenAppend(a + [Seq(nested)], b, spine);
    FlattenAppend(a, nested, spine);
    FlattenAppend(a + nested, b, spine);
  }

  /** The milliseconds a parallel counts for: its clip's, unless it has no audio or its text names another item. */
  function Milliseconds(p: Parallel, spine: ManifestItem): nat {
    match p
    case Parallel(_, _, None, _) => 0
    case Parallel(_, _, Some(Audio(from, to)), Some(Text(Some(item)))) =>
      if item == spine && from < to then to - from else 0
    case Parallel(_, _, Some(Audio(from, to)), _) => if from < to then to - from else 0
  }

  /** A parallel stands in the flat list where it stands in the tree, with the time it counts for. */
  lemma {:induction false} ParallelInPlace(a: seq<Container>, p: Parallel, b: seq<Container>, spine: ManifestItem)
    ensures Flatten(a + [Par(p)] + b, spine)
         == Flatten(a, spine) + [Clip(p, Milliseconds(p, spine))] + Flatten(b, spine)
    ensures Sum(Flatten(a + [Par(p)] + b, spine))
         == Sum(Flatten(a, spine)) + Milliseconds(p, spine) + Sum(Flatten(b, spine))
  {
    assert Flatten([Par(p)], spine, 1) == [];
    var clip := Clip(p, Counted(p, spine));
    assert Flatten([Par(p)], spine) == [clip] + [] == [clip];
    FlattenAppend(a, [Par(p)], spine);
    FlattenAppend(a + [Par(p)], b, spine);
    OneClip(p, Counted(p, spine), 0);
    SumAppend(Flatten(a, spine), [clip]);
    SumAppend(Flatten(a, spine) + [clip], Flatten(b, spine));
  }

  // ------------------------------------------------------------- lookup by time

  /** Nothing sounds exactly when there is no counted time at all, or the time is past the end. */
  lemma {:induction false} LookupNone(clips: seq<Clip>, t: nat)
    ensures Lookup(clips, t).None? <==> Sum(clips) == 0 || Sum(clips) < t
  {
    if clips != [] && !(0 < clips[0].dur && t <= clips[0].dur) {
      LookupNone(clips[1..], t - clips[0].dur);
    }
  }

  /** Nothing is found at a time exactly when the duration `d` is 0 or the time exceeds it. */
  ghost predicate NullExactlyPast(clips: seq<Clip>, d: uint32) {
    forall t: uint32 :: NullAgrees(clips, d, t)
  }

  predicate NullAgrees(clips: seq<Clip>, d: uint32, t: uint32) {
    Lookup(clips, t).None? <==> d == 0 || d < t
  }

  /**
   Against the duration the tree itself reports, for every 32-bit time: exactly when the
   true duration fits into 32 bits, or wraps to the largest of them.
   */
  lemma {:induction false} NullMeansPastReportedEnd(clips: seq<Clip>)
    ensures NullExactlyPast(clips, Wrap(Sum(clips))) <==> Sum(clips) < WORD || Wrap(Sum(clips)) == WORD - 1
  {
    var d := Wrap(Sum(clips));
    forall t: uint32
      ensures NullAgrees(clips, d, t) <==> Sum(clips) < WORD || (d != 0 && t <= d)
    {
      LookupNone(clips, t);
    }
    if WORD <= Sum(clips) && d < WORD - 1 {
      var t: uint32 := d + 1;
      assert !NullAgrees(clips, d, t);
    }
  }

  lemma {:induction false} StartStep(clips: seq<Clip>, i: nat)
    requires 0 < i <= |clips|
    ensures Start(clips, i) == clips[0].dur + Start(clips[1..], i - 1)
  {
    assert clips[..i][1..] == clips[1..][..i - 1];
  }

  /** Clip `i` sounds at `t`: it has time, and `t` lies in it (a start belongs to the clip before). */
  predicate Sounding(clips: seq<Clip>, i: nat, t: nat)
    requires i < |clips|
  {
    0 < clips[i].dur && t <= Start(clips, i) + clips[i].dur && (Start(clips, i) < t || Start(clips, i) == t == 0)
  }

  /** Within a clip's own time, lookup answers that clip. */
  lemma {:induction false} LookupSounding(clips: seq<Clip>, i: nat, t: nat)
    requires i < |clips| && Sounding(clips, i, t)
    ensures Lookup(clips, t) == Some(clips[i].par)
  {
    if 0 < i {
      StartStep(clips, i);
      LookupSounding(clips[1..], i - 1, t - clips[0].dur);
    } else {
      assert clips[..0] == [];
    }
  }

  /** Whatever lookup answers is sounding. */
  lemma {:induction false} LookupFinds(clips: seq<Clip>, t: nat) returns (i: nat)
    requires Lookup(clips, t).Some?
    ensures i < |clips| && Sounding(clips, i, t) && Lookup(clips, t) == Some(clips[i].par)
  {
    if 0 < clips[0].dur && t <= clips[0].dur {
      i := 0;
      assert clips[..0] == [];
    } else {
      var j := LookupFinds(clips[1..], t - clips[0].dur);
      i := j + 1;
      StartStep(clips, i);
    }
  }

  // ------------------------------------------------- lookup by time and offsets

  lemma {:induction false} BeforeIsStart(clips: seq<Clip>, i: nat)
    requires Distinct(clips) && i < |clips|
    ensures Has(clips, clips[i].par.id) && Before(clips, clips[i].par.id) == Start(clips, i)
  {
    assert clips[i] in clips;
    if 0 < i {
      StartStep(clips, i);
      BeforeIsStart(clips[1..], i - 1);
    } else {
      assert clips[..0] == [];
    }
  }

  /** `SMILData::ClipOffset` on a real tree: the start, modulo 2^32. */
  lemma {:induction false} OffsetIsStart(clips: seq<Clip>, i: nat)
    requires Distinct(clips) && i < |clips|
    ensures Offset(clips, 0, clips[i].par.id) == (true, Wrap(Start(clips, i)))
  {
    BeforeIsStart(clips, i);
  }

  /**
   Time lookup inverts the clip offset: every 32-bit time after a clip's offset, up to its
   length beyond, finds the clip. This holds exactly for the clips that start inside 32
   bits, or whose wrapped offset leaves no later time to ask for.
   */
  lemma {:induction false} LookupInvertsOffset(clips: seq<Clip>, i: nat)
    requires Distinct(clips) && i < |clips| && 0 < clips[i].dur
    ensures var offset := Offset(clips, 0, clips[i].par.id).1;
      Start(clips, i) < WORD || offset == WORD - 1 <==>
      forall t: uint32 :: offset < t <= offset + clips[i].dur ==> Lookup(clips, t) == Some(clips[i].par)
  {
    OffsetIsStart(clips, i);
    var offset := Offset(clips, 0, clips[i].par.id).1;
    if Start(clips, i) < WORD {
      forall t: uint32 | offset < t <= offset + clips[i].dur
        ensures Lookup(clips, t) == Some(clips[i].par)
      {
        LookupSounding(clips, i, t);
      }
    } else if offset < WORD - 1 {
      var t: uint32 := offset + 1;
      WrappedOffsetMisses(clips, i, t);
    }
  }

  /** A clip that starts beyond 32 bits is not found just after its wrapped offset. */
  lemma {:induction false} WrappedOffsetMisses(clips: seq<Clip>, i: nat, t: nat)
    requires Distinct(clips) && i < |clips| && t < Start(clips, i)
    ensures Lookup(clips, t) != Some(clips[i].par)
  {
    if Lookup(clips, t).Some? {
      var j := LookupFinds(clips, t);
    }
  }

  /** At time 0 the first counted parallel of positive length is found. */
  lemma {:induction false} LookupZero(clips: seq<Clip>, i: nat)
    requires i < |clips| && 0 < clips[i].dur && forall j :: 0 <= j < i ==> clips[j].dur == 0
    ensures Lookup(clips, 0) == Some(clips[i].par)
  {
    NoTime(clips[..i]);
    LookupSounding(clips, i, 0);
  }

  lemma {:induction false} NoTime(clips: seq<Clip>)
    requires forall c <- clips :: c.dur == 0
    ensures Sum(clips) == 0
  {
    if clips != [] {
      NoTime(clips[1..]);
    }
  }

  // --------------------------------------------------- lookup by index and totals

  /** With the counter starting one below zero, the answer is the `index`-th clip, for every tree. */
  lemma {:induction false} NthIsIndex(clips: seq<Clip>, index: uint32, passed: nat)
    requires passed <= index
    ensures Nth(clips, index, Sub32(passed, 1)).0
         == if index - passed < |clips| then Some(clips[index - passed].par) else None
  {
    if clips != [] && passed < index {
      assert Add32(Sub32(passed, 1), 1) == passed == Sub32(passed + 1, 1);
      NthIsIndex(clips[1..], index, passed + 1);
    }
  }

  lemma {:induction false} StartNext(clips: seq<Clip>, i: nat)
    requires i < |clips|
    ensures Start(clips, i + 1) == Start(clips, i) + clips[i].dur
  {
    SumAppend(clips[..i], [clips[i]]);
    assert clips[..i + 1] == clips[..i] + [clips[i]];
    assert [clips[i]][1..] == [];
  }

  lemma {:induction false} StartMonotone(clips: seq<Clip>, i: nat, j: nat)
    requires i <= j <= |clips|
    ensures Start(clips, i) <= Start(clips, j) <= Sum(clips)
    decreases |clips| - i
  {
    assert clips[..|clips|] == clips;
    if i < j {
      StartNext(clips, i);
      StartMonotone(clips, i + 1, j);
    } else if i < |clips| {
      StartNext(clips, i);
      StartMonotone(clips, i + 1, |clips|);
    }
  }

  function OffsetAt(clips: seq<Clip>, i: nat): uint32
    requires i < |clips|
  {
    Offset(clips, 0, clips[i].par.id).1
  }

  /** Each reported offset plus its clip's time is the next offset, and the last one the reported duration. */
  ghost predicate OffsetsAddUp(clips: seq<Clip>) {
    && (forall i :: 0 < i < |clips| ==> OffsetAt(clips, i) == OffsetAt(clips, i - 1) + clips[i - 1].dur)
    && (clips != [] ==> Wrap(Sum(clips)) == OffsetAt(clips, |clips| - 1) + clips[|clips| - 1].dur)
  }

  /** The reported offsets and duration add up exactly when the true duration fits into 32 bits. */
  lemma {:induction false} OffsetsAddUpExactly(clips: seq<Clip>)
    requires Distinct(clips)
    ensures OffsetsAddUp(clips) <==> Sum(clips) < WORD
  {
    if Sum(clips) < WORD {
      FittingAddsUp(clips);
    }
    if OffsetsAddUp(clips) && clips != [] {
      AddedUpEnd(clips, |clips| - 1);
    }
  }

  lemma {:induction false} FittingAddsUp(clips: seq<Clip>)
    requires Distinct(clips) && Sum(clips) < WORD
    ensures OffsetsAddUp(clips)
  {
    forall i | 0 <= i < |clips|
      ensures OffsetAt(clips, i) == Start(clips, i) && Start(clips, i) + clips[i].dur == Start(clips, i + 1)
    {
      OffsetIsStart(clips, i);
      StartNext(clips, i);
      StartMonotone(clips, i, i + 1);
    }
    forall i | 0 < i < |clips|
      ensures OffsetAt(clips, i) == OffsetAt(clips, i - 1) + clips[i - 1].dur
    {
      assert Start(clips, i - 1) + clips[i - 1].dur == Start(clips, i - 1 + 1);
    }
    if clips != [] {
      var last := |clips| - 1;
      assert OffsetAt(clips, last) == Start(clips, last);
      assert Start(clips, last) + clips[last].dur == Start(clips, last + 1);
      assert clips[..last + 1] == clips;
    }
  }

  lemma {:induction false} AddedUpOffset(clips: seq<Clip>, i: nat)
    requires Distinct(clips) && OffsetsAddUp(clips) && i < |clips|
    ensures OffsetAt(clips, i) == Start(clips, i)
  {
    if i == 0 {
      assert clips[..0] == [];
      OffsetIsStart(clips, 0);
    } else {
      AddedUpOffset(clips, i - 1);
      StartNext(clips, i - 1);
    }
  }

  lemma {:induction false} AddedUpEnd(clips: seq<Clip>, last: nat)
    requires Distinct(clips) && OffsetsAddUp(clips) && last + 1 == |clips|
    ensures Sum(clips) == Wrap(Sum(clips))
  {
    AddedUpOffset(clips, last);
    StartNext(clips, last);
    assert clips[..last + 1] == clips;
  }

  /** Then the offsets rise in document order. */
  lemma {:induction false} OffsetsRise(clips: seq<Clip>, i: nat, j: nat)
    requires Distinct(clips) && i <= j < |clips| && OffsetsAddUp(clips)
    ensures OffsetAt(clips, i) <= OffsetAt(clips, j)
  {
    AddedUpOffset(clips, i);
    AddedUpOffset(clips, j);
    StartMonotone(clips, i, j);
  }

  /**
   Beyond 32 bits: the third clip starts at 2^32, is reported at 0, and the time after that
   finds the first clip; the offsets do not add up.
   */
  lemma {:induction false} OverflowWitness(p: Parallel, q: Parallel, r: Parallel)
    requires p.id != q.id && q.id != r.id && r.id != p.id
    ensures var clips := [Clip(p, WORD - 1), Clip(q, 1), Clip(r, 1)];
            && Distinct(clips) && OffsetAt(clips, 2) == 0 && Lookup(clips, 1) == Some(p)
            && Wrap(Sum(clips)) == 1 && !OffsetsAddUp(clips)
  {
    var clips := [Clip(p, WORD - 1), Clip(q, 1), Clip(r, 1)];
    assert clips[..0] == [];
    StartNext(clips, 0);
    StartNext(clips, 1);
    StartNext(clips, 2);
    assert clips[..3] == clips;
    OffsetIsStart(clips, 2);
    OffsetsAddUpExactly(clips);
  }
}
