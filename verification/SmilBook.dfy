/**
 The media overlay of a whole publication: one timing tree per document, and the moves
 between a time in the publication and a position (document, parallel, milliseconds).
 */
module SmilBook {
  import opened Prelude
  import opened SmilTiming
  import opened SmilLaws

  /** `SMILData`; `id` stands for the identity of the shared pointer. */
  datatype Document = Document(id: nat, spine: ManifestItem, root: Option<seq<Container>>)

  function DocClips(d: Document): seq<Clip> {
    if d.root.None? then [] else Flatten(d.root.value, d.spine)
  }

  /** The clips of the publication, document after document. */
  function BookClips(docs: seq<Document>): seq<Clip> {
    if docs == [] then [] else DocClips(docs[0]) + BookClips(docs[1..])
  }

  function DocStart(docs: seq<Document>, k: nat): nat
    requires k <= |docs|
  {
    Sum(BookClips(docs[..k]))
  }

  /** Every parallel occurs once and knows its document; no document is listed twice. */
  ghost predicate RealBook(docs: seq<Document>) {
    && Distinct(BookClips(docs))
    && (forall k, c :: 0 <= k < |docs| && c in DocClips(docs[k]) ==> c.par.owner == docs[k].id)
    && (forall i, j :: 0 <= i < j < |docs| ==> docs[i].id != docs[j].id)
  }

  // -------------------------------------------------------------- index bookkeeping

  lemma {:induction false} BookAppend(a: seq<Document>, b: seq<Document>)
    ensures BookClips(a + b) == BookClips(a) + BookClips(b)
  {
    if a == [] {
      assert a + b == b;
    } else {
      BookAppend(a[1..], b);
      assert (a + b)[1..] == a[1..] + b;
      Regroup(DocClips(a[0]), BookClips(a[1..]), BookClips(b));
    }
  }

  /** The publication's clips around document `k`. */
  lemma {:induction false} BookAround(docs: seq<Document>, k: nat)
    requires k < |docs|
    ensures BookClips(docs) == BookClips(docs[..k]) + (DocClips(docs[k]) + BookClips(docs[k + 1..]))
  {
    BookAppend(docs[..k], docs[k..]);
    assert docs[..k] + docs[k..] == docs && docs[k..][1..] == docs[k + 1..];
  }

  /** Clip `j` of document `k`, seen in the publication. */
  lemma {:induction false} ClipOfBook(docs: seq<Document>, k: nat, j: nat, g: nat)
    requires k < |docs| && j < |DocClips(docs[k])| && g == |BookClips(docs[..k])| + j
    ensures g < |BookClips(docs)| && BookClips(docs)[g] == DocClips(docs[k])[j]
    ensures Start(BookClips(docs), g) == DocStart(docs, k) + Start(DocClips(docs[k]), j)
  {
    BookAround(docs, k);
    var a, b := BookClips(docs[..k]), DocClips(docs[k]);
    assert BookClips(docs)[..g] == a + b[..j];
    SumAppend(a, b[..j]);
  }

  /** Every clip of the publication belongs to a document. */
  lemma {:induction false} DocumentOf(docs: seq<Document>, g: nat) returns (k: nat, j: nat)
    requires g < |BookClips(docs)|
    ensures k < |docs| && j < |DocClips(docs[k])| && g == |BookClips(docs[..k])| + j
  {
    var n := |DocClips(docs[0])|;
    if g < n {
      k, j := 0, g;
      assert docs[..0] == [];
    } else {
      var k': nat;
      k', j := DocumentOf(docs[1..], g - n);
      k := k' + 1;
      assert docs[..k][1..] == docs[1..][..k'];
    }
  }

  lemma {:induction false} DocDistinct(docs: seq<Document>, k: nat)
    requires Distinct(BookClips(docs)) && k < |docs|
    ensures Distinct(DocClips(docs[k]))
  {
    var base := |BookClips(docs[..k])|;
    forall i, j | 0 <= i < j < |DocClips(docs[k])|
      ensures DocClips(docs[k])[i].par.id != DocClips(docs[k])[j].par.id
    {
      ClipOfBook(docs, k, i, base + i);
      ClipOfBook(docs, k, j, base + j);
    }
  }

  lemma {:induction false} DocStartNext(docs: seq<Document>, k: nat)
    requires k < |docs|
    ensures DocStart(docs, k + 1) == DocStart(docs, k) + Sum(DocClips(docs[k]))
  {
    BookAppend(docs[..k], [docs[k]]);
    assert docs[..k + 1] == docs[..k] + [docs[k]];
    assert BookClips([docs[k]]) == DocClips(docs[k]) + [] == DocClips(docs[k]);
    SumAppend(BookClips(docs[..k]), DocClips(docs[k]));
  }

  // ---------------------------------------------------------- the document wrappers

  /** `SMILData::DurationMilliseconds_Calculated`. */
  method DocDuration(d: Document) returns (r: uint32)
    ensures r == Wrap(Sum(DocClips(d)))
  {
    if d.root.None? {
      return 0;
    }
    r := DurationMilliseconds(d.root.value, d.spine);
  }

  /** `SMILData::ParallelAt`. */
  method DocParallelAt(d: Document, t: uint32) returns (r: Option<Parallel>)
    ensures r == Lookup(DocClips(d), t)
  {
    if d.root.None? {
      return None;
    }
    r := ParallelAt(d.root.value, d.spine, t);
  }

  /** `SMILData::NthParallel`: the counter starts at the largest `uint32_t`. */
  method DocNthParallel(d: Document, index: uint32) returns (r: Option<Parallel>)
    ensures r == if index < |DocClips(d)| then Some(DocClips(d)[index].par) else None
  {
    if d.root.None? {
      return None;
    }
    var count := Sub32(0, 1);
    NthIsIndex(DocClips(d), index, 0);
    r, count := NthParallel(d.root.value, d.spine, index, count);
  }

  /** `SMILData::ClipOffset`: 0 when the parallel is not there. */
  method DocClipOffset(d: Document, par: Parallel) returns (r: uint32)
    ensures r == if Has(DocClips(d), par.id) then Wrap(Before(DocClips(d), par.id)) else 0
  {
    if d.root.None? {
      return 0;
    }
    var found, offset := ClipOffset(d.root.value, d.spine, 0, par.id);
    return if found then offset else 0;
  }

  // --------------------------------------------------------- the publication's time

  /** The loop that adds up the documents before the `k`-th. */
  method TimeBefore(docs: seq<Document>, k: nat) returns (total: uint32)
    requires k <= |docs|
    ensures total == Wrap(DocStart(docs, k))
  {
    total := 0;
    assert docs[..0] == [];
    for i := 0 to k
      invariant total == Wrap(DocStart(docs, i))
    {
      var d := DocDuration(docs[i]);
      AddDocument(docs, i);
      total := Add32(total, d);
    }
  }

  lemma {:induction false} AddDocument(docs: seq<Document>, k: nat)
    requires k < |docs|
    ensures Add32(Wrap(DocStart(docs, k)), Wrap(Sum(DocClips(docs[k])))) == Wrap(DocStart(docs, k + 1))
  {
    DocStartNext(docs, k);
    WrapAdd(DocStart(docs, k), Sum(DocClips(docs[k])), 0);
  }

  /** `MediaOverlaysSmilModel::DurationMilliseconds_Calculated`. */
  method BookDuration(docs: seq<Document>) returns (total: uint32)
    ensures total == Wrap(Sum(BookClips(docs)))
  {
    assert docs[..|docs|] == docs;
    total := TimeBefore(docs, |docs|);
  }

  /** `MediaOverlaysSmilModel::ParallelAt`: again no wrap-around, whatever the total. */
  method BookParallelAt(docs: seq<Document>, timeMilliseconds: uint32) returns (r: Option<Parallel>)
    ensures r == Lookup(BookClips(docs), timeMilliseconds)
  {
    var offset: uint32 := 0;
    assert docs[0..] == docs;
    for i := 0 to |docs|
      invariant offset <= timeMilliseconds
      invariant Lookup(BookClips(docs), timeMilliseconds)
             == Lookup(BookClips(docs[i..]), timeMilliseconds - offset)
    {
      var timeAdjusted := Sub32(timeMilliseconds, offset);
      assert docs[i..][1..] == docs[i + 1..];
      LookupAppend(DocClips(docs[i]), BookClips(docs[i + 1..]), timeAdjusted);
      r := DocParallelAt(docs[i], timeAdjusted);
      if r.Some? {
        return;
      }
      var d := DocDuration(docs[i]);
      offset := Add32(offset, d);
    }
    return None;
  }

  /** Clip `j` of document `k`, `ms` milliseconds in, is sounding at time `t`. */
  ghost predicate IsPosition(docs: seq<Document>, t: nat, k: nat, j: nat, ms: nat) {
    && k < |docs| && j < |DocClips(docs[k])|
    && t == DocStart(docs, k) + Start(DocClips(docs[k]), j) + ms
    && ms <= DocClips(docs[k])[j].dur
  }

  /** The loop that adds up the documents before the owner of a parallel. */
  method OwnerDocument(docs: seq<Document>, owner: nat) returns (doc: nat, offset: uint32)
    requires docs != []
    ensures doc < |docs|
    ensures forall k :: 0 <= k < |docs| && docs[k].id == owner && owner !in Ids(docs[..k]) ==>
              doc == k && offset == Wrap(DocStart(docs, k))
  {
    doc, offset := 0, 0;
    assert docs[..0] == [];
    var i := 0;
    while i < |docs|
      invariant i <= |docs| && doc < |docs|
      invariant offset == Wrap(DocStart(docs, i))
      invariant forall k :: 0 <= k < i ==> docs[k].id != owner
    {
      doc := i;
      if docs[i].id == owner {
        forall k | i < k < |docs|
          ensures owner in Ids(docs[..k])
        {
          assert docs[..k][i] == docs[i];
        }
        break;
      }
      var d := DocDuration(docs[i]);
      AddDocument(docs, i);
      offset := Add32(offset, d);
      i := i + 1;
    }
  }

  function Ids(docs: seq<Document>): set<nat> { set d <- docs :: d.id }

  /** In a real book, the sounding clip's position from its document's start and its own. */
  lemma {:induction false} SoundingPosition(docs: seq<Document>, t: nat) returns (k: nat, j: nat)
    requires RealBook(docs) && Lookup(BookClips(docs), t).Some?
    ensures k < |docs| && j < |DocClips(docs[k])| && DocClips(docs[k])[j].par == Lookup(BookClips(docs), t).value
    ensures var start := DocStart(docs, k) + Start(DocClips(docs[k]), j);
            start <= t <= start + DocClips(docs[k])[j].dur
    ensures Has(DocClips(docs[k]), DocClips(docs[k])[j].par.id)
    ensures Before(DocClips(docs[k]), DocClips(docs[k])[j].par.id) == Start(DocClips(docs[k]), j)
    ensures docs[k].id == DocClips(docs[k])[j].par.owner && docs[k].id !in Ids(docs[..k])
  {
    var g := LookupFinds(BookClips(docs), t);
    k, j := DocumentOf(docs, g);
    ClipOfBook(docs, k, j, g);
    assert DocClips(docs[k])[j] in DocClips(docs[k]);
    DocDistinct(docs, k);
    BeforeIsStart(DocClips(docs[k]), j);
  }

  /** The two wrapped offsets add up without wrapping, since the clip starts no later than `t`. */
  lemma {:induction false} SubtractStart(docs: seq<Document>, t: uint32, k: nat, j: nat, a: uint32, b: uint32)
    requires k < |docs| && j < |DocClips(docs[k])|
    requires var start := DocStart(docs, k) + Start(DocClips(docs[k]), j);
             start <= t <= start + DocClips(docs[k])[j].dur
    requires a == Wrap(DocStart(docs, k)) && b == Wrap(Start(DocClips(docs[k]), j))
    ensures IsPosition(docs, t, k, j, Sub32(t, Add32(a, b)))
  {
  }

  /** The parallel stands in the document, and those milliseconds into it the time is `t`. */
  ghost predicate AnswersPosition(docs: seq<Document>, t: nat, par: Parallel, doc: nat, ms: nat) {
    exists j: nat :: IsPosition(docs, t, doc, j, ms) && DocClips(docs[doc])[j].par == par
  }

  /** Where a time falls: the heart of `PercentToPosition`. */
  method TimeToPosition(docs: seq<Document>, timeMs: uint32)
    returns (par: Option<Parallel>, doc: nat, milliseconds: uint32)
    ensures par == Lookup(BookClips(docs), timeMs)
    ensures RealBook(docs) && par.Some? ==> AnswersPosition(docs, timeMs, par.value, doc, milliseconds)
  {
    doc, milliseconds := 0, 0;
    par := BookParallelAt(docs, timeMs);
    if par.None? {
      return;
    }
    var smilDataOffset: uint32;
    doc, smilDataOffset := OwnerDocument(docs, par.value.owner);
    var offset := DocClipOffset(docs[doc], par.value);
    milliseconds := Sub32(timeMs, Add32(smilDataOffset, offset));
    if RealBook(docs) {
      ghost var k, j := SoundingPosition(docs, timeMs);
      SubtractStart(docs, timeMs, k, j, smilDataOffset, offset);
    }
  }

  /** The exact time of a position. */
  ghost function TimeOf(docs: seq<Document>, k: nat, j: nat, ms: nat): nat
    requires k < |docs| && j < |DocClips(docs[k])|
  {
    DocStart(docs, k) + (Start(DocClips(docs[k]), j) + ms)
  }

  /** The time of a position: the heart of `PositionToPercent`. */
  method PositionToTime(docs: seq<Document>, smilIndex: nat, parIndex: uint32, milliseconds: uint32)
    returns (r: Option<uint32>)
    ensures r.Some? <==> smilIndex < |docs| && parIndex < |DocClips(docs[smilIndex])|
    ensures RealBook(docs) && r.Some? ==>
              r.value == Wrap(TimeOf(docs, smilIndex, parIndex, milliseconds))
  {
    if smilIndex >= |docs| {
      return None;
    }
    var smilDataOffset := TimeBefore(docs, smilIndex);
    var par := DocNthParallel(docs[smilIndex], parIndex);
    if par.None? {
      return None;
    }
    var offset := DocClipOffset(docs[smilIndex], par.value);
    if RealBook(docs) {
      DocDistinct(docs, smilIndex);
      BeforeIsStart(DocClips(docs[smilIndex]), parIndex);
      WrapAdd(DocStart(docs, smilIndex), Start(DocClips(docs[smilIndex]), parIndex), milliseconds);
    }
    return Some(Add32(Add32(smilDataOffset, offset), milliseconds));
  }

  /** The position found for the time of a position (not its very start) is that parallel again. */
  lemma {:induction false} PositionFound(docs: seq<Document>, t: nat, k: nat, j: nat, ms: nat)
    requires IsPosition(docs, t, k, j, ms) && 0 < ms
    ensures Lookup(BookClips(docs), t) == Some(DocClips(docs[k])[j].par)
  {
    var g := |BookClips(docs[..k])| + j;
    ClipOfBook(docs, k, j, g);
    LookupSounding(BookClips(docs), g, t);
  }

  /** In a real book a time past a clip's very start belongs to one position only. */
  lemma {:induction false} OnePosition(docs: seq<Document>, t: nat, k: nat, j: nat, ms: nat, k': nat, j': nat, ms': nat)
    requires RealBook(docs) && 0 < ms && 0 < ms'
    requires IsPosition(docs, t, k, j, ms) && IsPosition(docs, t, k', j', ms')
    ensures k == k' && j == j' && ms == ms'
  {
    PositionFound(docs, t, k, j, ms);
    PositionFound(docs, t, k', j', ms');
    assert DocClips(docs[k])[j] in DocClips(docs[k]) && DocClips(docs[k'])[j'] in DocClips(docs[k']);
    DocDistinct(docs, k);
  }

  /** In a real book a parallel stands in one place, so an answer naming it names its document. */
  lemma {:induction false} OnePlace(docs: seq<Document>, k: nat, j: nat, t: nat, doc: nat, ms: nat)
    requires RealBook(docs) && k < |docs| && j < |DocClips(docs[k])|
    requires AnswersPosition(docs, t, DocClips(docs[k])[j].par, doc, ms)
    ensures doc == k && t == TimeOf(docs, k, j, ms) && ms <= DocClips(docs[k])[j].dur
  {
    var j': nat :| IsPosition(docs, t, doc, j', ms) && DocClips(docs[doc])[j'].par == DocClips(docs[k])[j].par;
    assert DocClips(docs[k])[j] in DocClips(docs[k]) && DocClips(docs[doc])[j'] in DocClips(docs[doc]);
    DocDistinct(docs, k);
  }

  /** A position that the way to its time and back keeps: inside 32 bits and past its clip's start, unless that is time 0. */
  ghost predicate Kept(docs: seq<Document>, k: nat, j: nat, ms: nat)
    requires k < |docs| && j < |DocClips(docs[k])|
  {
    && 0 < DocClips(docs[k])[j].dur && ms <= DocClips(docs[k])[j].dur
    && TimeOf(docs, k, j, ms) < WORD && (0 < ms || TimeOf(docs, k, j, ms) == 0)
  }

  /**
   Position to time to position. `PositionToTime` answers the wrapped time `t` of a position, and
   `TimeToPosition` looks up `t`: it finds the position's parallel exactly for the kept positions,
   and its answer then names the same document and milliseconds.
   */
  lemma {:induction false} PositionRoundTrip(docs: seq<Document>, k: nat, j: nat, ms: uint32)
    requires RealBook(docs) && k < |docs| && j < |DocClips(docs[k])|
    ensures var t, par := Wrap(TimeOf(docs, k, j, ms)), DocClips(docs[k])[j].par;
            && (Lookup(BookClips(docs), t) == Some(par) <==> Kept(docs, k, j, ms))
            && (Kept(docs, k, j, ms) ==>
                  forall doc, at :: AnswersPosition(docs, t, par, doc, at) ==> doc == k && at == ms)
  {
    var time, par := TimeOf(docs, k, j, ms), DocClips(docs[k])[j].par;
    var g := |BookClips(docs[..k])| + j;
    ClipOfBook(docs, k, j, g);
    if Kept(docs, k, j, ms) {
      LookupSounding(BookClips(docs), g, time);
      forall doc, at | AnswersPosition(docs, time, par, doc, at)
        ensures doc == k && at == ms
      {
        OnePlace(docs, k, j, time, doc, at);
      }
    }
    if Lookup(BookClips(docs), Wrap(time)) == Some(par) {
      var i := LookupFinds(BookClips(docs), Wrap(time));
      assert i == g;
      if WORD <= time {
        WrapShortens(time);
      }
    }
  }

  /** Two clips of one millisecond: the start of the second is the time at which the first is still found. */
  lemma {:induction false} ClipStartLost(p: Parallel, q: Parallel)
    requires p.id != q.id && p.owner == q.owner == 0
    requires p.audio == q.audio == Some(Audio(0, 1)) && p.text == q.text == None
    ensures var docs := [Document(0, 0, Some([Par(p), Par(q)]))];
            && RealBook(docs) && DocClips(docs[0]) == [Clip(p, 1), Clip(q, 1)]
            && TimeOf(docs, 0, 1, 0) == 1 && Lookup(BookClips(docs), 1) == Some(p)
  {
    var d := Document(0, 0, Some([Par(p), Par(q)]));
    var clips := [Clip(p, 1), Clip(q, 1)];
    var children := [Par(p), Par(q)];
    assert Flatten(children, 0, 2) == [];
    assert Flatten(children, 0, 1) == [Clip(q, 1)] + [];
    assert DocClips(d) == Flatten(children, 0) == [Clip(p, 1)] + [Clip(q, 1)] == clips;
    assert [d][1..] == [];
    assert BookClips([d]) == clips + [] == clips;
    assert [d][..0] == [];
    OneClip(p, 1, 0);
    assert clips[..1] == [Clip(p, 1)];
  }
}
