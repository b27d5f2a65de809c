/**
 The filtered stream: it filters the whole resource on the first request and then serves
 reads from its cache.
 */
module CachedStream {
  import opened Prelude
  import opened FontObfuscation
  import opened ByteStreams
  import opened Filters
  import opened RangeStream

  // -------------------------------------------------------------- as a state machine

  /** The unread part of the input, the cached bytes, and `_cacheHasBeenFilledUp`. */
  datatype State = State(unread: seq<byte>, cache: seq<byte>, filled: bool)

  /** Whether a request makes the stream read its input. */
  predicate NeedsFill(s: State) { s.cache == [] && !s.filled }

  /** `CacheBytes`: when a filter returns no data the raw bytes stay in the cache. */
  function Fill(filters: seq<Filter>, resource: seq<byte>, s: State): State {
    if !NeedsFill(s) || s.unread == [] then s
    else
      match Chain(filters, resource, s.unread)
      case Some(out) => State([], out, true)
      case None => State([], s.unread, false)
  }

  datatype Op = Read(len: nat) | Available

  /** The state after a request, and the bytes it delivers. */
  function Step(filters: seq<Filter>, resource: seq<byte>, s: State, op: Op): (State, seq<byte>) {
    match op
    case Read(len) =>
      if len == 0 then (s, [])
      else
        var t := Fill(filters, resource, s);
        var n := Min(len, |t.cache|);
        (t.(cache := t.cache[n..]), t.cache[..n])
    case Available => (Fill(filters, resource, s), [])
  }

  /** A whole run: the last state and everything delivered. */
  function Play(filters: seq<Filter>, resource: seq<byte>, s: State, ops: seq<Op>): (State, seq<byte>)
    decreases ops
  {
    if ops == [] then (s, [])
    else
      var (t, out) := Step(filters, resource, s, ops[0]);
      var (u, rest) := Play(filters, resource, t, ops[1..]);
      (u, out + rest)
  }

  /** What is still to come. */
  function Remaining(filters: seq<Filter>, resource: seq<byte>, s: State): seq<byte> {
    Fill(filters, resource, s).cache
  }

  /** Once something was cached, the input has been read to its end. */
  predicate Drained(s: State) { !NeedsFill(s) ==> s.unread == [] }

  lemma {:induction false} ChainNonEmpty(filters: seq<Filter>, resource: seq<byte>, buf: seq<byte>)
    requires buf != [] && Chain(filters, resource, buf).Some?
    ensures Chain(filters, resource, buf).value != []
    decreases filters
  {
    if filters != [] {
      ChainNonEmpty(filters[1..], resource, Run(filters[0].kind, resource, buf));
    }
  }

  lemma {:induction false} StepConserves(filters: seq<Filter>, resource: seq<byte>, s: State, op: Op)
    requires Drained(s)
    ensures var (t, out) := Step(filters, resource, s, op);
            && Drained(t) && Remaining(filters, resource, s) == out + Remaining(filters, resource, t)
            && (op == Read(0) ==> t == s && out == [])
            && (op != Read(0) ==> t.unread == [])
            && (op != Read(0) && NeedsFill(s) && s.unread != [] ==> t.filled == Chain(filters, resource, s.unread).Some?)
  {
    var f := Fill(filters, resource, s);
    if s.unread != [] && NeedsFill(s) && Chain(filters, resource, s.unread).Some? {
      ChainNonEmpty(filters, resource, s.unread);
    }
    if op.Read? && 0 < op.len {
      var n := Min(op.len, |f.cache|);
      assert f.cache == f.cache[..n] + f.cache[n..];
    }
  }

  /** Over any run, what was delivered and what remains are together what was to come. */
  lemma {:induction false} PlayConserves(filters: seq<Filter>, resource: seq<byte>, s: State, ops: seq<Op>)
    requires Drained(s)
    ensures var (t, out) := Play(filters, resource, s, ops);
            Drained(t) && Remaining(filters, resource, s) == out + Remaining(filters, resource, t)
    decreases ops
  {
    if ops != [] {
      StepConserves(filters, resource, s, ops[0]);
      var first := Step(filters, resource, s, ops[0]);
      PlayConserves(filters, resource, first.0, ops[1..]);
      var rest := Play(filters, resource, first.0, ops[1..]);
      Regroup(first.1, rest.1, Remaining(filters, resource, rest.0));
    }
  }

  /** What a fresh stream over `raw` delivers in all. */
  function Delivered(filters: seq<Filter>, resource: seq<byte>, raw: seq<byte>): seq<byte> {
    Remaining(filters, resource, State(raw, [], false))
  }

  /**
   A fresh stream on a whole resource refines "filter everything, then read": any run
   delivers a prefix of the filtered resource, and the rest is exactly what is still
   available.
   */
  lemma {:induction false} RefinesFilterThenRead(filters: seq<Filter>, resource: seq<byte>, ops: seq<Op>)
    requires resource != [] && Chain(filters, resource, resource).Some?
    ensures var (t, out) := Play(filters, resource, State(resource, [], false), ops);
            Chain(filters, resource, resource).value == out + Remaining(filters, resource, t)
  {
    PlayConserves(filters, resource, State(resource, [], false), ops);
  }

  /** The intended output: nothing when a filter returns no data. */
  function Intended(filters: seq<Filter>, resource: seq<byte>): seq<byte> {
    if resource == [] then []
    else match Chain(filters, resource, resource) { case None => [] case Some(out) => out }
  }

  /** The stream delivers the intended output exactly when the resource is empty or every filter returns data. */
  lemma {:induction false} DeliversIntended(filters: seq<Filter>, resource: seq<byte>)
    ensures Delivered(filters, resource, resource) == Intended(filters, resource)
            <==> resource == [] || Chain(filters, resource, resource).Some?
    ensures Chain(filters, resource, resource).None? ==> Delivered(filters, resource, resource) == resource
  {
  }

  /** One filter that returns no data, anywhere in a chain: the raw bytes are delivered in place of nothing. */
  lemma {:induction false} NoDataDeliversRaw(before: seq<Filter>, f: Filter, after: seq<Filter>, resource: seq<byte>)
    requires resource != [] && f.kind.Standard? && forall b :: f.kind.run(b) == []
    ensures Delivered(before + ([f] + after), resource, resource) == resource
    ensures Intended(before + ([f] + after), resource) == []
  {
    ChainAppend(before, [f] + after, resource, resource);
  }

  function Asked(ops: seq<Op>): nat {
    if ops == [] then 0 else (if ops[0].Read? then ops[0].len else 0) + Asked(ops[1..])
  }

  /** Reads that ask for enough in total deliver everything, however they are cut and interleaved. */
  lemma {:induction false} EnoughReadsDeliverAll(filters: seq<Filter>, resource: seq<byte>, s: State, ops: seq<Op>)
    requires Drained(s)
    ensures var (t, out) := Play(filters, resource, s, ops);
            |out| == Min(Asked(ops), |Remaining(filters, resource, s)|)
    decreases ops
  {
    if ops != [] {
      StepConserves(filters, resource, s, ops[0]);
      EnoughReadsDeliverAll(filters, resource, Step(filters, resource, s, ops[0]).0, ops[1..]);
    }
  }

  /** How often a run sends data through the filters. */
  function FilterRuns(filters: seq<Filter>, resource: seq<byte>, s: State, ops: seq<Op>): nat
    decreases ops
  {
    if ops == [] then 0
    else
      (if NeedsFill(s) && s.unread != [] && (ops[0].Read? ==> 0 < ops[0].len) then 1 else 0) +
      FilterRuns(filters, resource, Step(filters, resource, s, ops[0]).0, ops[1..])
  }

  /** Nothing is filtered twice. */
  lemma {:induction false} FiltersRunOnce(filters: seq<Filter>, resource: seq<byte>, s: State, ops: seq<Op>)
    requires Drained(s)
    ensures FilterRuns(filters, resource, s, ops) <= if s.unread == [] then 0 else 1
    decreases ops
  {
    if ops != [] {
      StepConserves(filters, resource, s, ops[0]);
      FiltersRunOnce(filters, resource, Step(filters, resource, s, ops[0]).0, ops[1..]);
    }
  }

  // ----------------------------------------------------------------------- the class

  /** The per-stream context a filter makes for itself. */
  datatype Context = NoContext | Font(font: FontObfuscationContext) | Range(range: RangeFilterContext)

  ghost function Objects(c: Context): set<object> {
    match c
    case NoContext => {}
    case Font(font) => {font}
    case Range(range) => {range}
  }

  /** A context fresh from `MakeFilterContext`. */
  ghost predicate Unused(kind: Kind, c: Context)
    reads Objects(c)
  {
    match kind
    case Standard(_) => c.NoContext?
    case Obfuscation(_) => c.Font? && c.font.count == 0
    case RangeCapable => c.Range? && c.range.Valid() && c.range.buffer == null && c.range.stream == null
  }

  method MakeFilterContext(kind: Kind) returns (c: Context)
    ensures Unused(kind, c) && fresh(Objects(c))
  {
    match kind {
      case Standard(_) =>
        c := NoContext;
      case Obfuscation(_) =>
        var font := new FontObfuscationContext();
        c := Font(font);
      case RangeCapable =>
        var range := new RangeFilterContext();
        c := Range(range);
    }
  }

  /** One turn of the loop of `FilterBytes`: the filter on the buffered data, `[]` for no data. */
  method RunFilter(kind: Kind, c: Context, input: SeekableByteStream, buf: seq<byte>) returns (out: seq<byte>)
    requires Unused(kind, c) && input.Valid() && input.open && input.pos == |input.bytes|
    modifies Objects(c), input
    ensures input.Valid() && input.open && input.pos == |input.bytes|
    ensures out == Run(kind, input.bytes, buf)
  {
    match kind {
      case Standard(run) =>
        out := run(buf);
      case Obfuscation(key) =>
        var data := new byte[|buf|](i requires 0 <= i < |buf| => buf[i]);
        assert data[..|buf|] == buf;
        FontObfuscation.FilterData(key, c.font, data, |buf|);
        out := data[..|buf|];
      case RangeCapable =>
        c.range.byteRange := FULL_RANGE;
        c.range.stream := input;
        var r := PassThrough(c.range, []);
        c.range.byteRange := FULL_RANGE;
        c.range.stream := null;
        out := if r.None? then [] else r.value;
    }
  }

  class FilterChainByteStream {
    const input: SeekableByteStream
    const filters: seq<Filter>
    var contexts: seq<Context>
    var cache: seq<byte>
    var readCache: seq<byte>
    var filled: bool
    ghost var used: bool           // the filters have run
    ghost var objects: set<object> // the contexts

    function Value(): State
      requires input.Valid()
      reads this, input
    {
      State(if input.open then input.bytes[input.pos..] else [], cache, filled)
    }

    /** Until the filters have run, every context is unused and belongs to one filter only. */
    ghost predicate Ready(from: nat)
      reads this, objects
    {
      && |contexts| == |filters|
      && (forall i :: 0 <= i < |contexts| ==> Objects(contexts[i]) <= objects)
      && (forall i, j :: 0 <= i < j < |contexts| ==> Objects(contexts[i]) !! Objects(contexts[j]))
      && (forall i :: from <= i < |contexts| ==> Unused(filters[i].kind, contexts[i]))
    }

    ghost predicate Valid()
      reads this, input, objects
    {
      && input.Valid() && input !in objects && this !in objects
      && Drained(Value())
      && (used ==> input.pos == |input.bytes|)
      && (!used ==> Ready(0) && cache == [] && !filled)
    }

    constructor (input: SeekableByteStream, filters: seq<Filter>)
      requires input.Valid()
      ensures Valid() && fresh(objects)
      ensures this.input == input && this.filters == filters
      ensures Value() == State(if input.open then input.bytes[input.pos..] else [], [], false)
    {
      this.input, this.filters := input, filters;
      contexts, cache, readCache, filled := [], [], [], false;
      used, objects := false, {};
      new;
      for i := 0 to |filters|
        invariant |contexts| == i && fresh(objects) && this !in objects && input !in objects
        invariant forall j :: 0 <= j < i ==> Objects(contexts[j]) <= objects
        invariant forall j, k :: 0 <= j < k < i ==> Objects(contexts[j]) !! Objects(contexts[k])
        invariant forall j :: 0 <= j < i ==> Unused(filters[j].kind, contexts[j])
        invariant cache == [] && !filled && !used
      {
        var c := MakeFilterContext(filters[i].kind);
        contexts := contexts + [c];
        objects := objects + Objects(c);
      }
    }

    /** `FilterBytes`: runs the whole chain; 0 when some filter returned no data. */
    method FilterBytes(bytes: seq<byte>) returns (n: nat)
      requires Ready(0) && input.Valid() && input.open && input.pos == |input.bytes|
      requires bytes != [] && input !in objects && this !in objects
      modifies this`readCache, objects, input
      ensures input.Valid() && input.open && input.pos == |input.bytes|
      ensures match Chain(filters, input.bytes, bytes) {
                case None => n == 0 && readCache == old(readCache)
                case Some(out) => n == |out| && 0 < n && readCache == out
              }
    {
      var buf := bytes;
      assert filters[0..] == filters;
      for i := 0 to |filters|
        invariant Ready(i) && buf != []
        invariant input.Valid() && input.open && input.pos == |input.bytes|
        invariant Chain(filters, input.bytes, bytes) == Chain(filters[i..], input.bytes, buf)
        invariant readCache == old(readCache)
      {
        var out := RunFilter(filters[i].kind, contexts[i], input, buf);
        assert filters[i..][1..] == filters[i + 1..];
        if out == [] {
          return 0;
        }
        buf := out;
      }
      readCache := buf;
      return |buf|;
    }

    /** The loop that reads the input to its end in blocks of 16K. */
    method ReadInput()
      requires input.Valid() && cache == []
      modifies this`cache, input
      ensures input.Valid() && input.open == old(input.open)
      ensures cache == old(Value().unread)
      ensures if input.open then input.pos == |input.bytes| else input.pos == old(input.pos)
    {
      var buf := new byte[16 * 1024];
      while !input.eof
        invariant input.Valid() && input.open == old(input.open) && old(input.pos) <= input.pos
        invariant cache == input.bytes[old(input.pos)..input.pos]
        invariant !input.open ==> input.pos == old(input.pos)
        decreases |input.bytes| - input.pos
      {
        var numRead := input.ReadBytes(buf, 16 * 1024);
        if numRead == 0 {
          break;
        }
        cache := cache + buf[..numRead];
      }
    }

    /** `CacheBytes`. */
    method CacheBytes()
      requires Valid() && NeedsFill(Value())
      modifies this, input, objects
      ensures Valid() && objects == old(objects)
      ensures Value() == Fill(filters, input.bytes, old(Value()))
    {
      ReadInput();
      if cache == [] {
        return;
      }
      var filtered := FilterBytes(cache);
      used := true;
      if filtered > 0 {
        cache := readCache;
        readCache := [];
        filled := true;
      }
    }

    /** `ReadBytes`. */
    method ReadBytes(bytes: array<byte>, len: nat) returns (n: nat)
      requires Valid() && len <= bytes.Length && bytes !in objects
      modifies this, input, objects, bytes
      ensures Valid() && objects == old(objects)
      ensures var (state, delivered) := Step(filters, input.bytes, old(Value()), Read(len));
              Value() == state && n == |delivered| && bytes[..n] == delivered && bytes[n..] == old(bytes[n..])
    {
      if len == 0 {
        return 0;
      }
      if |cache| == 0 && !filled {
        CacheBytes();
      }
      n := Min(len, |cache|);
      CopyOut(bytes, cache, n);
      cache := cache[n..];
    }

    /** `ReadAllBytes`, inherited: reads blocks of 4096 bytes until one comes back empty. */
    method ReadAllBytes() returns (all: seq<byte>)
      requires Valid()
      modifies this, input, objects
      ensures Valid() && objects == old(objects)
      ensures all == Remaining(filters, input.bytes, old(Value()))
      ensures Remaining(filters, input.bytes, Value()) == []
    {
      var rdbuf := new byte[4096];
      ghost var before := Value();
      var count := ReadBytes(rdbuf, 4096);
      all := rdbuf[..count];
      StepConserves(filters, input.bytes, before, Read(4096));
      while count > 0
        invariant Valid() && objects == old(objects) && rdbuf !in objects
        invariant all + Remaining(filters, input.bytes, Value()) == Remaining(filters, input.bytes, old(Value()))
        invariant count == 0 ==> Remaining(filters, input.bytes, Value()) == []
        decreases |Remaining(filters, input.bytes, Value())| + if count > 0 then 1 else 0
      {
        before := Value();
        count := ReadBytes(rdbuf, 4096);
        StepConserves(filters, input.bytes, before, Read(4096));
        Regroup(all, rdbuf[..count], Remaining(filters, input.bytes, Value()));
        all := all + rdbuf[..count];
      }
    }

    /** `BytesAvailable`: exactly what is still to come. */
    method BytesAvailable() returns (n: nat)
      requires Valid()
      modifies this, input, objects
      ensures Valid() && objects == old(objects)
      ensures Value() == Step(filters, input.bytes, old(Value()), Available).0
      ensures n == |Remaining(filters, input.bytes, old(Value()))|
    {
      if |cache| == 0 && !filled {
        CacheBytes();
      }
      n := |cache|;
    }

    /** `AtEnd`: nothing is left, and the input has noticed its end. */
    method AtEnd() returns (r: bool)
      requires Valid()
      ensures r <==> input.eof && Remaining(filters, input.bytes, Value()) == []
    {
      r := if input.eof then cache == [] else input.eof;
    }
  }
}
