/** From filter registrations to the filters applied to an item. */
module FilterRegistry {
  import opened Prelude
  import opened FontObfuscation
  import opened ByteStreams
  import opened Filters
  import opened RangeStream
  import opened CachedStream

  datatype Record = Record(name: string, priority: uint32, factory: Package -> Option<Filter>)

  // ------------------------------------------------------------------- the registry

  /** The set's order: strictly from high to low priority. */
  ghost predicate Descending(records: seq<Record>) {
    forall i, j :: 0 <= i < j < |records| ==> records[j].priority < records[i].priority
  }

  /** `emplace` into the ordered set: a record of a priority already present is dropped. */
  function Inserted(records: seq<Record>, r: Record): seq<Record> {
    if records == [] || records[0].priority < r.priority then [r] + records
    else if records[0].priority == r.priority then records
    else [records[0]] + Inserted(records[1..], r)
  }

  /** The registry after a history of registrations. */
  function Registered(history: seq<Record>): seq<Record> {
    if history == [] then []
    else Inserted(Registered(history[..|history| - 1]), history[|history| - 1])
  }

  /** The first record of a priority. */
  function First(records: seq<Record>, priority: uint32): Option<Record> {
    if records == [] then None
    else if records[0].priority == priority then Some(records[0])
    else First(records[1..], priority)
  }

  lemma {:induction false} FirstAppend(a: seq<Record>, b: seq<Record>, p: uint32)
    ensures First(a + b, p) == if First(a, p).Some? then First(a, p) else First(b, p)
  {
    if a == [] {
      assert a + b == b;
    } else {
      assert (a + b)[1..] == a[1..] + b;
      FirstAppend(a[1..], b, p);
    }
  }

  /** Below its first priority a descending list has nothing of a higher one. */
  lemma {:induction false} NoneAbove(records: seq<Record>, p: uint32)
    requires forall i :: 0 <= i < |records| ==> records[i].priority < p
    ensures First(records, p) == None
  {
    if records != [] {
      NoneAbove(records[1..], p);
    }
  }

  lemma {:induction false} InsertedBounded(records: seq<Record>, r: Record, bound: nat)
    requires r.priority < bound && forall i :: 0 <= i < |records| ==> records[i].priority < bound
    ensures forall i :: 0 <= i < |Inserted(records, r)| ==> Inserted(records, r)[i].priority < bound
  {
    if records != [] && r.priority < records[0].priority {
      InsertedBounded(records[1..], r, bound);
    }
  }

  lemma {:induction false} InsertedDescending(records: seq<Record>, r: Record)
    requires Descending(records)
    ensures Descending(Inserted(records, r))
  {
    if records != [] && r.priority < records[0].priority {
      InsertedDescending(records[1..], r);
      InsertedBounded(records[1..], r, records[0].priority);
    }
  }

  lemma {:induction false} InsertedFirst(records: seq<Record>, r: Record, p: uint32)
    requires Descending(records)
    ensures First(Inserted(records, r), p) ==
            if First(records, p).None? && r.priority == p then Some(r) else First(records, p)
  {
    if records == [] || records[0].priority < r.priority {
      FirstAppend([r], records, p);
      assert [r][1..] == [];
      if r.priority == p {
        NoneAbove(records, p);
      }
    } else if r.priority < records[0].priority {
      InsertedFirst(records[1..], r, p);
      assert Inserted(records, r)[1..] == Inserted(records[1..], r);
    }
  }

  /** After any history the registry is strictly descending and keeps the first record of each priority. */
  lemma {:induction false} RegistryKeepsFirst(history: seq<Record>, p: uint32)
    ensures Descending(Registered(history))
    ensures First(Registered(history), p) == First(history, p)
  {
    if history != [] {
      var h, r := history[..|history| - 1], history[|history| - 1];
      RegistryKeepsFirst(h, p);
      InsertedDescending(Registered(h), r);
      InsertedFirst(Registered(h), r, p);
      assert history == h + [r];
      FirstAppend(h, [r], p);
      assert [r][1..] == [];
    }
  }

  lemma {:induction false} FirstIsMember(records: seq<Record>, p: uint32)
    requires First(records, p).Some?
    ensures First(records, p).value in records && First(records, p).value.priority == p
  {
    if records[0].priority != p {
      FirstIsMember(records[1..], p);
    }
  }

  lemma {:induction false} DescendingFirst(records: seq<Record>, i: nat)
    requires Descending(records) && i < |records|
    ensures First(records, records[i].priority) == Some(records[i])
  {
    if 0 < i {
      DescendingFirst(records[1..], i - 1);
    }
  }

  /** A record is in the registry exactly when it was the first of its priority. */
  lemma {:induction false} RegisteredMembers(history: seq<Record>, r: Record)
    ensures r in Registered(history) <==> First(history, r.priority) == Some(r)
  {
    RegistryKeepsFirst(history, r.priority);
    if r in Registered(history) {
      var i :| 0 <= i < |Registered(history)| && Registered(history)[i] == r;
      DescendingFirst(Registered(history), i);
    }
    if First(history, r.priority) == Some(r) {
      FirstIsMember(Registered(history), r.priority);
    }
  }

  /** A descending list is determined by its first record of each priority. */
  lemma {:induction false} DescendingUnique(a: seq<Record>, b: seq<Record>)
    requires Descending(a) && Descending(b)
    requires forall p: uint32 :: First(a, p) == First(b, p)
    ensures a == b
    decreases |a|
  {
    assert a != [] ==> First(a, a[0].priority) == Some(a[0]);
    assert b != [] ==> First(b, b[0].priority) == Some(b[0]);
    if a != [] && b != [] {
      SameHead(a, b);
      forall p: uint32
        ensures First(a[1..], p) == First(b[1..], p)
      {
        assert First(a, p) == First(b, p);
        if p == a[0].priority {
          NoneAbove(a[1..], p);
          NoneAbove(b[1..], p);
        }
      }
      DescendingUnique(a[1..], b[1..]);
      assert a == [a[0]] + a[1..] && b == [b[0]] + b[1..];
    }
  }

  lemma {:induction false} SameHead(a: seq<Record>, b: seq<Record>)
    requires a != [] && b != [] && Descending(a) && Descending(b)
    requires First(a, a[0].priority) == First(b, a[0].priority)
    requires First(a, b[0].priority) == First(b, b[0].priority)
    ensures a[0] == b[0]
  {
    if a[0].priority < b[0].priority {
      NoneAbove(a, b[0].priority);
    } else if b[0].priority < a[0].priority {
      NoneAbove(b, a[0].priority);
    }
  }

  /** The order of registrations only matters between records of one priority. */
  lemma {:induction false} HistoryOrderIrrelevant(h1: seq<Record>, h2: seq<Record>)
    requires forall p: uint32 :: First(h1, p) == First(h2, p)
    ensures Registered(h1) == Registered(h2)
  {
    forall p: uint32
      ensures First(Registered(h1), p) == First(Registered(h2), p)
    {
      RegistryKeepsFirst(h1, p);
      RegistryKeepsFirst(h2, p);
      assert First(h1, p) == First(h2, p);
    }
    RegistryKeepsFirst(h1, 0);
    RegistryKeepsFirst(h2, 0);
    DescendingUnique(Registered(h1), Registered(h2));
  }

  // -------------------------------------------------- from the registry to an item

  /** The filters a package gets: records whose factory opts out are skipped. */
  function Built(records: seq<Record>, package: Package): seq<Filter> {
    if records == [] then []
    else
      var rest := Built(records[1..], package);
      match records[0].factory(package)
      case None => rest
      case Some(f) => [f] + rest
  }

  /** The filters whose sniffer accepts the item. */
  function Applicable(filters: seq<Filter>, item: Item): seq<Filter> {
    if filters == [] then []
    else (if filters[0].sniffer(item) then [filters[0]] else []) + Applicable(filters[1..], item)
  }

  predicate Accepts(r: Record, package: Package, item: Item) {
    r.factory(package).Some? && r.factory(package).value.sniffer(item)
  }

  /** The records whose filter exists for the package and accepts the item. */
  function Accepting(records: seq<Record>, package: Package, item: Item): (a: seq<Record>)
    ensures forall i :: 0 <= i < |a| ==> Accepts(a[i], package, item)
  {
    if records == [] then []
    else (if Accepts(records[0], package, item) then [records[0]] else []) + Accepting(records[1..], package, item)
  }

  function FiltersOf(records: seq<Record>, package: Package): seq<Filter>
    requires forall i :: 0 <= i < |records| ==> records[i].factory(package).Some?
  {
    seq(|records|, i requires 0 <= i < |records| => records[i].factory(package).value)
  }

  lemma {:induction false} ApplicableAppend(a: seq<Filter>, b: seq<Filter>, item: Item)
    ensures Applicable(a + b, item) == Applicable(a, item) + Applicable(b, item)
  {
    if a == [] {
      assert a + b == b;
    } else {
      assert (a + b)[1..] == a[1..] + b;
      ApplicableAppend(a[1..], b, item);
      Regroup(if a[0].sniffer(item) then [a[0]] else [], Applicable(a[1..], item), Applicable(b, item));
    }
  }

  lemma {:induction false} ApplicableIsAccepting(records: seq<Record>, package: Package, item: Item)
    ensures Applicable(Built(records, package), item) == FiltersOf(Accepting(records, package, item), package)
  {
    if records != [] {
      ApplicableIsAccepting(records[1..], package, item);
      var f := records[0].factory(package);
      if f.Some? {
        ApplicableAppend([f.value], Built(records[1..], package), item);
        assert [f.value][1..] == [];
      }
    }
  }

  lemma {:induction false} AcceptingMembers(records: seq<Record>, package: Package, item: Item, r: Record)
    ensures r in Accepting(records, package, item) <==> r in records && Accepts(r, package, item)
  {
    if records != [] {
      AcceptingMembers(records[1..], package, item, r);
      assert r in records <==> r == records[0] || r in records[1..];
    }
  }

  lemma {:induction false} AcceptingDescending(records: seq<Record>, package: Package, item: Item)
    requires Descending(records)
    ensures Descending(Accepting(records, package, item))
  {
    if records != [] {
      AcceptingDescending(records[1..], package, item);
      var rest := Accepting(records[1..], package, item);
      forall i | 0 <= i < |rest|
        ensures rest[i].priority < records[0].priority
      {
        AcceptingMembers(records[1..], package, item, rest[i]);
        assert rest[i] in records[1..];
        var j :| 0 <= j < |records[1..]| && records[1..][j] == rest[i];
      }
    }
  }

  /** The filters applied to an item after a history of registrations. */
  function Applied(history: seq<Record>, package: Package, item: Item): seq<Filter> {
    Applicable(Built(Registered(history), package), item)
  }

  /**
   From registrations to filters: an item is filtered by exactly the records that were the
   first of their priority, whose factory makes a filter for the package and whose filter
   accepts the item, in strictly descending priority.
   */
  lemma {:induction false} AppliedFilters(history: seq<Record>, package: Package, item: Item)
    returns (records: seq<Record>)
    ensures Descending(records)
    ensures forall r :: r in records <==>
                First(history, r.priority) == Some(r) && Accepts(r, package, item)
    ensures forall i :: 0 <= i < |records| ==> records[i].factory(package).Some?
    ensures Applied(history, package, item) == FiltersOf(records, package)
  {
    records := Accepting(Registered(history), package, item);
    RegistryKeepsFirst(history, 0);
    AcceptingDescending(Registered(history), package, item);
    ApplicableIsAccepting(Registered(history), package, item);
    forall r
      ensures r in records <==> First(history, r.priority) == Some(r) && Accepts(r, package, item)
    {
      AcceptingMembers(Registered(history), package, item, r);
      RegisteredMembers(history, r);
    }
  }

  // ------------------------------------------------------------ range-capable first

  /** Range-capable filters are registered at `MustAccessRawBytes`, which is 1000, and nothing above it. */
  ghost predicate RawFirst(history: seq<Record>, package: Package) {
    forall r :: r in history ==>
      && r.priority <= 1000
      && (r.factory(package).Some? && r.factory(package).value.kind.RangeCapable? ==>
            r.priority == 1000)
  }

  /** As the repository registers them: the pass-through filter at 1000, other filters below, in any order. */
  lemma {:induction false} PassThroughRegistered(before: seq<Record>, pass: Record, after: seq<Record>, package: Package)
    requires pass.priority == 1000
    requires forall r :: r in before + after ==>
               r.priority < 1000 && (r.factory(package).Some? ==> !r.factory(package).value.kind.RangeCapable?)
    ensures RawFirst(before + [pass] + after, package)
  {
    forall r | r in before + [pass] + after
      ensures r == pass || r in before + after
    {
    }
  }

  /** Then a range-capable filter can only be the first of a chain. */
  lemma {:induction false} RawFirstChain(history: seq<Record>, package: Package, item: Item)
    requires RawFirst(history, package)
    ensures RangeCapableFirst(Applied(history, package, item))
  {
    var records := AppliedFilters(history, package, item);
    forall i | 1 <= i < |records|
      ensures !records[i].factory(package).value.kind.RangeCapable?
    {
      assert records[i] in records && records[0] in records;
      FirstIsMember(history, records[i].priority);
      FirstIsMember(history, records[0].priority);
    }
  }

  /**
   From registrations to bytes: any run of reads on an item's stream delivers the composition
   of its filters from the last range-capable one on, which are all of them when raw access is
   registered first. Without data from every filter it delivers the resource as it is.
   */
  lemma {:induction false} RegistryToBytes(history: seq<Record>, package: Package, item: Item,
                                           resource: seq<byte>, ops: seq<Op>)
    ensures var filters := Applied(history, package, item);
            var (t, out) := Play(filters, resource, State(resource, [], false), ops);
            if resource == [] || Chain(filters, resource, resource).None? then
              out + Remaining(filters, resource, t) == resource
            else
              && out + Remaining(filters, resource, t) == Composed(filters[LastRangeCapable(filters)..], resource)
              && (RawFirst(history, package) ==> out + Remaining(filters, resource, t) == Composed(filters, resource))
  {
    var filters := Applied(history, package, item);
    PlayConserves(filters, resource, State(resource, [], false), ops);
    if Chain(filters, resource, resource).Some? {
      ChainComposes(filters, resource);
    }
    if RawFirst(history, package) {
      RawFirstChain(history, package, item);
    }
  }

  // -------------------------------------------------------------------- the classes

  class FilterManager {
    var records: seq<Record>
    ghost var history: seq<Record>

    ghost predicate Valid()
      reads this
    {
      records == Registered(history)
    }

    constructor ()
      ensures Valid() && history == []
    {
      records, history := [], [];
    }

    method RegisterFilter(name: string, priority: uint32, factory: Package -> Option<Filter>)
      requires Valid()
      modifies this
      ensures Valid() && history == old(history) + [Record(name, priority, factory)]
    {
      records := Inserted(records, Record(name, priority, factory));
      ghost var before := history;
      history := history + [Record(name, priority, factory)];
      assert history[..|history| - 1] == before;
    }

    /** The highest-priority kept record of that name makes the filter. */
    method GetFilterByName(name: string, package: Package) returns (r: Option<Filter>)
      requires Valid()
      ensures (exists x :: x in records && x.name == name) ==>
                exists x :: x in records && x.name == name && r == x.factory(package) &&
                  forall y :: y in records && y.name == name ==> y.priority <= x.priority
      ensures (forall x :: x in records ==> x.name != name) ==> r == None
    {
      RegistryKeepsFirst(history, 0);
      for i := 0 to |records|
        invariant forall j :: 0 <= j < i ==> records[j].name != name
      {
        if records[i].name == name {
          return records[i].factory(package);
        }
      }
      return None;
    }

    method BuildFilterChainForPackage(package: Package) returns (filters: seq<Filter>)
      requires Valid()
      ensures filters == Built(Registered(history), package)
    {
      filters := [];
      assert records[0..] == records;
      for i := 0 to |records|
        invariant filters + Built(records[i..], package) == Built(records, package)
      {
        var filter := records[i].factory(package);
        assert records[i..][1..] == records[i + 1..];
        if filter.Some? {
          assert filters + ([filter.value] + Built(records[i + 1..], package))
              == filters + [filter.value] + Built(records[i + 1..], package);
          filters := filters + [filter.value];
        }
      }
      assert records[|records|..] == [] && filters + [] == filters;
    }
  }

  class FilterChain {
    const filters: seq<Filter>

    constructor (filters: seq<Filter>)
      ensures this.filters == filters
    {
      this.filters := filters;
    }

    /** `GetFilterChainByteStream`. */
    method GetFilterChainByteStream(item: Item, input: SeekableByteStream) returns (s: FilterChainByteStream)
      requires input.Valid()
      ensures fresh(s) && fresh(s.objects) && s.Valid() && s.input == input
      ensures s.filters == Applicable(filters, item)
      ensures s.Value() == State(if input.open then input.bytes[input.pos..] else [], [], false)
    {
      var thisChain: seq<Filter> := [];
      assert filters[0..] == filters;
      for i := 0 to |filters|
        invariant thisChain + Applicable(filters[i..], item) == Applicable(filters, item)
      {
        assert filters[i..][1..] == filters[i + 1..];
        ApplicableNext(thisChain, filters[i..], item);
        if filters[i].sniffer(item) {
          thisChain := thisChain + [filters[i]];
        }
      }
      assert filters[|filters|..] == [] && thisChain + [] == thisChain;
      s := new FilterChainByteStream(input, thisChain);
    }

    /**
     `GetFilterChainByteStreamRange`: refused when several filters apply; otherwise it reads
     through the one filter if that is range-capable, and raw in every other case.
     */
    method GetFilterChainByteStreamRange(item: Item, input: SeekableByteStream)
      returns (s: FilterChainByteStreamRange?)
      requires input.Valid()
      ensures s == null <==> 1 < |Applicable(filters, item)|
      ensures s != null ==>
                && s.Valid() && s.input == input && fresh(s) && fresh(s.Footprint() - {input})
                && (s.context != null <==>
                      |Applicable(filters, item)| == 1 && Applicable(filters, item)[0].kind.RangeCapable?)
    {
      var nFilters := 0;
      var rangeCapable := false;
      assert filters[0..] == filters;
      ghost var seen: seq<Filter> := [];
      for i := 0 to |filters|
        invariant seen + Applicable(filters[i..], item) == Applicable(filters, item)
        invariant nFilters == |seen| && rangeCapable == (0 < |seen| && seen[0].kind.RangeCapable?)
      {
        assert filters[i..][1..] == filters[i + 1..];
        ApplicableNext(seen, filters[i..], item);
        if filters[i].sniffer(item) {
          nFilters := nFilters + 1;
          seen := seen + [filters[i]];
          if nFilters > 1 {
            continue;
          }
          if filters[i].kind.RangeCapable? {
            rangeCapable := true;
          }
        }
      }
      assert filters[|filters|..] == [] && seen + [] == seen;
      if nFilters > 1 {
        return null;
      }
      s := new FilterChainByteStreamRange(input, rangeCapable);
    }
  }

  lemma {:induction false} ApplicableNext(seen: seq<Filter>, filters: seq<Filter>, item: Item)
    requires filters != []
    ensures seen + Applicable(filters, item) ==
            (if filters[0].sniffer(item) then seen + [filters[0]] else seen) + Applicable(filters[1..], item)
  {
  }

  // ------------------------------------------------------- range reads and the filters

  /** What the range stream of an item reads, by the choice of `GetFilterChainByteStreamRange`. */
  function RangeStreamRead(applied: seq<Filter>, resource: seq<byte>, len: nat, r: ByteRange): seq<byte> {
    if |applied| == 1 && applied[0].kind.RangeCapable? then FilteredRead(resource, len, r)
    else RawRead(resource, len, r)
  }

  /** Requests that a buffer of `len` bytes has room for. */
  predicate Served(resource: seq<byte>, len: nat, r: ByteRange) {
    !Rejected(len, r) && (r.isFullRange ==> |resource| <= len)
  }

  /** The range stream and the cached stream of an item give the same bytes for a request. */
  predicate StreamsAgree(applied: seq<Filter>, resource: seq<byte>, len: nat, r: ByteRange) {
    RangeStreamRead(applied, resource, len, r) == PassedThrough(Delivered(applied, resource, resource), r)
  }

  lemma {:induction false} DeliveredByOne(f: Filter, resource: seq<byte>)
    ensures var out := Run(f.kind, resource, resource);
            Delivered([f], resource, resource) == if resource == [] || out == [] then resource else out
  {
    assert [f][1..] == [];
    var out := Run(f.kind, resource, resource);
    assert out != [] ==> Chain([f], resource, resource) == Chain([], resource, out);
  }

  /** A served request is answered from the unfiltered resource, whatever the filter. */
  lemma {:induction false} ServedRead(applied: seq<Filter>, resource: seq<byte>, len: nat, r: ByteRange)
    requires Served(resource, len, r)
    ensures RangeStreamRead(applied, resource, len, r) == PassedThrough(resource, r)
  {
  }

  /** With no filter, or only the range-capable one, range reads are reads of the filtered resource. */
  lemma {:induction false} RangeReadsAgree(applied: seq<Filter>, resource: seq<byte>, len: nat, r: ByteRange)
    requires applied == [] || (|applied| == 1 && applied[0].kind.RangeCapable?)
    requires Served(resource, len, r)
    ensures StreamsAgree(applied, resource, len, r)
  {
    ServedRead(applied, resource, len, r);
    if applied != [] {
      assert applied == [applied[0]];
      DeliveredByOne(applied[0], resource);
    }
  }

  /**
   With one filter, all served requests agree with the cached stream exactly when the filter
   leaves the resource as it is, or returns no data for it.
   */
  lemma {:induction false} RangeReadsSkipFilter(f: Filter, resource: seq<byte>)
    ensures (forall len: nat, r :: Served(resource, len, r) ==> StreamsAgree([f], resource, len, r)) <==>
            resource == [] || Run(f.kind, resource, resource) == resource || Run(f.kind, resource, resource) == []
  {
    DeliveredByOne(f, resource);
    forall len: nat, r | Served(resource, len, r)
      ensures StreamsAgree([f], resource, len, r) <==>
              PassedThrough(resource, r) == PassedThrough(Delivered([f], resource, resource), r)
    {
      ServedRead([f], resource, len, r);
    }
    var whole := |resource| + 1;
    assert Served(resource, whole, FULL_RANGE);
  }

  predicate Covers(r: ByteRange, i: nat) { r.isFullRange || r.location <= i < r.location + r.length }

  /** The key leaves the obfuscated bytes of a range alone. */
  predicate KeySpares(key: Key, resource: seq<byte>, r: ByteRange) {
    forall i :: 0 <= i < |resource| && i < OBFUSCATED && Covers(r, i) ==> key[i % KEY_SIZE] == 0
  }

  /**
   For an obfuscated font, a served request agrees with the cached stream exactly when the
   key is zero at every obfuscated byte of the range.
   */
  lemma {:induction false} ObfuscatedRangeReads(f: Filter, resource: seq<byte>, len: nat, r: ByteRange)
    requires f.kind.Obfuscation? && Served(resource, len, r)
    ensures StreamsAgree([f], resource, len, r) <==> KeySpares(f.kind.key, resource, r)
  {
    var key := f.kind.key;
    var out := Obfuscate(key, 0, resource);
    DeliveredByOne(f, resource);
    ServedRead([f], resource, len, r);
    SlicesAgree(resource, out, r);
    forall i | 0 <= i < |resource|
      ensures resource[i] == out[i] <==> i < OBFUSCATED ==> key[i % KEY_SIZE] == 0
    {
      XorChanges(resource[i], key[i % KEY_SIZE]);
    }
  }

  lemma {:induction false} XorChanges(b: byte, k: byte)
    ensures b == b ^ k <==> k == 0
  {
  }

  /** Two resources of one length give the same read exactly when they agree on the range. */
  lemma {:induction false} SlicesAgree(a: seq<byte>, b: seq<byte>, r: ByteRange)
    requires |a| == |b|
    ensures PassedThrough(a, r) == PassedThrough(b, r) <==>
            forall i :: 0 <= i < |a| && Covers(r, i) ==> a[i] == b[i]
  {
    var from := if r.isFullRange then 0 else Min(r.location, |a|);
    var x, y := PassedThrough(a, r), PassedThrough(b, r);
    assert x == a[from..from + |x|] && y == b[from..from + |x|];
    forall i | 0 <= i < |a|
      ensures Covers(r, i) <==> from <= i < from + |x|
    {
    }
    if x == y {
      forall i | 0 <= i < |a| && Covers(r, i)
        ensures a[i] == b[i]
      {
        assert x[i - from] == y[i - from];
      }
    }
  }

  /** A font of one zero byte: the cached stream delivers the key's byte, the range stream the zero. */
  lemma {:induction false} ObfuscatedRangeWitness(f: Filter)
    requires f.kind.Obfuscation? && f.kind.key[0] == 1
    ensures RangeStreamRead([f], [0], 1, ByteRange(0, 1, false)) == [0]
    ensures Delivered([f], [0], [0]) == [1]
    ensures !StreamsAgree([f], [0], 1, ByteRange(0, 1, false))
  {
    DeliveredByOne(f, [0]);
    assert Run(f.kind, [0], [0]) == [1];
  }
}
