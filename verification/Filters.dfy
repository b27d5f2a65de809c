/** Content filters and what a chain of them makes of a resource. */
module Filters {
  import opened Prelude
  import opened FontObfuscation
  import opened ByteStreams

  /** Handles of manifest items and packages. */
  type Item = nat
  type Package = nat

  /**
   What a filter does with the complete data of a resource under a fresh context. The empty
   result stands for a null pointer or a length of 0.
   */
  datatype Kind =
    | Standard(run: seq<byte> -> seq<byte>)
    | Obfuscation(key: Key)
    | RangeCapable    // the pass-through filter: it reads the raw stream, not its input

  datatype Filter = Filter(kind: Kind, sniffer: Item -> bool)

  function Run(kind: Kind, resource: seq<byte>, buf: seq<byte>): seq<byte> {
    match kind
    case Standard(run) => run(buf)
    case Obfuscation(key) => Obfuscate(key, 0, buf)
    case RangeCapable => PassedThrough(resource, FULL_RANGE)
  }

  /** The chain on data `buf` taken from `resource`; `None` as soon as a filter returns no data. */
  function Chain(filters: seq<Filter>, resource: seq<byte>, buf: seq<byte>): Option<seq<byte>> {
    if filters == [] then Some(buf)
    else
      var out := Run(filters[0].kind, resource, buf);
      if out == [] then None else Chain(filters[1..], resource, out)
  }

  /** Plain composition: what each filter is meant to do with the bytes handed to it. */
  function Composed(filters: seq<Filter>, buf: seq<byte>): seq<byte> {
    if filters == [] then buf
    else
      var f := filters[0].kind;
      Composed(filters[1..], match f {
        case Standard(run) => run(buf)
        case Obfuscation(key) => Obfuscate(key, 0, buf)
        case RangeCapable => buf
      })
  }

  /** Only the first filter may be range-capable. */
  predicate RangeCapableFirst(filters: seq<Filter>) {
    forall i :: 1 <= i < |filters| ==> !filters[i].kind.RangeCapable?
  }

  lemma {:induction false} ChainAppend(a: seq<Filter>, b: seq<Filter>, resource: seq<byte>, buf: seq<byte>)
    ensures Chain(a + b, resource, buf) ==
            match Chain(a, resource, buf) { case None => None case Some(out) => Chain(b, resource, out) }
    decreases a
  {
    if a == [] {
      assert a + b == b;
    } else {
      assert (a + b)[1..] == a[1..] + b;
      var out := Run(a[0].kind, resource, buf);
      if out != [] {
        ChainAppend(a[1..], b, resource, out);
      }
    }
  }

  lemma {:induction false} ChainOfPlain(filters: seq<Filter>, resource: seq<byte>, buf: seq<byte>)
    requires forall i :: 0 <= i < |filters| ==> !filters[i].kind.RangeCapable?
    ensures Chain(filters, resource, buf).Some? ==> Chain(filters, resource, buf).value == Composed(filters, buf)
    decreases filters
  {
    if filters != [] {
      var out := Run(filters[0].kind, resource, buf);
      if out != [] {
        ChainOfPlain(filters[1..], resource, out);
      }
    }
  }

  /** A range-capable filter further down throws away what the filters before it did. */
  lemma {:induction false} LateRangeFilterDiscards(before: seq<Filter>, f: Filter, after: seq<Filter>,
                                                   resource: seq<byte>, buf: seq<byte>)
    requires f.kind.RangeCapable? && Chain(before, resource, buf).Some?
    ensures Chain(before + ([f] + after), resource, buf) == Chain([f] + after, resource, resource)
  {
    ChainAppend(before, [f] + after, resource, buf);
  }

  /** Where the last range-capable filter stands, or 0 if there is none. */
  function LastRangeCapable(filters: seq<Filter>): (k: nat)
    ensures k == 0 || (k < |filters| && filters[k].kind.RangeCapable?)
    ensures forall i :: k < i < |filters| ==> !filters[i].kind.RangeCapable?
  {
    if filters == [] then 0
    else
      var n := |filters| - 1;
      if filters[n].kind.RangeCapable? then n else LastRangeCapable(filters[..n])
  }

  /** What comes before the last range-capable filter does not matter. */
  lemma {:induction false} ChainRestarts(filters: seq<Filter>, k: nat, resource: seq<byte>)
    requires k < |filters| && filters[k].kind.RangeCapable? && Chain(filters, resource, resource).Some?
    ensures Chain(filters, resource, resource) == Chain(filters[k..], resource, resource)
  {
    var before, f, after := filters[..k], filters[k], filters[k + 1..];
    assert filters == before + ([f] + after) && filters[k..] == [f] + after;
    ChainAppend(before, [f] + after, resource, resource);
    LateRangeFilterDiscards(before, f, after, resource, resource);
  }

  lemma {:induction false} ChainOfTail(filters: seq<Filter>, resource: seq<byte>)
    requires RangeCapableFirst(filters) && Chain(filters, resource, resource).Some?
    ensures Chain(filters, resource, resource).value == Composed(filters, resource)
  {
    if filters != [] {
      ChainOfPlain(filters[1..], resource, Run(filters[0].kind, resource, resource));
    }
  }

  /** On a whole resource any chain that returns data composes its filters from the last range-capable one on. */
  lemma {:induction false} ChainComposes(filters: seq<Filter>, resource: seq<byte>)
    requires Chain(filters, resource, resource).Some?
    ensures Chain(filters, resource, resource).value == Composed(filters[LastRangeCapable(filters)..], resource)
    ensures RangeCapableFirst(filters) ==> Chain(filters, resource, resource).value == Composed(filters, resource)
  {
    var k := LastRangeCapable(filters);
    if 0 < k {
      ChainRestarts(filters, k, resource);
    } else {
      assert filters[k..] == filters;
    }
    ChainOfTail(filters[k..], resource);
  }
}
