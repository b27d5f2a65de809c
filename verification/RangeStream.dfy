/** Random access to a resource: reads of byte ranges, raw or through the pass-through filter. */
module RangeStream {
  import opened Prelude
  import opened FontObfuscation
  import opened ByteStreams

  /** Requests turned down before anything is read. */
  predicate Rejected(len: nat, r: ByteRange) {
    len == 0 || (!r.isFullRange && (r.length == 0 || r.length > len))
  }

  /** What a read without a filter delivers. */
  function RawRead(resource: seq<byte>, len: nat, r: ByteRange): seq<byte> {
    if Rejected(len, r) then []
    else if r.isFullRange then if |resource| > len then [] else resource
    else Slice(resource, r.location, r.length)
  }

  /** What the pass-through filter hands to a read; the caller's buffer takes at most `len` of it. */
  function FilteredRead(resource: seq<byte>, len: nat, r: ByteRange): seq<byte> {
    if Rejected(len, r) then [] else PassedThrough(resource, r)
  }

  class FilterChainByteStreamRange {
    const input: SeekableByteStream
    /** The context of the pass-through filter, or null when no filter applies. */
    const context: RangeFilterContext?

    ghost predicate Valid()
      reads this, input, context
    {
      && input.Valid()
      && (context != null ==> context.Valid() && context.stream == null && context.byteRange == FULL_RANGE)
    }

    ghost function Resource(): seq<byte>
      reads this, input
    {
      if input.open then input.bytes else []
    }

    ghost function Footprint(): set<object>
      reads this, context
    {
      {input} + if context == null then {} else context.Footprint()
    }

    constructor (input: SeekableByteStream, filtered: bool)
      requires input.Valid()
      ensures Valid() && this.input == input && (context != null <==> filtered)
      ensures fresh(Footprint() - {input})
    {
      this.input := input;
      if filtered {
        var c := new RangeFilterContext();
        context := c;
      } else {
        context := null;
      }
    }

    /** `ReadRawBytes`. */
    method ReadRawBytes(bytes: array<byte>, len: nat, byteRange: ByteRange) returns (n: nat)
      requires Valid() && len <= bytes.Length && !Rejected(len, byteRange)
      modifies input, bytes
      ensures input.Valid() && input.open == old(input.open)
      ensures n == |RawRead(Resource(), len, byteRange)|
      ensures bytes[..n] == RawRead(Resource(), len, byteRange) && bytes[n..] == old(bytes[n..])
      ensures byteRange.isFullRange && |Resource()| > len ==> n == 0 && bytes[..] == old(bytes[..])
    {
      var bytesToRead := 0;
      if !byteRange.isFullRange {
        input.Seek(byteRange.location);
        bytesToRead := Min(len, byteRange.length);
      } else {
        input.Seek(0);
        if input.BytesAvailable() > len {
          return 0;
        }
        bytesToRead := len;
      }
      n := input.ReadBytes(bytes, bytesToRead);
    }

    /** Sets the context up for a range, filters, and resets it: full range, no stream attached. */
    method FilterRange(byteRange: ByteRange) returns (data: seq<byte>)
      requires Valid() && context != null
      modifies Footprint()
      ensures Valid() && input.open == old(input.open) && fresh(Footprint() - old(Footprint()))
      ensures data == PassedThrough(Resource(), byteRange)
    {
      context.byteRange := AssignedRange(byteRange);
      context.stream := input;
      var filtered := PassThrough(context, []);
      context.byteRange := FULL_RANGE;
      context.stream := null;
      return if filtered.None? then [] else filtered.value;
    }

    /** The filtered half of `ReadBytes`: at most `len` bytes are copied, all are reported. */
    method ReadFilteredBytes(bytes: array<byte>, len: nat, byteRange: ByteRange) returns (n: nat)
      requires Valid() && len <= bytes.Length && !Rejected(len, byteRange)
      requires context != null && bytes !in Footprint()
      modifies Footprint(), bytes
      ensures Valid() && input.open == old(input.open) && fresh(Footprint() - old(Footprint()))
      ensures n == |FilteredRead(Resource(), len, byteRange)|
      ensures bytes[..Min(n, len)] == FilteredRead(Resource(), len, byteRange)[..Min(n, len)]
      ensures bytes[Min(n, len)..] == old(bytes[Min(n, len)..])
    {
      var filteredData := FilterRange(byteRange);
      n := |filteredData|;
      CopyOut(bytes, filteredData, Min(len, n));
    }

    /** `ReadBytes` with a byte range. */
    method ReadBytes(bytes: array<byte>, len: nat, byteRange: ByteRange) returns (n: nat)
      requires Valid() && len <= bytes.Length && bytes !in Footprint()
      modifies Footprint(), bytes
      ensures Valid() && input.open == old(input.open) && fresh(Footprint() - old(Footprint()))
      ensures Rejected(len, byteRange) ==> n == 0 && bytes[..] == old(bytes[..]) && input.pos == old(input.pos)
      ensures context == null ==>
                && n == |RawRead(Resource(), len, byteRange)|
                && bytes[..n] == RawRead(Resource(), len, byteRange) && bytes[n..] == old(bytes[n..])
                && (byteRange.isFullRange && |Resource()| > len ==> n == 0 && bytes[..] == old(bytes[..]))
      ensures context != null ==>
                && n == |FilteredRead(Resource(), len, byteRange)|
                && bytes[..Min(n, len)] == FilteredRead(Resource(), len, byteRange)[..Min(n, len)]
                && bytes[Min(n, len)..] == old(bytes[Min(n, len)..])
    {
      if len == 0 {
        return 0;
      }
      if byteRange.length == 0 && !byteRange.isFullRange {
        return 0;
      }
      if byteRange.length > len && !byteRange.isFullRange {
        return 0;
      }
      if context == null {
        n := ReadRawBytes(bytes, len, byteRange);
      } else {
        n := ReadFilteredBytes(bytes, len, byteRange);
      }
    }
  }

  /** `memcpy`. */
  method CopyOut(bytes: array<byte>, data: seq<byte>, count: nat)
    requires count <= bytes.Length && count <= |data|
    modifies bytes
    ensures bytes[..count] == data[..count] && bytes[count..] == old(bytes[count..])
  {
    forall i | 0 <= i < count {
      bytes[i] := data[i];
    }
  }

  // --------------------------------------------------------------------------- laws

  /**
   Reading through the pass-through filter is reading raw exactly unless the whole resource
   is asked for with too small a buffer: there the raw read refuses, while the filtered read
   fills the buffer and reports more bytes than it holds.
   */
  lemma {:induction false} FilteredIsRaw(resource: seq<byte>, len: nat, r: ByteRange)
    ensures FilteredRead(resource, len, r) == RawRead(resource, len, r)
            <==> len == 0 || !r.isFullRange || |resource| <= len
    ensures |FilteredRead(resource, len, r)| > len <==> len != 0 && r.isFullRange && |resource| > len
  {
  }

  /**
   What each read delivers, by the request alone: nothing for an empty buffer, a range of no
   length or a range longer than the buffer; for the full range everything, except that the raw
   read refuses a buffer that is too small.
   */
  lemma {:induction false} ReadByRequest(resource: seq<byte>, len: nat, r: ByteRange)
    ensures len == 0 ==> RawRead(resource, len, r) == FilteredRead(resource, len, r) == []
    ensures 0 < len && r.isFullRange ==> FilteredRead(resource, len, r) == resource
    ensures 0 < len && r.isFullRange ==>
              RawRead(resource, len, r) == if len < |resource| then [] else resource
    ensures !r.isFullRange && (r.length == 0 || len < r.length) ==>
              RawRead(resource, len, r) == FilteredRead(resource, len, r) == []
    ensures !r.isFullRange && 0 < r.length <= len ==>
              && |RawRead(resource, len, r)| == |FilteredRead(resource, len, r)|
              && |RawRead(resource, len, r)| == (if |resource| <= r.location then 0
                                                 else Min(r.length, |resource| - r.location))
              && forall i :: 0 <= i < |RawRead(resource, len, r)| ==>
                   RawRead(resource, len, r)[i] == FilteredRead(resource, len, r)[i] == resource[r.location + i]
  {
  }

  function Total(lengths: seq<uint32>): nat {
    if lengths == [] then 0 else lengths[0] + Total(lengths[1..])
  }

  /** Ranges that lie inside 32 bits and that a buffer of `len` bytes accepts. */
  predicate Accepted(len: nat, at: nat, lengths: seq<uint32>)
    decreases lengths
  {
    lengths == [] || (at < WORD && 0 < lengths[0] <= len && Accepted(len, at + lengths[0], lengths[1..]))
  }

  /** Successive range reads of the given lengths, from `at` on, joined. */
  function TiledReads(resource: seq<byte>, len: nat, at: nat, lengths: seq<uint32>): seq<byte>
    requires Accepted(len, at, lengths)
    decreases lengths
  {
    if lengths == [] then []
    else
      RawRead(resource, len, ByteRange(at, lengths[0], false)) +
      TiledReads(resource, len, at + lengths[0], lengths[1..])
  }

  lemma {:induction false} RangeRead(resource: seq<byte>, len: nat, at: uint32, n: uint32)
    requires 0 < n <= len
    ensures RawRead(resource, len, ByteRange(at, n, false)) == Slice(resource, at, n)
  {
  }

  lemma {:induction false} SliceJoin(s: seq<byte>, at: nat, m: nat, n: nat)
    ensures Slice(s, at, m) + Slice(s, at + m, n) == Slice(s, at, m + n)
  {
  }

  /** Any run of accepted adjacent ranges reads the stretch they cover. */
  lemma {:induction false} AdjacentReads(resource: seq<byte>, len: nat, at: nat, lengths: seq<uint32>)
    requires Accepted(len, at, lengths)
    ensures TiledReads(resource, len, at, lengths) == Slice(resource, at, Total(lengths))
    decreases lengths
  {
    if lengths != [] {
      var n, rest := lengths[0], lengths[1..];
      AdjacentReads(resource, len, at + n, rest);
      RangeRead(resource, len, at, n);
      assert TiledReads(resource, len, at, lengths) == Slice(resource, at, n) + Slice(resource, at + n, Total(rest));
      SliceJoin(resource, at, n, Total(rest));
    }
  }

  /** Any tiling of the resource by accepted ranges reassembles it. */
  lemma {:induction false} TilingReassembles(resource: seq<byte>, len: nat, lengths: seq<uint32>)
    requires Accepted(len, 0, lengths) && |resource| <= Total(lengths)
    ensures TiledReads(resource, len, 0, lengths) == resource
  {
    AdjacentReads(resource, len, 0, lengths);
  }
}
