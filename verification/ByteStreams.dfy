/** Seekable byte streams, byte ranges, and the context a range-capable filter works with. */
module ByteStreams {
  import opened Prelude
  import opened FontObfuscation

  function Min(a: nat, b: nat): nat { if a < b then a else b }

  /** The bytes of `s` from `location` on, at most `length` of them. */
  function Slice(s: seq<byte>, location: nat, length: nat): (r: seq<byte>)
    ensures |r| <= length
  {
    s[Min(location, |s|)..Min(location + length, |s|)]
  }

  /** A seekable stream over a resource, as the zip and file streams behave. */
  class SeekableByteStream {
    const bytes: seq<byte>
    var pos: nat
    var eof: bool
    var open: bool

    predicate Valid()
      reads this
    {
      pos <= |bytes| && (eof ==> pos == |bytes|)
    }

    /** A freshly opened stream has not noticed its end yet, even when it is empty. */
    constructor (bytes: seq<byte>)
      ensures Valid() && this.bytes == bytes && pos == 0 && !eof && open
    {
      this.bytes, pos, eof, open := bytes, 0, false, true;
    }

    function BytesAvailable(): nat
      requires Valid()
      reads this
    {
      if open then |bytes| - pos else 0
    }

    method ReadBytes(buf: array<byte>, len: nat) returns (n: nat)
      requires Valid() && len <= buf.Length
      modifies this, buf
      ensures Valid() && open == old(open)
      ensures n == Min(len, old(BytesAvailable()))
      ensures buf[..n] == bytes[old(pos)..old(pos) + n] && buf[n..] == old(buf[n..])
      ensures pos == old(pos) + n
      ensures eof == if open && 0 < len then pos == |bytes| else old(eof)
    {
      n := Min(len, BytesAvailable());
      forall i | 0 <= i < n {
        buf[i] := bytes[pos + i];
      }
      pos := pos + n;
      if open && 0 < len {
        eof := pos == |bytes|;
      }
    }

    /** `Seek(target, std::ios::beg)`, stopping at the end. */
    method Seek(target: nat)
      requires Valid()
      modifies this
      ensures Valid() && open == old(open)
      ensures if open then pos == Min(target, |bytes|) && eof == (pos == |bytes|)
              else pos == old(pos) && eof == old(eof)
    {
      if open {
        pos := Min(target, |bytes|);
        eof := pos == |bytes|;
      }
    }
  }

  datatype ByteRange = ByteRange(location: uint32, length: uint32, isFullRange: bool)

  const FULL_RANGE := ByteRange(0, 0, true)

  /** `ByteRange::operator=`: assigning a full range resets the numbers. */
  function AssignedRange(b: ByteRange): ByteRange { if b.isFullRange then FULL_RANGE else b }

  /** The temporary buffer by its sizes: the last request's, and the allocation's. */
  datatype Temporary = Temporary(present: bool, recorded: nat, room: nat)

  predicate Reallocates(t: Temporary, request: nat) { !t.present || t.recorded < request }

  function Requested(t: Temporary, request: nat): Temporary {
    if Reallocates(t, request) then Temporary(true, request, request) else t.(recorded := request)
  }

  /** The buffer after a run of requests, and how often it was allocated. */
  function AllRequested(t: Temporary, requests: seq<nat>): (Temporary, nat)
    decreases requests
  {
    if requests == [] then (t, 0)
    else
      var (u, n) := AllRequested(Requested(t, requests[0]), requests[1..]);
      (u, n + if Reallocates(t, requests[0]) then 1 else 0)
  }

  /** How often a request exceeds the one before it. */
  function Rises(requests: seq<nat>): nat {
    if |requests| <= 1 then 0
    else (if requests[0] < requests[1] then 1 else 0) + Rises(requests[1..])
  }

  /**
   Over any run of requests the recorded size is the last request and fits the allocation,
   and the buffer is allocated once per rise, even where an earlier allocation had room.
   */
  lemma {:induction false} TemporaryRun(t: Temporary, requests: seq<nat>)
    requires requests != [] && t.recorded <= t.room
    ensures var (u, n) := AllRequested(t, requests);
            && u.present && u.recorded == requests[|requests| - 1] <= u.room
            && n == Rises(requests) + (if Reallocates(t, requests[0]) then 1 else 0)
    decreases requests
  {
    if 1 < |requests| {
      TemporaryRun(Requested(t, requests[0]), requests[1..]);
    } else {
      assert requests[1..] == [];
    }
  }

  /** `RangeFilterContext`: the requested range, the attached stream, and a reusable buffer. */
  class RangeFilterContext {
    var buffer: array?<byte>
    var bufferSize: nat
    var allocatedSize: nat
    var byteRange: ByteRange
    var stream: SeekableByteStream?

    /** The recorded size never exceeds what is allocated. */
    predicate Valid()
      reads this
    {
      if buffer == null then bufferSize == allocatedSize == 0
      else bufferSize <= allocatedSize == buffer.Length
    }

    function Sizes(): Temporary
      reads this
    {
      Temporary(buffer != null, bufferSize, allocatedSize)
    }

    ghost function Footprint(): set<object>
      reads this
    {
      {this} + if buffer == null then {} else {buffer}
    }

    constructor ()
      ensures Valid() && buffer == null && stream == null
      ensures byteRange == FULL_RANGE == ByteRange(0, 0, true)
    {
      buffer, bufferSize, allocatedSize, byteRange, stream := null, 0, 0, FULL_RANGE, null;
    }

    /**
     A zeroed buffer with room for the request. The buffer is replaced exactly when there is
     none or its recorded size (that of the last request, not of the allocation) is too small.
     */
    method GetAllocateTemporaryByteBuffer(bytesToRead: nat) returns (b: array<byte>)
      requires Valid()
      modifies this`buffer, this`bufferSize, this`allocatedSize, Footprint() - {this}
      ensures Valid() && b == buffer && bytesToRead <= b.Length && bufferSize == bytesToRead
      ensures forall i :: 0 <= i < b.Length ==> b[i] == 0
      ensures Sizes() == Requested(old(Sizes()), bytesToRead)
      ensures if old(buffer) == null || old(bufferSize) < bytesToRead then fresh(b) && b.Length == bytesToRead
              else b == old(buffer)
    {
      if buffer == null || bufferSize < bytesToRead {
        buffer := new byte[bytesToRead];
        allocatedSize := bytesToRead;
      }
      b := buffer;
      var i := 0;
      while i < allocatedSize
        invariant i <= allocatedSize == b.Length
        invariant forall j :: 0 <= j < i ==> b[j] == 0
        modifies b
      {
        b[i] := 0;
        i := i + 1;
      }
      bufferSize := bytesToRead;
    }
  }

  // ------------------------------------------------------ the pass-through filter

  /** What the pass-through filter answers with a stream attached; `[]` stands for no data. */
  function PassedThrough(resource: seq<byte>, r: ByteRange): seq<byte> {
    if r.isFullRange then resource else Slice(resource, r.location, r.length)
  }

  /** Reading through the context's buffer: the tail of `FilterData`. */
  method ReadThroughBuffer(context: RangeFilterContext, byteStream: SeekableByteStream, bytesToRead: nat)
    returns (r: seq<byte>)
    requires context.Valid() && byteStream.Valid()
    modifies context`buffer, context`bufferSize, context`allocatedSize, context.Footprint() - {context}, byteStream
    ensures context.Valid() && fresh(context.Footprint() - old(context.Footprint()))
    ensures byteStream.Valid() && byteStream.open == old(byteStream.open)
    ensures |r| == Min(bytesToRead, old(byteStream.BytesAvailable()))
    ensures r == byteStream.bytes[old(byteStream.pos)..old(byteStream.pos) + |r|]
    ensures byteStream.pos == old(byteStream.pos) + |r|
  {
    var buffer := context.GetAllocateTemporaryByteBuffer(bytesToRead);
    var readBytes := byteStream.ReadBytes(buffer, bytesToRead);
    return buffer[..readBytes];
  }

  /** `PassThroughFilter::FilterData` with a stream attached; `None` stands for a null result. */
  method ReadThrough(context: RangeFilterContext, byteStream: SeekableByteStream) returns (r: Option<seq<byte>>)
    requires context.Valid() && byteStream.Valid()
    modifies context`buffer, context`bufferSize, context`allocatedSize, context.Footprint() - {context}, byteStream
    ensures context.Valid() && fresh(context.Footprint() - old(context.Footprint()))
    ensures byteStream.Valid() && byteStream.open == old(byteStream.open)
    ensures !byteStream.open ==> r == None && byteStream.pos == old(byteStream.pos)
    ensures byteStream.open ==>
              (if r.None? then [] else r.value) == PassedThrough(byteStream.bytes, context.byteRange)
    ensures byteStream.open && context.byteRange.isFullRange ==> byteStream.pos == |byteStream.bytes|
  {
    if !byteStream.open {
      return None;
    }
    var bytesToRead := 0;
    if !context.byteRange.isFullRange {
      bytesToRead := context.byteRange.length;
      byteStream.Seek(context.byteRange.location);
    } else {
      byteStream.Seek(0);
      bytesToRead := byteStream.BytesAvailable();
    }
    if bytesToRead == 0 {
      return None;
    }
    var data := ReadThroughBuffer(context, byteStream, bytesToRead);
    return Some(data);
  }

  /** `PassThroughFilter::FilterData`: without a stream it hands its input on. */
  method PassThrough(context: RangeFilterContext, data: seq<byte>) returns (r: Option<seq<byte>>)
    requires context.Valid() && (context.stream != null ==> context.stream.Valid())
    modifies context`buffer, context`bufferSize, context`allocatedSize, context.Footprint() - {context}
    modifies if context.stream == null then {} else {context.stream}
    ensures context.Valid() && fresh(context.Footprint() - old(context.Footprint()))
    ensures context.stream == null ==> r == Some(data)
    ensures context.stream != null ==>
              && context.stream.Valid() && context.stream.open == old(context.stream.open)
              && (if r.None? then [] else r.value)
                 == (if context.stream.open then PassedThrough(context.stream.bytes, context.byteRange) else [])
              && (context.stream.open && context.byteRange.isFullRange ==>
                    context.stream.pos == |context.stream.bytes|)
  {
    if context.stream == null {
      return Some(data);
    }
    r := ReadThrough(context, context.stream);
  }
}
