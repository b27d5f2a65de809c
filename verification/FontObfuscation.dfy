/** Font obfuscation: an in-place XOR of the first 1040 bytes of a resource, fed in chunks. */
module FontObfuscation {

  type byte = bv8

  const KEY_SIZE: nat := 20
  const OBFUSCATED: nat := 1040

  type Key = k: seq<byte> | |k| == KEY_SIZE witness seq(KEY_SIZE, _ => 0)

  /** One byte, `at` bytes into the resource. */
  function ObfuscateByte(key: Key, at: nat, b: byte): byte {
    if at < OBFUSCATED then b ^ key[at % KEY_SIZE] else b
  }

  /** A chunk that starts `at` bytes into the resource. */
  function Obfuscate(key: Key, at: nat, s: seq<byte>): (r: seq<byte>)
    ensures |r| == |s|
  {
    seq(|s|, i requires 0 <= i < |s| => ObfuscateByte(key, at + i, s[i]))
  }

  /** `FontObfuscationContext`: how many bytes of the stream have passed. */
  class FontObfuscationContext {
    var count: nat

    constructor ()
      ensures count == 0
    {
      count := 0;
    }
  }

  /** `FontObfuscator::FilterData` on the first `len` bytes of `data`. */
  method FilterData(key: Key, context: FontObfuscationContext, data: array<byte>, len: nat)
    requires len <= data.Length
    modifies context, data
    ensures data[..len] == Obfuscate(key, old(context.count), old(data[..len]))
    ensures data[len..] == old(data[len..])
    ensures context.count == old(context.count) + len
  {
    var bytesFiltered := context.count;
    var i := 0;
    while i < len && i + bytesFiltered < OBFUSCATED
      invariant i <= len
      invariant forall j :: 0 <= j < i ==> data[j] == ObfuscateByte(key, bytesFiltered + j, old(data[j]))
      invariant forall j :: i <= j < data.Length ==> data[j] == old(data[j])
    {
      data[i] := data[i] ^ key[(i + bytesFiltered) % KEY_SIZE];
      i := i + 1;
    }
    context.count := bytesFiltered + len;
  }

  // ------------------------------------------------------------------------ chunks

  function Flat(chunks: seq<seq<byte>>): seq<byte> {
    if chunks == [] then [] else chunks[0] + Flat(chunks[1..])
  }

  /** Successive calls on one context that has seen `at` bytes. */
  function ObfuscateChunks(key: Key, at: nat, chunks: seq<seq<byte>>): seq<seq<byte>>
    decreases chunks
  {
    if chunks == [] then []
    else [Obfuscate(key, at, chunks[0])] + ObfuscateChunks(key, at + |chunks[0]|, chunks[1..])
  }

  lemma {:induction false} ObfuscateJoin(key: Key, at: nat, a: seq<byte>, b: seq<byte>)
    ensures Obfuscate(key, at, a + b) == Obfuscate(key, at, a) + Obfuscate(key, at + |a|, b)
  {
  }

  /** However a stream is cut into chunks, the outputs join to the output on the whole stream. */
  lemma {:induction false} ChunkInvariance(key: Key, at: nat, chunks: seq<seq<byte>>)
    ensures Flat(ObfuscateChunks(key, at, chunks)) == Obfuscate(key, at, Flat(chunks))
    decreases chunks
  {
    if chunks != [] {
      var a, b := chunks[0], Flat(chunks[1..]);
      ChunkInvariance(key, at + |a|, chunks[1..]);
      assert ObfuscateChunks(key, at, chunks)[1..] == ObfuscateChunks(key, at + |a|, chunks[1..]);
      ObfuscateJoin(key, at, a, b);
    }
  }

  lemma {:induction false} XorTwice(b: byte, k: byte)
    ensures (b ^ k) ^ k == b
  {
  }

  lemma {:induction false} ObfuscateTwice(key: Key, at: nat, s: seq<byte>)
    ensures Obfuscate(key, at, Obfuscate(key, at, s)) == s
  {
    forall i | 0 <= i < |s|
      ensures Obfuscate(key, at, Obfuscate(key, at, s))[i] == s[i]
    {
      XorTwice(s[i], key[(at + i) % KEY_SIZE]);
    }
  }

  /** A second pass with a fresh context restores the stream, whatever the two chunkings. */
  lemma {:induction false} SelfInverse(key: Key, first: seq<seq<byte>>, second: seq<seq<byte>>)
    requires Flat(second) == Flat(ObfuscateChunks(key, 0, first))
    ensures Flat(ObfuscateChunks(key, 0, second)) == Flat(first)
  {
    ChunkInvariance(key, 0, first);
    ChunkInvariance(key, 0, second);
    ObfuscateTwice(key, 0, Flat(first));
  }

  /** The pass keeps the length and every byte from 1040 on, and works by position in the stream. */
  lemma {:induction false} ObfuscatedBytes(key: Key, chunks: seq<seq<byte>>, i: nat)
    requires i < |Flat(chunks)|
    ensures |Flat(ObfuscateChunks(key, 0, chunks))| == |Flat(chunks)|
    ensures Flat(ObfuscateChunks(key, 0, chunks))[i]
         == if i < 1040 then Flat(chunks)[i] ^ key[i % 20] else Flat(chunks)[i]
  {
    ChunkInvariance(key, 0, chunks);
  }
}
