/** Large objects as fixed-size chunks plus a manifest, all content-addressed. */
module Chunks {
  import opened Wrappers
  import opened Patterns
  import opened Store

  const DEFAULT_CHUNK_SIZE := 0x40_0000

  const CHUNKS_API := "platform-factory.dev/chunks/v1"
  const LEGACY_CHUNKS_API := "secure-oci.dev/chunks/v1"

  datatype Manifest = Manifest(apiVersion: string, size: int, chunkSize: int, chunks: seq<Descriptor>)

  /** The text encoding of manifests. */
  datatype Codec = Codec(encode: Manifest -> Bytes, decode: Bytes -> Option<Manifest>)

  // ----- What chunking means -----

  /** The input cut into pieces of `n` bytes, the last one possibly shorter. */
  function Split(data: Bytes, n: nat): (pieces: seq<Bytes>)
    requires n > 0
    decreases |data|
  {
    if data == [] then []
    else if |data| <= n then [data]
    else [data[..n]] + Split(data[n..], n)
  }

  function Join(pieces: seq<Bytes>): Bytes {
    if pieces == [] then [] else pieces[0] + Join(pieces[1..])
  }

  lemma {:induction false} JoinSplit(data: Bytes, n: nat)
    requires n > 0
    ensures Join(Split(data, n)) == data
    decreases |data|
  {
    if data == [] {
    } else if |data| <= n {
      assert Split(data, n)[1..] == [];
    } else {
      JoinSplit(data[n..], n);
      assert Split(data, n)[1..] == Split(data[n..], n);
    }
  }

  /** Every piece but the last is full, and no piece is empty. */
  lemma {:induction false} SplitSizes(data: Bytes, n: nat)
    requires n > 0
    ensures forall i :: 0 <= i < |Split(data, n)| - 1 ==> |Split(data, n)[i]| == n
    ensures forall i :: 0 <= i < |Split(data, n)| ==> 0 < |Split(data, n)[i]| <= n
    decreases |data|
  {
    if |data| > n {
      SplitSizes(data[n..], n);
    }
  }

  /** Cutting can be done in two goes at a multiple of the piece size. */
  lemma {:induction false} SplitConcat(a: Bytes, b: Bytes, n: nat)
    requires n > 0 && |a| % n == 0
    ensures Split(a + b, n) == Split(a, n) + Split(b, n)
    decreases |a|
  {
    if a == [] {
      assert a + b == b;
    } else {
      assert |a| >= n by { SmallMod(|a|, n); }
      var t := a[n..];
      assert |t| % n == 0 by { ModStep(|a|, n); }
      SplitConcat(t, b, n);
      assert (a + b)[..n] == a[..n] && (a + b)[n..] == t + b;
      if |a| == n {
        assert t == [] && a[..n] == a && t + b == b;
        if b == [] { assert a + b == a; }
      }
    }
  }

  lemma SmallMod(x: nat, n: nat)
    requires n > 0 && x > 0 && x % n == 0
    ensures x >= n
  {
  }

  lemma ModStep(x: nat, n: nat)
    requires n > 0 && x >= n
    ensures (x - n) % n == x % n
  {
    assert x == n * (x / n) + x % n;
    DivUnique(x - n, n, x / n - 1, x % n);
  }

  lemma DivUnique(x: int, n: nat, q: int, r: int)
    requires n > 0 && x == n * q + r && 0 <= r < n
    ensures x / n == q && x % n == r
  {
    var q', r' := x / n, x % n;
    assert x == n * q' + r';
    assert n * (q - q') == r' - r;
    MulBound(n, q - q');
  }

  lemma MulBound(n: int, k: int)
    requires n > 0
    ensures k >= 1 ==> n * k >= n
    ensures k <= -1 ==> n * k <= -n
  {
  }

  function DescriptorOf(hash: Bytes -> string, b: Bytes): Descriptor {
    Descriptor(DigestOf(hash(b)), |b|)
  }

  function Descriptors(hash: Bytes -> string, pieces: seq<Bytes>): (ds: seq<Descriptor>)
    ensures |ds| == |pieces|
    ensures forall i :: 0 <= i < |ds| ==> ds[i] == DescriptorOf(hash, pieces[i])
  {
    seq(|pieces|, i requires 0 <= i < |pieces| => DescriptorOf(hash, pieces[i]))
  }

  function EffectiveSize(chunkSize: int): nat {
    if chunkSize <= 0 then DEFAULT_CHUNK_SIZE else chunkSize
  }

  /** The manifest of an input: what both ingestion paths must produce. */
  function ManifestOf(hash: Bytes -> string, data: Bytes, n: nat): Manifest
    requires n > 0
  {
    Manifest(CHUNKS_API, |data|, n, Descriptors(hash, Split(data, n)))
  }

  // ----- A manifest in terms of the input -----

  /** Chunk `i` of an input cut every `n` bytes: where it ends. */
  function CutEnd(data: Bytes, n: nat, i: nat): nat {
    if (i + 1) * n <= |data| then (i + 1) * n else |data|
  }

  /** The descriptor is that of bytes `i * n` up to `(i + 1) * n`, or the end. */
  predicate IsChunk(c: Descriptor, hash: Bytes -> string, data: Bytes, n: nat, i: nat) {
    && i * n < CutEnd(data, n, i) <= |data|
    && c.size == CutEnd(data, n, i) - i * n
    && c.digest == "sha256:" + hash(data[i * n..CutEnd(data, n, i)])
  }

  /** The manifest of an input cut every `n` bytes: full chunks, then what is left. */
  predicate CutEvery(m: Manifest, hash: Bytes -> string, data: Bytes, n: nat) {
    && n > 0 && m.apiVersion == "platform-factory.dev/chunks/v1" && m.size == |data| && m.chunkSize == n
    && |m.chunks| == (|data| + n - 1) / n
    && (forall i :: 0 <= i < |m.chunks| ==> IsChunk(m.chunks[i], hash, data, n, i))
    && (forall i :: 0 <= i < |m.chunks| - 1 ==> m.chunks[i].size == n)
  }

  lemma {:induction false} PieceAt(data: Bytes, n: nat, i: nat)
    requires n > 0 && i < |Split(data, n)|
    ensures i * n < CutEnd(data, n, i) <= |data| && Split(data, n)[i] == data[i * n..CutEnd(data, n, i)]
    decreases i
  {
    Times(i, n);
    if i > 0 {
      var t := data[n..];
      PieceAt(t, n, i - 1);
      Times(i - 1, n);
      assert CutEnd(data, n, i) == CutEnd(t, n, i - 1) + n && i * n == (i - 1) * n + n;
      assert t[(i - 1) * n..CutEnd(t, n, i - 1)] == data[i * n..CutEnd(data, n, i)];
    }
  }

  lemma Times(i: nat, n: nat)
    ensures (i + 1) * n == i * n + n && 0 * n == 0 && 1 * n == n
  {
  }

  lemma {:induction false} PieceCount(data: Bytes, n: nat)
    requires n > 0
    ensures |Split(data, n)| == (|data| + n - 1) / n
    decreases |data|
  {
    if data == [] {
      DivUnique(n - 1, n, 0, n - 1);
    } else if |data| <= n {
      DivUnique(|data| + n - 1, n, 1, |data| - 1);
    } else {
      PieceCount(data[n..], n);
      var x := |data| - 1;
      assert x == n * (x / n) + x % n;
      DivUnique(x + n, n, x / n + 1, x % n);
    }
  }

  /** The manifest is the input cut at the size in force. */
  lemma ManifestCutsEvery(hash: Bytes -> string, data: Bytes, n: nat)
    requires n > 0
    ensures CutEvery(ManifestOf(hash, data, n), hash, data, n)
  {
    hide Split;
    var m := ManifestOf(hash, data, n);
    PieceCount(data, n);
    SplitSizes(data, n);
    forall i | 0 <= i < |m.chunks| ensures IsChunk(m.chunks[i], hash, data, n, i) {
      PieceAt(data, n, i);
    }
  }

  // ----- Streams -----

  /** How a reader stops: end of file, its own `io.ErrUnexpectedEOF`, or another error. */
  datatype End = Eof | Unexpected | Failed

  datatype Stream = Stream(bytes: Bytes, end: End)

  /** `io.ReadFull` of `n` bytes: the bytes, whether they are all there, and what is left. */
  function ReadFull(s: Stream, n: nat): (Bytes, bool, Stream) {
    if |s.bytes| >= n then (s.bytes[..n], true, s.(bytes := s.bytes[n..]))
    else (s.bytes, false, s.(bytes := []))
  }

  // ----- One-shot ingestion -----

  ghost predicate AllIntact(hash: Bytes -> string, d: Disk, pieces: seq<Bytes>) {
    forall i :: 0 <= i < |pieces| ==> Intact(hash, d, hash(pieces[i]))
  }

  lemma PutKeepsIntact(hash: Bytes -> string, d: Disk, data: Bytes, fault: PutFault, now: int, pieces: seq<Bytes>)
    requires AllIntact(hash, d, pieces)
    ensures AllIntact(hash, d.(blobs := PutBlobs(hash, d, data, fault, now)), pieces)
  {
  }

  /** Store the stream chunk by chunk, then its manifest; `faults` decides which stores fail. */
  method PutChunked(store: Store, input: Stream, chunkSize: int, codec: Codec, faults: nat -> PutFault, now: int)
    returns (r: Result<(Descriptor, Manifest), StoreError>)
    requires store.Valid()
    modifies store
    ensures store.Valid()
    ensures input.end.Failed? ==> r.Err?
    ensures (forall i :: faults(i).NoFault?) && !input.end.Failed? ==> r.Ok?
    ensures r.Ok? ==>
              var n := EffectiveSize(chunkSize);
              var m := ManifestOf(store.hash, input.bytes, n);
              && r.value == (DescriptorOf(store.hash, codec.encode(m)), m)
              && AllIntact(store.hash, store.disk, Split(input.bytes, n) + [codec.encode(m)])
    ensures r.Ok? ==> CutEvery(r.value.1, store.hash, input.bytes, if chunkSize > 0 then chunkSize else 0x40_0000)
  {
    hide CutEvery;
    var n := EffectiveSize(chunkSize);
    ManifestCutsEvery(store.hash, input.bytes, n);
    var chunks := StoreChunks(store, input, n, faults, now);
    if chunks.Err? {
      return Err(chunks.error);
    }
    var (descriptors, size) := chunks.value;
    var manifest := Manifest(CHUNKS_API, size, n, descriptors);
    ghost var before := store.disk;
    var root := store.Put(codec.encode(manifest), faults(|descriptors|), now);
    if root.Err? {
      return Err(root.error);
    }
    PutKeepsIntact(store.hash, before, codec.encode(manifest), faults(|descriptors|), now, Split(input.bytes, n));
    return Ok((root.value, manifest));
  }

  /**
   A reader that stops with its own `io.ErrUnexpectedEOF` is taken for the end of the input: the
   object stored is that of the bytes delivered, and it is the whole input's exactly if the
   reader had delivered all of it.
   */
  lemma TruncatedObjectIff(hash: Bytes -> string, data: Bytes, k: nat, n: nat)
    requires n > 0 && k <= |data|
    ensures ManifestOf(hash, data[..k], n) == ManifestOf(hash, data, n) <==> k == |data|
  {
    assert k == |data| ==> data[..k] == data;
  }

  /** The read loop: full chunks until the stream ends. */
  method StoreChunks(store: Store, input: Stream, n: nat, faults: nat -> PutFault, now: int)
    returns (r: Result<(seq<Descriptor>, int), StoreError>)
    requires store.Valid() && n > 0
    modifies store
    ensures store.Valid()
    ensures input.end.Failed? ==> r.Err?
    ensures (forall i :: faults(i).NoFault?) && !input.end.Failed? ==> r.Ok?
    ensures r.Ok? ==> r.value == (Descriptors(store.hash, Split(input.bytes, n)), |input.bytes|)
    ensures r.Ok? ==> AllIntact(store.hash, store.disk, Split(input.bytes, n))
  {
    var chunks: seq<Descriptor> := [];
    var size := 0;
    var rest := input;
    ghost var done: Bytes := [];
    while true
      invariant store.Valid() && input.bytes == done + rest.bytes && rest.end == input.end
      invariant |done| == size && size % n == 0
      invariant chunks == Descriptors(store.hash, Split(done, n))
      invariant AllIntact(store.hash, store.disk, Split(done, n))
      decreases |rest.bytes|
    {
      var (chunk, full, after) := ReadFull(rest, n);
      ghost var pieces := Split(done, n);
      if |chunk| > 0 {
        ghost var before := store.disk;
        var descriptor := store.Put(chunk, faults(|chunks|), now);
        if descriptor.Err? {
          return Err(descriptor.error);
        }
        PutKeepsIntact(store.hash, before, chunk, faults(|chunks|), now, pieces);
        NextPiece(done, chunk, n);
        chunks := chunks + [descriptor.value];
        size := size + |chunk|;
        done := done + chunk;
        assert chunks == Descriptors(store.hash, pieces + [chunk]);
      }
      if !full {
        if rest.end.Failed? {
          return Err(Io);
        }
        assert done == input.bytes;
        return Ok((chunks, size));
      }
      rest := after;
    }
  }

  lemma NextPiece(done: Bytes, chunk: Bytes, n: nat)
    requires n > 0 && 0 < |chunk| <= n && |done| % n == 0
    ensures Split(done + chunk, n) == Split(done, n) + [chunk]
    ensures |chunk| == n ==> |done + chunk| % n == 0
  {
    SplitConcat(done, chunk, n);
    if |chunk| == n {
      ModStep(|done| + n, n);
    }
  }
}
