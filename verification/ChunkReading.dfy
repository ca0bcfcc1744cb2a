/** Reading a chunked object back through buffers of any size. */
module ChunkReading {
  import opened Wrappers
  import opened Patterns
  import opened Store
  import opened Chunks

  /** The largest manifest `OpenChunked` decodes: 16 MiB. */
  const MAX_MANIFEST_BYTES := 0x100_0000

  datatype ReadResult = Data(bytes: Bytes) | EndOfFile | Broken

  /** The chunk can be opened: its digest parses and the blob re-hashes to it. */
  predicate Readable(hash: Bytes -> string, d: Disk, c: Descriptor) {
    ParseDigest(c.digest).Some? && Intact(hash, d, c.digest[7..])
  }

  predicate AllReadable(hash: Bytes -> string, d: Disk, chunks: seq<Descriptor>) {
    forall i :: 0 <= i < |chunks| ==> Readable(hash, d, chunks[i])
  }

  /** The bytes of the readable chunks, one after the other. */
  function Content(hash: Bytes -> string, d: Disk, chunks: seq<Descriptor>): Bytes
    requires AllReadable(hash, d, chunks)
  {
    if chunks == [] then []
    else
      assert Readable(hash, d, chunks[0]);
      assert forall i :: 0 <= i < |chunks| - 1 ==> chunks[1..][i] == chunks[i + 1];
      d.blobs[chunks[0].digest[7..]].content + Content(hash, d, chunks[1..])
  }

  /** A read delivers the next bytes, at least one if the buffer has room; the end comes only when none are left. */
  ghost predicate Delivered(all: Bytes, r: ReadResult, rest: Bytes, length: nat) {
    match r
    case Data(bytes) => all == bytes + rest && |bytes| <= length && (length > 0 ==> |bytes| > 0)
    case EndOfFile => all == [] && rest == []
    case Broken => false
  }

  class ChunkReader {
    const store: Store
    const chunks: seq<Descriptor>
    var index: nat
    var current: Option<Bytes>

    constructor (store: Store, chunks: seq<Descriptor>)
      ensures this.store == store && this.chunks == chunks && index == 0 && current.None?
      ensures Valid()
    {
      this.store := store;
      this.chunks := chunks;
      index := 0;
      current := None;
    }

    ghost predicate Valid()
      reads this
    {
      index <= |chunks|
    }

    /** Every chunk still to be opened is readable. */
    predicate Sound()
      reads this, store
      requires Valid()
    {
      AllReadable(store.hash, store.disk, chunks[index..])
    }

    /** What this reader will still deliver. */
    function Rest(): Bytes
      reads this, store
      requires Valid() && Sound()
    {
      (if current.Some? then current.value else []) + Content(store.hash, store.disk, chunks[index..])
    }

    /** How much of the open chunk is left, counting its end. */
    function Left(): nat
      reads this
    {
      if current.Some? then |current.value| + 1 else 0
    }

    /** Verify and open the next chunk. */
    method OpenNext() returns (ok: bool)
      requires Valid() && current.None? && index < |chunks|
      modifies this
      ensures Valid()
      ensures ok ==> index == old(index) + 1 && current.Some?
      ensures old(Sound()) ==> ok && Sound() && Rest() == old(Rest())
    {
      var next := chunks[index];
      assert chunks[index..][0] == next && chunks[index..][1..] == chunks[index + 1..];
      TailReadable(store.hash, store.disk, chunks[index..]);
      var verified := store.Verify(next.digest);
      if !verified {
        return false;
      }
      var file := store.Get(next.digest);
      if file.Err? {
        return false;
      }
      current := Some(file.value);
      index := index + 1;
      return true;
    }

    /**
     One `Read` into a buffer of `length` bytes.  The open file may return fewer bytes than
     asked (`give` bounds it) and may report the end together with its last bytes or alone.
     */
    method Read(length: nat, give: nat, endWithData: bool) returns (r: ReadResult)
      requires Valid() && give > 0
      modifies this
      ensures Valid()
      ensures old(Sound()) ==> Sound() && Delivered(old(Rest()), r, Rest(), length)
      ensures r.Data? && length > 0 ==> index > old(index) || (index == old(index) && Left() < old(Left()))
    {
      hide AllReadable, Content, Delivered, Sound, Rest;
      ghost var sound := Sound();
      ghost var all: Bytes := if sound then Rest() else [];
      ghost var first, left := index, Left();
      while true
        invariant Valid() && (sound ==> Sound() && Rest() == all)
        invariant index > first || (index == first && Left() <= left)
        decreases |chunks| - index, current.Some?
      {
        if current.None? {
          if index >= |chunks| {
            NothingLeft();
            AtTheEnd(length);
            return EndOfFile;
          }
          var ok := OpenNext();
          if !ok {
            return Broken;
          }
        }
        if length == 0 {
          NextBytes(all, [], all, length);
          return Data([]);
        }
        if current.value == [] {
          CloseEmpty();
          continue;
        }
        var bytes := Take(Least(give, length), endWithData);
        if sound {
          NextBytes(all, bytes, Rest(), length);
        }
        return Data(bytes);
      }
    }

    /** The open file has no bytes left. */
    method CloseEmpty()
      requires Valid() && current == Some([])
      modifies this`current
      ensures Valid() && current.None?
      ensures old(Sound()) ==> Sound() && Rest() == old(Rest())
    {
      current := None;
    }

    lemma NothingLeft()
      requires Valid() && current.None? && index == |chunks|
      ensures Sound() && Rest() == []
    {
    }

    /** The open file hands over its next bytes. */
    method Take(most: nat, endWithData: bool) returns (bytes: Bytes)
      requires Valid() && current.Some? && current.value != [] && most > 0
      modifies this`current
      ensures 0 < |bytes| <= most && Left() < old(Left())
      ensures Valid() && (old(Sound()) ==> Sound() && old(Rest()) == bytes + Rest())
    {
      hide AllReadable, Content;
      var left := current.value;
      var n := Least(most, |left|);
      if n == |left| && endWithData {
        current := None;
        return left;
      }
      current := Some(left[n..]);
      return left[..n];
    }
  }

  lemma AtTheEnd(length: nat)
    ensures Delivered([], EndOfFile, [], length)
  {
  }

  lemma NextBytes(all: Bytes, bytes: Bytes, rest: Bytes, length: nat)
    requires all == bytes + rest && |bytes| <= length && (length > 0 ==> |bytes| > 0)
    ensures Delivered(all, Data(bytes), rest, length)
  {
  }

  function Least(a: nat, b: nat): nat {
    if a < b then a else b
  }

  lemma TailReadable(hash: Bytes -> string, d: Disk, chunks: seq<Descriptor>)
    requires chunks != []
    ensures AllReadable(hash, d, chunks) ==> Readable(hash, d, chunks[0]) && AllReadable(hash, d, chunks[1..])
  {
  }

  /** What was read so far, after one more read. */
  lemma Collected(all: Bytes, out: Bytes, before: Bytes, r: ReadResult, rest: Bytes, length: nat)
    requires all == out + before && Delivered(before, r, rest, length)
    ensures !r.Broken? && (r.Data? ==> all == out + r.bytes + rest) && (r.EndOfFile? ==> rest == [] && all == out)
  {
  }

  /**
   Read until the end or an error, with buffers of any positive sizes.  It always stops; if every
   chunk is readable it stops at the end, with all the bytes.
   */
  method ReadAll(reader: ChunkReader, lengths: nat -> nat, gives: nat -> nat, endWithData: nat -> bool) returns (out: Bytes, ok: bool)
    requires reader.Valid()
    requires forall i :: lengths(i) > 0 && gives(i) > 0
    modifies reader
    ensures reader.Valid()
    ensures old(reader.Sound()) ==> ok && reader.Sound() && reader.Rest() == [] && out == old(reader.Rest())
  {
    hide AllReadable, Content, ChunkReader.Sound, ChunkReader.Rest, Delivered;
    out := [];
    var i := 0;
    ghost var sound := reader.Sound();
    ghost var all: Bytes := if sound then reader.Rest() else [];
    while true
      invariant reader.Valid()
      invariant sound ==> reader.Sound() && all == out + reader.Rest()
      decreases |reader.chunks| - reader.index, reader.Left()
    {
      assert lengths(i) > 0 && gives(i) > 0;
      ghost var before: Bytes := if sound then reader.Rest() else [];
      var r := reader.Read(lengths(i), gives(i), endWithData(i));
      if sound {
        Collected(all, out, before, r, reader.Rest(), lengths(i));
      }
      match r
      case EndOfFile => return out, true;
      case Broken => return out, false;
      case Data(bytes) =>
        out := out + bytes;
        i := i + 1;
    }
  }

  /** Verify and decode a manifest, then hand out a reader over its chunks. */
  method OpenChunked(store: Store, root: Descriptor, codec: Codec) returns (r: Result<(ChunkReader, Manifest), StoreError>)
    ensures r.Ok? <==> && Readable(store.hash, store.disk, root)
                       && ManifestOk(codec.decode(FirstBytes(store.disk.blobs[root.digest[7..]].content)))
    ensures r.Ok? ==> r.value.1 == codec.decode(FirstBytes(store.disk.blobs[root.digest[7..]].content)).value
    ensures r.Ok? ==> fresh(r.value.0) && r.value.0.Valid() && r.value.0.store == store
                      && r.value.0.chunks == r.value.1.chunks && r.value.0.index == 0 && r.value.0.current.None?
  {
    var verified := store.Verify(root.digest);
    if !verified {
      return Err(Corrupt);
    }
    var file := store.Get(root.digest);
    if file.Err? {
      return Err(Missing);
    }
    var manifest := codec.decode(FirstBytes(file.value));
    if manifest.None? {
      return Err(Corrupt);
    }
    if (manifest.value.apiVersion != CHUNKS_API && manifest.value.apiVersion != LEGACY_CHUNKS_API) || manifest.value.chunkSize <= 0 {
      return Err(Corrupt);
    }
    var reader := new ChunkReader(store, manifest.value.chunks);
    return Ok((reader, manifest.value));
  }

  function FirstBytes(b: Bytes): Bytes {
    if |b| <= MAX_MANIFEST_BYTES then b else b[..MAX_MANIFEST_BYTES]
  }

  predicate ManifestOk(m: Option<Manifest>) {
    m.Some? && (m.value.apiVersion == CHUNKS_API || m.value.apiVersion == LEGACY_CHUNKS_API) && m.value.chunkSize > 0
  }

  // ----- What was put is what is read -----

  /** The blobs of these pieces hold these very bytes: no other content shares their hash. */
  ghost predicate Faithful(hash: Bytes -> string, d: Disk, pieces: seq<Bytes>) {
    forall i :: 0 <= i < |pieces| ==> Intact(hash, d, hash(pieces[i])) && d.blobs[hash(pieces[i])].content == pieces[i]
  }

  /** Intact blobs hold the pieces themselves unless a stored blob collides with a piece. */
  lemma IntactIsFaithful(hash: Bytes -> string, d: Disk, pieces: seq<Bytes>)
    requires AllIntact(hash, d, pieces)
    ensures Faithful(hash, d, pieces) <==>
            forall i :: 0 <= i < |pieces| ==> !Collides(hash, pieces[i], d.blobs[hash(pieces[i])].content)
  {
    assert forall i :: 0 <= i < |pieces| ==> Intact(hash, d, hash(pieces[i]));
  }

  lemma {:induction false} ContentOfPieces(hash: Bytes -> string, d: Disk, pieces: seq<Bytes>)
    requires (forall b :: HexDigest(hash(b))) && Faithful(hash, d, pieces)
    ensures AllReadable(hash, d, Descriptors(hash, pieces))
    ensures Content(hash, d, Descriptors(hash, pieces)) == Join(pieces)
  {
    var ds := Descriptors(hash, pieces);
    forall i | 0 <= i < |ds| ensures Readable(hash, d, ds[i]) && ds[i].digest[7..] == hash(pieces[i]) {
      ParseDigestOf(hash(pieces[i]));
    }
    if pieces != [] {
      assert Faithful(hash, d, pieces[1..]);
      ContentOfPieces(hash, d, pieces[1..]);
      assert ds[1..] == Descriptors(hash, pieces[1..]);
    }
  }

  /**
   The round trip: a stored object whose blobs hold its pieces opens, and any reader over its
   chunks delivers exactly the original bytes; the manifest's size is their number.
   */
  lemma ChunkedRoundTrip(hash: Bytes -> string, d: Disk, data: Bytes, n: nat, codec: Codec)
    requires n > 0 && forall b :: HexDigest(hash(b))
    requires var m := ManifestOf(hash, data, n);
             && Faithful(hash, d, Split(data, n) + [codec.encode(m)])
             && codec.decode(codec.encode(m)) == Some(m) && |codec.encode(m)| <= MAX_MANIFEST_BYTES
    ensures var m := ManifestOf(hash, data, n);
            var root := DescriptorOf(hash, codec.encode(m));
            && Readable(hash, d, root)
            && codec.decode(FirstBytes(d.blobs[root.digest[7..]].content)) == Some(m) && ManifestOk(Some(m))
            && AllReadable(hash, d, m.chunks) && Content(hash, d, m.chunks) == data && m.size == |data|
  {
    var m := ManifestOf(hash, data, n);
    var pieces := Split(data, n);
    var all := pieces + [codec.encode(m)];
    assert forall i :: 0 <= i < |pieces| ==> pieces[i] == all[i];
    assert Faithful(hash, d, pieces);
    ContentOfPieces(hash, d, pieces);
    JoinSplit(data, n);
    assert all[|pieces|] == codec.encode(m);
    ParseDigestOf(hash(codec.encode(m)));
    assert DigestOf(hash(codec.encode(m)))[7..] == hash(codec.encode(m));
  }

  /** A stored piece whose blob holds other bytes under the same hash. */
  ghost predicate PieceCollides(hash: Bytes -> string, d: Disk, pieces: seq<Bytes>) {
    exists i :: 0 <= i < |pieces| && hash(pieces[i]) in d.blobs && Collides(hash, pieces[i], d.blobs[hash(pieces[i])].content)
  }

  lemma FaithfulOrCollision(hash: Bytes -> string, d: Disk, pieces: seq<Bytes>)
    requires AllIntact(hash, d, pieces) && !PieceCollides(hash, d, pieces)
    ensures Faithful(hash, d, pieces)
  {
    IntactIsFaithful(hash, d, pieces);
    forall i | 0 <= i < |pieces| ensures !Collides(hash, pieces[i], d.blobs[hash(pieces[i])].content) {
      assert Intact(hash, d, hash(pieces[i]));
    }
  }

  lemma TooLargeIsRefused(hash: Bytes -> string, d: Disk, pieces: seq<Bytes>, m: Manifest, codec: Codec)
    requires Faithful(hash, d, pieces + [codec.encode(m)])
    requires CutDoesNotDecode(codec, m) && |codec.encode(m)| > MAX_MANIFEST_BYTES
    ensures var root := DescriptorOf(hash, codec.encode(m));
            Readable(hash, d, root) ==> !ManifestOk(codec.decode(FirstBytes(d.blobs[root.digest[7..]].content)))
  {
    assert (pieces + [codec.encode(m)])[|pieces|] == codec.encode(m);
    assert DigestOf(hash(codec.encode(m)))[7..] == hash(codec.encode(m));
  }

  lemma {:induction false} OneBytePieces(data: Bytes)
    ensures |Split(data, 1)| == |data|
  {
    if data != [] {
      OneBytePieces(data[1..]);
    }
  }

  /** One-byte chunks of a quarter mebibyte and a byte: the manifest, with its 64-digit digests, passes the limit. */
  lemma SmallChunksExample(hash: Bytes -> string, data: Bytes, codec: Codec)
    requires |data| == 0x4_0001
    requires forall m :: |codec.encode(m)| >= 64 * |m.chunks|
    ensures |codec.encode(ManifestOf(hash, data, 1))| > 16 * 1024 * 1024 == MAX_MANIFEST_BYTES
  {
    OneBytePieces(data);
  }

  /** What is left of an encoded manifest that is too large does not decode. */
  predicate CutDoesNotDecode(codec: Codec, m: Manifest) {
    |codec.encode(m)| > MAX_MANIFEST_BYTES ==> codec.decode(FirstBytes(codec.encode(m))).None?
  }

  /**
   Store an input in chunks, open the result and read it with any buffer sizes.  Unless a blob in
   the store collides with one of the pieces, the input comes back exactly if the manifest is
   within the reader's limit; beyond it the object is stored and cannot be opened.
   */
  method PutThenRead(store: Store, input: Stream, chunkSize: int, codec: Codec, faults: nat -> PutFault, now: int,
                     lengths: nat -> nat, gives: nat -> nat, endWithData: nat -> bool)
    returns (put: bool, r: Option<Bytes>)
    requires store.Valid()
    requires forall i :: lengths(i) > 0 && gives(i) > 0
    modifies store
    ensures store.Valid()
    ensures (forall i :: faults(i).NoFault?) && !input.end.Failed? ==> put
    ensures var n := EffectiveSize(chunkSize);
            var m := ManifestOf(store.hash, input.bytes, n);
            put && codec.decode(codec.encode(m)) == Some(m) && CutDoesNotDecode(codec, m)
            && !PieceCollides(store.hash, store.disk, Split(input.bytes, n) + [codec.encode(m)])
            ==> r == if |codec.encode(m)| <= MAX_MANIFEST_BYTES then Some(input.bytes) else None
  {
    hide PieceCollides, AllIntact, Faithful, ManifestOk, Readable, AllReadable, Content;
    var stored := PutChunked(store, input, chunkSize, codec, faults, now);
    if stored.Err? {
      return false, None;
    }
    ghost var n := EffectiveSize(chunkSize);
    ghost var m := ManifestOf(store.hash, input.bytes, n);
    ghost var faithful := codec.decode(codec.encode(m)) == Some(m) && CutDoesNotDecode(codec, m)
                          && !PieceCollides(store.hash, store.disk, Split(input.bytes, n) + [codec.encode(m)]);
    ghost var good := faithful && |codec.encode(m)| <= MAX_MANIFEST_BYTES;
    if faithful {
      FaithfulOrCollision(store.hash, store.disk, Split(input.bytes, n) + [codec.encode(m)]);
      if !good {
        TooLargeIsRefused(store.hash, store.disk, Split(input.bytes, n), m, codec);
      }
    }
    if good {
      ChunkedRoundTrip(store.hash, store.disk, input.bytes, n, codec);
    }
    var result := OpenChunked(store, stored.value.0, codec);
    if result.Err? {
      return true, None;
    }
    var reader := result.value.0;
    if good {
      assert reader.chunks == m.chunks && reader.chunks[reader.index..] == m.chunks;
      assert reader.Sound();
      assert reader.Rest() == [] + input.bytes == input.bytes;
    }
    var out, ok := ReadAll(reader, lengths, gives, endWithData);
    return true, if ok then Some(out) else None;
  }
}
