/** Ingestion of a large object that survives crashes: only whole chunks are acknowledged. */
module ChunkSessions {
  import opened Wrappers
  import opened Patterns
  import opened Store
  import opened Chunks

  const SESSION_API := "platform-factory.dev/chunk-session/v1"

  datatype Record = Record(apiVersion: string, id: string, chunkSize: int, size: int, chunks: seq<Descriptor>)

  function EmptyRecord(id: string, n: nat): Record {
    Record(SESSION_API, id, n, 0, [])
  }

  function Extend(hash: Bytes -> string, rec: Record, payload: Bytes): Record {
    rec.(size := rec.size + |payload|, chunks := rec.chunks + [DescriptorOf(hash, payload)])
  }

  function ManifestOfRecord(rec: Record): Manifest {
    Manifest(CHUNKS_API, rec.size, rec.chunkSize, rec.chunks)
  }

  /**
   The record after feeding a stream: whole chunks are checkpointed until the stream ends or
   the `budget` of checkpoints that reach the disk is used up by a crash, a failed write or a
   canceled context.
   */
  function Fed(hash: Bytes -> string, rec: Record, s: Stream, budget: nat): (r: Record)
    requires rec.chunkSize > 0
    ensures r.chunkSize == rec.chunkSize && r.id == rec.id && r.apiVersion == rec.apiVersion
    decreases |s.bytes|
  {
    var n := rec.chunkSize;
    if budget == 0 then rec
    else if |s.bytes| >= n then
      Fed(hash, Extend(hash, rec, s.bytes[..n]), s.(bytes := s.bytes[n..]), budget - 1)
    else if s.end.Failed? || s.bytes == [] then rec
    else Extend(hash, rec, s.bytes)
  }

  /** After `turn` checkpoints the session is at `rec` with `rest` still to come. */
  ghost predicate Reached(hash: Bytes -> string, start: Record, input: Stream, turn: nat, rec: Record, rest: Stream) {
    && start.chunkSize > 0 && rec.chunkSize == start.chunkSize && rest.end == input.end && turn + |rest.bytes| <= |input.bytes|
    && forall more: nat :: Fed(hash, start, input, turn + more) == Fed(hash, rec, rest, more)
  }

  lemma ReachedAtStart(hash: Bytes -> string, start: Record, input: Stream)
    requires start.chunkSize > 0
    ensures Reached(hash, start, input, 0, start, input)
  {
  }

  lemma ReachedNext(hash: Bytes -> string, start: Record, input: Stream, turn: nat, rec: Record, rest: Stream)
    requires Reached(hash, start, input, turn, rec, rest) && |rest.bytes| >= rec.chunkSize
    ensures var n := rec.chunkSize;
            Reached(hash, start, input, turn + 1, Extend(hash, rec, rest.bytes[..n]), rest.(bytes := rest.bytes[n..]))
  {
    var n := rec.chunkSize;
    var next, after := Extend(hash, rec, rest.bytes[..n]), rest.(bytes := rest.bytes[n..]);
    forall more: nat ensures Fed(hash, start, input, turn + 1 + more) == Fed(hash, next, after, more) {
      var one := 1 + more;
      assert Fed(hash, start, input, turn + one) == Fed(hash, rec, rest, one);
      assert turn + 1 + more == turn + one;
    }
  }

  /** What stopping at this point means: nothing more, or the short last chunk. */
  lemma ReachedStop(hash: Bytes -> string, start: Record, input: Stream, turn: nat, rec: Record, rest: Stream)
    requires Reached(hash, start, input, turn, rec, rest)
    ensures Fed(hash, start, input, turn) == rec
    ensures |rest.bytes| < rec.chunkSize && !rest.end.Failed? ==>
              var last := if rest.bytes == [] then rec else Extend(hash, rec, rest.bytes);
              Fed(hash, start, input, turn + 1) == last && Fed(hash, start, input, |input.bytes| + 1) == last
  {
    var all := |input.bytes| + 1 - turn;
    assert Fed(hash, start, input, turn + 0) == Fed(hash, rec, rest, 0);
    assert Fed(hash, start, input, turn + 1) == Fed(hash, rec, rest, 1);
    assert Fed(hash, start, input, turn + all) == Fed(hash, rec, rest, all);
  }

  /** Each of these chunks is in the store and hashes to its name. */
  ghost predicate AllStored(hash: Bytes -> string, d: Disk, chunks: seq<Descriptor>) {
    forall i :: 0 <= i < |chunks| ==> ParseDigest(chunks[i].digest).Some? && Intact(hash, d, chunks[i].digest[7..])
  }

  lemma PutKeepsStored(hash: Bytes -> string, d: Disk, data: Bytes, fault: PutFault, now: int, chunks: seq<Descriptor>)
    requires AllStored(hash, d, chunks)
    ensures AllStored(hash, d.(blobs := PutBlobs(hash, d, data, fault, now)), chunks)
  {
  }

  lemma OneMoreStored(hash: Bytes -> string, d: Disk, chunks: seq<Descriptor>, payload: Bytes)
    requires HexDigest(hash(payload)) && AllStored(hash, d, chunks) && Intact(hash, d, hash(payload))
    ensures AllStored(hash, d, chunks + [DescriptorOf(hash, payload)])
  {
    ParseDigestOf(hash(payload));
  }

  /** The directory of session records. */
  class RecordStore {
    var records: map<string, Record>

    constructor ()
      ensures records == map[]
    {
      records := map[];
    }
  }

  class ChunkSession {
    const store: Store
    const journal: RecordStore
    const id: string
    var record: Record

    constructor (store: Store, journal: RecordStore, record: Record)
      ensures this.store == store && this.journal == journal && this.id == record.id && this.record == record
    {
      this.store := store;
      this.journal := journal;
      this.id := record.id;
      this.record := record;
    }

    /** What is on disk is what the session believes. */
    ghost predicate Valid()
      reads this, store, journal
    {
      && store.Valid() && record.chunkSize > 0 && record.id == id && record.apiVersion == SESSION_API
      && id in journal.records && journal.records[id] == record
    }

    /** Every acknowledged chunk is in the store and hashes to its name. */
    ghost predicate Stored()
      reads this, store
    {
      AllStored(store.hash, store.disk, record.chunks)
    }

    /** Store one chunk and then the record; if the record cannot be written the session rolls back. */
    method Checkpoint(payload: Bytes, fault: PutFault, recordFails: bool, now: int) returns (r: Result<(), StoreError>)
      requires Valid()
      modifies this, store, journal
      ensures Valid()
      ensures r.Ok? ==> record == Extend(store.hash, old(record), payload)
      ensures r.Err? ==> record == old(record)
      ensures fault.NoFault? && !recordFails ==> r.Ok?
      ensures old(Stored()) ==> Stored()
      ensures journal.records == old(journal.records)[id := record]
    {
      var descriptor := store.Put(payload, fault, now);
      if old(Stored()) {
        PutKeepsStored(store.hash, old(store.disk), payload, fault, now, record.chunks);
      }
      if descriptor.Err? {
        assert journal.records == journal.records[id := record];
        return Err(descriptor.error);
      }
      record := record.(chunks := record.chunks + [descriptor.value], size := record.size + |payload|);
      if recordFails {
        record := record.(chunks := record.chunks[..|record.chunks| - 1], size := record.size - |payload|);
        assert record.chunks == old(record.chunks);
        assert journal.records == journal.records[id := record];
        return Err(Io);
      }
      journal.records := journal.records[id := record];
      if old(Stored()) {
        OneMoreStored(store.hash, store.disk, old(record.chunks), payload);
      }
      return Ok(());
    }

    /**
     Consume whole chunks until the stream ends or something fails: at turn `i` the context may be
     canceled, the store of the chunk may fail and the write of the record may fail.  The session
     has then taken in the first `acknowledged` chunks, each of them intact in the store.
     */
    method Append(input: Stream, canceled: nat -> bool, faults: nat -> PutFault, recordFails: nat -> bool, now: int)
      returns (r: Result<(), StoreError>, ghost acknowledged: nat)
      requires Valid()
      modifies this, store, journal
      ensures Valid()
      ensures record == Fed(store.hash, old(record), input, acknowledged)
      ensures r.Ok? ==> !input.end.Failed? && record == Fed(store.hash, old(record), input, |input.bytes| + 1)
      ensures old(Stored()) ==> Stored()
      ensures journal.records == old(journal.records)[id := record]
      ensures (forall i :: !canceled(i) && faults(i).NoFault? && !recordFails(i)) && !input.end.Failed? ==> r.Ok?
    {
      hide AllStored, Fed, Reached;
      var rest := input;
      var n := record.chunkSize;
      var turn := 0;
      acknowledged := 0;
      assert journal.records == journal.records[id := record];
      ReachedAtStart(store.hash, record, input);
      while true
        invariant Valid() && record.chunkSize == n && rest.end == input.end && acknowledged == turn
        invariant Reached(store.hash, old(record), input, turn, record, rest)
        invariant old(Stored()) ==> Stored()
        invariant journal.records == old(journal.records)[id := record]
        decreases |rest.bytes|
      {
        ReachedStop(store.hash, old(record), input, turn, record, rest);
        if canceled(turn) {
          return Err(Io), acknowledged;
        }
        var (chunk, full, after) := ReadFull(rest, n);
        if full {
          ReachedNext(store.hash, old(record), input, turn, record, rest);
          var ok := Checkpoint(chunk, faults(turn), recordFails(turn), now);
          if ok.Err? {
            return ok, acknowledged;
          }
          turn := turn + 1;
          acknowledged := turn;
          rest := after;
        } else if rest.end.Failed? {
          return Err(Io), acknowledged;
        } else {
          if |chunk| > 0 {
            r := Checkpoint(chunk, faults(turn), recordFails(turn), now);
            if r.Ok? {
              acknowledged := turn + 1;
            }
            return;
          }
          return Ok(()), acknowledged;
        }
      }
    }

    /** Store the manifest, then drop the record; a failure in between leaves the record in place. */
    method Finalize(codec: Codec, fault: PutFault, deleteFails: bool, now: int) returns (r: Result<(Descriptor, Manifest), StoreError>)
      requires Valid()
      modifies store, journal
      ensures store.Valid() && record == old(record)
      ensures old(Stored()) ==> Stored()
      ensures journal.records == if r.Ok? then old(journal.records) - {id} else old(journal.records)
      ensures r.Ok? ==> var m := ManifestOfRecord(record);
                        && r.value == (DescriptorOf(store.hash, codec.encode(m)), m)
                        && Intact(store.hash, store.disk, store.hash(codec.encode(m)))
      ensures fault.NoFault? && !deleteFails ==> r.Ok?
    {
      var manifest := Manifest(CHUNKS_API, record.size, record.chunkSize, record.chunks);
      var root := store.Put(codec.encode(manifest), fault, now);
      if old(Stored()) {
        PutKeepsStored(store.hash, old(store.disk), codec.encode(manifest), fault, now, record.chunks);
      }
      if root.Err? {
        return Err(root.error);
      }
      if deleteFails {
        return Err(Io);
      }
      journal.records := journal.records - {id};
      return Ok((root.value, manifest));
    }
  }

  /** Start a session or resume one: a resumed record must fit and its chunks must still exist. */
  method OpenChunkSession(store: Store, journal: RecordStore, id: string, chunkSize: int, recordFails: bool)
    returns (r: Result<ChunkSession, StoreError>)
    requires store.Valid()
    modifies journal
    ensures var n := if chunkSize > 0 then chunkSize else 0x40_0000;
            r.Ok? <==> && ValidBuildID(id)
                       && if id in old(journal.records) then
                            var rec := old(journal.records)[id];
                            && rec.apiVersion == "platform-factory.dev/chunk-session/v1" && rec.id == id && rec.chunkSize == n
                            && ChunksExist(store.disk, rec.chunks)
                          else !recordFails
    ensures r.Ok? ==>
              var n := if chunkSize > 0 then chunkSize else 0x40_0000;
              && fresh(r.value) && r.value.Valid() && r.value.store == store && r.value.journal == journal && r.value.id == id
              && r.value.record.chunkSize == n
              && r.value.record == if id in old(journal.records) then old(journal.records)[id]
                                   else Record("platform-factory.dev/chunk-session/v1", id, n, 0, [])
    ensures journal.records == if r.Ok? && id !in old(journal.records) then old(journal.records)[id := r.value.record] else old(journal.records)
  {
    if !ValidBuildID(id) {
      return Err(InvalidBuildID);
    }
    var n := EffectiveSize(chunkSize);
    var record := EmptyRecord(id, n);
    if id in journal.records {
      record := journal.records[id];
      if record.apiVersion != SESSION_API || record.id != id || record.chunkSize != n {
        return Err(Corrupt);
      }
      for i := 0 to |record.chunks|
        invariant journal.records == old(journal.records)
        invariant ChunksExist(store.disk, record.chunks[..i])
      {
        var exists_ := store.Exists(record.chunks[i].digest);
        if exists_.Err? || !exists_.value {
          return Err(Missing);
        }
      }
      assert record.chunks[..|record.chunks|] == record.chunks;
    } else {
      if recordFails {
        return Err(Io);
      }
      journal.records := journal.records[id := record];
    }
    var session := new ChunkSession(store, journal, record);
    return Ok(session);
  }

  predicate ChunksExist(d: Disk, chunks: seq<Descriptor>) {
    forall i :: 0 <= i < |chunks| ==>
      ParseDigest(chunks[i].digest).Some? && chunks[i].digest[7..] in d.blobs && d.blobs[chunks[i].digest[7..]].regular
  }

  // ----- Interrupted ingestion equals one-shot ingestion -----

  /** The record after the first `size` bytes of the input, a multiple of the chunk size or all of it. */
  function PrefixRecord(hash: Bytes -> string, id: string, data: Bytes, n: nat, size: nat): Record
    requires n > 0 && size <= |data|
  {
    Record(SESSION_API, id, n, size, Descriptors(hash, Split(data[..size], n)))
  }

  predicate Boundary(data: Bytes, n: nat, size: int)
    requires n > 0
  {
    0 <= size <= |data| && (size % n == 0 || size == |data|)
  }

  /** The record covers a prefix of the input cut exactly as one pass would cut it. */
  predicate OnTrack(hash: Bytes -> string, rec: Record, data: Bytes) {
    && rec.chunkSize > 0 && Boundary(data, rec.chunkSize, rec.size)
    && rec == PrefixRecord(hash, rec.id, data, rec.chunkSize, rec.size)
  }

  lemma ExtendOnTrack(hash: Bytes -> string, rec: Record, data: Bytes, k: nat)
    requires OnTrack(hash, rec, data) && rec.size % rec.chunkSize == 0
    requires 0 < k <= rec.chunkSize && rec.size + k <= |data|
    requires k == rec.chunkSize || rec.size + k == |data|
    ensures OnTrack(hash, Extend(hash, rec, data[rec.size..rec.size + k]), data)
  {
    var n, a, b := rec.chunkSize, data[..rec.size], data[rec.size..rec.size + k];
    var ext := Extend(hash, rec, b);
    assert data[..rec.size + k] == a + b;
    NextPiece(a, b, n);
    assert Descriptors(hash, Split(a, n) + [b]) == Descriptors(hash, Split(a, n)) + [DescriptorOf(hash, b)];
  }

  /** One attempt from the acknowledged offset that delivers `k` bytes and then stops. */
  lemma {:induction false} FedOnTrack(hash: Bytes -> string, rec: Record, data: Bytes, k: nat, end: End, budget: nat)
    requires OnTrack(hash, rec, data) && rec.size + k <= |data|
    requires end.Failed? || rec.size + k == |data| || k % rec.chunkSize == 0
    ensures OnTrack(hash, Fed(hash, rec, Stream(data[rec.size..rec.size + k], end), budget), data)
    decreases k
  {
    var n, s := rec.chunkSize, Stream(data[rec.size..rec.size + k], end);
    if budget == 0 || k == 0 {
    } else if k >= n {
      BoundaryInside(data, n, rec.size, k);
      ExtendOnTrack(hash, rec, data, n);
      var next := Extend(hash, rec, data[rec.size..rec.size + n]);
      assert s.bytes[..n] == data[rec.size..rec.size + n];
      assert s.bytes[n..] == data[next.size..next.size + (k - n)];
      ModStep(k, n);
      FedOnTrack(hash, next, data, k - n, end, budget - 1);
    } else if !end.Failed? {
      SmallRest(k, n);
      BoundaryInside(data, n, rec.size, k);
      ExtendOnTrack(hash, rec, data, k);
    }
  }

  lemma SmallRest(k: nat, n: nat)
    requires 0 < k < n
    ensures k % n != 0
  {
    DivUnique(k, n, 0, k);
  }

  /** With bytes still to come an acknowledged prefix ends on a chunk boundary. */
  lemma BoundaryInside(data: Bytes, n: nat, size: nat, k: nat)
    requires n > 0 && Boundary(data, n, size) && size + k <= |data| && k > 0
    ensures size % n == 0
  {
  }

  /** An attempt that delivers everything with budget left completes the record. */
  lemma {:induction false} FedToTheEnd(hash: Bytes -> string, rec: Record, data: Bytes, budget: nat)
    requires OnTrack(hash, rec, data) && budget > |data| - rec.size
    ensures Fed(hash, rec, Stream(data[rec.size..], Eof), budget) == PrefixRecord(hash, rec.id, data, rec.chunkSize, |data|)
    decreases |data| - rec.size
  {
    var n, k := rec.chunkSize, |data| - rec.size;
    assert data[rec.size..] == data[rec.size..rec.size + k];
    if k == 0 {
    } else if k >= n {
      BoundaryInside(data, n, rec.size, k);
      ExtendOnTrack(hash, rec, data, n);
      var next := Extend(hash, rec, data[rec.size..rec.size + n]);
      assert data[rec.size..][..n] == data[rec.size..rec.size + n] && data[rec.size..][n..] == data[next.size..];
      FedToTheEnd(hash, next, data, budget - 1);
    } else {
      BoundaryInside(data, n, rec.size, k);
      ExtendOnTrack(hash, rec, data, k);
    }
  }

  /** An interrupted attempt: bytes delivered before the error, and checkpoints that reached the disk. */
  datatype Attempt = Attempt(delivered: nat, budget: nat, complete: bool)

  function StreamOf(rec: Record, data: Bytes, a: Attempt): Stream
    requires 0 <= rec.size <= |data|
  {
    var rest := data[rec.size..];
    if a.complete then Stream(rest, Eof)
    else Stream(if a.delivered <= |rest| then rest[..a.delivered] else rest, Failed)
  }

  /** Any number of attempts, each resumed at the acknowledged offset. */
  function Attempts(hash: Bytes -> string, rec: Record, data: Bytes, attempts: seq<Attempt>): (r: Record)
    requires OnTrack(hash, rec, data)
    ensures OnTrack(hash, r, data) && r.id == rec.id && r.chunkSize == rec.chunkSize
    decreases attempts
  {
    if attempts == [] then rec
    else
      var s := StreamOf(rec, data, attempts[0]);
      var k := |s.bytes|;
      assert s.bytes == data[rec.size..rec.size + k];
      FedOnTrack(hash, rec, data, k, s.end, attempts[0].budget);
      Attempts(hash, Fed(hash, rec, s, attempts[0].budget), data, attempts[1..])
  }

  /**
   A session interrupted any number of times and then fed to the end finalizes to the very
   manifest, and so the very root, of one `PutChunked` of the whole input.
   */
  lemma ResumedEqualsOneShot(hash: Bytes -> string, id: string, n: nat, data: Bytes, attempts: seq<Attempt>, budget: nat)
    requires n > 0 && budget > |data|
    ensures OnTrack(hash, EmptyRecord(id, n), data)
    ensures var rec := Attempts(hash, EmptyRecord(id, n), data, attempts);
            var last := Fed(hash, rec, Stream(data[rec.size..], Eof), budget);
            ManifestOfRecord(last) == ManifestOf(hash, data, n)
  {
    EmptyOnTrack(hash, id, n, data);
    var rec := Attempts(hash, EmptyRecord(id, n), data, attempts);
    FedToTheEnd(hash, rec, data, budget);
    assert data[..|data|] == data;
  }

  lemma EmptyOnTrack(hash: Bytes -> string, id: string, n: nat, data: Bytes)
    requires n > 0
    ensures OnTrack(hash, EmptyRecord(id, n), data)
  {
    assert data[..0] == [];
    DivUnique(0, n, 0, 0);
  }

  /** Reopening after a crash before the record was deleted: the complete record yields the same root again. */
  lemma FinalizeIsRepeatable(hash: Bytes -> string, rec: Record, data: Bytes, budget: nat)
    requires OnTrack(hash, rec, data) && rec.size == |data| && budget > 0
    ensures Fed(hash, rec, Stream(data[rec.size..], Eof), budget) == rec
    ensures ManifestOfRecord(rec) == ManifestOf(hash, data, rec.chunkSize)
  {
    assert data[rec.size..] == [];
    assert data[..|data|] == data;
  }

  /**
   A reader that stops with its own `io.ErrUnexpectedEOF` is taken for the end of the input, so
   a partial chunk is acknowledged: the session stays on track exactly when the cut falls on a
   chunk boundary or at the end of the input.
   */
  lemma UnexpectedEndIff(hash: Bytes -> string, rec: Record, data: Bytes, k: nat, budget: nat)
    requires OnTrack(hash, rec, data) && rec.size + k <= |data| && budget > k
    ensures OnTrack(hash, Fed(hash, rec, Stream(data[rec.size..rec.size + k], Unexpected), budget), data)
            <==> k % rec.chunkSize == 0 || rec.size + k == |data|
  {
    var n := rec.chunkSize;
    if k % n == 0 || rec.size + k == |data| {
      FedOnTrack(hash, rec, data, k, Unexpected, budget);
    } else {
      FedSize(hash, rec, data[rec.size..rec.size + k], budget);
      assert k > 0 by { DivUnique(0, n, 0, 0); }
      BoundaryInside(data, n, rec.size, k);
      ModAdd(rec.size, k, n);
    }
  }

  lemma ModAdd(a: nat, b: nat, n: nat)
    requires n > 0 && a % n == 0
    ensures (a + b) % n == b % n
  {
    assert a == n * (a / n) && b == n * (b / n) + b % n;
    assert a + b == n * (a / n + b / n) + b % n;
    DivUnique(a + b, n, a / n + b / n, b % n);
  }

  lemma {:induction false} FedSize(hash: Bytes -> string, rec: Record, bytes: Bytes, budget: nat)
    requires rec.chunkSize > 0 && budget > |bytes|
    ensures Fed(hash, rec, Stream(bytes, Unexpected), budget).size == rec.size + |bytes|
    decreases |bytes|
  {
    var n := rec.chunkSize;
    if |bytes| >= n {
      FedSize(hash, Extend(hash, rec, bytes[..n]), bytes[n..], budget - 1);
    }
  }

  /** A two-byte chunk size and a reader that fails so after three of five bytes: the session is off track for good. */
  lemma UnexpectedEndExample(hash: Bytes -> string)
    ensures var data: Bytes := [1, 2, 3, 4, 5];
            var rec := EmptyRecord("s", 2);
            OnTrack(hash, rec, data) && !OnTrack(hash, Fed(hash, rec, Stream(data[..3], Unexpected), 4), data)
  {
    var data: Bytes := [1, 2, 3, 4, 5];
    var rec := EmptyRecord("s", 2);
    EmptyOnTrack(hash, "s", 2, data);
    assert data[rec.size..rec.size + 3] == data[..3];
    UnexpectedEndIff(hash, rec, data, 3, 4);
  }

  // ----- A session's result can be read back -----

  lemma StoredIsIntact(hash: Bytes -> string, d: Disk, pieces: seq<Bytes>)
    requires forall b :: HexDigest(hash(b))
    requires AllStored(hash, d, Descriptors(hash, pieces))
    ensures AllIntact(hash, d, pieces)
  {
    var ds := Descriptors(hash, pieces);
    forall i | 0 <= i < |pieces| ensures Intact(hash, d, hash(pieces[i])) {
      assert ds[i].digest[7..] == hash(pieces[i]);
    }
  }

  /**
   A finished session whose chunks are stored and whose manifest was stored by `Finalize` leaves
   exactly what `PutChunked` leaves: every piece and the manifest intact, ready to be read back.
   */
  lemma FinishedSessionIsStored(hash: Bytes -> string, d: Disk, rec: Record, data: Bytes, codec: Codec)
    requires forall b :: HexDigest(hash(b))
    requires OnTrack(hash, rec, data) && rec.size == |data| && AllStored(hash, d, rec.chunks)
    requires Intact(hash, d, hash(codec.encode(ManifestOfRecord(rec))))
    ensures var m := ManifestOf(hash, data, rec.chunkSize);
            ManifestOfRecord(rec) == m && AllIntact(hash, d, Split(data, rec.chunkSize) + [codec.encode(m)])
  {
    assert data[..|data|] == data;
    StoredIsIntact(hash, d, Split(data, rec.chunkSize));
  }
}
