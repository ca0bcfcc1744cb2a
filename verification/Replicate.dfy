/** Copying one addressed blob into a store from a peer that is not trusted. */
module Replicate {
  import opened Wrappers
  import opened Patterns
  import opened Store

  /** Everything the other side decides: its own verification answer and the bytes it sends. */
  datatype Peer = Peer(verifies: bool, opens: bool, bytes: Bytes)

  /** The largest remote blob pulled when the caller sets no limit: 1 GiB. */
  const DEFAULT_REMOTE_LIMIT := 0x4000_0000

  /** The blob the descriptor names is there, hashes to that name and has exactly the announced size. */
  ghost predicate Matches(hash: Bytes -> string, d: Disk, descriptor: Descriptor) {
    && ParseDigest(descriptor.digest).Some? && Intact(hash, d, descriptor.digest[7..])
    && |d.blobs[descriptor.digest[7..]].content| == descriptor.size
  }

  /**
   The bytes received have the announced size and hash, and the blob holds them; only an
   intact blob already stored under a colliding content can differ from them.
   */
  ghost predicate Received(hash: Bytes -> string, d: Disk, descriptor: Descriptor, bytes: Bytes) {
    && ParseDigest(descriptor.digest).Some? && Intact(hash, d, descriptor.digest[7..])
    && |bytes| == descriptor.size && hash(bytes) == descriptor.digest[7..]
    && var content := d.blobs[descriptor.digest[7..]].content;
       content == bytes || Collides(hash, bytes, content)
  }

  /** Every blob that was intact is untouched. */
  ghost predicate Undamaged(hash: Bytes -> string, before: Disk, after: Disk) {
    && after.leases == before.leases
    && forall name :: Intact(hash, before, name) ==> name in after.blobs && after.blobs[name] == before.blobs[name]
  }

  /** A blob of that name is there already, intact or not. */
  predicate Present(d: Disk, descriptor: Descriptor) {
    && ParseDigest(descriptor.digest).Some?
    && descriptor.digest[7..] in d.blobs && d.blobs[descriptor.digest[7..]].regular
  }

  /** What `io.LimitReader` lets through. */
  function Limited(bytes: Bytes, limit: nat): Bytes {
    if |bytes| <= limit then bytes else bytes[..limit]
  }

  /** The stored blob re-hashes to its name and has the announced size. */
  method VerifyStoredDescriptor(store: Store, descriptor: Descriptor) returns (ok: bool)
    requires descriptor.size >= 0
    ensures ok <==> Matches(store.hash, store.disk, descriptor)
  {
    var verified := store.Verify(descriptor.digest);
    if !verified {
      return false;
    }
    var content := store.Get(descriptor.digest);
    if content.Err? {
      return false;
    }
    var n := |Limited(content.value, descriptor.size + 1)|;
    return n == descriptor.size;
  }

  /** Stream at most one byte more than announced into the store, then check everything again. */
  method Install(destination: Store, descriptor: Descriptor, bytes: Bytes, fault: PutFault, now: int) returns (ok: bool)
    requires destination.Valid() && descriptor.size >= 0 && ParseDigest(descriptor.digest).Some?
    modifies destination
    ensures destination.Valid()
    ensures ok ==> Received(destination.hash, destination.disk, descriptor, bytes)
    ensures Undamaged(destination.hash, old(destination.disk), destination.disk)
    ensures fault.NoFault? && |bytes| == descriptor.size && DigestOf(destination.hash(bytes)) == descriptor.digest ==> ok
  {
    var sent := Limited(bytes, descriptor.size + 1);
    var installed := destination.Put(sent, fault, now);
    if installed.Err? {
      return false;
    }
    if |sent| != descriptor.size {
      return false;
    }
    if installed.value != descriptor {
      return false;
    }
    assert descriptor.digest[7..] == destination.hash(sent);
    ok := destination.Verify(descriptor.digest);
  }

  method Replicate(source: Peer, destination: Store, descriptor: Descriptor, fault: PutFault, now: int) returns (ok: bool)
    requires destination.Valid()
    modifies destination
    ensures destination.Valid()
    ensures ok ==> descriptor.size >= 0
    ensures ok ==> if Present(old(destination.disk), descriptor)
                   then destination.disk == old(destination.disk) && Matches(destination.hash, destination.disk, descriptor)
                   else source.verifies && Received(destination.hash, destination.disk, descriptor, source.bytes)
    ensures descriptor.size >= 0 && Present(old(destination.disk), descriptor)
            ==> (ok <==> Matches(destination.hash, old(destination.disk), descriptor))
    ensures Undamaged(destination.hash, old(destination.disk), destination.disk)
    ensures && fault.NoFault? && source.verifies && source.opens && |source.bytes| == descriptor.size
            && descriptor.digest == DigestOf(destination.hash(source.bytes))
            && destination.hash(source.bytes) !in old(destination.disk).blobs
            ==> ok
  {
    if descriptor.size < 0 {
      return false;
    }
    assert HexDigest(destination.hash(source.bytes));
    ParseDigestOf(destination.hash(source.bytes));
    if ParseDigest(descriptor.digest).None? {
      return false;
    }
    var exists_ := destination.Exists(descriptor.digest);
    if exists_.Err? {
      return false;
    }
    if exists_.value {
      ok := VerifyStoredDescriptor(destination, descriptor);
      return;
    }
    if !source.verifies || !source.opens {
      return false;
    }
    ok := Install(destination, descriptor, source.bytes, fault, now);
  }

  method PullBlob(response: Option<Bytes>, destination: Store, descriptor: Descriptor, limit: int, fault: PutFault, now: int)
    returns (ok: bool)
    requires destination.Valid()
    modifies destination
    ensures destination.Valid()
    ensures ok ==> 0 <= descriptor.size <= (if limit <= 0 then 1024 * 1024 * 1024 else limit) && response.Some?
                   && Received(destination.hash, destination.disk, descriptor, response.value)
    ensures Undamaged(destination.hash, old(destination.disk), destination.disk)
    ensures && fault.NoFault? && response.Some? && |response.value| == descriptor.size
            && descriptor.size <= (if limit <= 0 then DEFAULT_REMOTE_LIMIT else limit)
            && descriptor.digest == DigestOf(destination.hash(response.value))
            ==> ok
  {
    if response.Some? {
      ParseDigestOf(destination.hash(response.value));
    }
    var bound := if limit <= 0 then DEFAULT_REMOTE_LIMIT else limit;
    if descriptor.size < 0 || descriptor.size > bound {
      return false;
    }
    if ParseDigest(descriptor.digest).None? {
      return false;
    }
    if response.None? {
      return false;
    }
    ok := Install(destination, descriptor, response.value, fault, now);
  }
}
