/** Runs of stores on one directory: stores, leases and collections in any order, each possibly cut short. */
module StoreRuns {
  import opened Wrappers
  import opened Patterns
  import opened Strings
  import opened Store

  /**
   A collection works from the names it found leased when it read the lease files.  Within one
   store object a mutex keeps everything else out until it is done; another object on the same
   directory has a mutex of its own, so its `marked` names may be out of date.
   */
  datatype Op =
    | Put(data: Bytes, fault: PutFault, now: int)
    | Acquire(build: string, digests: seq<string>)
    | Release(build: string)
    | Collect(marked: string -> bool, cutoff: int)

  /** What a collection that found `marked` leased may remove. */
  predicate Removable(d: Disk, marked: string -> bool, cutoff: int, name: string) {
    name in d.blobs && d.blobs[name].regular && HexDigest(name) && !marked(name) && d.blobs[name].modTime <= cutoff
  }

  predicate AllRemovable(d: Disk, marked: string -> bool, cutoff: int, names: set<string>) {
    forall name :: name in names ==> Removable(d, marked, cutoff, name)
  }

  /** One operation of a store, as its methods promise it; a collection may be cut short anywhere. */
  ghost predicate Step(hash: Bytes -> string, d: Disk, op: Op, e: Disk) {
    match op
    case Put(data, fault, now) => e == d.(blobs := PutBlobs(hash, d, data, fault, now))
    case Acquire(build, digests) =>
      e == d || e == d.(leases := d.leases[build + ".json" := LeaseFile(true, Some(Sorted(set g | g in digests)))])
    case Release(build) => e == d || e == d.(leases := d.leases - {build + ".json"})
    case Collect(marked, cutoff) =>
      e.leases == d.leases
      && exists gone :: AllRemovable(d, marked, cutoff, gone) && e.blobs == d.blobs - gone
  }

  /** The names marked are those leased now: so it is for a collection and the other calls of one store object. */
  ghost predicate UpToDate(d: Disk, marked: string -> bool) {
    forall name :: marked(name) <==> Leased(d, name)
  }

  /** What `GC` of one store object promises is such a step. */
  lemma SweptIsStep(hash: Bytes -> string, d: Disk, e: Disk, marked: string -> bool, cutoff: int)
    requires Swept(d, e, cutoff) && UpToDate(d, marked)
    ensures Step(hash, d, Collect(marked, cutoff), e)
  {
    var gone :| gone <= Collectable(d, cutoff) && e.blobs == d.blobs - gone;
    assert AllRemovable(d, marked, cutoff, gone);
  }

  ghost predicate Trace(hash: Bytes -> string, disks: seq<Disk>, ops: seq<Op>) {
    |disks| == |ops| + 1 && forall i :: 0 <= i < |ops| ==> Step(hash, disks[i], ops[i], disks[i + 1])
  }

  /** No operation damages an intact blob; only a collection that did not find it leased removes it. */
  lemma IntactStays(hash: Bytes -> string, d: Disk, op: Op, e: Disk, name: string)
    requires Step(hash, d, op, e) && Intact(hash, d, name)
    requires op.Collect? ==> op.marked(name)
    ensures name in e.blobs && e.blobs[name] == d.blobs[name]
  {
    if op.Collect? {
      var gone :| AllRemovable(d, op.marked, op.cutoff, gone) && e.blobs == d.blobs - gone;
      assert name !in gone;
    }
  }

  /** Any number of store objects: an intact blob keeps its bytes if every collection found it leased. */
  lemma {:induction false} MarkedBlobSurvives(hash: Bytes -> string, disks: seq<Disk>, ops: seq<Op>, name: string)
    requires Trace(hash, disks, ops) && Intact(hash, disks[0], name)
    requires forall i :: 0 <= i < |ops| && ops[i].Collect? ==> ops[i].marked(name)
    ensures forall i :: 0 <= i < |disks| ==> name in disks[i].blobs && disks[i].blobs[name] == disks[0].blobs[name]
  {
    hide Step;
    if |ops| > 0 {
      var n := |ops| - 1;
      forall i | 0 <= i < n ensures Step(hash, disks[..n + 1][i], ops[..n][i], disks[..n + 1][i + 1]) {
        assert Step(hash, disks[i], ops[i], disks[i + 1]);
      }
      MarkedBlobSurvives(hash, disks[..n + 1], ops[..n], name);
      assert disks[n] == disks[..n + 1][n];
      IntactStays(hash, disks[n], ops[n], disks[n + 1], name);
      forall i | 0 <= i < |disks| ensures name in disks[i].blobs && disks[i].blobs[name] == disks[0].blobs[name] {
        assert i <= n ==> disks[i] == disks[..n + 1][i];
      }
    }
  }

  /** One store object: an intact blob keeps its bytes for as long as some lease lists it when a collection runs. */
  lemma LeasedBlobSurvives(hash: Bytes -> string, disks: seq<Disk>, ops: seq<Op>, name: string)
    requires Trace(hash, disks, ops) && Intact(hash, disks[0], name)
    requires forall i :: 0 <= i < |ops| && ops[i].Collect? ==> UpToDate(disks[i], ops[i].marked) && Leased(disks[i], name)
    ensures forall i :: 0 <= i < |disks| ==> name in disks[i].blobs && disks[i].blobs[name] == disks[0].blobs[name]
  {
    hide Trace, Leased;
    MarkedBlobSurvives(hash, disks, ops, name);
  }

  /** A collection can remove a blob exactly if it did not find it leased and the blob is old enough, leased by now or not. */
  lemma CollectionRemovesIff(hash: Bytes -> string, d: Disk, marked: string -> bool, cutoff: int, name: string)
    requires name in d.blobs
    ensures (exists e :: Step(hash, d, Collect(marked, cutoff), e) && name !in e.blobs) <==> Removable(d, marked, cutoff, name)
  {
    if Removable(d, marked, cutoff, name) {
      var gone := {name};
      var e := d.(blobs := d.blobs - gone);
      assert AllRemovable(d, marked, cutoff, gone);
      assert e.blobs == d.blobs - gone;
      assert Step(hash, d, Collect(marked, cutoff), e) && name !in e.blobs;
    }
  }

  /** Two store objects: the second reads the leases, the first acquires a blob, the second removes it. */
  lemma StaleCollectionExample(hash: Bytes -> string, d: Disk, build: string, name: string, marked: string -> bool, cutoff: int)
    returns (acquired: Disk, collected: Disk)
    requires ValidBuildID(build) && Intact(hash, d, name) && UpToDate(d, marked) && !Leased(d, name)
    requires HexDigest(name) && d.blobs[name].regular && d.blobs[name].modTime <= cutoff
    ensures Step(hash, d, Acquire(build, [DigestOf(name)]), acquired) && Leased(acquired, name) && Intact(hash, acquired, name)
    ensures Step(hash, acquired, Collect(marked, cutoff), collected) && name !in collected.blobs
  {
    var digests := [DigestOf(name)];
    ParseDigestOf(name);
    assert DigestOf(name)[7..] == name;
    acquired := d.(leases := d.leases[build + ".json" := LeaseFile(true, Some(Sorted(set g | g in digests)))]);
    AcquiredIsLeased(d, build, digests, DigestOf(name));
    hide Leased;
    assert !marked(name);
    assert Removable(acquired, marked, cutoff, name);
    CollectionRemovesIff(hash, acquired, marked, cutoff, name);
    collected :| Step(hash, acquired, Collect(marked, cutoff), collected) && name !in collected.blobs;
  }

  /** What a successful `Acquire` lists is leased from then on. */
  lemma AcquiredIsLeased(d: Disk, build: string, digests: seq<string>, digest: string)
    requires ValidBuildID(build) && digest in digests && ParseDigest(digest).Some?
    ensures Leased(d.(leases := d.leases[build + ".json" := LeaseFile(true, Some(Sorted(set g | g in digests)))]), digest[7..])
  {
    var file := build + ".json";
    var e := d.(leases := d.leases[file := LeaseFile(true, Some(Sorted(set g | g in digests)))]);
    assert file[|file| - 5..] == ".json";
    assert IsLease(e, file);
    assert digest in e.leases[file].digests.value && ParseDigest(digest) == Some(digest[7..]);
  }
}
