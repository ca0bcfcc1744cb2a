/** The content-addressed store: blobs named by their hash, and leases that protect them from collection. */
module Store {
  import opened Wrappers
  import opened Sorting
  import opened Strings
  import opened Patterns

  /** A directory entry of the blob directory. */
  datatype File = File(content: Bytes, regular: bool, modTime: int)

  /** A directory entry of the lease directory; `digests` is absent when the text does not decode. */
  datatype LeaseFile = LeaseFile(regular: bool, digests: Option<seq<string>>)

  /** The store's directories. */
  datatype Disk = Disk(blobs: map<string, File>, leases: map<string, LeaseFile>)

  datatype Descriptor = Descriptor(digest: string, size: int)

  datatype StoreError = Io | InvalidDigest | InvalidBuildID | InvalidAge | Mismatch | Missing | Corrupt

  function ParseDigest(digest: string): Option<string> {
    if ValidDigest(digest) then Some(digest[7..]) else None
  }

  function DigestOf(name: string): string {
    "sha256:" + name
  }

  ghost function DigestsOf(names: set<string>): set<string> {
    set name | name in names :: DigestOf(name)
  }

  lemma ParseDigestOf(name: string)
    requires HexDigest(name)
    ensures ParseDigest(DigestOf(name)) == Some(name)
  {
    assert DigestOf(name)[7..] == name;
  }

  // ----- Properties of a disk -----

  /** The blob exists and hashes to its name. */
  predicate Intact(hash: Bytes -> string, d: Disk, name: string) {
    name in d.blobs && hash(d.blobs[name].content) == name
  }

  predicate JsonName(name: string) {
    |name| >= 5 && name[|name| - 5..] == ".json"
  }

  /** The lease files the collector reads. */
  predicate IsLease(d: Disk, file: string) {
    file in d.leases && d.leases[file].regular && JsonName(file)
  }

  predicate LeasesReadable(d: Disk) {
    forall file :: file in d.leases && IsLease(d, file) ==> d.leases[file].digests.Some?
  }

  /** Some current lease lists the blob. */
  ghost predicate Leased(d: Disk, name: string) {
    exists file, digest :: IsLease(d, file) && d.leases[file].digests.Some?
      && digest in d.leases[file].digests.value && ParseDigest(digest) == Some(name)
  }

  /** What a collection with this cutoff may remove: old, regular, well-named, unleased blobs. */
  ghost function Collectable(d: Disk, cutoff: int): set<string> {
    set name | name in d.blobs && d.blobs[name].regular && HexDigest(name) && !Leased(d, name) && d.blobs[name].modTime <= cutoff
  }

  /** A collection, complete or cut short: only collectable blobs are gone, nothing else changed. */
  ghost predicate Swept(d: Disk, e: Disk, cutoff: int) {
    e.leases == d.leases && exists gone :: gone <= Collectable(d, cutoff) && e.blobs == d.blobs - gone
  }

  /** Some lease file, regular and named like one, lists the blob. */
  predicate Listed(d: Disk, name: string) {
    exists file :: && file in d.leases && d.leases[file].regular && |file| >= 5 && file[|file| - 5..] == ".json"
                   && d.leases[file].digests.Some? && "sha256:" + name in d.leases[file].digests.value
  }

  /** An old regular file with a blob's name that no lease lists. */
  predicate IsGarbage(d: Disk, cutoff: int, name: string) {
    && name in d.blobs && d.blobs[name].regular && |name| == 64 && (forall i :: 0 <= i < 64 ==> Hex(name[i]))
    && d.blobs[name].modTime <= cutoff && !Listed(d, name)
  }

  lemma ListedIsLeased(d: Disk, name: string)
    requires HexDigest(name)
    ensures Leased(d, name) <==> Listed(d, name)
  {
    if Leased(d, name) {
      var file, digest :| IsLease(d, file) && d.leases[file].digests.Some?
        && digest in d.leases[file].digests.value && ParseDigest(digest) == Some(name);
      assert digest == "sha256:" + name;
    }
    if Listed(d, name) {
      var file :| && file in d.leases && d.leases[file].regular && |file| >= 5 && file[|file| - 5..] == ".json"
                  && d.leases[file].digests.Some? && "sha256:" + name in d.leases[file].digests.value;
      ParseDigestOf(name);
      assert IsLease(d, file) && ParseDigest("sha256:" + name) == Some(name);
    }
  }

  /** What a collection may remove, said of the files alone. */
  lemma GarbageIsCollectable(d: Disk, cutoff: int)
    ensures forall name :: name in Collectable(d, cutoff) <==> IsGarbage(d, cutoff, name)
  {
    hide Leased, Listed;
    forall name ensures name in Collectable(d, cutoff) <==> IsGarbage(d, cutoff, name) {
      if HexDigest(name) {
        ListedIsLeased(d, name);
      }
    }
  }

  lemma DigestsAre(names: set<string>)
    ensures forall name :: "sha256:" + name in DigestsOf(names) <==> name in names
  {
    forall name ensures "sha256:" + name in DigestsOf(names) <==> name in names {
      if "sha256:" + name in DigestsOf(names) {
        var n :| n in names && DigestOf(n) == "sha256:" + name;
        assert name == ("sha256:" + name)[7..] == DigestOf(n)[7..] == n;
      }
      if name in names {
        assert DigestOf(name) == "sha256:" + name;
      }
    }
  }

  // ----- Put -----

  /** What can go wrong while a blob is stored; a race is another process installing `other` first. */
  datatype PutFault =
    | NoFault
    | ReadFails
    | StatFails
    | RemoveFails
    | CrashAfterRemove
    | RenameFails
    | RenameRace(other: Bytes)

  /** Two different contents with the same hash. */
  ghost predicate Collides(hash: Bytes -> string, a: Bytes, b: Bytes) {
    a != b && hash(a) == hash(b)
  }

  /** The blobs after storing `data`, however far the operation got. */
  function PutBlobs(hash: Bytes -> string, d: Disk, data: Bytes, fault: PutFault, now: int): map<string, File> {
    var name := hash(data);
    if fault.ReadFails? || fault.StatFails? || Intact(hash, d, name) then d.blobs
    else if name in d.blobs && fault.RemoveFails? then d.blobs
    else
      var cleared := d.blobs - {name};
      if fault.CrashAfterRemove? || fault.RenameFails? then cleared
      else if fault.RenameRace? then cleared[name := File(fault.other, true, now)]
      else cleared[name := File(data, true, now)]
  }

  class Store {
    const hash: Bytes -> string
    var disk: Disk

    /** Names are 64 hexadecimal characters, as the file patterns expect. */
    ghost predicate Valid()
      reads this
    {
      forall b :: HexDigest(hash(b))
    }

    constructor (hash: Bytes -> string, disk: Disk)
      requires forall b :: HexDigest(hash(b))
      ensures this.hash == hash && this.disk == disk && Valid()
    {
      this.hash := hash;
      this.disk := disk;
    }

    /** Store the bytes read; an intact copy is kept, a corrupt one is replaced. */
    method Put(data: Bytes, fault: PutFault, now: int) returns (r: Result<Descriptor, StoreError>)
      requires Valid()
      modifies this
      ensures Valid() && disk == old(disk).(blobs := PutBlobs(hash, old(disk), data, fault, now))
      ensures fault.NoFault? ==> r.Ok?
      ensures r.Ok? ==> r.value == Descriptor(DigestOf(hash(data)), |data|)
      ensures r.Ok? ==> Intact(hash, disk, hash(data))
      ensures r.Ok? ==> disk.blobs[hash(data)].content == data || Collides(hash, data, disk.blobs[hash(data)].content)
      ensures r.Ok? ==> r.value.digest == "sha256:" + hash(data) && r.value.size == |data|
      ensures forall name :: name != hash(data) ==>
                (name in disk.blobs <==> name in old(disk).blobs) && (name in disk.blobs ==> disk.blobs[name] == old(disk).blobs[name])
    {
      if fault.ReadFails? {
        return Err(Io);
      }
      var name := hash(data);
      if fault.StatFails? {
        return Err(Io);
      }
      if name in disk.blobs {
        if hash(disk.blobs[name].content) == name {
          return Ok(Descriptor(DigestOf(name), |data|));
        }
        if fault.RemoveFails? {
          return Err(Io);
        }
        disk := disk.(blobs := disk.blobs - {name});
      }
      assert disk.blobs == old(disk).blobs - {name};
      if fault.CrashAfterRemove? {
        return Err(Io);
      }
      if fault.RenameFails? {
        return Err(Io);
      }
      if fault.RenameRace? {
        disk := disk.(blobs := disk.blobs[name := File(fault.other, true, now)]);
        if hash(fault.other) != name {
          return Err(Io);
        }
        return Ok(Descriptor(DigestOf(name), |data|));
      }
      disk := disk.(blobs := disk.blobs[name := File(data, true, now)]);
      return Ok(Descriptor(DigestOf(name), |data|));
    }

    method Exists(digest: string) returns (r: Result<bool, StoreError>)
      ensures r.Ok? <==> ParseDigest(digest).Some?
      ensures r.Ok? ==> r.value == (digest[7..] in disk.blobs && disk.blobs[digest[7..]].regular)
    {
      var name := ParseDigest(digest);
      if name.None? {
        return Err(InvalidDigest);
      }
      return Ok(name.value in disk.blobs && disk.blobs[name.value].regular);
    }

    method Get(digest: string) returns (r: Result<Bytes, StoreError>)
      ensures r.Ok? <==> ParseDigest(digest).Some? && digest[7..] in disk.blobs
      ensures r.Ok? ==> r.value == disk.blobs[digest[7..]].content
    {
      var name := ParseDigest(digest);
      if name.None? {
        return Err(InvalidDigest);
      }
      if name.value !in disk.blobs {
        return Err(Missing);
      }
      return Ok(disk.blobs[name.value].content);
    }

    /** Re-hash the stored blob. */
    method Verify(digest: string) returns (ok: bool)
      ensures ok <==> ParseDigest(digest).Some? && Intact(hash, disk, digest[7..])
    {
      var name := ParseDigest(digest);
      if name.None? || name.value !in disk.blobs {
        return false;
      }
      ok := hash(disk.blobs[name.value].content) == name.value;
    }

    /** Record that a build depends on these blobs: repeats dropped, sorted, written atomically if the write succeeds. */
    method Acquire(buildID: string, digests: seq<string>, writes: bool) returns (r: Result<(), StoreError>)
      modifies this
      ensures r.Ok? <==> ValidBuildID(buildID) && (forall g :: g in digests ==> ParseDigest(g).Some?) && writes
      ensures r.Err? ==> disk == old(disk)
      ensures r.Ok? ==> disk == old(disk).(leases := old(disk).leases[buildID + ".json" :=
                          LeaseFile(true, Some(Sorted(set g | g in digests)))])
    {
      if !ValidBuildID(buildID) {
        return Err(InvalidBuildID);
      }
      var seen: set<string> := {};
      var kept: seq<string> := [];
      for i := 0 to |digests|
        invariant disk == old(disk)
        invariant forall k :: 0 <= k < i ==> ParseDigest(digests[k]).Some?
        invariant seen == set g | g in digests[..i]
        invariant Distinct(kept) && forall g :: g in kept <==> g in seen
      {
        var name := ParseDigest(digests[i]);
        if name.None? {
          assert digests[i] in digests;
          return Err(InvalidDigest);
        }
        var normalized := DigestOf(name.value);
        assert normalized == digests[i];
        assert digests[..i + 1] == digests[..i] + [digests[i]];
        if normalized !in seen {
          DistinctAppend(kept, normalized);
          seen := seen + {normalized};
          kept := kept + [normalized];
        }
      }
      assert digests[..|digests|] == digests;
      SortStringsOfSet(kept, seen);
      if !writes {
        return Err(Io);
      }
      disk := disk.(leases := disk.leases[buildID + ".json" := LeaseFile(true, Some(SortStrings(kept)))]);
      return Ok(());
    }

    /** Drop a build's lease; a missing one is fine, one that cannot be removed is not. */
    method Release(buildID: string, removes: bool) returns (r: Result<(), StoreError>)
      modifies this
      ensures r.Ok? <==> ValidBuildID(buildID) && (removes || buildID + ".json" !in old(disk).leases)
      ensures disk == if r.Ok? then old(disk).(leases := old(disk).leases - {buildID + ".json"}) else old(disk)
    {
      if !ValidBuildID(buildID) {
        return Err(InvalidBuildID);
      }
      if buildID + ".json" in disk.leases && !removes {
        return Err(Io);
      }
      disk := disk.(leases := disk.leases - {buildID + ".json"});
      return Ok(());
    }

    /** Collect the names every readable lease lists; an undecodable lease file is an error. */
    method ReferencedDigests() returns (r: Result<set<string>, StoreError>)
      ensures r.Ok? <==> LeasesReadable(disk)
      ensures r.Ok? ==> forall name :: name in r.value <==> Leased(disk, name)
    {
      var referenced: set<string> := {};
      var unseen := disk.leases.Keys;
      while unseen != {}
        invariant unseen <= disk.leases.Keys
        invariant forall file :: IsLease(disk, file) && file !in unseen ==> disk.leases[file].digests.Some?
        invariant forall name :: name in referenced ==> Leased(disk, name)
        invariant forall file, digest ::
                    IsLease(disk, file) && file !in unseen && digest in disk.leases[file].digests.value && ParseDigest(digest).Some? ==>
                    ParseDigest(digest).value in referenced
        decreases unseen
      {
        var file :| file in unseen;
        unseen := unseen - {file};
        if !disk.leases[file].regular || !JsonName(file) {
          continue;
        }
        if disk.leases[file].digests.None? {
          return Err(Io);
        }
        var names := NamesOf(disk.leases[file].digests.value);
        assert IsLease(disk, file);
        referenced := referenced + names;
      }
      return Ok(referenced);
    }

    /** Remove unleased blobs older than the cutoff; `stuck` are the names whose removal fails. */
    method GC(minAge: int, now: int, stuck: set<string>) returns (r: Result<(seq<string>, int), StoreError>)
      modifies this
      ensures Swept(old(disk), disk, now - minAge)
      ensures r.Ok? ==> disk.blobs == old(disk).blobs - Collectable(old(disk), now - minAge)
      ensures r.Ok? ==> r.value.0 == Sorted(DigestsOf(Collectable(old(disk), now - minAge)))
      ensures r.Ok? ==> r.value.1 == TotalSize(old(disk), Collectable(old(disk), now - minAge))
      ensures r.Ok? <==> minAge >= 0 && LeasesReadable(old(disk)) && Collectable(old(disk), now - minAge) !! stuck
      ensures disk.leases == old(disk).leases
      ensures r.Ok? ==> forall name :: name in old(disk).blobs ==>
                if IsGarbage(old(disk), now - minAge, name) then name !in disk.blobs && "sha256:" + name in r.value.0
                else name in disk.blobs && disk.blobs[name] == old(disk).blobs[name] && "sha256:" + name !in r.value.0
    {
      GarbageIsCollectable(disk, now - minAge);
      DigestsAre(Collectable(disk, now - minAge));
      hide Collectable, IsGarbage, DigestsOf, Leased, Swept;
      var cutoff := now - minAge;
      if minAge < 0 {
        NothingGone(old(disk), cutoff);
        return Err(InvalidAge);
      }
      var referenced := ReferencedDigests();
      if referenced.Err? {
        NothingGone(old(disk), cutoff);
        return Err(Io);
      }
      r := Sweep(referenced.value, cutoff, stuck);
    }

    /** The sweep over the blob directory. */
    method Sweep(referenced: set<string>, cutoff: int, stuck: set<string>) returns (r: Result<(seq<string>, int), StoreError>)
      requires forall name :: name in referenced <==> Leased(disk, name)
      modifies this
      ensures Swept(old(disk), disk, cutoff)
      ensures r.Ok? ==> disk.blobs == old(disk).blobs - Collectable(old(disk), cutoff)
      ensures r.Ok? ==> r.value.0 == Sorted(DigestsOf(Collectable(old(disk), cutoff)))
      ensures r.Ok? ==> r.value.1 == TotalSize(old(disk), Collectable(old(disk), cutoff))
      ensures r.Ok? <==> Collectable(old(disk), cutoff) !! stuck
    {
      ghost var before := disk;
      ghost var target := Collectable(before, cutoff);
      ghost var gone: set<string> := {};
      var removed: seq<string> := [];
      var bytes := 0;
      var unseen := disk.blobs.Keys;
      while unseen != {}
        invariant unseen <= before.blobs.Keys && gone == target - unseen && gone !! stuck
        invariant disk == before.(blobs := before.blobs - gone)
        invariant Distinct(removed) && forall g :: g in removed <==> exists name :: name in gone && g == DigestOf(name)
        invariant bytes == TotalSize(before, gone)
        decreases unseen
      {
        var name :| name in unseen;
        unseen := unseen - {name};
        var file := disk.blobs[name];
        if !file.regular || !HexDigest(name) || name in referenced || file.modTime > cutoff {
          assert name !in target;
          continue;
        }
        assert name in target;
        if name in stuck {
          return Err(Io);
        }
        SizeAdd(before, gone, name);
        assert DigestOf(name) !in removed by {
          assert forall k :: DigestOf(k) == DigestOf(name) ==> k == name by { DigestOfInjective(name); }
        }
        DistinctAppend(removed, DigestOf(name));
        disk := disk.(blobs := disk.blobs - {name});
        removed := removed + [DigestOf(name)];
        bytes := bytes + |file.content|;
        gone := gone + {name};
      }
      assert gone == target;
      ghost var digests := DigestsOf(target);
      assert (set g | g in removed) == digests;
      SortStringsOfSet(removed, digests);
      return Ok((SortStrings(removed), bytes));
    }
  }

  /** The blob names among a lease's digests; malformed digests are ignored. */
  method NamesOf(digests: seq<string>) returns (names: set<string>)
    ensures forall name :: name in names <==> exists g :: g in digests && ParseDigest(g) == Some(name)
  {
    names := {};
    for i := 0 to |digests|
      invariant forall name :: name in names <==> exists g :: g in digests[..i] && ParseDigest(g) == Some(name)
    {
      var name := ParseDigest(digests[i]);
      assert digests[..i + 1] == digests[..i] + [digests[i]];
      if name.Some? {
        names := names + {name.value};
      }
    }
    assert digests[..|digests|] == digests;
  }

  lemma DigestOfInjective(name: string)
    ensures forall k :: DigestOf(k) == DigestOf(name) ==> k == name
  {
    forall k | DigestOf(k) == DigestOf(name) ensures k == name {
      assert DigestOf(k)[7..] == k && DigestOf(name)[7..] == name;
    }
  }

  lemma NothingGone(d: Disk, cutoff: int)
    ensures Swept(d, d, cutoff)
  {
    var none: set<string> := {};
    assert none <= Collectable(d, cutoff) && d.blobs == d.blobs - none;
  }

  /** The bytes a set of blobs occupies. */
  ghost function TotalSize(d: Disk, names: set<string>): int {
    if names == {} then 0
    else
      var n :| n in names;
      (if n in d.blobs then |d.blobs[n].content| else 0) + TotalSize(d, names - {n})
  }

  lemma {:induction false} SizeAdd(d: Disk, names: set<string>, n: string)
    requires n !in names && n in d.blobs
    ensures TotalSize(d, names + {n}) == TotalSize(d, names) + |d.blobs[n].content|
    decreases |names|
  {
    var all := names + {n};
    var m :| m in all && TotalSize(d, all) == (if m in d.blobs then |d.blobs[m].content| else 0) + TotalSize(d, all - {m});
    if m == n {
      assert all - {m} == names;
    } else {
      assert all - {m} == (names - {m}) + {n};
      SizeAdd(d, names - {m}, n);
      SizeRemove(d, names, m);
    }
  }

  lemma {:induction false} SizeRemove(d: Disk, names: set<string>, m: string)
    requires m in names
    ensures TotalSize(d, names) == (if m in d.blobs then |d.blobs[m].content| else 0) + TotalSize(d, names - {m})
    decreases |names|
  {
    var k :| k in names && TotalSize(d, names) == (if k in d.blobs then |d.blobs[k].content| else 0) + TotalSize(d, names - {k});
    if k != m {
      SizeRemove(d, names - {k}, m);
      SizeRemove(d, names - {m}, k);
      assert names - {k} - {m} == names - {m} - {k};
    }
  }
}
