/** Saving the scheduler to one file and rebuilding it from an arbitrary one. */
module Snapshot {
  import opened Wrappers
  import opened Sorting
  import opened Strings
  import opened Decimals
  import opened Patterns
  import opened Plane
  import opened PlaneSafety
  import Control
  import PlaneMeaning

  const SNAPSHOT_VERSION := 3

  /** The largest snapshot `LoadControlPlane` reads: 64 MiB. */
  const MAX_SNAPSHOT_BYTES := 0x400_0000

  datatype Snapshot = Snapshot(version: int, nextID: int, leases: seq<Lease>, pending: seq<string>)

  /** The text encoding of snapshots: any encoder with a strict decoder. */
  datatype Codec = Codec(encode: Snapshot -> Bytes, decode: Bytes -> Option<Snapshot>)

  // ----- Saving -----

  predicate LeaseLess(a: Lease, b: Lease) {
    Less(a.id, b.id)
  }

  lemma LeaseLessIsStrictOrder()
    ensures StrictOrder(LeaseLess)
  {
    LessIsStrictOrder();
  }

  function Pick(leases: map<string, Lease>, ids: seq<string>): (all: seq<Lease>)
    requires forall i :: 0 <= i < |ids| ==> ids[i] in leases
    ensures |all| == |ids| && forall i :: 0 <= i < |ids| ==> all[i] == leases[ids[i]]
  {
    seq(|ids|, i requires 0 <= i < |ids| => leases[ids[i]])
  }

  /** The snapshot of a state: leases in identifier order, the queue as it is. */
  ghost function SnapshotOf(s: State): Snapshot {
    var ids := Sorted(s.leases.Keys);
    assert forall i :: 0 <= i < |ids| ==> ids[i] in ids;
    Snapshot(SNAPSHOT_VERSION, s.nextID, Pick(s.leases, ids), s.pending)
  }

  /** Collecting the lease table in any order and sorting it gives the snapshot's list. */
  method CollectLeases(leases: map<string, Lease>) returns (all: seq<Lease>)
    requires forall id :: id in leases ==> leases[id].id == id
    ensures ListsTable(leases, all) && Ids(all) == Sorted(leases.Keys)
  {
    var unsorted: seq<Lease> := [];
    var unseen := leases.Keys;
    while unseen != {}
      invariant unseen <= leases.Keys
      invariant forall l :: l in unsorted ==> l.id in leases && l.id !in unseen && l == leases[l.id]
      invariant forall id :: id in leases && id !in unseen ==> leases[id] in unsorted
      invariant Distinct(unsorted)
      decreases unseen
    {
      var id :| id in unseen;
      unseen := unseen - {id};
      DistinctAppend(unsorted, leases[id]);
      unsorted := unsorted + [leases[id]];
    }
    LeaseLessIsStrictOrder();
    all := Sort(LeaseLess, unsorted);
    SortedLeases(leases, unsorted, all);
  }

  function Ids(all: seq<Lease>): (ids: seq<string>)
    ensures |ids| == |all| && forall i :: 0 <= i < |all| ==> ids[i] == all[i].id
  {
    seq(|all|, i requires 0 <= i < |all| => all[i].id)
  }

  /** The list holds the lease table's values, each once. */
  ghost predicate ListsTable(leases: map<string, Lease>, all: seq<Lease>) {
    && Distinct(all)
    && (forall l :: l in all ==> l.id in leases && l == leases[l.id])
    && (forall id :: id in leases ==> leases[id].id == id && leases[id] in all)
  }

  lemma TableIds(leases: map<string, Lease>, all: seq<Lease>)
    requires ListsTable(leases, all)
    ensures Distinct(Ids(all)) && (set id | id in Ids(all)) == leases.Keys
  {
    var ids := Ids(all);
    forall i, j | 0 <= i < j < |ids| ensures ids[i] != ids[j] {
      assert all[i] in all && all[j] in all;
    }
    forall id ensures id in ids <==> id in leases {
      if id in leases {
        var i :| 0 <= i < |all| && all[i] == leases[id];
        assert ids[i] == id;
      }
      if id in ids {
        var i :| 0 <= i < |ids| && ids[i] == id;
        assert all[i] in all;
      }
    }
  }

  lemma SortedLeases(leases: map<string, Lease>, unsorted: seq<Lease>, all: seq<Lease>)
    requires ListsTable(leases, unsorted) && SortedBy(LeaseLess, all) && Permutation(all, unsorted)
    ensures ListsTable(leases, all) && Ids(all) == Sorted(leases.Keys)
  {
    SameMembers(all, unsorted);
    DistinctMultiset(unsorted);
    MultisetDistinct(all, set l | l in unsorted);
    TableIds(leases, all);
    var ids := Ids(all);
    forall i, j | 0 <= i < j < |ids| ensures !Less(ids[j], ids[i]) {
      assert !LeaseLess(all[j], all[i]);
    }
    SortedIsCanonical(ids, leases.Keys);
  }

  /** The snapshot's list is the table's values in identifier order. */
  lemma SnapshotEntries(s: State, all: seq<Lease>)
    requires ListsTable(s.leases, all) && Ids(all) == Sorted(s.leases.Keys)
    ensures SnapshotOf(s).leases == all
  {
    hide Sorted, Pick, Ids;
    var p := SnapshotOf(s);
    forall i | 0 <= i < |all| ensures p.leases[i] == all[i] {
      assert all[i] in all;
    }
  }

  /** Replace the snapshot file whole, or leave it; an error may be reported after the file was replaced. */
  method Save(plane: Control.ControlPlane, codec: Codec, path: string, file: Bytes, fault: Fault) returns (ok: bool, after: Bytes)
    requires Valid(plane.Value())
    ensures ok <==> path != "" && fault.Sound?
    ensures after == if path == "" || fault.NotWritten? then file else codec.encode(SnapshotOf(plane.Value()))
  {
    if path == "" {
      return false, file;
    }
    var all := CollectLeases(plane.leases);
    var p := Snapshot(SNAPSHOT_VERSION, plane.nextID, all, plane.pending);
    SnapshotEntries(plane.Value(), all);
    var data := codec.encode(p);
    if fault.NotWritten? {
      return false, file;
    }
    return fault.Sound?, data;
  }

  // ----- Loading -----

  datatype LoadError = TooLarge | Malformed | Unsupported | DuplicateQueued | InvalidLease(id: string) | UnknownQueued(id: string)

  /** The issued number of a lease identifier as `strconv.Atoi` reads it. */
  function LeaseSequence(id: string): Option<int> {
    if "lease-" <= id && Atoi(id[6..]).Some? && Atoi(id[6..]).value > 0 then Atoi(id[6..]) else None
  }

  /** What the loader demands of one persisted lease. */
  predicate LeaseAcceptable(p: Snapshot, l: Lease) {
    && LeaseSequence(l.id).Some? && LeaseSequence(l.id).value <= p.nextID
    && FieldsDurable(l)
    && match l.state
       case Pending => !HasCompletion(l) && !HasCancellation(l) && l.id in p.pending
       case Assigned => !HasCompletion(l) && !HasCancellation(l)
       case Completed =>
         && l.id !in p.pending && ValidWorkerID(Upgraded(p.version, l).completedBy)
         && (p.version >= 2 ==> l.completedAt != ZERO_TIME) && !HasCancellation(l)
       case Canceled =>
         && p.version >= 3 && l.id !in p.pending && !HasCompletion(l)
         && ValidWorkerID(l.canceledBy) && l.canceledAt != ZERO_TIME
       case Unknown(_) => false
  }

  /** Version 1 kept the completing identity only in the worker field. */
  function Upgraded(version: int, l: Lease): Lease {
    if version == 1 && l.state == Completed && l.completedBy == "" then l.(completedBy := l.worker) else l
  }

  function Restored(version: int, l: Lease): Lease {
    if l.state == Assigned then BackToPending(l) else Upgraded(version, l)
  }

  predicate DistinctIds(leases: seq<Lease>) {
    forall i, j :: 0 <= i < j < |leases| ==> leases[i].id != leases[j].id
  }

  ghost predicate Lists(leases: seq<Lease>, id: string) {
    exists l :: l in leases && l.id == id
  }

  /** The snapshots that load. */
  ghost predicate Acceptable(p: Snapshot) {
    && 1 <= p.version <= SNAPSHOT_VERSION && p.nextID >= 0
    && Distinct(p.pending) && DistinctIds(p.leases)
    && (forall l :: l in p.leases ==> LeaseAcceptable(p, l))
    && (forall id :: id in p.pending ==> Lists(p.leases, id))
  }

  function Table(version: int, leases: seq<Lease>): map<string, Lease> {
    if leases == [] then map[]
    else
      var last := leases[|leases| - 1];
      Table(version, leases[..|leases| - 1])[last.id := Restored(version, last)]
  }

  function AssignedIds(leases: seq<Lease>): set<string> {
    set l | l in leases && l.state == Assigned :: l.id
  }

  /** The plane a loadable snapshot becomes. */
  ghost function Loaded(p: Snapshot): State
    requires p.nextID >= 0
  {
    State(map[], Table(p.version, p.leases), p.pending + Sorted(AssignedIds(p.leases)), p.nextID)
  }

  lemma RestoredId(version: int, l: Lease)
    ensures Restored(version, l).id == l.id
  {
  }

  lemma {:induction false} TableLookup(version: int, leases: seq<Lease>)
    requires DistinctIds(leases)
    ensures forall id :: id in Table(version, leases) <==> Lists(leases, id)
    ensures forall l :: l in leases ==> l.id in Table(version, leases) && Table(version, leases)[l.id] == Restored(version, l)
    ensures forall id :: id in Table(version, leases) ==> Table(version, leases)[id].id == id
  {
    if leases != [] {
      var n := |leases| - 1;
      var front, last := leases[..n], leases[n];
      assert leases == front + [last];
      TableLookup(version, front);
      RestoredId(version, last);
      hide Restored;
      forall id ensures id in Table(version, leases) <==> Lists(leases, id) {
        if id == last.id { assert last in leases; }
        if Lists(front, id) {
          var l :| l in front && l.id == id;
          assert l in leases;
        }
      }
      forall l | l in leases ensures l.id in Table(version, leases) && Table(version, leases)[l.id] == Restored(version, l) {
        if l in front {
          var i :| 0 <= i < n && leases[i] == l;
          assert leases[i].id != leases[n].id;
        }
      }
    }
  }

  lemma NormalizedIsCanonical(caps: seq<string>)
    ensures Normalized(caps) <==>
            NormalTokens(caps, ValidCapability, 64).Some? && NormalTokens(caps, ValidCapability, 64).value == caps
  {
    var s := set c | c in caps;
    if Normalized(caps) {
      SortedIsCanonical(caps, s);
    }
  }

  /** The checks of one lease, in the order the loader makes them. */
  method CheckLease(p: Snapshot, pendingSeen: set<string>, l: Lease) returns (ok: bool)
    requires pendingSeen == set id | id in p.pending
    ensures ok == LeaseAcceptable(p, l)
  {
    hide ValidWorkerID, ValidPlatform, ValidDigest;
    var number := LeaseSequence(l.id);
    if number.None? || number.value > p.nextID || |l.payload| == 0 || |l.payload| > MAX_OPAQUE || |l.result| > MAX_OPAQUE {
      return false;
    }
    if l.requiredPlatform != "" && !ValidPlatform(l.requiredPlatform) {
      return false;
    }
    NormalizedIsCanonical(l.requiredCapabilities);
    var capabilities := Control.NormalizedTokens(l.requiredCapabilities, ValidCapability, 64);
    if capabilities.Err? || capabilities.value != l.requiredCapabilities {
      return false;
    }
    if l.preferredContent != "" && !ValidDigest(l.preferredContent) {
      return false;
    }
    match l.state
    case Pending => return !HasCompletion(l) && !HasCancellation(l) && l.id in pendingSeen;
    case Assigned => return !HasCompletion(l) && !HasCancellation(l);
    case Completed =>
      if l.id in pendingSeen {
        return false;
      }
      var upgraded := if p.version == 1 && l.completedBy == "" then l.(completedBy := l.worker) else l;
      return ValidWorkerID(upgraded.completedBy) && !(p.version >= 2 && l.completedAt == ZERO_TIME) && !HasCancellation(l);
    case Canceled =>
      return !(p.version < 3 || l.id in pendingSeen || HasCompletion(l) || !ValidWorkerID(l.canceledBy) || l.canceledAt == ZERO_TIME);
    case Unknown(_) => return false;
  }

  /** The queue is copied in order; a repeated identifier is an error. */
  method RestoreQueue(pending: seq<string>) returns (r: Option<set<string>>)
    ensures r.Some? <==> Distinct(pending)
    ensures r.Some? ==> r.value == set id | id in pending
  {
    var seen: set<string> := {};
    for i := 0 to |pending|
      invariant Distinct(pending[..i]) && seen == set id | id in pending[..i]
    {
      if pending[i] in seen {
        return None;
      }
      assert pending[..i + 1] == pending[..i] + [pending[i]];
      seen := seen + {pending[i]};
    }
    assert pending[..|pending|] == pending;
    return Some(seen);
  }

  /** The leases are checked and restored one by one; assigned ones are collected. */
  method RestoreLeases(p: Snapshot, pendingSeen: set<string>)
    returns (r: Result<(map<string, Lease>, seq<string>), LoadError>)
    requires pendingSeen == set id | id in p.pending
    ensures r.Ok? <==> DistinctIds(p.leases) && forall l :: l in p.leases ==> LeaseAcceptable(p, l)
    ensures r.Ok? ==> r.value.0 == Table(p.version, p.leases)
    ensures r.Ok? ==> Distinct(r.value.1) && (set id | id in r.value.1) == AssignedIds(p.leases)
  {
    hide LeaseAcceptable, Restored, AssignedIds;
    assert AssignedIds([]) == {} by { NoneAssigned(); }
    var table: map<string, Lease> := map[];
    var reclaimed: seq<string> := [];
    for i := 0 to |p.leases|
      invariant DistinctIds(p.leases[..i]) && forall l :: l in p.leases[..i] ==> LeaseAcceptable(p, l)
      invariant table == Table(p.version, p.leases[..i])
      invariant Distinct(reclaimed) && (set id | id in reclaimed) == AssignedIds(p.leases[..i])
    {
      var lease := p.leases[i];
      var front := p.leases[..i];
      assert p.leases[..i + 1] == front + [lease];
      assert p.leases[..i + 1][..i] == front;
      TableLookup(p.version, front);
      var acceptable := CheckLease(p, pendingSeen, lease);
      NewIdIsDistinct(p.leases, i);
      if lease.id in table || !acceptable {
        assert lease in p.leases;
        return Err(InvalidLease(lease.id));
      }
      AssignedIdsAppend(front, lease);
      if lease.state == Assigned {
        assert lease.id !in reclaimed;
        DistinctAppend(reclaimed, lease.id);
        reclaimed := reclaimed + [lease.id];
      }
      table := table[lease.id := Restored(p.version, lease)];
    }
    assert p.leases[..|p.leases|] == p.leases;
    return Ok((table, reclaimed));
  }

  lemma AssignedIdsAppend(front: seq<Lease>, lease: Lease)
    ensures AssignedIds(front + [lease]) == AssignedIds(front) + if lease.state == Assigned then {lease.id} else {}
    ensures forall id :: id in AssignedIds(front) ==> Lists(front, id)
  {
    assert forall l :: l in front + [lease] <==> l in front || l == lease;
  }

  lemma NoneAssigned()
    ensures AssignedIds([]) == {}
  {
  }

  /** A list with distinct identifiers stays so exactly when the next one is not listed. */
  lemma NewIdIsDistinct(leases: seq<Lease>, i: nat)
    requires i < |leases| && DistinctIds(leases[..i])
    ensures !Lists(leases[..i], leases[i].id) ==> DistinctIds(leases[..i + 1])
    ensures Lists(leases[..i], leases[i].id) ==> !DistinctIds(leases)
  {
    if Lists(leases[..i], leases[i].id) {
      var l :| l in leases[..i] && l.id == leases[i].id;
      var j :| 0 <= j < i && leases[j] == l;
    } else {
      assert forall j :: 0 <= j < i ==> leases[j] in leases[..i];
    }
  }

  /** Every queued identifier must name a lease; they are looked up in any order. */
  method CheckQueued(pendingSeen: set<string>, table: map<string, Lease>) returns (missing: Option<string>)
    ensures missing.None? <==> forall id :: id in pendingSeen ==> id in table
  {
    var unseen := pendingSeen;
    while unseen != {}
      invariant unseen <= pendingSeen
      invariant forall id :: id in pendingSeen && id !in unseen ==> id in table
      decreases unseen
    {
      var id :| id in unseen;
      unseen := unseen - {id};
      if id !in table {
        return Some(id);
      }
    }
    return None;
  }

  /** Rebuild a plane from a decoded snapshot, or refuse it. */
  method Restore(p: Snapshot) returns (r: Result<State, LoadError>)
    ensures r.Ok? <==> Acceptable(p)
    ensures r.Ok? ==> r.value == Loaded(p)
  {
    hide LeaseAcceptable;
    if p.version < 1 || p.version > SNAPSHOT_VERSION || p.nextID < 0 {
      return Err(Unsupported);
    }
    var pendingSeen := RestoreQueue(p.pending);
    if pendingSeen.None? {
      return Err(DuplicateQueued);
    }
    var restored := RestoreLeases(p, pendingSeen.value);
    if restored.Err? {
      return Err(restored.error);
    }
    var (table, reclaimed) := restored.value;
    TableLookup(p.version, p.leases);
    var missing := CheckQueued(pendingSeen.value, table);
    if missing.Some? {
      return Err(UnknownQueued(missing.value));
    }
    SortStringsOfSet(reclaimed, AssignedIds(p.leases));
    return Ok(State(map[], table, p.pending + SortStrings(reclaimed), p.nextID));
  }

  method LoadControlPlane(data: Bytes, codec: Codec) returns (r: Result<State, LoadError>)
    ensures r.Ok? <==> Loads(data, codec)
    ensures r.Ok? ==> |data| <= 64 * 1024 * 1024
    ensures r.Ok? ==> r.value == Loaded(codec.decode(data).value)
  {
    if |data| > MAX_SNAPSHOT_BYTES {
      return Err(TooLarge);
    }
    var p := codec.decode(data);
    if p.None? {
      return Err(Malformed);
    }
    r := Restore(p.value);
  }

  // ----- Load after save -----

  lemma SequenceInRange(id: string, n: int)
    requires LeaseNumber(id) == Some(n) && 0 < n <= MAX_INT
    ensures LeaseSequence(id) == Some(n)
  {
  }

  lemma SequenceIsNumber(id: string)
    requires LeaseSequence(id).Some?
    ensures LeaseNumber(id) == LeaseSequence(id) && 0 < LeaseSequence(id).value
  {
  }

  lemma SnapshotLists(s: State)
    requires forall id :: id in s.leases ==> s.leases[id].id == id
    ensures ListsTable(s.leases, SnapshotOf(s).leases) && DistinctIds(SnapshotOf(s).leases)
  {
    hide Sorted;
    var ids := Sorted(s.leases.Keys);
    assert forall i :: 0 <= i < |ids| ==> ids[i] in ids;
    PickedLists(s.leases, ids);
  }

  lemma PickedLists(leases: map<string, Lease>, ids: seq<string>)
    requires forall id :: id in leases ==> leases[id].id == id
    requires Distinct(ids) && forall id :: id in ids <==> id in leases
    ensures forall i :: 0 <= i < |ids| ==> ids[i] in leases
    ensures ListsTable(leases, Pick(leases, ids)) && DistinctIds(Pick(leases, ids))
  {
    hide Pick;
    assert forall i :: 0 <= i < |ids| ==> ids[i] in ids;
    var all := Pick(leases, ids);
    forall id | id in leases ensures leases[id] in all {
      assert id in ids;
      var i :| 0 <= i < |ids| && ids[i] == id;
      assert all[i] == leases[id];
    }
  }

  lemma SavedLeaseAcceptable(s: State, l: Lease)
    requires QueueIsPending(s) && IdsIssued(s) && s.nextID <= MAX_INT
    requires l.id in s.leases && l == s.leases[l.id] && FieldsDurable(l) && MarksDurable(l)
    ensures LeaseAcceptable(SnapshotOf(s), l)
  {
    hide FieldsDurable;
    SequenceInRange(l.id, LeaseNumber(l.id).value);
  }

  /** The snapshot of every valid plane loads, and loading it is exactly the restart step. */
  lemma SavedPlaneLoads(s: State)
    requires Valid(s) && s.nextID <= MAX_INT
    ensures Acceptable(SnapshotOf(s))
    ensures Loaded(SnapshotOf(s)) == Restart(s)
  {
    hide LeaseAcceptable, FieldsDurable, MarksDurable, WithinLimits, WorkersWellFormed, HoldersRegistered, Sorted, Table;
    var p := SnapshotOf(s);
    SnapshotLists(s);
    forall l | l in p.leases ensures LeaseAcceptable(p, l) {
      SavedLeaseAcceptable(s, l);
    }
    forall id | id in p.pending ensures Lists(p.leases, id) {
      assert s.leases[id] in p.leases;
    }
    SavedAssigned(s);
    SavedTable(s);
  }

  lemma SavedAssigned(s: State)
    requires forall id :: id in s.leases ==> s.leases[id].id == id
    ensures AssignedIds(SnapshotOf(s).leases) == AllAssigned(s)
  {
    hide Sorted;
    var p := SnapshotOf(s);
    SnapshotLists(s);
    forall id | id in AllAssigned(s) ensures id in AssignedIds(p.leases) {
      assert s.leases[id] in p.leases;
    }
  }

  lemma SavedTable(s: State)
    requires forall id :: id in s.leases ==> s.leases[id].id == id
    ensures Table(SNAPSHOT_VERSION, SnapshotOf(s).leases) == Restart(s).leases
  {
    SnapshotLists(s);
    TableOfList(s, SnapshotOf(s).leases);
  }

  lemma TableOfList(s: State, all: seq<Lease>)
    requires ListsTable(s.leases, all) && DistinctIds(all)
    ensures Table(SNAPSHOT_VERSION, all) == Restart(s).leases
  {
    hide Sorted;
    TableLookup(SNAPSHOT_VERSION, all);
    var t, u := Table(SNAPSHOT_VERSION, all), Restart(s).leases;
    forall id ensures id in t <==> id in u {
      if id in u { assert s.leases[id] in all; }
    }
    forall id | id in t ensures t[id] == u[id] {
      assert s.leases[id] in all;
    }
  }

  /**
   Load after Save: for every valid plane whose encoding fits the loader's limit the load
   succeeds.  Finished leases and the next number are unchanged, the old queue is a prefix of the
   new one, and each assigned lease is pending again exactly once with its attempt count kept.
   */
  lemma LoadAfterSave(s: State, codec: Codec)
    requires Valid(s) && s.nextID <= MAX_INT
    requires codec.decode(codec.encode(SnapshotOf(s))) == Some(SnapshotOf(s))
    ensures var p := codec.decode(codec.encode(SnapshotOf(s))).value;
            var t := Restart(s);
            && Acceptable(p) && Loaded(p) == t && Valid(t)
            && t.nextID == s.nextID && t.leases.Keys == s.leases.Keys
            && (forall id :: id in s.leases && Terminal(s.leases[id]) ==> t.leases[id] == s.leases[id])
            && (forall id :: id in s.leases ==> t.leases[id].attempt == s.leases[id].attempt)
            && QueueExtended(s, t, AllAssigned(s))
  {
    hide Acceptable, Loaded, SnapshotOf, Inv, Durable, Sorted, Table;
    SavedPlaneLoads(s);
    RestartKeeps(s);
    RestartClosedForm(s);
  }

  // ----- Arbitrary files -----

  /** No lease recorded as assigned also sits in the queue. */
  ghost predicate NoAssignedQueued(p: Snapshot) {
    forall l :: l in p.leases && l.state == Assigned ==> l.id !in p.pending
  }

  /** Every completed lease carries the time of its completion. */
  ghost predicate CompletionsDated(p: Snapshot) {
    forall l :: l in p.leases && l.state == Completed ==> l.completedAt != ZERO_TIME
  }

  lemma LoadedQueueDistinct(p: Snapshot)
    requires Distinct(p.pending) && p.nextID >= 0
    ensures Distinct(Loaded(p).pending) <==> NoAssignedQueued(p)
  {
    hide Table;
    var tail := Sorted(AssignedIds(p.leases));
    var all := Loaded(p).pending;
    if NoAssignedQueued(p) {
      assert forall id :: id in p.pending ==> id !in tail;
      DistinctConcat(p.pending, tail);
    } else {
      var l :| l in p.leases && l.state == Assigned && l.id in p.pending;
      assert l.id in AssignedIds(p.leases);
      var i :| 0 <= i < |p.pending| && p.pending[i] == l.id;
      var j :| 0 <= j < |tail| && tail[j] == l.id;
      assert all[i] == p.pending[i] && all[|p.pending| + j] == tail[j];
    }
  }

  lemma LoadedQueueIsPending(p: Snapshot, id: string)
    requires Acceptable(p)
    ensures id in Loaded(p).pending <==> id in Loaded(p).leases && Loaded(p).leases[id].state == Pending
  {
    hide FieldsDurable, ValidWorkerID, LeaseSequence, Table, Sorted;
    var t, tail := Loaded(p), Sorted(AssignedIds(p.leases));
    TableLookup(p.version, p.leases);
    assert id in t.pending <==> id in p.pending || id in tail;
    if id in tail {
      var l :| l in p.leases && l.state == Assigned && l.id == id;
    } else if id in p.pending {
      assert Lists(p.leases, id);
      var l :| l in p.leases && l.id == id;
      assert LeaseAcceptable(p, l);
    }
    if id in t.leases && t.leases[id].state == Pending {
      var l :| l in p.leases && l.id == id;
      assert LeaseAcceptable(p, l);
      if l.state == Assigned {
        assert id in AssignedIds(p.leases);
      }
    }
  }

  lemma LoadedQueue(p: Snapshot)
    requires Acceptable(p)
    ensures Distinct(Loaded(p).pending) <==> NoAssignedQueued(p)
    ensures forall id :: id in Loaded(p).pending <==> id in Loaded(p).leases && Loaded(p).leases[id].state == Pending
  {
    hide Loaded, LeaseAcceptable;
    LoadedQueueDistinct(p);
    forall id ensures id in Loaded(p).pending <==> id in Loaded(p).leases && Loaded(p).leases[id].state == Pending {
      LoadedQueueIsPending(p, id);
    }
  }

  /**
   A loadable file gives a plane that satisfies the scheduler's invariant exactly when no
   assigned lease is queued: the loader does not look an assigned lease up in the queue.
   */
  lemma LoadedIsSoundIff(p: Snapshot)
    requires Acceptable(p)
    ensures Inv(Loaded(p)) <==> NoAssignedQueued(p)
  {
    hide LeaseAcceptable, Table, Sorted, LeaseNumber;
    var t := Loaded(p);
    LoadedQueue(p);
    forall id | id in t.leases
      ensures t.leases[id].id == id && LeaseNumber(id).Some? && 0 < LeaseNumber(id).value <= t.nextID
      ensures t.leases[id].state != Assigned
    {
      LoadedLease(p, id);
    }
  }

  lemma LoadedLease(p: Snapshot, id: string)
    requires Acceptable(p) && id in Loaded(p).leases
    ensures var l := Loaded(p).leases[id];
            l.id == id && l.state != Assigned && LeaseNumber(id).Some? && 0 < LeaseNumber(id).value <= p.nextID
  {
    hide FieldsDurable, ValidWorkerID, Table, Sorted;
    TableLookup(p.version, p.leases);
    assert Lists(p.leases, id);
    var l :| l in p.leases && l.id == id;
    assert LeaseAcceptable(p, l);
    SequenceIsNumber(id);
  }

  lemma RestoredAcceptable(p: Snapshot, q: Snapshot, l: Lease)
    requires LeaseAcceptable(p, l) && 1 <= p.version <= 3 && q.version == 3 && q.nextID == p.nextID
    requires Open(l) ==> l.id in q.pending
    requires Terminal(l) ==> l.id !in q.pending
    ensures LeaseAcceptable(q, Restored(p.version, l)) <==> (l.state == Completed ==> l.completedAt != ZERO_TIME)
  {
    assert !ValidWorkerID("");
    RestoredMarks(p, q, l);
  }

  lemma RestoredMarks(p: Snapshot, q: Snapshot, l: Lease)
    requires LeaseAcceptable(p, l) && 1 <= p.version <= 3 && q.version == 3 && q.nextID == p.nextID
    requires Open(l) ==> l.id in q.pending
    requires Terminal(l) ==> l.id !in q.pending
    requires !ValidWorkerID("")
    ensures LeaseAcceptable(q, Restored(p.version, l)) <==> (l.state == Completed ==> l.completedAt != ZERO_TIME)
  {
    hide LeaseSequence, ValidPlatform, Normalized, ValidDigest, ValidWorkerID;
  }

  /** The file's bytes load. */
  ghost predicate Loads(data: Bytes, codec: Codec) {
    |data| <= MAX_SNAPSHOT_BYTES && codec.decode(data).Some? && Acceptable(codec.decode(data).value)
  }

  /**
   Loading a file, saving the plane and loading again: this succeeds exactly when the rewritten
   file is within the size limit, no assigned lease was queued and every completed lease was
   dated.  A version 1 file whose completed leases have no date loads once, is rewritten as
   version 3, and is refused from then on.
   */
  lemma ReloadIff(data: Bytes, codec: Codec)
    requires Loads(data, codec)
    requires forall p :: codec.decode(codec.encode(p)) == Some(p)
    ensures var p := codec.decode(data).value;
            var again := codec.encode(SnapshotOf(Loaded(p)));
            Loads(again, codec) <==> |again| <= MAX_SNAPSHOT_BYTES && NoAssignedQueued(p) && CompletionsDated(p)
  {
    hide Acceptable, SnapshotOf, Loaded;
    AcceptableAgainIff(codec.decode(data).value);
  }

  lemma AcceptableAgainIff(p: Snapshot)
    requires Acceptable(p)
    ensures Acceptable(SnapshotOf(Loaded(p))) <==> NoAssignedQueued(p) && CompletionsDated(p)
  {
    hide LeaseAcceptable, FieldsDurable, Table, Sorted, Pick;
    var t := Loaded(p);
    var q := SnapshotOf(t);
    LoadedQueue(p);
    TableLookup(p.version, p.leases);
    SnapshotLists(t);
    ReloadedLeases(p, q);
    forall id | id in q.pending ensures Lists(q.leases, id) {
      assert t.leases[id] in q.leases;
    }
  }

  /** The rewritten leases are all acceptable exactly when the completions were dated. */
  lemma ReloadedLeases(p: Snapshot, q: Snapshot)
    requires Acceptable(p) && q == SnapshotOf(Loaded(p))
    ensures (forall m :: m in q.leases ==> LeaseAcceptable(q, m)) <==> CompletionsDated(p)
  {
    hide LeaseAcceptable, Loaded, SnapshotOf, Restored;
    assert forall m :: m in q.leases ==> exists l :: l in p.leases && m == Restored(p.version, l) by {
      SameLeases(p, q);
    }
    forall l | l in p.leases
      ensures Restored(p.version, l) in q.leases
      ensures LeaseAcceptable(q, Restored(p.version, l)) <==> (l.state == Completed ==> l.completedAt != ZERO_TIME)
    {
      ReloadedLease(p, q, l);
    }
  }

  lemma LoadedEntry(p: Snapshot, l: Lease)
    requires DistinctIds(p.leases) && p.nextID >= 0 && l in p.leases
    ensures l.id in Loaded(p).leases && Loaded(p).leases[l.id] == Restored(p.version, l)
    ensures Restored(p.version, l) in SnapshotOf(Loaded(p)).leases
  {
    hide Table, Sorted, Pick;
    TableLookup(p.version, p.leases);
    SnapshotLists(Loaded(p));
  }

  lemma ReloadedLease(p: Snapshot, q: Snapshot, l: Lease)
    requires Acceptable(p) && q == SnapshotOf(Loaded(p)) && l in p.leases
    ensures Restored(p.version, l) in q.leases
    ensures LeaseAcceptable(q, Restored(p.version, l)) <==> (l.state == Completed ==> l.completedAt != ZERO_TIME)
  {
    hide LeaseAcceptable, Table, Pick, Sorted, Distinct, FieldsDurable;
    LoadedEntry(p, l);
    LoadedQueueIsPending(p, l.id);
    KnownState(p, l);
    RestoredAcceptable(p, q, l);
  }

  lemma SameLeases(p: Snapshot, q: Snapshot)
    requires DistinctIds(p.leases) && p.nextID >= 0 && q == SnapshotOf(Loaded(p))
    ensures forall m :: m in q.leases ==> exists l :: l in p.leases && m == Restored(p.version, l)
  {
    hide Table, Sorted, Pick;
    TableLookup(p.version, p.leases);
    SnapshotLists(Loaded(p));
    forall m | m in q.leases ensures exists l :: l in p.leases && m == Restored(p.version, l) {
      assert Lists(p.leases, m.id);
      var l :| l in p.leases && l.id == m.id;
    }
  }

  lemma KnownState(p: Snapshot, l: Lease)
    requires LeaseAcceptable(p, l)
    ensures Open(l) || Terminal(l)
  {
  }

  /** A file that loads into a plane with a duplicated queue entry. */
  lemma QueuedAssignedExample() returns (p: Snapshot)
    ensures Acceptable(p) && !Inv(Loaded(p))
  {
    var l := NewLease("lease-1", Submission("x", "", [], "", "", 0), []).(state := Assigned, worker := "w", attempt := 1);
    p := Snapshot(3, 1, [l], ["lease-1"]);
    FirstLease();
    assert l in p.leases;
    assert Acceptable(p);
    assert !NoAssignedQueued(p);
    LoadedIsSoundIff(p);
  }

  /** The migration case: loads as version 1, cannot be loaded after one save. */
  lemma UndatedCompletionExample() returns (p: Snapshot)
    ensures Acceptable(p) && p.version == 1 && Inv(Loaded(p)) && !Acceptable(SnapshotOf(Loaded(p)))
  {
    var l := NewLease("lease-1", Submission("x", "", [], "", "", 0), []).(state := Completed, worker := "worker-old", attempt := 1, result := "done");
    p := Snapshot(1, 1, [l], []);
    FirstLease();
    assert l in p.leases;
    assert ValidWorkerID("worker-old");
    assert Acceptable(p);
    LoadedIsSoundIff(p);
    AcceptableAgainIff(p);
  }

  lemma FirstLease()
    ensures LeaseSequence("lease-1") == Some(1)
  {
    var t := "lease-1"[6..];
    assert t == "1" && t[0] == '1' && AllDigits(t);
    assert seq(|t|, i requires 0 <= i < |t| => DigitValue(t[i])) == [1];
    assert [1][..0] == [];
    assert Value([1]) == 1;
  }

  /** A save, then a load: if the file was replaced, refused only for size and otherwise exactly the restart step; if not, the old file. */
  method SaveThenLoad(plane: Control.ControlPlane, codec: Codec, path: string, file: Bytes, fault: Fault) returns (r: Result<State, LoadError>)
    requires Valid(plane.Value()) && plane.Value().nextID <= MAX_INT
    requires forall p :: codec.decode(codec.encode(p)) == Some(p)
    ensures path != "" && !fault.NotWritten? ==>
              && (r.Ok? <==> |codec.encode(SnapshotOf(plane.Value()))| <= MAX_SNAPSHOT_BYTES)
              && (r.Ok? ==> r.value == Restart(plane.Value()))
    ensures path == "" || fault.NotWritten? ==>
              && (r.Ok? <==> Loads(file, codec))
              && (r.Ok? ==> r.value == Loaded(codec.decode(file).value))
  {
    hide Valid, Acceptable, Loaded, Restart, SnapshotOf;
    var ok, data := Save(plane, codec, path, file, fault);
    SavedPlaneLoads(plane.Value());
    r := LoadControlPlane(data, codec);
  }

  /** What a snapshot holds: this version, the number, the queue, and every lease once, by identifier. */
  lemma SnapshotMeans(s: State)
    requires forall id :: id in s.leases ==> s.leases[id].id == id
    ensures var p := SnapshotOf(s);
            && p.version == 3 && p.nextID == s.nextID && p.pending == s.pending
            && |p.leases| == |s.leases| && (forall l :: l in p.leases <==> l.id in s.leases && s.leases[l.id] == l)
            && forall i, j :: 0 <= i < j < |p.leases| ==> Less(p.leases[i].id, p.leases[j].id)
  {
    hide Less;
    var p, ids := SnapshotOf(s), Sorted(s.leases.Keys);
    SnapshotLists(s);
    assert |s.leases| == |s.leases.Keys|;
    hide Sorted, SortedBy, Distinct;
    assert forall i :: 0 <= i < |ids| ==> ids[i] in ids;
    forall i, j | 0 <= i < j < |p.leases| ensures Less(p.leases[i].id, p.leases[j].id) {
      assert p.leases[i].id == ids[i] && p.leases[j].id == ids[j];
      PlaneMeaning.StrictlyBefore(ids, i, j);
    }
  }

  /**
   What becomes of a lease in an acceptable file: an assigned one is pending again, a completed
   one of version 1 without a completer gets its worker, and nothing else changes.
   */
  lemma LoadedMeans(p: Snapshot, l: Lease)
    requires Acceptable(p) && l in p.leases
    ensures l.id in Loaded(p).leases && Loaded(p).workers == map[] && Loaded(p).nextID == p.nextID && p.pending <= Loaded(p).pending
    ensures var m := Loaded(p).leases[l.id];
            if l.state == Assigned then m.state == Pending && m.worker == "" && m.(state := Assigned, worker := l.worker) == l
            else if p.version == 1 && l.state == Completed && l.completedBy == "" then m.completedBy == l.worker && m.(completedBy := "") == l
            else m == l
  {
    hide LeaseAcceptable;
    TableLookup(p.version, p.leases);
  }
}
