/** The control plane object: its fields change step by step under one lock, one method per call. */
module Control {
  import opened Wrappers
  import opened Sorting
  import opened Strings
  import opened Patterns
  import opened Plane
  import opened PlaneSafety
  import opened PlaneMeaning
  import Placement

  /** Refuse too many or malformed values; else drop repeats and sort. */
  method NormalizedTokens(values: seq<string>, pattern: string -> bool, limit: nat) returns (r: Result<seq<string>, Refusal>)
    ensures r.Ok? <==> NormalTokens(values, pattern, limit).Some?
    ensures r.Ok? ==> r.value == NormalTokens(values, pattern, limit).value
    ensures r.Ok? <==> |values| <= limit && forall v :: v in values ==> pattern(v)
    ensures r.Ok? ==> SortedBy(Less, r.value) && Distinct(r.value) && forall v :: v in r.value <==> v in values
  {
    if |values| > limit {
      return Err(InvalidArgument);
    }
    var seen: set<string> := {};
    var result: seq<string> := [];
    for i := 0 to |values|
      invariant forall k :: 0 <= k < i ==> pattern(values[k])
      invariant seen == set x | x in values[..i]
      invariant Distinct(result) && forall x :: x in result <==> x in seen
    {
      var value := values[i];
      if !pattern(value) {
        assert value in values;
        return Err(InvalidArgument);
      }
      assert values[..i + 1] == values[..i] + [value];
      if value !in seen {
        seen := seen + {value};
        DistinctAppend(result, value);
        result := result + [value];
      }
    }
    assert values[..|values|] == values;
    SortStringsOfSet(result, seen);
    return Ok(SortStrings(result));
  }

  /** The loop of the requeueing: visit the lease table in any order and collect the worker's leases. */
  method TakeBack(leases: map<string, Lease>, worker: string) returns (table: map<string, Lease>, reclaimed: seq<string>)
    ensures table == Reclaimed(leases, {worker})
    ensures Distinct(reclaimed) && forall id :: id in reclaimed <==> id in leases && HeldBy(leases[id], worker)
  {
    table, reclaimed := leases, [];
    var unseen := leases.Keys;
    while unseen != {}
      invariant unseen <= leases.Keys && table.Keys == leases.Keys
      invariant forall id :: id in leases ==>
                  table[id] == if id in reclaimed then BackToPending(leases[id]) else leases[id]
      invariant Distinct(reclaimed)
      invariant forall id :: id in reclaimed <==> id in leases && HeldBy(leases[id], worker) && id !in unseen
      decreases unseen
    {
      var id :| id in unseen;
      unseen := unseen - {id};
      if table[id].state == Assigned && table[id].worker == worker {
        DistinctAppend(reclaimed, id);
        table := table[id := table[id].(state := Pending, worker := "")];
        reclaimed := reclaimed + [id];
      }
    }
  }

  lemma OneSeen(held: set<string>, unseen: set<string>, id: string)
    requires id in unseen
    ensures |held - (unseen - {id})| == |held - unseen| + if id in held then 1 else 0
  {
    assert held - (unseen - {id}) == if id in held then held - unseen + {id} else held - unseen;
  }

  /** How many leases of the table the worker holds. */
  method CountActive(leases: map<string, Lease>, worker: string) returns (active: nat)
    ensures active == |set id | id in leases && HeldBy(leases[id], worker)|
  {
    active := 0;
    var unseen := leases.Keys;
    ghost var held := set id | id in leases && HeldBy(leases[id], worker);
    while unseen != {}
      invariant unseen <= leases.Keys
      invariant active == |held - unseen|
      decreases unseen
    {
      var id :| id in unseen;
      OneSeen(held, unseen, id);
      unseen := unseen - {id};
      if leases[id].state == Assigned && leases[id].worker == worker {
        active := active + 1;
      }
    }
    assert held - unseen == held;
  }

  class ControlPlane {
    const heartbeatTimeout: int
    var workers: map<string, WorkerStatus>
    var leases: map<string, Lease>
    var pending: seq<string>
    var nextID: nat

    constructor (heartbeatTimeout: int)
      ensures this.heartbeatTimeout == heartbeatTimeout
      ensures Value() == EMPTY && Valid(Value())
    {
      this.heartbeatTimeout := heartbeatTimeout;
      workers, leases, pending, nextID := map[], map[], [], 0;
    }

    /** The whole state as a value. */
    ghost function Value(): State
      reads this
    {
      State(workers, leases, pending, nextID)
    }

    method RegisterWorkerWithOptions(id: string, registration: Registration, now: Instant) returns (r: Result<(), Refusal>)
      requires Valid(Value())
      modifies this
      ensures Valid(Value())
      ensures r.Ok? <==> RegistrationAccepted(id, registration)
      ensures Value() == if r.Ok? then Register(old(Value()), id, registration, now) else old(Value())
    {
      if !ValidWorkerID(id) {
        return Err(InvalidArgument);
      }
      if !ValidPlatform(registration.platform) {
        return Err(InvalidArgument);
      }
      var capabilities := NormalizedTokens(registration.capabilities, ValidCapability, 64);
      if capabilities.Err? {
        return Err(capabilities.error);
      }
      var content := NormalizedTokens(registration.cachedContent, ValidDigest, 4096);
      if content.Err? {
        return Err(content.error);
      }
      if registration.maxParallel <= 0 || registration.maxParallel > 1024 {
        return Err(InvalidArgument);
      }
      if registration.publicKey != "" && !registration.keyWellFormed {
        return Err(InvalidArgument);
      }
      RegisterKeeps(Value(), id, registration, now);
      RegisterDurable(Value(), id, registration, now);
      Admit(id, registration, capabilities.value, content.value, now);
      return Ok(());
    }

    /** The part of a registration that runs under the lock. */
    method Admit(id: string, registration: Registration, capabilities: seq<string>, content: seq<string>, now: Instant)
      modifies this
      ensures var old_ := old(Value());
              var since := if id in old_.workers then old_.workers[id].registeredAt else now;
              var w := WorkerStatus(registration.platform, capabilities, content, registration.maxParallel,
                                    since, now, registration.publicKey);
              var updated := old_.(workers := old_.workers[id := w]);
              Value() == if id in old_.workers then Requeue(updated, id) else updated
    {
      if id in workers {
        workers := workers[id := workers[id].(
          platform := registration.platform, capabilities := capabilities, cachedContent := content,
          maxParallel := registration.maxParallel, publicKey := registration.publicKey, lastHeartbeat := now)];
        RequeueLeasesHeldBy(id);
        return;
      }
      workers := workers[id := WorkerStatus(registration.platform, capabilities, content,
                                            registration.maxParallel, now, now, registration.publicKey)];
    }

    /** Every lease of the worker goes back to pending; their identifiers join the queue in order. */
    method RequeueLeasesHeldBy(worker: string)
      modifies this`leases, this`pending
      ensures Value() == Requeue(old(Value()), worker)
    {
      hide Reclaimed;
      ghost var held := Held(Value(), worker);
      var reclaimed;
      leases, reclaimed := TakeBack(leases, worker);
      assert (set id | id in reclaimed) == held;
      SortStringsOfSet(reclaimed, held);
      pending := pending + SortStrings(reclaimed);
    }

    method Heartbeat(worker: string, now: Instant) returns (r: Result<(), Refusal>)
      requires Valid(Value())
      modifies this`workers
      ensures Valid(Value())
      ensures r.Ok? <==> ValidWorkerID(worker) && worker in old(workers)
      ensures Value() == if r.Ok? then Plane.Heartbeat(old(Value()), worker, now) else old(Value())
    {
      if !ValidWorkerID(worker) {
        return Err(InvalidArgument);
      }
      if worker !in workers {
        return Err(UnknownWorker);
      }
      HeartbeatKeeps(Value(), worker, now);
      workers := workers[worker := workers[worker].(lastHeartbeat := now)];
      return Ok(());
    }

    method SubmitLeaseWithTenant(m: Submission) returns (r: Result<string, Refusal>)
      requires Valid(Value())
      modifies this
      ensures Valid(Value())
      ensures r.Ok? <==> SubmissionAccepted(m)
      ensures r.Ok? ==> r.value !in old(leases) && r.value in leases && leases[r.value].tenant == m.tenant
      ensures r.Ok? ==> r.value == LeaseId(old(nextID) + 1)
      ensures Value() == if r.Ok? then Submit(old(Value()), m) else old(Value())
      ensures r.Ok? ==> WasSubmitted(old(Value()), Value(), m, r.value)
    {
      hide Inv, Durable, ValidPlatform, ValidDigest, Blank, NormalTokens, LeaseId;
      if m.payload == "" || Blank(m.payload) {
        return Err(InvalidArgument);
      }
      if |m.payload| > MAX_OPAQUE {
        return Err(InvalidArgument);
      }
      if m.requiredPlatform != "" && !ValidPlatform(m.requiredPlatform) {
        return Err(InvalidArgument);
      }
      var capabilities := NormalizedTokens(m.requiredCapabilities, ValidCapability, 64);
      if capabilities.Err? {
        return Err(capabilities.error);
      }
      if m.preferredContent != "" && !ValidDigest(m.preferredContent) {
        return Err(InvalidArgument);
      }
      if |m.tenant| > 256 {
        return Err(InvalidArgument);
      }
      SubmitKeeps(Value(), m);
      SubmitDurable(Value(), m);
      assert WasSubmitted(Value(), Submit(Value(), m), m, LeaseId(nextID + 1)) by { SubmitWrites(Value(), m); }
      hide WasSubmitted;
      nextID := nextID + 1;
      var id := LeaseId(nextID);
      leases := leases[id := NewLease(id, m, capabilities.value)];
      pending := pending + [id];
      return Ok(id);
    }

    /**
     Assign a pending lease that suits the worker: the highest priority, then content at hand, then
     age.  None is given exactly at the worker's limit or if no pending lease suits it.
     */
    method NextLease(worker: string, now: Instant) returns (r: Result<Option<Lease>, Refusal>)
      requires Valid(Value())
      modifies this`leases, this`pending
      ensures Valid(Value())
      ensures r.Ok? <==> worker in workers
      ensures r.Ok? && r.value.Some? ==>
                exists i: nat :: && FirstChoice(old(Value()), workers[worker], i)
                                 && WasAssigned(old(Value()), Value(), worker, i, now)
                                 && IsNext(old(Value()), worker, i) && Value() == Assign(old(Value()), worker, i, now)
                                 && r.value.value == leases[old(pending)[i]]
      ensures r.Ok? && r.value.None? <==>
                && worker in workers
                && (|| HeldCount(old(leases), worker) >= workers[worker].maxParallel
                    || forall k :: 0 <= k < |old(pending)| ==> !Suits(old(leases)[old(pending)[k]], workers[worker]))
      ensures !(r.Ok? && r.value.Some?) ==> Value() == old(Value())
      ensures r.Ok? && r.value.None? ==> forall i :: !IsNext(old(Value()), worker, i)
    {
      hide Durable, IdsIssued, HoldersRegistered, WithinLimits, Suits, FirstChoice, WasAssigned, Placement.IsEligible;
      if worker !in workers {
        return Err(UnknownWorker);
      }
      var active := CountActive(leases, worker);
      assert active == |Held(Value(), worker)|;
      SameCount(Value(), worker);
      if active >= workers[worker].maxParallel {
        return Ok(None);
      }
      var candidates: seq<Placement.Candidate> := [];
      for i := 0 to |pending|
        invariant |candidates| == i
        invariant forall k :: 0 <= k < i ==> candidates[k] == CandidateOf(leases[pending[k]])
      {
        assert pending[i] in pending;
        candidates := candidates + [CandidateOf(leases[pending[i]])];
      }
      assert candidates == Candidates(Value());
      forall k | 0 <= k < |pending|
        ensures Placement.IsEligible(PlacementWorker(workers[worker]), candidates[k]) <==> Suits(leases[pending[k]], workers[worker])
      {
        EligibleSuits(Value(), workers[worker], k);
      }
      var selected, ok := Placement.Select(PlacementWorker(workers[worker]), candidates);
      if ok {
        assert IsNext(Value(), worker, selected);
        NextIsFirstChoice(Value(), worker, selected);
        AssignMeans(Value(), worker, selected, now);
        AssignKeeps(Value(), worker, selected, now);
        AssignDurable(Value(), worker, selected, now);
        var leaseID := pending[selected];
        var lease := leases[leaseID];
        pending := pending[..selected] + pending[selected + 1..];
        lease := lease.(state := Assigned, worker := worker, attempt := lease.attempt + 1, assignedAt := now);
        leases := leases[leaseID := lease];
        return Ok(Some(lease));
      }
      return Ok(None);
    }

    /** Commit a result only from the lease's current worker. */
    method CompleteLease(worker: string, leaseID: string, result: string, now: Instant) returns (r: Result<(), Refusal>)
      requires Valid(Value())
      modifies this`leases
      ensures Valid(Value())
      ensures r.Ok? <==> CompletionWellFormed(worker, leaseID, result) && CanComplete(old(Value()), worker, leaseID)
      ensures Value() == if r.Ok? then Complete(old(Value()), worker, leaseID, result, now) else old(Value())
      ensures r.Ok? ==> Committed(old(Value()), Value(), worker, leaseID, result, now)
      ensures r.Err? && CompletionWellFormed(worker, leaseID, result) ==>
                r.error == if leaseID in old(leases) then NotAssignedToWorker else UnknownLease
    {
      if !ValidWorkerID(worker) {
        return Err(InvalidArgument);
      }
      if leaseID == "" || |leaseID| > 128 {
        return Err(InvalidArgument);
      }
      if |result| > MAX_OPAQUE {
        return Err(InvalidArgument);
      }
      if leaseID !in leases {
        return Err(UnknownLease);
      }
      var lease := leases[leaseID];
      if lease.state != Assigned || lease.worker != worker {
        return Err(NotAssignedToWorker);
      }
      CompleteKeeps(Value(), worker, leaseID, result, now);
      CompleteDurable(Value(), worker, leaseID, result, now);
      CompleteMeans(Value(), worker, leaseID, result, now);
      hide Committed;
      leases := leases[leaseID := lease.(state := Completed, result := result, completedBy := worker, completedAt := now)];
      return Ok(());
    }

    /** Cancel open work; replaying a cancellation answers `false` and changes nothing. */
    method CancelLease(actor: string, leaseID: string, now: Instant) returns (r: Result<bool, Refusal>)
      requires Valid(Value())
      modifies this`leases, this`pending
      ensures Valid(Value())
      ensures r == Ok(true) <==> ValidWorkerID(actor) && 0 < |leaseID| <= 128 && CanCancel(old(Value()), leaseID)
      ensures r == Ok(false) <==> ValidWorkerID(actor) && 0 < |leaseID| <= 128 &&
                                  leaseID in old(leases) && old(leases)[leaseID].state == Canceled
      ensures Value() == if r == Ok(true) then Cancel(old(Value()), actor, leaseID, now) else old(Value())
      ensures r == Ok(true) ==> WasCanceled(old(Value()), Value(), actor, leaseID, now)
    {
      if !ValidWorkerID(actor) {
        return Err(InvalidArgument);
      }
      if leaseID == "" || |leaseID| > 128 {
        return Err(InvalidArgument);
      }
      if leaseID !in leases {
        return Err(UnknownLease);
      }
      var lease := leases[leaseID];
      if lease.state == Canceled {
        return Ok(false);
      }
      if lease.state == Completed {
        return Err(AlreadyCompleted);
      }
      if lease.state != Pending && lease.state != Assigned {
        return Err(Internal);
      }
      CancelKeeps(Value(), actor, leaseID, now);
      CancelDurable(Value(), actor, leaseID, now);
      CancelWrites(Value(), actor, leaseID, now);
      hide WasCanceled;
      if lease.state == Pending {
        RemoveFromQueue(leaseID);
      }
      leases := leases[leaseID := lease.(state := Canceled, canceledBy := actor, canceledAt := now)];
      return Ok(true);
    }

    /** Drop the first occurrence of `leaseID` from the queue. */
    method RemoveFromQueue(leaseID: string)
      modifies this`pending
      ensures pending == Without(old(pending), leaseID)
    {
      hide Without;
      WithoutFrom(pending, leaseID, 0);
      for index := 0 to |pending|
        invariant pending == old(pending)
        invariant Without(pending, leaseID) == pending[..index] + Without(pending[index..], leaseID)
      {
        WithoutFrom(pending, leaseID, index);
        if pending[index] == leaseID {
          pending := pending[..index] + pending[index + 1..];
          return;
        }
      }
      WithoutFrom(pending, leaseID, |pending|);
    }

    /** Forget every worker that has not reported in time and requeue its leases. */
    method Reap(now: int) returns (reaped: seq<string>)
      requires Valid(Value())
      modifies this
      ensures Valid(Value())
      ensures Value() == Plane.Reap(old(Value()), now, heartbeatTimeout)
      ensures reaped == Sorted(HeldByAny(old(Value()), Lost(old(Value()), now, heartbeatTimeout)))
    {
      hide Inv, Durable, Reclaimed, HeldByAny, QueueExtended, Lost, RequeueEach, SortedBy, Distinct, Sorted, SortStrings;
      ghost var s := Value();
      ghost var gone := Lost(s, now, heartbeatTimeout);
      ReapKeeps(s, now, heartbeatTimeout);
      ReapClosedForm(s, now, heartbeatTimeout);
      var lost := ForgetExpired(now);
      if |lost| == 0 {
        assert gone == {};
        NothingLost(s, now, heartbeatTimeout);
        return [];
      }
      SortStringsOfSet(lost, gone);
      lost := SortStrings(lost);
      var before := |pending|;
      RequeueAll(lost);
      assert Value() == Plane.Reap(s, now, heartbeatTimeout);
      SortedTail(s, Value(), HeldByAny(s, gone));
      reaped := pending[before..];
      reaped := SortStrings(reaped);
    }

    /** Delete the workers whose last heartbeat is too old and list them. */
    method ForgetExpired(now: int) returns (lost: seq<string>)
      modifies this`workers
      ensures Distinct(lost) && (set id | id in lost) == Lost(old(Value()), now, heartbeatTimeout)
      ensures workers == old(workers) - Lost(old(Value()), now, heartbeatTimeout)
    {
      ghost var gone := Lost(Value(), now, heartbeatTimeout);
      lost := [];
      var unseen := workers.Keys;
      while unseen != {}
        invariant unseen <= workers.Keys
        invariant forall id :: id in workers ==> id in old(workers) && workers[id] == old(workers)[id]
        invariant forall id :: id in old(workers) ==> (id in workers <==> id in unseen || id !in gone)
        invariant Distinct(lost)
        invariant forall id :: id in lost <==> id in gone && id !in unseen
        decreases unseen
      {
        var id :| id in unseen;
        unseen := unseen - {id};
        if now - workers[id].lastHeartbeat > heartbeatTimeout {
          DistinctAppend(lost, id);
          lost := lost + [id];
          workers := workers - {id};
        }
      }
    }

    method RequeueAll(lost: seq<string>)
      modifies this`leases, this`pending
      ensures Value() == RequeueEach(old(Value()), lost)
    {
      for i := 0 to |lost|
        invariant workers == old(workers) && nextID == old(nextID)
        invariant RequeueEach(old(Value()), lost) == RequeueEach(Value(), lost[i..])
      {
        assert lost[i..][0] == lost[i] && lost[i..][1..] == lost[i + 1..];
        RequeueLeasesHeldBy(lost[i]);
      }
    }
  }

  /** One turn of the search for an element to drop, and its two ends. */
  lemma WithoutFrom(xs: seq<string>, x: string, i: nat)
    requires i <= |xs|
    ensures i == 0 ==> Without(xs, x) == xs[..i] + Without(xs[i..], x)
    ensures i == |xs| ==> xs[..i] + Without(xs[i..], x) == xs
    ensures i < |xs| ==> xs[..i] + Without(xs[i..], x) ==
                         if xs[i] == x then xs[..i] + xs[i + 1..] else xs[..i + 1] + Without(xs[i + 1..], x)
  {
    if i < |xs| {
      assert xs[i..][0] == xs[i] && xs[i..][1..] == xs[i + 1..];
      assert xs[..i + 1] == xs[..i] + [xs[i]];
    }
    assert xs[0..] == xs;
  }

  /** The requeued part of the queue, sorted, is the sorted list of what was requeued. */
  lemma SortedTail(s: State, t: State, ids: set<string>)
    requires QueueExtended(s, t, ids)
    ensures |s.pending| <= |t.pending| && SortStrings(t.pending[|s.pending|..]) == Sorted(ids)
  {
    SortStringsOfSet(t.pending[|s.pending|..], ids);
  }

  lemma NothingLost(s: State, now: int, timeout: int)
    requires Lost(s, now, timeout) == {}
    ensures Plane.Reap(s, now, timeout) == s
    ensures Sorted(HeldByAny(s, Lost(s, now, timeout))) == []
  {
    assert Sorted({}) == [];
    assert s.workers - {} == s.workers;
    assert HeldByAny(s, {}) == {};
  }
}
