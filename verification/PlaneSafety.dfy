/** Every step of the scheduler keeps its invariant. */
module PlaneSafety {
  import opened Wrappers
  import opened Sorting
  import opened Strings
  import opened Patterns
  import opened Plane
  import Placement

  /** The identifier `Submit` issues is not in use. */
  lemma FreshId(s: State)
    requires IdsIssued(s)
    ensures LeaseId(s.nextID + 1) !in s.leases
  {
    NumberOfLeaseId(s.nextID + 1);
  }

  lemma TokensNormalized(values: seq<string>)
    requires NormalTokens(values, ValidCapability, 64).Some?
    ensures Normalized(NormalTokens(values, ValidCapability, 64).value)
  {
    var s := set v | v in values;
    SetOfSeqSize(values);
    assert forall c :: c in Sorted(s) ==> c in values;
  }

  lemma {:induction false} SetOfSeqSize<T>(xs: seq<T>)
    ensures |set x | x in xs| <= |xs|
  {
    if xs != [] {
      SetOfSeqSize(xs[1..]);
      assert (set x | x in xs) == {xs[0]} + (set x | x in xs[1..]);
    }
  }

  lemma RequeueKeeps(s: State, t: State, ws: set<string>)
    requires QueueIsPending(s) && IdsIssued(s)
    requires forall id :: id in s.leases && s.leases[id].state == Assigned ==>
               s.leases[id].worker in t.workers || s.leases[id].worker in ws
    requires forall w :: w in t.workers && w !in ws ==> |Held(s, w)| <= t.workers[w].maxParallel
    requires WorkersWellFormed(t)
    requires t.leases == Reclaimed(s.leases, ws) && t.nextID == s.nextID
    requires QueueExtended(s, t, HeldByAny(s, ws))
    ensures Inv(t)
  {
    ExtendedQueueIsPending(s, t, ws);
    forall w | w in t.workers ensures |Held(t, w)| <= t.workers[w].maxParallel {
      ReclaimedHeld(s, t, ws, w);
    }
  }

  ghost predicate WorkerWellFormed(w: WorkerStatus) {
    1 <= w.maxParallel <= 1024 && Placement.WellFormed(PlacementWorker(w))
  }

  lemma NewWorkerKeeps(s: State, id: string, w: WorkerStatus)
    requires Inv(s) && id !in s.workers && WorkerWellFormed(w)
    ensures Inv(s.(workers := s.workers[id := w]))
  {
    assert Held(s, id) == {};
    WorkersOnly(s, s.(workers := s.workers[id := w]));
  }

  lemma ReturningWorkerKeeps(s: State, id: string, w: WorkerStatus)
    requires Inv(s) && id in s.workers && WorkerWellFormed(w)
    ensures Inv(Requeue(s.(workers := s.workers[id := w]), id))
  {
    var updated := s.(workers := s.workers[id := w]);
    assert Held(updated, id) == Held(s, id) == HeldByAny(s, {id});
    RequeueExtends(updated, id);
    assert QueueExtended(s, Requeue(updated, id), HeldByAny(s, {id}));
    RequeueKeeps(s, Requeue(updated, id), {id});
  }

  lemma RegisterKeeps(s: State, id: string, r: Registration, now: Instant)
    requires Inv(s) && RegistrationAccepted(id, r)
    ensures Inv(Register(s, id, r, now))
  {
    var w := Register(s, id, r, now).workers[id];
    if id in s.workers {
      ReturningWorkerKeeps(s, id, w);
    } else {
      NewWorkerKeeps(s, id, w);
    }
  }

  /** A step that changes no lease and no queue. */
  lemma WorkersOnly(s: State, t: State)
    requires Inv(s) && t == s.(workers := t.workers) && s.workers.Keys <= t.workers.Keys
    requires WorkersWellFormed(t)
    requires forall w :: w in t.workers ==> |Held(s, w)| <= t.workers[w].maxParallel
    ensures Inv(t)
  {
    assert forall w :: Held(t, w) == Held(s, w);
  }

  /** A step that rewrites one lease into a state that is not assigned, or adds one. */
  lemma OneLease(s: State, t: State, id: string, l: Lease)
    requires Inv(s) && t.leases == s.leases[id := l] && t.workers == s.workers
    requires l.state != Assigned
    ensures HoldersRegistered(t) && WithinLimits(t)
  {
    forall w | w in t.workers ensures |Held(t, w)| <= t.workers[w].maxParallel {
      assert Held(t, w) <= Held(s, w);
      SubsetSize(Held(t, w), Held(s, w));
    }
  }

  /** One lease gets a durable value, the others keep theirs. */
  lemma OneLeaseDurable(s: State, t: State, id: string, l: Lease)
    requires t.leases == s.leases[id := l]
    requires FieldsDurable(l) && MarksDurable(l)
    ensures Durable(s) ==> Durable(t)
  {
  }

  /** Going back to pending keeps every lease readable. */
  lemma ReclaimedDurable(s: State, t: State, ws: set<string>)
    requires t.leases == Reclaimed(s.leases, ws)
    ensures Durable(s) ==> Durable(t)
  {
    if Durable(s) {
      forall id | id in t.leases ensures FieldsDurable(t.leases[id]) && MarksDurable(t.leases[id]) {
        assert FieldsDurable(s.leases[id]) && MarksDurable(s.leases[id]);
        SameFields(s.leases[id], t.leases[id]);
      }
    }
  }

  lemma SameFields(l: Lease, m: Lease)
    requires m.payload == l.payload && m.requiredPlatform == l.requiredPlatform
    requires m.requiredCapabilities == l.requiredCapabilities && m.preferredContent == l.preferredContent
    requires FieldsDurable(l) && |m.result| <= MAX_OPAQUE
    ensures FieldsDurable(m)
  {
  }

  lemma RegisterDurable(s: State, id: string, r: Registration, now: Instant)
    requires RegistrationAccepted(id, r)
    ensures Durable(s) ==> Durable(Register(s, id, r, now))
  {
    if id in s.workers {
      ReclaimedDurable(s, Register(s, id, r, now), {id});
    }
  }

  lemma HeartbeatKeeps(s: State, worker: string, now: Instant)
    requires Inv(s) && worker in s.workers
    ensures Inv(Heartbeat(s, worker, now))
    ensures Durable(s) ==> Durable(Heartbeat(s, worker, now))
  {
    WorkersOnly(s, Heartbeat(s, worker, now));
  }

  lemma SubmitKeeps(s: State, m: Submission)
    requires Inv(s) && SubmissionAccepted(m)
    ensures LeaseId(s.nextID + 1) !in s.leases
    ensures Inv(Submit(s, m))
  {
    hide NormalTokens, LeaseNumber, LeaseId, SubmissionAccepted, Placement.WellFormed, WithinLimits, HoldersRegistered;
    var t, id := Submit(s, m), LeaseId(s.nextID + 1);
    FreshId(s);
    assert QueueIsPending(t) by {
      hide IdsIssued, WorkersWellFormed;
      DistinctAppend(s.pending, id);
    }
    assert IdsIssued(t) by {
      NumberOfLeaseId(s.nextID + 1);
    }
    OneLease(s, t, id, t.leases[id]);
  }

  lemma SubmitDurable(s: State, m: Submission)
    requires SubmissionAccepted(m)
    ensures Durable(s) ==> Durable(Submit(s, m))
  {
    var t, id := Submit(s, m), LeaseId(s.nextID + 1);
    TokensNormalized(m.requiredCapabilities);
    OneLeaseDurable(s, t, id, t.leases[id]);
  }

  lemma WithoutIndexMembers<T>(xs: seq<T>, i: nat)
    requires i < |xs| && Distinct(xs)
    ensures Distinct(WithoutIndex(xs, i))
    ensures forall x :: x in WithoutIndex(xs, i) <==> x in xs && x != xs[i]
  {
    var ys := WithoutIndex(xs, i);
    forall x ensures x in ys <==> x in xs && x != xs[i] {
      if x in xs && x != xs[i] {
        var k :| 0 <= k < |xs| && xs[k] == x;
        assert if k < i then ys[k] == x else ys[k - 1] == x;
      }
    }
  }

  lemma AssignKeeps(s: State, worker: string, i: nat, now: Instant)
    requires Inv(s) && worker in s.workers && IsNext(s, worker, i)
    ensures Inv(Assign(s, worker, i, now))
  {
    hide Placement.WellFormed, Placement.IsEligible, Placement.Preferred, WithoutIndex, LeaseNumber, PlacementWorker;
    var t, id := Assign(s, worker, i, now), s.pending[i];
    assert s.leases[id].state == Pending;
    assert QueueIsPending(t) by {
      hide IdsIssued, WithinLimits, HoldersRegistered, WorkersWellFormed, IsNext, Distinct;
      WithoutIndexMembers(s.pending, i);
    }
    assert IdsIssued(t) && HoldersRegistered(t) by {
      hide WithinLimits, WorkersWellFormed, IsNext, QueueIsPending;
    }
    assert WithinLimits(t) by {
      hide IdsIssued, HoldersRegistered, WorkersWellFormed;
      AssignHeld(s, worker, i, now);
    }
  }

  lemma AssignHeld(s: State, worker: string, i: nat, now: Instant)
    requires QueueIsPending(s) && i < |s.pending|
    ensures Held(Assign(s, worker, i, now), worker) == Held(s, worker) + {s.pending[i]}
    ensures forall w :: w != worker ==> Held(Assign(s, worker, i, now), w) == Held(s, w)
  {
    var t, id := Assign(s, worker, i, now), s.pending[i];
    assert s.leases[id].state == Pending;
    forall w | w != worker ensures Held(t, w) == Held(s, w) {
    }
  }

  lemma AssignDurable(s: State, worker: string, i: nat, now: Instant)
    requires QueueIsPending(s) && i < |s.pending|
    ensures Durable(s) ==> Durable(Assign(s, worker, i, now))
  {
    var t, id := Assign(s, worker, i, now), s.pending[i];
    if Durable(s) {
      assert FieldsDurable(s.leases[id]) && MarksDurable(s.leases[id]);
      SameFields(s.leases[id], t.leases[id]);
      OneLeaseDurable(s, t, id, t.leases[id]);
    }
  }

  lemma CompleteKeeps(s: State, worker: string, lease: string, result: string, now: Instant)
    requires Inv(s) && CanComplete(s, worker, lease)
    ensures Inv(Complete(s, worker, lease, result, now))
  {
    var t := Complete(s, worker, lease, result, now);
    OneLease(s, t, lease, t.leases[lease]);
  }

  lemma CompleteDurable(s: State, worker: string, lease: string, result: string, now: Instant)
    requires CanComplete(s, worker, lease) && CompletionWellFormed(worker, lease, result)
    ensures Durable(s) ==> Durable(Complete(s, worker, lease, result, now))
  {
    var t := Complete(s, worker, lease, result, now);
    if Durable(s) {
      assert FieldsDurable(s.leases[lease]) && MarksDurable(s.leases[lease]);
      SameFields(s.leases[lease], t.leases[lease]);
      OneLeaseDurable(s, t, lease, t.leases[lease]);
    }
  }

  lemma {:induction false} WithoutMembers(xs: seq<string>, x: string)
    requires Distinct(xs)
    ensures Distinct(Without(xs, x))
    ensures forall y :: y in Without(xs, x) <==> y in xs && y != x
  {
    if xs != [] {
      assert xs == [xs[0]] + xs[1..];
      WithoutMembers(xs[1..], x);
      if xs[0] != x {
        DistinctConcat([xs[0]], Without(xs[1..], x));
      }
    }
  }

  lemma CancelKeeps(s: State, actor: string, lease: string, now: Instant)
    requires Inv(s) && CanCancel(s, lease)
    ensures Inv(Cancel(s, actor, lease, now))
  {
    var t := Cancel(s, actor, lease, now);
    WithoutMembers(s.pending, lease);
    OneLease(s, t, lease, t.leases[lease]);
  }

  lemma CancelDurable(s: State, actor: string, lease: string, now: Instant)
    requires CanCancel(s, lease) && ValidWorkerID(actor)
    ensures Durable(s) ==> Durable(Cancel(s, actor, lease, now))
  {
    var t := Cancel(s, actor, lease, now);
    if Durable(s) {
      assert FieldsDurable(s.leases[lease]) && MarksDurable(s.leases[lease]);
      SameFields(s.leases[lease], t.leases[lease]);
      OneLeaseDurable(s, t, lease, t.leases[lease]);
    }
  }

  lemma SameHeld(s: State, t: State, ws: set<string>)
    requires t.leases == s.leases
    ensures HeldByAny(t, ws) == HeldByAny(s, ws)
  {
  }

  /** Reaping in closed form: which leases come back, in which part of the queue. */
  lemma ReapClosedForm(s: State, now: int, timeout: int)
    ensures var lost := Lost(s, now, timeout);
            var t := Reap(s, now, timeout);
            && t.workers == s.workers - lost && t.nextID == s.nextID
            && t.leases == Reclaimed(s.leases, lost)
            && QueueExtended(s, t, HeldByAny(s, lost))
  {
    hide Sorted, Distinct, SortedBy, Reclaimed, HeldByAny, RequeueEach;
    var lost := Lost(s, now, timeout);
    var forgotten := s.(workers := s.workers - lost);
    assert (set w | w in Sorted(lost)) == lost;
    RequeueEachClosedForm(forgotten, Sorted(lost));
    SameHeld(s, forgotten, lost);
  }

  lemma ReapKeeps(s: State, now: int, timeout: int)
    requires Inv(s)
    ensures Inv(Reap(s, now, timeout))
    ensures Durable(s) ==> Durable(Reap(s, now, timeout))
  {
    ReapClosedForm(s, now, timeout);
    RequeueKeeps(s, Reap(s, now, timeout), Lost(s, now, timeout));
    ReclaimedDurable(s, Reap(s, now, timeout), Lost(s, now, timeout));
  }

  /** The workers that hold something. */
  ghost function BusyWorkers(s: State): set<string> {
    set id | id in AllAssigned(s) :: s.leases[id].worker
  }

  /** A restart gives back every assigned lease: it is the reclaiming of all holders. */
  lemma RestartClosedForm(s: State)
    ensures Restart(s).leases == Reclaimed(s.leases, BusyWorkers(s))
    ensures HeldByAny(s, BusyWorkers(s)) == AllAssigned(s)
    ensures QueueExtended(s, Restart(s), AllAssigned(s))
  {
    hide Reclaimed, HeldByAny, AllAssigned, QueueExtended, Restart, BusyWorkers;
    RestartExtends(s);
    HoldersAreBusy(s);
    EveryHolderReclaimed(s, BusyWorkers(s));
  }

  lemma RestartExtends(s: State)
    ensures QueueExtended(s, Restart(s), AllAssigned(s))
  {
    hide AllAssigned, Sorted, SortedBy, Distinct;
    var ids := AllAssigned(s);
    assert Restart(s).pending == s.pending + Sorted(ids);
    assert (s.pending + Sorted(ids))[|s.pending|..] == Sorted(ids);
  }

  lemma HoldersAreBusy(s: State)
    ensures forall id :: id in s.leases && s.leases[id].state == Assigned ==> s.leases[id].worker in BusyWorkers(s)
  {
    forall id | id in s.leases && s.leases[id].state == Assigned ensures s.leases[id].worker in BusyWorkers(s) {
      assert id in AllAssigned(s);
    }
  }

  lemma RestartKeeps(s: State)
    requires Inv(s)
    ensures Inv(Restart(s))
    ensures Durable(s) ==> Durable(Restart(s))
  {
    hide QueueExtended, Reclaimed, HeldByAny, AllAssigned, BusyWorkers;
    RestartClosedForm(s);
    HoldersAreBusy(s);
    RequeueKeeps(s, Restart(s), BusyWorkers(s));
    ReclaimedDurable(s, Restart(s), BusyWorkers(s));
  }

  /**
   A restart equals reaping every worker, up to the order of the leases that come back:
   the restart sorts them together, the reaper worker by worker.
   */
  lemma RestartIsReapingEveryone(s: State, now: int, timeout: int)
    requires Inv(s) && Lost(s, now, timeout) == s.workers.Keys
    ensures var t, u := Reap(s, now, timeout), Restart(s);
            && t.workers == u.workers && t.leases == u.leases && t.nextID == u.nextID
            && s.pending <= t.pending && s.pending <= u.pending
            && Permutation(t.pending, u.pending)
  {
    var t, u := Reap(s, now, timeout), Restart(s);
    ReapClosedForm(s, now, timeout);
    RestartClosedForm(s);
    EveryHolderReclaimed(s, s.workers.Keys);
    SameExtension(s, t, u, AllAssigned(s));
  }

  lemma EveryHolderReclaimed(s: State, ws: set<string>)
    requires forall id :: id in s.leases && s.leases[id].state == Assigned ==> s.leases[id].worker in ws
    ensures HeldByAny(s, ws) == AllAssigned(s)
    ensures Reclaimed(s.leases, ws) == Restart(s).leases
  {
  }

  lemma SameExtension(s: State, t: State, u: State, ids: set<string>)
    requires QueueExtended(s, t, ids) && QueueExtended(s, u, ids)
    ensures Permutation(t.pending, u.pending)
  {
    var a, b := t.pending[|s.pending|..], u.pending[|s.pending|..];
    assert t.pending == s.pending + a && u.pending == s.pending + b;
    DistinctMultiset(a);
    DistinctMultiset(b);
    assert (set id | id in a) == ids == (set id | id in b);
  }
}
