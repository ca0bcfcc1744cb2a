/**
 Runs of one scheduler process: any sequence of calls, from an empty plane or from the plane it
 loaded when it started.  Crashes and stale snapshots are in `Incarnations`.
 */
module PlaneRuns {
  import opened Wrappers
  import opened Patterns
  import opened Plane
  import opened PlaneSafety
  import Placement

  datatype Call =
    | RegisterWorker(worker: string, registration: Registration, now: Instant)
    | SendHeartbeat(worker: string, now: Instant)
    | SubmitLease(submission: Submission)
    | NextLease(worker: string, now: Instant)
    | CompleteLease(worker: string, lease: string, result: string, now: Instant)
    | CancelLease(worker: string, lease: string, now: Instant)
    | ReapLost(at: int, timeout: int)

  /** This call hands the lease at queue position `i` to the calling worker. */
  ghost predicate Chooses(s: State, c: Call, i: int) {
    c.NextLease? && QueueKnown(s) && c.worker in s.workers && IsNext(s, c.worker, i)
  }

  ghost predicate Accepted(s: State, c: Call) {
    match c
    case RegisterWorker(w, r, _) => RegistrationAccepted(w, r)
    case SendHeartbeat(w, _) => ValidWorkerID(w) && w in s.workers
    case SubmitLease(m) => SubmissionAccepted(m)
    case NextLease(_, _) => exists i: nat :: Chooses(s, c, i)
    case CompleteLease(w, l, r, _) => CompletionWellFormed(w, l, r) && CanComplete(s, w, l)
    case CancelLease(a, l, _) => ValidWorkerID(a) && 0 < |l| <= 128 && CanCancel(s, l)
    case ReapLost(_, _) => true
  }

  /** The queue position a granted `NextLease` takes; there is only one. */
  ghost function Position(s: State, c: Call): (i: nat)
    requires c.NextLease? && Accepted(s, c)
    ensures Chooses(s, c, i)
    ensures forall j: nat :: Chooses(s, c, j) ==> j == i
  {
    var i: nat :| Chooses(s, c, i);
    assert forall j: nat :: Chooses(s, c, j) ==> j == i by {
      forall j: nat | Chooses(s, c, j) ensures j == i {
        Placement.ChoiceIsUnique(PlacementWorker(s.workers[c.worker]), Candidates(s), i, j);
      }
    }
    i
  }

  /** One atomic call; a refused call changes nothing. */
  ghost function Step(s: State, c: Call): State {
    if !Accepted(s, c) then s
    else
      match c
      case RegisterWorker(w, r, now) => Register(s, w, r, now)
      case SendHeartbeat(w, now) => Heartbeat(s, w, now)
      case SubmitLease(m) => Submit(s, m)
      case NextLease(w, now) => Assign(s, w, Position(s, c), now)
      case CompleteLease(w, l, r, now) => Complete(s, w, l, r, now)
      case CancelLease(a, l, now) => Cancel(s, a, l, now)
      case ReapLost(now, timeout) => Reap(s, now, timeout)
  }

  lemma StepKeeps(s: State, c: Call)
    requires Valid(s)
    ensures Valid(Step(s, c))
  {
    if Accepted(s, c) {
      match c
      case RegisterWorker(w, r, now) => RegisterKeeps(s, w, r, now); RegisterDurable(s, w, r, now);
      case SendHeartbeat(w, now) => HeartbeatKeeps(s, w, now);
      case SubmitLease(m) => SubmitKeeps(s, m); SubmitDurable(s, m);
      case NextLease(w, now) => AssignKeeps(s, w, Position(s, c), now); AssignDurable(s, w, Position(s, c), now);
      case CompleteLease(w, l, r, now) => CompleteKeeps(s, w, l, r, now); CompleteDurable(s, w, l, r, now);
      case CancelLease(a, l, now) => CancelKeeps(s, a, l, now); CancelDurable(s, a, l, now);
      case ReapLost(now, timeout) => ReapKeeps(s, now, timeout);
    }
  }

  ghost function Run(s: State, calls: seq<Call>): (t: State)
    requires Valid(s)
    ensures Valid(t)
  {
    if calls == [] then s
    else
      var last := |calls| - 1;
      StepKeeps(Run(s, calls[..last]), calls[last]);
      Step(Run(s, calls[..last]), calls[last])
  }

  /** The state after the first `k` calls of a run from `s`. */
  ghost function At(s: State, calls: seq<Call>, k: nat): (t: State)
    requires Valid(s) && k <= |calls|
    ensures Valid(t)
  {
    Run(s, calls[..k])
  }

  lemma AtNext(s: State, calls: seq<Call>, k: nat)
    requires Valid(s) && k < |calls|
    ensures At(s, calls, k + 1) == Step(At(s, calls, k), calls[k])
  {
    hide Step, Accepted, Inv, Durable;
    assert calls[..k + 1][..k] == calls[..k];
  }

  // ----- What one call can do to one lease -----

  /** The call assigns lease `id` to the calling worker. */
  ghost predicate Assigns(s: State, c: Call, id: string) {
    c.NextLease? && Accepted(s, c) && s.pending[Position(s, c)] == id
  }

  /** The call commits a result for lease `id`. */
  ghost predicate Commits(s: State, c: Call, id: string) {
    c.CompleteLease? && Accepted(s, c) && c.lease == id
  }

  lemma CommitterHolds(s: State, c: Call, id: string)
    requires Commits(s, c, id)
    ensures id in s.leases && HeldBy(s.leases[id], c.worker)
  {
  }

  /** The call cancels lease `id`. */
  ghost predicate Cancels(s: State, c: Call, id: string) {
    c.CancelLease? && Accepted(s, c) && c.lease == id
  }

  /** The fields that were submitted, which no call may change. */
  predicate SameWork(l: Lease, m: Lease) {
    && m.id == l.id && m.payload == l.payload && m.requiredPlatform == l.requiredPlatform
    && m.requiredCapabilities == l.requiredCapabilities && m.preferredContent == l.preferredContent
    && m.tenant == l.tenant && m.priority == l.priority
  }

  /** Everything a call may do to an existing lease. */
  ghost predicate LeaseMove(s: State, c: Call, id: string, l: Lease, m: Lease) {
    && (Terminal(l) ==> m == l)
    && (Assigns(s, c, id) ==>
         && l.state == Pending && m.state == Assigned && m.worker == c.worker
         && m.attempt == l.attempt + 1 && m.assignedAt == c.now)
    && (Commits(s, c, id) ==>
         && HeldBy(l, c.worker) && m.state == Completed && m.result == c.result && m.attempt == l.attempt
         && m.completedBy == c.worker && m.completedAt == c.now)
    && (Cancels(s, c, id) ==>
         && Open(l) && m.state == Canceled && m.attempt == l.attempt
         && m.canceledBy == c.worker && m.canceledAt == c.now)
    && (!Assigns(s, c, id) && !Commits(s, c, id) && !Cancels(s, c, id) ==>
         m == l || (l.state == Assigned && m == BackToPending(l)))
    && SameWork(l, m)
  }

  lemma AssignMovesLease(s: State, c: Call, id: string)
    requires Inv(s) && id in s.leases && c.NextLease? && Accepted(s, c)
    ensures id in Step(s, c).leases && LeaseMove(s, c, id, s.leases[id], Step(s, c).leases[id])
  {
    assert s.leases[s.pending[Position(s, c)]].state == Pending;
  }

  lemma SubmitMovesLease(s: State, c: Call, id: string)
    requires Inv(s) && id in s.leases && c.SubmitLease? && Accepted(s, c)
    ensures id in Step(s, c).leases && LeaseMove(s, c, id, s.leases[id], Step(s, c).leases[id])
  {
    hide SubmissionAccepted, NormalTokens, QueueIsPending, WithinLimits, HoldersRegistered, WorkersWellFormed;
    FreshId(s);
  }

  lemma RequeueMovesLease(s: State, c: Call, id: string)
    requires id in s.leases && (c.ReapLost? || c.RegisterWorker?) && Accepted(s, c)
    ensures id in Step(s, c).leases && LeaseMove(s, c, id, s.leases[id], Step(s, c).leases[id])
  {
    hide LeaseMove, Reclaimed, RegistrationAccepted, NormalTokens, RequeueEach, QueueExtended, HeldByAny, Held;
    if c.ReapLost? {
      ReapClosedForm(s, c.at, c.timeout);
      ReclaimedMoves(s, c, id, Lost(s, c.at, c.timeout));
    } else if c.worker in s.workers {
      ReclaimedMoves(s, c, id, {c.worker});
    } else {
      ReclaimedMoves(s, c, id, {});
      NothingReclaimed(s.leases);
    }
  }

  lemma ReclaimedMoves(s: State, c: Call, id: string, ws: set<string>)
    requires id in s.leases && (c.ReapLost? || c.RegisterWorker?)
    ensures id in Reclaimed(s.leases, ws) && LeaseMove(s, c, id, s.leases[id], Reclaimed(s.leases, ws)[id])
  {
    hide Accepted;
  }

  lemma NothingReclaimed(leases: map<string, Lease>)
    ensures Reclaimed(leases, {}) == leases
  {
  }

  lemma StepMovesLease(s: State, c: Call, id: string)
    requires Inv(s) && id in s.leases
    ensures id in Step(s, c).leases && LeaseMove(s, c, id, s.leases[id], Step(s, c).leases[id])
  {
    hide Inv, RegistrationAccepted, SubmissionAccepted, NormalTokens;
    if Accepted(s, c) {
      match c
      case SubmitLease(_) => SubmitMovesLease(s, c, id);
      case NextLease(_, _) => AssignMovesLease(s, c, id);
      case ReapLost(_, _) => RequeueMovesLease(s, c, id);
      case RegisterWorker(_, _, _) => RequeueMovesLease(s, c, id);
      case _ =>
    }
  }

  /** A lease that a call creates is pending, unassigned and numbered past all earlier ones. */
  lemma StepCreatesLease(s: State, c: Call, id: string)
    requires Inv(s) && id !in s.leases && id in Step(s, c).leases
    ensures c.SubmitLease? && id == LeaseId(s.nextID + 1)
    ensures Step(s, c).leases[id].state == Pending && Step(s, c).leases[id].attempt == 0
    ensures var l, m := Step(s, c).leases[id], c.submission;
            && l.payload == m.payload && l.requiredPlatform == m.requiredPlatform && l.preferredContent == m.preferredContent
            && l.tenant == m.tenant && l.priority == m.priority
            && forall x :: x in l.requiredCapabilities <==> x in m.requiredCapabilities
  {
    if Accepted(s, c) && c.ReapLost? {
      ReapClosedForm(s, c.at, c.timeout);
    }
  }

  // ----- Theorems over every run -----

  /** No lease is assigned: how every process starts, since loading gives all leases back. */
  ghost predicate Unassigned(s: State) {
    forall id :: id in s.leases ==> s.leases[id].state != Assigned
  }

  /** A completed or canceled lease never changes again. */
  lemma {:induction false} TerminalIsForever(s: State, calls: seq<Call>, id: string)
    requires Valid(s) && id in s.leases && Terminal(s.leases[id])
    ensures id in Run(s, calls).leases && Run(s, calls).leases[id] == s.leases[id]
    decreases calls
  {
    hide Step, Accepted, Inv, Durable;
    if calls != [] {
      var last := |calls| - 1;
      TerminalIsForever(s, calls[..last], id);
      StepMovesLease(Run(s, calls[..last]), calls[last], id);
    }
  }

  lemma {:induction false} RunAppend(s: State, a: seq<Call>, b: seq<Call>)
    requires Valid(s)
    ensures Run(s, a + b) == Run(Run(s, a), b)
    decreases b
  {
    hide Step, Accepted, Inv, Durable;
    if b == [] {
      assert a + b == a;
    } else {
      var last := |b| - 1;
      assert (a + b)[..|a| + last] == a + b[..last];
      RunAppend(s, a, b[..last]);
    }
  }

  lemma AtAfter(s: State, calls: seq<Call>, i: nat, k: nat)
    requires Valid(s) && i <= k <= |calls|
    ensures At(s, calls, k) == Run(At(s, calls, i), calls[i..k])
  {
    hide Step, Accepted, Inv, Durable;
    assert calls[..k] == calls[..i] + calls[i..k];
    RunAppend(s, calls[..i], calls[i..k]);
  }

  /** Lease `id` was given to `worker` by call `j` and has been its unchanged record up to state `k`. */
  ghost predicate HeldSince(s: State, calls: seq<Call>, j: nat, k: nat, id: string, worker: string)
    requires Valid(s)
  {
    && j < k <= |calls|
    && Assigns(At(s, calls, j), calls[j], id) && calls[j].worker == worker
    && id in At(s, calls, k).leases && HeldBy(At(s, calls, k).leases[id], worker)
    && forall i :: j < i <= k ==> id in At(s, calls, i).leases && At(s, calls, i).leases[id] == At(s, calls, k).leases[id]
  }

  /** A worker holds a lease only since the call that assigned it, without interruption. */
  lemma {:induction false} AssignedImpliesUnbrokenHold(s: State, calls: seq<Call>, k: nat, id: string) returns (j: nat)
    requires Valid(s) && Unassigned(s) && k <= |calls|
    requires id in At(s, calls, k).leases && At(s, calls, k).leases[id].state == Assigned
    ensures HeldSince(s, calls, j, k, id, At(s, calls, k).leases[id].worker)
    decreases k
  {
    hide Step, Accepted, Inv, Durable;
    assert k > 0;
    var t, c := At(s, calls, k - 1), calls[k - 1];
    AtNext(s, calls, k - 1);
    if id !in t.leases {
      StepCreatesLease(t, c, id);
      assert false;
    }
    StepMovesLease(t, c, id);
    if Assigns(t, c, id) {
      j := k - 1;
    } else {
      j := AssignedImpliesUnbrokenHold(s, calls, k - 1, id);
    }
  }

  /**
   A result is committed only by the worker the lease was assigned to, with no reaping,
   re-registration, cancellation or other assignment of that lease in between.
   */
  lemma CommitNeedsUnbrokenHold(s: State, calls: seq<Call>, k: nat, id: string) returns (j: nat)
    requires Valid(s) && Unassigned(s) && k < |calls| && Commits(At(s, calls, k), calls[k], id)
    ensures HeldSince(s, calls, j, k, id, calls[k].worker)
  {
    hide Step, Accepted, Inv, Durable;
    CommitterHolds(At(s, calls, k), calls[k], id);
    j := AssignedImpliesUnbrokenHold(s, calls, k, id);
  }

  /** Each lease commits at most one result. */
  lemma CommitsOnce(s: State, calls: seq<Call>, i: nat, k: nat, id: string)
    requires Valid(s) && i < |calls| && Commits(At(s, calls, i), calls[i], id)
    requires k < |calls| && Commits(At(s, calls, k), calls[k], id)
    ensures i == k
  {
    hide Step, Accepted, Inv, Durable;
    CommitterHolds(At(s, calls, i), calls[i], id);
    CommitterHolds(At(s, calls, k), calls[k], id);
    if i < k {
      CommittedThenClosed(s, calls, i, k, id);
    } else if k < i {
      CommittedThenClosed(s, calls, k, i, id);
    }
  }

  lemma CommittedThenClosed(s: State, calls: seq<Call>, i: nat, k: nat, id: string)
    requires Valid(s) && i < k <= |calls| && Commits(At(s, calls, i), calls[i], id)
    ensures id in At(s, calls, k).leases && At(s, calls, k).leases[id].state == Completed
    ensures At(s, calls, k).leases[id].completedBy == calls[i].worker
    ensures At(s, calls, k).leases[id].result == calls[i].result
  {
    hide Step, Accepted, Inv, Durable;
    CommitterHolds(At(s, calls, i), calls[i], id);
    StepMovesLease(At(s, calls, i), calls[i], id);
    AtNext(s, calls, i);
    AtAfter(s, calls, i + 1, k);
    TerminalIsForever(At(s, calls, i + 1), calls[i + 1..k], id);
  }

  /** Where a completed lease's record comes from: one commit, by the worker last given the lease. */
  lemma {:induction false} CompletedHasOneStory(s: State, calls: seq<Call>, k: nat, id: string) returns (j: nat, c: nat)
    requires Valid(s) && Unassigned(s) && k <= |calls| && (id in s.leases ==> s.leases[id].state != Completed)
    requires id in At(s, calls, k).leases && At(s, calls, k).leases[id].state == Completed
    ensures j < c < k
    ensures Commits(At(s, calls, c), calls[c], id) && calls[c].worker == At(s, calls, k).leases[id].completedBy
    ensures calls[c].result == At(s, calls, k).leases[id].result
    ensures HeldSince(s, calls, j, c, id, At(s, calls, k).leases[id].completedBy)
    ensures forall i :: j < i < k ==> !Assigns(At(s, calls, i), calls[i], id)
  {
    hide Step, Accepted, Inv, Durable;
    c := FindCommit(s, calls, k, id);
    j := CommitNeedsUnbrokenHold(s, calls, c, id);
    forall i | j < i < k ensures !Assigns(At(s, calls, i), calls[i], id) {
      if i <= c {
        assert At(s, calls, i).leases[id].state == Assigned;
      } else {
        CommittedThenClosed(s, calls, c, i, id);
      }
      StepMovesLease(At(s, calls, i), calls[i], id);
    }
  }

  lemma {:induction false} FindCommit(s: State, calls: seq<Call>, k: nat, id: string) returns (c: nat)
    requires Valid(s) && k <= |calls| && (id in s.leases ==> s.leases[id].state != Completed)
    requires id in At(s, calls, k).leases && At(s, calls, k).leases[id].state == Completed
    ensures c < k && Commits(At(s, calls, c), calls[c], id)
    ensures calls[c].worker == At(s, calls, k).leases[id].completedBy
    ensures calls[c].result == At(s, calls, k).leases[id].result
    decreases k
  {
    hide Step, Accepted, Inv, Durable;
    assert k > 0;
    var t := At(s, calls, k - 1);
    AtNext(s, calls, k - 1);
    if id !in t.leases {
      StepCreatesLease(t, calls[k - 1], id);
      assert false;
    }
    StepMovesLease(t, calls[k - 1], id);
    if Commits(t, calls[k - 1], id) {
      c := k - 1;
    } else {
      c := FindCommit(s, calls, k - 1, id);
    }
  }

  /** How often lease `id` was handed out in the first `k` calls. */
  ghost function Assignments(s: State, calls: seq<Call>, k: nat, id: string): nat
    requires Valid(s) && k <= |calls|
  {
    if k == 0 then 0
    else Assignments(s, calls, k - 1, id) + (if Assigns(At(s, calls, k - 1), calls[k - 1], id) then 1 else 0)
  }

  function AttemptOf(s: State, id: string): int {
    if id in s.leases then s.leases[id].attempt else 0
  }

  /** The attempt number grows by exactly the number of assignments. */
  lemma {:induction false} AttemptsCountAssignments(s: State, calls: seq<Call>, k: nat, id: string)
    requires Valid(s) && k <= |calls|
    ensures AttemptOf(At(s, calls, k), id) == AttemptOf(s, id) + Assignments(s, calls, k, id)
  {
    hide Step, Accepted, Inv, Durable;
    if k > 0 {
      AttemptsCountAssignments(s, calls, k - 1, id);
      AtNext(s, calls, k - 1);
      var t := At(s, calls, k - 1);
      if id in t.leases {
        StepMovesLease(t, calls[k - 1], id);
      } else if id in At(s, calls, k).leases {
        StepCreatesLease(t, calls[k - 1], id);
      }
    } else {
      assert calls[..0] == [];
    }
  }

  lemma {:induction false} AssignmentsGrow(s: State, calls: seq<Call>, i: nat, k: nat, id: string)
    requires Valid(s) && i <= k <= |calls|
    ensures Assignments(s, calls, i, id) <= Assignments(s, calls, k, id)
    decreases k
  {
    hide Step, Accepted, Inv, Durable;
    if i < k {
      AssignmentsGrow(s, calls, i, k - 1, id);
    }
  }

  /** What was submitted under an identifier stays what it was. */
  lemma {:induction false} WorkNeverChanges(s: State, calls: seq<Call>, id: string)
    requires Valid(s) && id in s.leases
    ensures id in Run(s, calls).leases && SameWork(s.leases[id], Run(s, calls).leases[id])
    decreases calls
  {
    hide Step, Accepted, Inv, Durable;
    if calls != [] {
      var last := |calls| - 1;
      WorkNeverChanges(s, calls[..last], id);
      StepMovesLease(Run(s, calls[..last]), calls[last], id);
    }
  }

  lemma AttemptsNeverDecrease(s: State, calls: seq<Call>, i: nat, k: nat, id: string)
    requires Valid(s) && i <= k <= |calls| && id in At(s, calls, i).leases
    ensures id in At(s, calls, k).leases
    ensures At(s, calls, i).leases[id].attempt <= At(s, calls, k).leases[id].attempt
  {
    hide Step, Accepted, Inv, Durable;
    LeasesStay(s, calls, i, k, id);
    AssignmentsGrow(s, calls, i, k, id);
    AttemptsCountAssignments(s, calls, i, id);
    AttemptsCountAssignments(s, calls, k, id);
  }

  lemma {:induction false} LeasesStay(s: State, calls: seq<Call>, i: nat, k: nat, id: string)
    requires Valid(s) && i <= k <= |calls| && id in At(s, calls, i).leases
    ensures id in At(s, calls, k).leases
    decreases k
  {
    hide Step, Accepted, Inv, Durable;
    if i < k {
      LeasesStay(s, calls, i, k - 1, id);
      AtNext(s, calls, k - 1);
      StepMovesLease(At(s, calls, k - 1), calls[k - 1], id);
    }
  }

  lemma SubmitIssues(s: State, c: Call)
    requires Valid(s) && c.SubmitLease? && Accepted(s, c)
    ensures LeaseId(s.nextID + 1) !in s.leases && LeaseId(s.nextID + 1) in Step(s, c).leases
  {
    hide LeaseId, Durable, QueueIsPending, WithinLimits, HoldersRegistered, WorkersWellFormed, SubmissionAccepted, NormalTokens;
    FreshId(s);
  }

  /** The identifier a submission gets was never used before in the run. */
  lemma IssuedIdIsNew(s: State, calls: seq<Call>, i: nat, k: nat)
    requires Valid(s) && i <= k < |calls| && calls[k].SubmitLease? && Accepted(At(s, calls, k), calls[k])
    ensures LeaseId(At(s, calls, k).nextID + 1) !in At(s, calls, i).leases
    ensures LeaseId(At(s, calls, k).nextID + 1) in At(s, calls, k + 1).leases
  {
    hide Step, Accepted, Inv, Durable, LeaseId;
    var id := LeaseId(At(s, calls, k).nextID + 1);
    SubmitIssues(At(s, calls, k), calls[k]);
    if id in At(s, calls, i).leases {
      LeasesStay(s, calls, i, k, id);
    }
    AtNext(s, calls, k);
  }
}
