/**
 The lease scheduler as a value: its state, what each atomic step does to it, and the
 invariant every step keeps.  The class `Control.ControlPlane` implements these steps.
 */
module Plane {
  import opened Wrappers
  import opened Sorting
  import opened Strings
  import opened Decimals
  import opened Patterns
  import Placement

  // ----- Data -----

  /** A lease's position in its lifecycle; `Unknown` is any other text found in a snapshot. */
  datatype LeaseState = Pending | Assigned | Completed | Canceled | Unknown(text: string)

  /** The zero `time.Time`; every reading of the clock is a later, positive instant. */
  const ZERO_TIME: int := 0

  type Instant = t: int | t > 0 witness 1

  const MAX_OPAQUE := 0x10_0000

  datatype Lease = Lease(
    id: string,
    payload: string,
    requiredPlatform: string,
    requiredCapabilities: seq<string>,
    preferredContent: string,
    tenant: string,
    priority: int,
    state: LeaseState,
    worker: string,
    attempt: int,
    result: string,
    assignedAt: int,
    completedBy: string,
    completedAt: int,
    canceledBy: string,
    canceledAt: int)

  datatype WorkerStatus = WorkerStatus(
    platform: string,
    capabilities: seq<string>,
    cachedContent: seq<string>,
    maxParallel: int,
    registeredAt: int,
    lastHeartbeat: int,
    publicKey: string)

  datatype State = State(
    workers: map<string, WorkerStatus>,
    leases: map<string, Lease>,
    pending: seq<string>,
    nextID: nat)

  const EMPTY := State(map[], map[], [], 0)

  // ----- Lease identifiers -----

  function LeaseId(n: nat): string {
    "lease-" + Itoa(n)
  }

  /** The number in a lease identifier, before the range check of a 64-bit `int`. */
  function LeaseNumber(id: string): Option<int> {
    if "lease-" <= id then ParseInt(id[6..]) else None
  }

  lemma NumberOfLeaseId(n: nat)
    ensures LeaseNumber(LeaseId(n)) == Some(n)
  {
    assert LeaseId(n)[6..] == Itoa(n);
    ParseItoa(n);
  }

  // ----- Views -----

  predicate HeldBy(l: Lease, worker: string) {
    l.state == Assigned && l.worker == worker
  }

  predicate Terminal(l: Lease) {
    l.state == Completed || l.state == Canceled
  }

  predicate Open(l: Lease) {
    l.state == Pending || l.state == Assigned
  }

  /** The leases `worker` currently holds. */
  ghost function Held(s: State, worker: string): set<string> {
    set id | id in s.leases && HeldBy(s.leases[id], worker)
  }

  /** The leases held by some worker of `ws`. */
  ghost function HeldByAny(s: State, ws: set<string>): set<string> {
    set id | id in s.leases && s.leases[id].state == Assigned && s.leases[id].worker in ws
  }

  ghost function AllAssigned(s: State): set<string> {
    set id | id in s.leases && s.leases[id].state == Assigned
  }

  function CandidateOf(l: Lease): Placement.Candidate {
    Placement.Candidate(l.requiredPlatform, l.requiredCapabilities, l.preferredContent, l.priority)
  }

  function PlacementWorker(w: WorkerStatus): Placement.Worker {
    Placement.Worker(w.platform, w.capabilities, w.cachedContent)
  }

  predicate QueueKnown(s: State) {
    forall id :: id in s.pending ==> id in s.leases
  }

  function Candidates(s: State): (c: seq<Placement.Candidate>)
    requires QueueKnown(s)
    ensures |c| == |s.pending|
  {
    seq(|s.pending|, i requires 0 <= i < |s.pending| => CandidateOf(s.leases[s.pending[i]]))
  }

  // ----- Invariants -----

  /** The queue has no duplicates and holds exactly the leases in state pending. */
  ghost predicate QueueIsPending(s: State) {
    && Distinct(s.pending)
    && forall id :: id in s.pending <==> id in s.leases && s.leases[id].state == Pending
  }

  /** Every lease is stored under its own identifier, whose number was already issued. */
  ghost predicate IdsIssued(s: State) {
    forall id :: id in s.leases ==>
      s.leases[id].id == id && LeaseNumber(id).Some? && 0 < LeaseNumber(id).value <= s.nextID
  }

  /** Every assigned lease is held by a registered worker. */
  ghost predicate HoldersRegistered(s: State) {
    forall id :: id in s.leases && s.leases[id].state == Assigned ==> s.leases[id].worker in s.workers
  }

  /** No worker holds more than its current limit. */
  ghost predicate WithinLimits(s: State) {
    forall w :: w in s.workers ==> |Held(s, w)| <= s.workers[w].maxParallel
  }

  ghost predicate WorkersWellFormed(s: State) {
    forall w :: w in s.workers ==>
      1 <= s.workers[w].maxParallel <= 1024 && Placement.WellFormed(PlacementWorker(s.workers[w]))
  }

  ghost predicate Inv(s: State) {
    QueueIsPending(s) && IdsIssued(s) && HoldersRegistered(s) && WithinLimits(s) && WorkersWellFormed(s)
  }

  predicate HasCompletion(l: Lease) {
    l.completedBy != "" || l.completedAt != ZERO_TIME
  }

  predicate HasCancellation(l: Lease) {
    l.canceledBy != "" || l.canceledAt != ZERO_TIME
  }

  /** A capability list as `normalizedTokens` leaves it. */
  predicate Normalized(caps: seq<string>) {
    && |caps| <= 64 && SortedBy(Less, caps) && Distinct(caps)
    && forall c :: c in caps ==> ValidCapability(c)
  }

  /** The lease fields that a snapshot is checked for and that no step changes. */
  predicate FieldsDurable(l: Lease) {
    && 0 < |l.payload| <= MAX_OPAQUE && |l.result| <= MAX_OPAQUE
    && (l.requiredPlatform == "" || ValidPlatform(l.requiredPlatform))
    && Normalized(l.requiredCapabilities)
    && (l.preferredContent == "" || ValidDigest(l.preferredContent))
  }

  /** Completion and cancellation marks agree with the state. */
  predicate MarksDurable(l: Lease) {
    match l.state
    case Pending => !HasCompletion(l) && !HasCancellation(l)
    case Assigned => !HasCompletion(l) && !HasCancellation(l)
    case Completed => ValidWorkerID(l.completedBy) && l.completedAt != ZERO_TIME && !HasCancellation(l)
    case Canceled => ValidWorkerID(l.canceledBy) && l.canceledAt != ZERO_TIME && !HasCompletion(l)
    case Unknown(_) => false
  }

  /** What a snapshot of the plane needs to be readable again. */
  ghost predicate Durable(s: State) {
    forall id :: id in s.leases ==> FieldsDurable(s.leases[id]) && MarksDurable(s.leases[id])
  }

  ghost predicate Valid(s: State) {
    Inv(s) && Durable(s)
  }

  // ----- Requeueing -----

  function BackToPending(l: Lease): Lease {
    l.(state := Pending, worker := "")
  }

  /** The lease map after the leases of the workers `ws` went back to pending. */
  function Reclaimed(leases: map<string, Lease>, ws: set<string>): map<string, Lease> {
    map id | id in leases ::
      if leases[id].state == Assigned && leases[id].worker in ws then BackToPending(leases[id]) else leases[id]
  }

  /** `requeueLeasesHeldBy`: one worker's leases go to the queue's end in identifier order. */
  ghost function Requeue(s: State, worker: string): State {
    s.(leases := Reclaimed(s.leases, {worker}), pending := s.pending + Sorted(Held(s, worker)))
  }

  ghost function RequeueEach(s: State, ws: seq<string>): State
    decreases ws
  {
    if ws == [] then s else RequeueEach(Requeue(s, ws[0]), ws[1..])
  }

  /** `t` extends the queue of `s` by exactly the leases in `ids`, each once. */
  ghost predicate QueueExtended(s: State, t: State, ids: set<string>) {
    && s.pending <= t.pending
    && Distinct(t.pending[|s.pending|..])
    && forall id :: id in t.pending[|s.pending|..] <==> id in ids
  }

  lemma ReclaimedTwice(leases: map<string, Lease>, a: set<string>, b: set<string>)
    ensures Reclaimed(Reclaimed(leases, a), b) == Reclaimed(leases, a + b)
  {
  }

  lemma QueueExtendedTwice(s: State, mid: State, end: State, a: set<string>, b: set<string>)
    requires QueueExtended(s, mid, a) && QueueExtended(mid, end, b) && a !! b
    ensures QueueExtended(s, end, a + b)
  {
    var first, second := mid.pending[|s.pending|..], end.pending[|mid.pending|..];
    assert mid.pending == s.pending + first && end.pending == mid.pending + second;
    assert end.pending[|s.pending|..] == first + second;
    DistinctConcat(first, second);
  }

  lemma RequeueExtends(s: State, worker: string)
    ensures QueueExtended(s, Requeue(s, worker), Held(s, worker))
  {
    assert Requeue(s, worker).pending[|s.pending|..] == Sorted(Held(s, worker));
  }

  lemma {:induction false} RequeueEachClosedForm(s: State, ws: seq<string>)
    requires Distinct(ws)
    ensures RequeueEach(s, ws).leases == Reclaimed(s.leases, set w | w in ws)
    ensures RequeueEach(s, ws).nextID == s.nextID && RequeueEach(s, ws).workers == s.workers
    ensures QueueExtended(s, RequeueEach(s, ws), HeldByAny(s, set w | w in ws))
    decreases ws
  {
    var all := set w | w in ws;
    if ws == [] {
      assert Reclaimed(s.leases, all) == s.leases;
      assert s.pending[|s.pending|..] == [];
    } else {
      var rest := set w | w in ws[1..];
      assert ws == [ws[0]] + ws[1..];
      assert all == {ws[0]} + rest && ws[0] !in rest;
      var mid := Requeue(s, ws[0]);
      RequeueEachClosedForm(mid, ws[1..]);
      ReclaimedTwice(s.leases, {ws[0]}, rest);
      RequeueExtends(s, ws[0]);
      HeldSplit(s, mid, ws[0], rest);
      QueueExtendedTwice(s, mid, RequeueEach(mid, ws[1..]), Held(s, ws[0]), HeldByAny(mid, rest));
    }
  }

  lemma HeldSplit(s: State, mid: State, w: string, rest: set<string>)
    requires mid == Requeue(s, w) && w !in rest
    ensures HeldByAny(s, {w} + rest) == Held(s, w) + HeldByAny(mid, rest)
    ensures Held(s, w) !! HeldByAny(mid, rest)
  {
    hide Sorted, Distinct, SortedBy;
    forall id ensures id in HeldByAny(mid, rest) <==> id in HeldByAny(s, rest) {
      StillHeld(s, mid, w, rest, id);
    }
    assert HeldByAny(s, {w} + rest) == Held(s, w) + HeldByAny(s, rest);
  }

  lemma StillHeld(s: State, mid: State, w: string, rest: set<string>, id: string)
    requires mid.leases == Reclaimed(s.leases, {w}) && w !in rest
    ensures id in HeldByAny(mid, rest) <==> id in HeldByAny(s, rest)
  {
  }

  /** A queue extended by leases that went back to pending still holds exactly the pending ones. */
  lemma ExtendedQueueIsPending(s: State, t: State, ws: set<string>)
    requires QueueIsPending(s)
    requires t.leases == Reclaimed(s.leases, ws)
    requires QueueExtended(s, t, HeldByAny(s, ws))
    ensures QueueIsPending(t)
  {
    var tail := t.pending[|s.pending|..];
    assert t.pending == s.pending + tail;
    forall id ensures id in t.pending <==> id in t.leases && t.leases[id].state == Pending {
      assert id in t.pending <==> id in s.pending || id in tail;
    }
    assert forall id :: id in s.pending ==> id !in tail;
    DistinctConcat(s.pending, tail);
  }

  /** Reclaiming never gives a worker more leases, and takes all from the reclaimed ones. */
  lemma ReclaimedHeld(s: State, t: State, ws: set<string>, w: string)
    requires t.leases == Reclaimed(s.leases, ws)
    ensures Held(t, w) <= Held(s, w)
    ensures |Held(t, w)| <= |Held(s, w)|
    ensures w in ws ==> Held(t, w) == {}
  {
    SubsetSize(Held(t, w), Held(s, w));
  }

  lemma {:induction false} SubsetSize<T>(a: set<T>, b: set<T>)
    requires a <= b
    ensures |a| <= |b|
  {
    if a != {} {
      var x :| x in a;
      SubsetSize(a - {x}, b - {x});
    }
  }

  // ----- The steps -----

  /** `normalizedTokens`: refuse too many or malformed values, else sort and drop repeats. */
  ghost function NormalTokens(values: seq<string>, pattern: string -> bool, limit: nat): Option<seq<string>> {
    if |values| > limit || exists v :: v in values && !pattern(v) then None
    else Some(Sorted(set v | v in values))
  }

  datatype Registration = Registration(
    platform: string,
    capabilities: seq<string>,
    cachedContent: seq<string>,
    maxParallel: int,
    publicKey: string,
    keyWellFormed: bool)

  datatype Submission = Submission(
    payload: string,
    requiredPlatform: string,
    requiredCapabilities: seq<string>,
    preferredContent: string,
    tenant: string,
    priority: int)

  datatype Refusal =
    | InvalidArgument
    | UnknownWorker
    | UnknownLease
    | NotAssignedToWorker
    | AlreadyCompleted
    | Internal

  ghost predicate RegistrationAccepted(id: string, r: Registration) {
    && ValidWorkerID(id) && ValidPlatform(r.platform)
    && NormalTokens(r.capabilities, ValidCapability, 64).Some?
    && NormalTokens(r.cachedContent, ValidDigest, 4096).Some?
    && 0 < r.maxParallel <= 1024
    && (r.publicKey != "" ==> r.keyWellFormed)
  }

  /** A new process of a known worker gives back everything the old one held. */
  ghost function Register(s: State, id: string, r: Registration, now: Instant): State
    requires RegistrationAccepted(id, r)
  {
    var caps := NormalTokens(r.capabilities, ValidCapability, 64).value;
    var content := NormalTokens(r.cachedContent, ValidDigest, 4096).value;
    var since := if id in s.workers then s.workers[id].registeredAt else now;
    var w := WorkerStatus(r.platform, caps, content, r.maxParallel, since, now, r.publicKey);
    var updated := s.(workers := s.workers[id := w]);
    if id in s.workers then Requeue(updated, id) else updated
  }

  function Heartbeat(s: State, worker: string, now: Instant): State
    requires worker in s.workers
  {
    s.(workers := s.workers[worker := s.workers[worker].(lastHeartbeat := now)])
  }

  ghost predicate SubmissionAccepted(m: Submission) {
    && m.payload != "" && !Blank(m.payload) && |m.payload| <= MAX_OPAQUE
    && (m.requiredPlatform != "" ==> ValidPlatform(m.requiredPlatform))
    && NormalTokens(m.requiredCapabilities, ValidCapability, 64).Some?
    && (m.preferredContent != "" ==> ValidDigest(m.preferredContent))
    && |m.tenant| <= 256
  }

  function NewLease(id: string, m: Submission, caps: seq<string>): Lease {
    Lease(id, m.payload, m.requiredPlatform, caps, m.preferredContent, m.tenant, m.priority,
          Pending, "", 0, "", ZERO_TIME, "", ZERO_TIME, "", ZERO_TIME)
  }

  ghost function Submit(s: State, m: Submission): State
    requires SubmissionAccepted(m)
  {
    var id := LeaseId(s.nextID + 1);
    var caps := NormalTokens(m.requiredCapabilities, ValidCapability, 64).value;
    s.(leases := s.leases[id := NewLease(id, m, caps)], pending := s.pending + [id], nextID := s.nextID + 1)
  }

  /** The queue position `worker` would be given next. */
  ghost predicate IsNext(s: State, worker: string, i: int)
    requires QueueKnown(s) && worker in s.workers
  {
    && |Held(s, worker)| < s.workers[worker].maxParallel
    && Placement.IsChoice(PlacementWorker(s.workers[worker]), Candidates(s), i)
  }

  function WithoutIndex<T>(xs: seq<T>, i: nat): seq<T>
    requires i < |xs|
  {
    xs[..i] + xs[i + 1..]
  }

  function Assign(s: State, worker: string, i: nat, now: Instant): State
    requires QueueKnown(s) && i < |s.pending|
  {
    var id := s.pending[i];
    var l := s.leases[id];
    s.(pending := WithoutIndex(s.pending, i),
       leases := s.leases[id := l.(state := Assigned, worker := worker, attempt := l.attempt + 1, assignedAt := now)])
  }

  predicate CompletionWellFormed(worker: string, lease: string, result: string) {
    ValidWorkerID(worker) && 0 < |lease| <= 128 && |result| <= MAX_OPAQUE
  }

  /** A result is committed only from the worker that holds the lease. */
  predicate CanComplete(s: State, worker: string, lease: string) {
    lease in s.leases && HeldBy(s.leases[lease], worker)
  }

  function Complete(s: State, worker: string, lease: string, result: string, now: Instant): State
    requires CanComplete(s, worker, lease)
  {
    s.(leases := s.leases[lease :=
      s.leases[lease].(state := Completed, result := result, completedBy := worker, completedAt := now)])
  }

  predicate CanCancel(s: State, lease: string) {
    lease in s.leases && Open(s.leases[lease])
  }

  function Without(xs: seq<string>, x: string): seq<string> {
    if xs == [] then []
    else if xs[0] == x then xs[1..]
    else [xs[0]] + Without(xs[1..], x)
  }

  function Cancel(s: State, actor: string, lease: string, now: Instant): State
    requires CanCancel(s, lease)
  {
    s.(pending := if s.leases[lease].state == Pending then Without(s.pending, lease) else s.pending,
       leases := s.leases[lease := s.leases[lease].(state := Canceled, canceledBy := actor, canceledAt := now)])
  }

  function Lost(s: State, now: int, timeout: int): set<string> {
    set w | w in s.workers && now - s.workers[w].lastHeartbeat > timeout
  }

  /** Forget the workers that stopped reporting and requeue what they held. */
  ghost function Reap(s: State, now: int, timeout: int): State {
    var lost := Lost(s, now, timeout);
    RequeueEach(s.(workers := s.workers - lost), Sorted(lost))
  }

  /** What loading the snapshot of `s` gives, as `Snapshot.SavedPlaneLoads` shows. */
  ghost function Restart(s: State): State {
    State(map[],
          map id | id in s.leases ::
            if s.leases[id].state == Assigned then BackToPending(s.leases[id]) else s.leases[id],
          s.pending + Sorted(AllAssigned(s)),
          s.nextID)
  }
}
