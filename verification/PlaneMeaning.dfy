/**
 What each step of the scheduler does, said of leases, workers and queue alone: which lease a
 worker is given, what a commit writes, who is reaped.  The steps of `Plane` are held to this.
 */
module PlaneMeaning {
  import opened Wrappers
  import opened Sorting
  import opened Strings
  import opened Patterns
  import opened Plane
  import opened PlaneSafety
  import Placement
  import Decimals

  // ----- Which lease is given -----

  /** The worker may run the lease. */
  predicate Suits(l: Lease, w: WorkerStatus) {
    && (l.requiredPlatform == "" || l.requiredPlatform == w.platform)
    && forall c :: c in l.requiredCapabilities ==> c in w.capabilities
  }

  /** The worker has the content the lease would like to find. */
  predicate Warm(l: Lease, w: WorkerStatus) {
    l.preferredContent != "" && l.preferredContent in w.cachedContent
  }

  /** How many leases the worker holds. */
  ghost function HeldCount(leases: map<string, Lease>, worker: string): nat {
    |set id | id in leases && leases[id].state == Assigned && leases[id].worker == worker|
  }

  /** The lease at position `i` goes before the one at `k`: priority, then content at hand, then age. */
  predicate GoesBefore(s: State, w: WorkerStatus, i: nat, k: nat)
    requires QueueKnown(s) && i < |s.pending| && k < |s.pending|
  {
    var l, m := s.leases[s.pending[i]], s.leases[s.pending[k]];
    && m.priority <= l.priority
    && (m.priority == l.priority && Warm(m, w) ==> Warm(l, w))
    && (m.priority == l.priority && Warm(m, w) == Warm(l, w) ==> i <= k)
  }

  /** The lease at position `i` is the one to give: it suits the worker and goes before all others that do. */
  predicate FirstChoice(s: State, w: WorkerStatus, i: nat)
    requires QueueKnown(s)
  {
    && i < |s.pending| && Suits(s.leases[s.pending[i]], w)
    && forall k :: 0 <= k < |s.pending| && Suits(s.leases[s.pending[k]], w) ==> GoesBefore(s, w, i, k)
  }

  lemma EligibleSuits(s: State, w: WorkerStatus, i: nat)
    requires QueueKnown(s) && i < |s.pending|
    ensures Placement.IsEligible(PlacementWorker(w), Candidates(s)[i]) <==> Suits(s.leases[s.pending[i]], w)
  {
  }

  lemma PreferredGoesFirst(s: State, w: WorkerStatus, i: nat, k: nat)
    requires QueueKnown(s) && i < |s.pending| && k < |s.pending|
    ensures var l, m := s.leases[s.pending[i]], s.leases[s.pending[k]];
            Placement.Preferred(PlacementWorker(w), Candidates(s)[i], Candidates(s)[k]) <==>
            m.priority < l.priority || (m.priority == l.priority && Warm(l, w) && !Warm(m, w))
  {
  }

  /** A worker below its limit is given the first choice. */
  lemma NextIsFirstChoice(s: State, worker: string, i: nat)
    requires QueueKnown(s) && worker in s.workers && IsNext(s, worker, i)
    ensures HeldCount(s.leases, worker) < s.workers[worker].maxParallel
    ensures FirstChoice(s, s.workers[worker], i)
  {
    hide Placement.IsEligible, Placement.Preferred, Suits, Warm;
    var w := s.workers[worker];
    assert HeldCount(s.leases, worker) == |Held(s, worker)| by { SameCount(s, worker); }
    EligibleSuits(s, w, i);
    forall k | 0 <= k < |s.pending| && Suits(s.leases[s.pending[k]], w) ensures GoesBefore(s, w, i, k) {
      EligibleSuits(s, w, k);
      PreferredGoesFirst(s, w, k, i);
      PreferredGoesFirst(s, w, i, k);
    }
  }

  lemma SameCount(s: State, worker: string)
    ensures HeldCount(s.leases, worker) == |Held(s, worker)|
  {
    assert (set id | id in s.leases && s.leases[id].state == Assigned && s.leases[id].worker == worker) == Held(s, worker);
  }

  // ----- What each step writes -----

  /** Only lease `id` changed. */
  ghost predicate OthersKept(s: State, u: State, id: string) {
    && id in u.leases
    && (forall k :: k in s.leases ==> k in u.leases && (k != id ==> u.leases[k] == s.leases[k]))
    && (forall k :: k in u.leases && k != id ==> k in s.leases)
  }

  ghost predicate Committed(s: State, u: State, worker: string, id: string, result: string, now: int) {
    && u.workers == s.workers && u.pending == s.pending && u.nextID == s.nextID
    && id in s.leases && OthersKept(s, u, id)
    && var l, m := s.leases[id], u.leases[id];
       && l.state == Assigned && l.worker == worker
       && m.state == Completed && m.result == result && m.completedBy == worker && m.completedAt == now
       && m.(state := l.state, result := l.result, completedBy := l.completedBy, completedAt := l.completedAt) == l
  }

  /** The queue without one element, in the same order. */
  ghost predicate Dropped(xs: seq<string>, ys: seq<string>, x: string) {
    exists i :: 0 <= i < |xs| && xs[i] == x && ys == xs[..i] + xs[i + 1..]
  }

  ghost predicate WasCanceled(s: State, u: State, actor: string, id: string, now: int) {
    && u.workers == s.workers && u.nextID == s.nextID
    && id in s.leases && OthersKept(s, u, id)
    && var l, m := s.leases[id], u.leases[id];
       && (l.state == Pending ==> Dropped(s.pending, u.pending, id)) && (l.state == Assigned ==> u.pending == s.pending)
       && (l.state == Pending || l.state == Assigned)
       && m.state == Canceled && m.canceledBy == actor && m.canceledAt == now
       && m.(state := l.state, canceledBy := l.canceledBy, canceledAt := l.canceledAt) == l
  }

  ghost predicate WasSubmitted(s: State, u: State, m: Submission, id: string) {
    && u.workers == s.workers && u.nextID == s.nextID + 1 && id == LeaseId(u.nextID)
    && id !in s.leases && OthersKept(s, u, id) && u.pending == s.pending + [id]
    && IsFreshWork(u.leases[id], id, m)
  }

  /** A lease as submitted: the work asked for, pending, and nothing else on it yet. */
  ghost predicate IsFreshWork(l: Lease, id: string, m: Submission) {
    && l.id == id && l.payload == m.payload && l.requiredPlatform == m.requiredPlatform && l.preferredContent == m.preferredContent
    && l.tenant == m.tenant && l.priority == m.priority
    && (forall c :: c in l.requiredCapabilities <==> c in m.requiredCapabilities)
    && l.state == Pending && l.worker == "" && l.attempt == 0 && l.result == ""
    && l.assignedAt == 0 && l.completedBy == "" && l.completedAt == 0 && l.canceledBy == "" && l.canceledAt == 0
  }

  lemma NewLeaseMeans(id: string, m: Submission, caps: seq<string>)
    requires forall c :: c in caps <==> c in m.requiredCapabilities
    ensures IsFreshWork(NewLease(id, m, caps), id, m)
  {
  }

  lemma OneAdded(s: State, u: State, id: string, l: Lease)
    requires u.leases == s.leases[id := l]
    ensures OthersKept(s, u, id)
  {
  }

  ghost predicate WasAssigned(s: State, u: State, worker: string, i: nat, now: int) {
    && u.workers == s.workers && u.nextID == s.nextID
    && i < |s.pending| && u.pending == s.pending[..i] + s.pending[i + 1..]
    && var id := s.pending[i];
       && id in s.leases && OthersKept(s, u, id)
       && var l, m := s.leases[id], u.leases[id];
          && m.state == Assigned && m.worker == worker && m.attempt == l.attempt + 1 && m.assignedAt == now
          && m.(state := l.state, worker := l.worker, attempt := l.attempt, assignedAt := l.assignedAt) == l
  }

  lemma CompleteMeans(s: State, worker: string, id: string, result: string, now: Instant)
    requires CanComplete(s, worker, id)
    ensures Committed(s, Complete(s, worker, id, result, now), worker, id, result, now)
  {
  }

  lemma CancelMeans(s: State, actor: string, id: string, now: Instant)
    requires QueueIsPending(s) && CanCancel(s, id)
    ensures WasCanceled(s, Cancel(s, actor, id, now), actor, id, now)
  {
    if s.leases[id].state == Pending {
      assert id in s.pending;
      WithoutDrops(s.pending, id);
    }
  }

  lemma {:induction false} WithoutDrops(xs: seq<string>, x: string)
    requires x in xs
    ensures Dropped(xs, Without(xs, x), x)
  {
    if xs[0] == x {
      assert Without(xs, x) == xs[..0] + xs[0 + 1..];
    } else {
      WithoutDrops(xs[1..], x);
      assert Without(xs, x) == [xs[0]] + Without(xs[1..], x);
      hide Without;
      DroppedLater(xs, Without(xs[1..], x), x);
    }
  }

  lemma DroppedLater(xs: seq<string>, ys: seq<string>, x: string)
    requires xs != [] && Dropped(xs[1..], ys, x)
    ensures Dropped(xs, [xs[0]] + ys, x)
  {
    var i :| 0 <= i < |xs| - 1 && xs[1..][i] == x && ys == xs[1..][..i] + xs[1..][i + 1..];
    assert xs[..i + 1] == [xs[0]] + xs[1..][..i] && xs[i + 2..] == xs[1..][i + 1..];
    assert [xs[0]] + ys == xs[..i + 1] + xs[i + 1 + 1..] && xs[i + 1] == x;
  }

  lemma SubmitMeans(s: State, m: Submission)
    requires IdsIssued(s) && SubmissionAccepted(m)
    ensures WasSubmitted(s, Submit(s, m), m, LeaseId(s.nextID + 1))
  {
    assert NormalTokens(m.requiredCapabilities, ValidCapability, 64).Some?;
    hide LeaseId, NormalTokens, SubmissionAccepted, IdsIssued;
    FreshId(s);
    TokensKept(m.requiredCapabilities, ValidCapability, 64);
    hide OthersKept, IsFreshWork;
    var u, id, caps := Submit(s, m), LeaseId(s.nextID + 1), NormalTokens(m.requiredCapabilities, ValidCapability, 64).value;
    NewLeaseMeans(id, m, caps);
    OneAdded(s, u, id, NewLease(id, m, caps));
  }

  lemma SubmitWrites(s: State, m: Submission)
    requires Valid(s) && SubmissionAccepted(m)
    ensures WasSubmitted(s, Submit(s, m), m, LeaseId(s.nextID + 1))
  {
    hide QueueIsPending, HoldersRegistered, WithinLimits, WorkersWellFormed, Durable, SubmissionAccepted, Submit, LeaseId, WasSubmitted;
    SubmitMeans(s, m);
  }

  lemma CancelWrites(s: State, actor: string, id: string, now: Instant)
    requires Valid(s) && CanCancel(s, id)
    ensures WasCanceled(s, Cancel(s, actor, id, now), actor, id, now)
  {
    hide IdsIssued, HoldersRegistered, WithinLimits, WorkersWellFormed, Durable, Cancel, WasCanceled;
    CancelMeans(s, actor, id, now);
  }

  lemma TokensKept(values: seq<string>, pattern: string -> bool, limit: nat)
    requires NormalTokens(values, pattern, limit).Some?
    ensures forall v :: v in NormalTokens(values, pattern, limit).value <==> v in values
  {
  }

  lemma AssignMeans(s: State, worker: string, i: nat, now: Instant)
    requires QueueKnown(s) && i < |s.pending|
    ensures WasAssigned(s, Assign(s, worker, i, now), worker, i, now)
  {
    assert s.pending[i] in s.pending;
  }

  // ----- Workers coming and going -----

  /** The leases that the workers of `gone` held are pending again; all other leases and all other fields are as they were. */
  ghost predicate GivenBack(s: State, u: State, gone: set<string>) {
    && u.leases.Keys == s.leases.Keys && u.nextID == s.nextID
    && forall id :: id in s.leases ==>
         var l, m := s.leases[id], u.leases[id];
         if l.state == Assigned && l.worker in gone
         then m.state == Pending && m.worker == "" && m.(state := Assigned, worker := l.worker) == l
         else m == l
  }

  /** The queue is the old one and then, each once, the leases that were given back. */
  ghost predicate QueuedAgain(s: State, u: State, gone: set<string>) {
    && s.pending <= u.pending
    && Distinct(u.pending[|s.pending|..])
    && forall id :: id in u.pending[|s.pending|..] <==> id in s.leases && s.leases[id].state == Assigned && s.leases[id].worker in gone
  }

  /** What a registration leaves on record, and what it takes back from the worker's old process. */
  lemma RegisterMeans(s: State, id: string, r: Registration, now: Instant)
    requires RegistrationAccepted(id, r)
    ensures var u := Register(s, id, r, now);
            && id in u.workers
            && (forall k :: k != id ==> (k in u.workers <==> k in s.workers) && (k in s.workers ==> u.workers[k] == s.workers[k]))
            && var w := u.workers[id];
               && w.platform == r.platform && w.maxParallel == r.maxParallel && w.publicKey == r.publicKey
               && (forall c :: c in w.capabilities <==> c in r.capabilities)
               && (forall c :: c in w.cachedContent <==> c in r.cachedContent)
               && SortedBy(Less, w.capabilities) && Distinct(w.capabilities) && SortedBy(Less, w.cachedContent) && Distinct(w.cachedContent)
               && w.lastHeartbeat == now && w.registeredAt == (if id in s.workers then s.workers[id].registeredAt else now)
               && GivenBack(s, u, if id in s.workers then {id} else {})
               && QueuedAgain(s, u, if id in s.workers then {id} else {})
  {
    TokensKept(r.capabilities, ValidCapability, 64);
    TokensKept(r.cachedContent, ValidDigest, 4096);
    var updated := s.(workers := Register(s, id, r, now).workers);
    if id in s.workers {
      RequeueMeans(updated, id);
      assert Register(s, id, r, now) == Requeue(updated, id);
    } else {
      assert s.pending[|s.pending|..] == [];
    }
  }

  /** One worker's leases go back, and join the queue in the order of their identifiers as strings. */
  lemma RequeueMeans(s: State, worker: string)
    ensures var u := Requeue(s, worker);
            && u.workers == s.workers && GivenBack(s, u, {worker}) && QueuedAgain(s, u, {worker})
            && forall i, j :: |s.pending| <= i < j < |u.pending| ==> Less(u.pending[i], u.pending[j])
  {
    hide GivenBack, QueuedAgain;
    assert GivenBack(s, Requeue(s, worker), {worker}) by { RequeueGivesBack(s, worker); }
    assert QueuedAgain(s, Requeue(s, worker), {worker}) by { RequeueQueues(s, worker); }
    RequeueSorts(s, worker);
  }

  lemma RequeueGivesBack(s: State, worker: string)
    ensures GivenBack(s, Requeue(s, worker), {worker})
  {
    hide Sorted;
  }

  lemma RequeueQueues(s: State, worker: string)
    ensures QueuedAgain(s, Requeue(s, worker), {worker})
  {
    hide Sorted, Requeue, Distinct;
    RequeueExtends(s, worker);
  }

  lemma RequeueSorts(s: State, worker: string)
    ensures var u := Requeue(s, worker);
            forall i, j :: |s.pending| <= i < j < |u.pending| ==> Less(u.pending[i], u.pending[j])
  {
    hide Less, Held, Sorted;
    var u, n, tail := Requeue(s, worker), |s.pending|, Sorted(Held(s, worker));
    assert u.pending == s.pending + tail;
    hide Requeue;
    forall i, j | n <= i < j < |u.pending| ensures Less(u.pending[i], u.pending[j]) {
      assert u.pending[i] == tail[i - n] && u.pending[j] == tail[j - n];
      StrictlyBefore(tail, i - n, j - n);
    }
  }

  lemma StrictlyBefore(xs: seq<string>, i: nat, j: nat)
    requires i < j < |xs| && SortedBy(Less, xs) && Distinct(xs)
    ensures Less(xs[i], xs[j])
  {
    LessConnected(xs[i], xs[j]);
  }

  lemma HeartbeatMeans(s: State, worker: string, now: Instant)
    requires worker in s.workers
    ensures var u := Heartbeat(s, worker, now);
            && u == s.(workers := u.workers) && u.workers.Keys == s.workers.Keys
            && u.workers[worker].lastHeartbeat == now
            && u.workers[worker].(lastHeartbeat := s.workers[worker].lastHeartbeat) == s.workers[worker]
            && forall k :: k in s.workers && k != worker ==> u.workers[k] == s.workers[k]
  {
  }

  /** The workers that report within the timeout stay as they are; the others go and their leases come back. */
  lemma ReapMeans(s: State, now: int, timeout: int)
    ensures var u := Reap(s, now, timeout);
            && (forall w :: w in u.workers <==> w in s.workers && now - s.workers[w].lastHeartbeat <= timeout)
            && (forall w :: w in u.workers ==> u.workers[w] == s.workers[w])
            && var gone := s.workers.Keys - u.workers.Keys;
               GivenBack(s, u, gone) && QueuedAgain(s, u, gone)
  {
    hide Reap;
    ReapClosedForm(s, now, timeout);
    var u := Reap(s, now, timeout);
    assert s.workers.Keys - u.workers.Keys == Lost(s, now, timeout);
  }

  /** A restart forgets every worker and gives back every assigned lease. */
  lemma RestartMeans(s: State)
    ensures var u := Restart(s);
            && u.workers == map[] && GivenBack(s, u, BusyWorkers(s)) && QueuedAgain(s, u, BusyWorkers(s))
            && forall id :: id in u.leases ==> u.leases[id].state != Assigned
  {
    hide GivenBack, QueuedAgain, QueueExtended, HeldByAny, AllAssigned, Reclaimed, BusyWorkers, Sorted;
    var u := Restart(s);
    assert u.workers == map[] && u.nextID == s.nextID && forall id :: id in u.leases ==> u.leases[id].state != Assigned;
    RestartClosedForm(s);
    ReclaimedMeans(s, u, BusyWorkers(s));
    ExtendedMeans(s, u, BusyWorkers(s));
  }

  lemma ReclaimedMeans(s: State, u: State, gone: set<string>)
    requires u.leases == Reclaimed(s.leases, gone) && u.nextID == s.nextID
    ensures GivenBack(s, u, gone)
  {
  }

  lemma ExtendedMeans(s: State, u: State, gone: set<string>)
    requires QueueExtended(s, u, HeldByAny(s, gone))
    ensures QueuedAgain(s, u, gone)
  {
    hide Distinct;
  }

  /** Lease identifiers are numbered in decimal. */
  lemma LeaseIdMeans(n: nat)
    ensures n < 10 ==> LeaseId(n) == "lease-" + [DigitOf(n)]
    ensures n >= 10 ==> LeaseId(n) == LeaseId(n / 10) + [DigitOf(n % 10)]
  {
    if n < 10 {
      DigitIs(n);
      assert Decimals.Itoa(n) == [DigitOf(n)];
    } else {
      DigitIs(n % 10);
      assert Decimals.Digits(n) == Decimals.Digits(n / 10) + [n % 10];
      assert Decimals.Itoa(n) == Decimals.Itoa(n / 10) + [DigitOf(n % 10)];
    }
  }

  lemma DigitIs(d: nat)
    requires d < 10
    ensures Decimals.DigitChar(d) == DigitOf(d)
  {
    assert '0' as int == 48 && DigitOf(d) as int == 48 + d by {
      match d
      case 0 => case 1 => case 2 => case 3 => case 4 =>
      case 5 => case 6 => case 7 => case 8 => case _ =>
    }
  }

  function DigitOf(d: nat): char
    requires d < 10
  {
    "0123456789"[d]
  }

  /** What a registration must look like, with the limits as numbers. */
  lemma RegistrationMeans(id: string, r: Registration)
    ensures RegistrationAccepted(id, r) <==>
            && ValidWorkerID(id) && ValidPlatform(r.platform)
            && |r.capabilities| <= 64 && (forall c :: c in r.capabilities ==> ValidCapability(c))
            && |r.cachedContent| <= 4096 && (forall c :: c in r.cachedContent ==> ValidDigest(c))
            && 1 <= r.maxParallel <= 1024 && (r.publicKey == "" || r.keyWellFormed)
  {
    hide Sorted, ValidWorkerID, ValidPlatform, ValidCapability, ValidDigest;
  }

  /** What a submission must look like, with the limits as numbers. */
  lemma SubmissionMeans(m: Submission)
    ensures SubmissionAccepted(m) <==>
            && 0 < |m.payload| <= 1024 * 1024 && (exists i :: 0 <= i < |m.payload| && !Space(m.payload[i]))
            && (m.requiredPlatform == "" || ValidPlatform(m.requiredPlatform))
            && |m.requiredCapabilities| <= 64 && (forall c :: c in m.requiredCapabilities ==> ValidCapability(c))
            && (m.preferredContent == "" || ValidDigest(m.preferredContent))
            && |m.tenant| <= 256
  {
    hide Sorted, ValidPlatform, ValidCapability, ValidDigest, Space;
  }
}
