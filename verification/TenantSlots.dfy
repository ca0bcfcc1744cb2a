/**
 Tenant quota accounting around the scheduler: every request handler is a program of atomic
 steps, the steps of all requests interleave freely, and `tenantMu` is a lock they take.
 */
module TenantSlots {
  import opened Wrappers
  import opened Patterns
  import opened Plane
  import opened PlaneSafety
  import opened PlaneMeaning
  import PlaneRuns

  /** Where one request is; the name says what it did last. */
  datatype Phase =
    | SubmitStart(m: Submission)
    | SubmitReserved(m: Submission)
    | SubmitRefused(tenant: string)
    | SubmitAccepted(id: string, tenant: string)
    | Remembering(id: string, tenant: string)
    | Reconciling(id: string, tenant: string, sawTerminal: bool)
    | RememberRelease(id: string, tenant: string)
    | CompleteStart(worker: string, id: string, result: string)
    | CancelStart(actor: string, id: string)
    | Finished(id: string)
    | Releasing(id: string, tenant: string)
    | Done

  /**
   The server: the plane, the open leases whose slots are held (`leaseTenant`), the scheduler's
   counters, the holder of `tenantMu`, and the requests.  `released` and `exempt` are history:
   the leases whose slot was given back, and those already finished when the server started.
   */
  datatype Server = Server(
    plane: State,
    leaseTenant: map<string, string>,
    usage: map<string, nat>,
    limits: map<string, int>,
    defaultLimit: int,
    lock: Option<nat>,
    requests: map<nat, Phase>,
    released: multiset<string>,
    exempt: set<string>)

  function Used(s: Server, t: string): nat {
    if t in s.usage then s.usage[t] else 0
  }

  function Limit(s: Server, t: string): int {
    if t in s.limits then s.limits[t] else s.defaultLimit
  }

  /** One more slot is admitted unless a positive limit would be passed. */
  predicate CanSchedule(s: Server, t: string) {
    Limit(s, t) <= 0 || Used(s, t) + 1 <= Limit(s, t)
  }

  function Charge(s: Server, t: string): map<string, nat> {
    s.usage[t := Used(s, t) + 1]
  }

  /** The scheduler's release never goes below zero. */
  function Discharge(s: Server, t: string): map<string, nat> {
    s.usage[t := if Used(s, t) > 0 then Used(s, t) - 1 else 0]
  }

  predicate StartPhase(p: Phase) {
    p.SubmitStart? || p.CompleteStart? || p.CancelStart?
  }

  function Enter(s: Server, r: nat, p: Phase): Server {
    s.(requests := s.requests[r := p])
  }

  function TenantOf(s: Server, id: string): string
    requires id in s.plane.leases
  {
    s.plane.leases[id].tenant
  }

  predicate IsTerminal(s: Server, id: string) {
    id in s.plane.leases && Terminal(s.plane.leases[id])
  }

  predicate CompleteAllowed(s: Server, p: Phase) {
    p.CompleteStart? && CompletionWellFormed(p.worker, p.id, p.result) && CanComplete(s.plane, p.worker, p.id)
  }

  ghost predicate CancelAllowed(s: Server, p: Phase) {
    p.CancelStart? && ValidWorkerID(p.actor) && 0 < |p.id| <= 128 && CanCancel(s.plane, p.id)
  }

  /** The next atomic step of request `r`; a request waiting for `tenantMu` stays where it is. */
  ghost function Advance(s: Server, r: nat, now: Instant): Server
    requires r in s.requests
  {
    var p := s.requests[r];
    match p
    case SubmitStart(m) =>
      if m.tenant == "" then Enter(s, r, SubmitReserved(m))
      else if CanSchedule(s, m.tenant) then Enter(s.(usage := Charge(s, m.tenant)), r, SubmitReserved(m))
      else Enter(s, r, Done)
    case SubmitReserved(m) =>
      if SubmissionAccepted(m) then
        Enter(s.(plane := Submit(s.plane, m)), r,
              if m.tenant == "" then Done else SubmitAccepted(LeaseId(s.plane.nextID + 1), m.tenant))
      else Enter(s, r, if m.tenant == "" then Done else SubmitRefused(m.tenant))
    case SubmitRefused(t) => Enter(s.(usage := Discharge(s, t)), r, Done)
    case SubmitAccepted(id, t) =>
      if s.lock.Some? then s
      else Enter(s.(lock := Some(r), leaseTenant := s.leaseTenant[id := t]), r, Remembering(id, t))
    case Remembering(id, t) => Enter(s, r, Reconciling(id, t, IsTerminal(s, id)))
    case Reconciling(id, t, sawTerminal) =>
      if sawTerminal then Enter(s.(leaseTenant := s.leaseTenant - {id}), r, RememberRelease(id, t))
      else Enter(s.(lock := None), r, Done)
    case RememberRelease(id, t) =>
      Enter(s.(usage := Discharge(s, t), lock := None, released := s.released + multiset{id}), r, Done)
    case CompleteStart(w, id, result) =>
      if CompleteAllowed(s, p) then Enter(s.(plane := Complete(s.plane, w, id, result, now)), r, Finished(id))
      else Enter(s, r, Done)
    case CancelStart(a, id) =>
      if CancelAllowed(s, p) then Enter(s.(plane := Cancel(s.plane, a, id, now)), r, Finished(id))
      else Enter(s, r, Done)
    case Finished(id) =>
      if s.lock.Some? then s
      else if id in s.leaseTenant then
        Enter(s.(leaseTenant := s.leaseTenant - {id}), r, Releasing(id, s.leaseTenant[id]))
      else Enter(s, r, Done)
    case Releasing(id, t) =>
      Enter(s.(usage := Discharge(s, t), released := s.released + multiset{id}), r, Done)
    case Done => s
  }

  datatype Move =
    | Arrive(request: nat, phase: Phase)
    | Progress(request: nat, now: Instant)
    | WorkerCall(call: PlaneRuns.Call)

  /** The calls that reach the plane without touching tenant slots. */
  predicate SlotFree(c: PlaneRuns.Call) {
    c.RegisterWorker? || c.SendHeartbeat? || c.NextLease? || c.ReapLost?
  }

  /** One step of the whole server. */
  ghost function Next(s: Server, move: Move): Server {
    match move
    case Arrive(r, p) => if r !in s.requests && StartPhase(p) then Enter(s, r, p) else s
    case Progress(r, now) => if r in s.requests then Advance(s, r, now) else s
    case WorkerCall(c) => if SlotFree(c) then s.(plane := PlaneRuns.Step(s.plane, c)) else s
  }

  // ----- Where slots are -----

  /** The tenant whose slot this request carries, if any. */
  function Carried(p: Phase): Option<string> {
    match p
    case SubmitReserved(m) => if m.tenant == "" then None else Some(m.tenant)
    case SubmitRefused(t) => Some(t)
    case SubmitAccepted(_, t) => Some(t)
    case RememberRelease(_, t) => Some(t)
    case Releasing(_, t) => Some(t)
    case _ => None
  }

  /** The request carries the slot of lease `id`. */
  predicate CarriesLease(p: Phase, id: string) {
    (p.SubmitAccepted? || p.RememberRelease? || p.Releasing?) && p.id == id
  }

  ghost function Holders(s: Server, t: string): set<nat> {
    set r | r in s.requests && Carried(s.requests[r]) == Some(t)
  }

  ghost function Entries(s: Server, t: string): set<string> {
    set id | id in s.leaseTenant && s.leaseTenant[id] == t
  }

  ghost function Carriers(s: Server, id: string): set<nat> {
    set r | r in s.requests && CarriesLease(s.requests[r], id)
  }

  ghost function OpenOf(s: Server, t: string): set<string> {
    set id | id in s.plane.leases && Open(s.plane.leases[id]) && s.plane.leases[id].tenant == t
  }

  /** Leases of this incarnation that owe exactly one slot. */
  ghost predicate Charged(s: Server, id: string) {
    id in s.plane.leases && TenantOf(s, id) != "" && id !in s.exempt
  }

  function One(b: bool): nat { if b then 1 else 0 }

  // ----- Invariant -----

  predicate InCritical(p: Phase) {
    p.Remembering? || p.Reconciling? || p.RememberRelease?
  }

  /** `tenantMu` is held exactly by the request inside its critical section. */
  ghost predicate LockHeld(s: Server) {
    && (forall r :: r in s.requests && InCritical(s.requests[r]) ==> s.lock == Some(r))
    && (s.lock.Some? ==> s.lock.value in s.requests && InCritical(s.requests[s.lock.value]))
  }

  ghost predicate OwnsLease(s: Server, id: string, t: string) {
    id in s.plane.leases && TenantOf(s, id) == t && t != ""
  }

  ghost predicate PhaseFact(s: Server, p: Phase) {
    match p
    case SubmitRefused(t) => t != ""
    case SubmitAccepted(id, t) => OwnsLease(s, id, t)
    case Remembering(id, t) => OwnsLease(s, id, t) && id in s.leaseTenant
    case Reconciling(id, t, sawTerminal) => OwnsLease(s, id, t) && id in s.leaseTenant && (sawTerminal ==> IsTerminal(s, id))
    case RememberRelease(id, t) => OwnsLease(s, id, t) && IsTerminal(s, id)
    case Finished(id) => IsTerminal(s, id)
    case Releasing(id, t) => OwnsLease(s, id, t) && IsTerminal(s, id)
    case _ => true
  }

  ghost predicate PhaseFacts(s: Server) {
    forall r :: r in s.requests ==> PhaseFact(s, s.requests[r])
  }

  ghost predicate EntryFacts(s: Server) {
    forall id :: id in s.leaseTenant ==> OwnsLease(s, id, s.leaseTenant[id])
  }

  ghost predicate HistoryFacts(s: Server) {
    && (forall id :: id in s.released ==> IsTerminal(s, id))
    && (forall id :: id in s.exempt ==> IsTerminal(s, id))
  }

  /** Conservation per tenant: the counter is the number of slots in the map and in flight. */
  ghost predicate UsageExact(s: Server) {
    forall t :: t != "" ==> Used(s, t) == |Entries(s, t)| + |Holders(s, t)|
  }

  /** Conservation per lease: its one slot is in the map, in flight, or given back: never two of these. */
  ghost predicate SlotOnce(s: Server) {
    forall id :: One(id in s.leaseTenant) + |Carriers(s, id)| + s.released[id] == One(Charged(s, id))
  }

  /** The request will take the slot of a finished lease out of the map. */
  predicate WillClear(p: Phase, id: string) {
    p == Finished(id) || (p.Remembering? && p.id == id) || (p.Reconciling? && p.id == id && p.sawTerminal)
  }

  /** A finished lease still in the map has a request on its way to clear it. */
  ghost predicate NoOrphans(s: Server) {
    forall id :: id in s.leaseTenant && IsTerminal(s, id) ==>
      exists r :: r in s.requests && WillClear(s.requests[r], id)
  }

  ghost predicate Consistent(s: Server) {
    && Valid(s.plane) && LockHeld(s) && PhaseFacts(s) && EntryFacts(s) && HistoryFacts(s)
    && UsageExact(s) && SlotOnce(s) && NoOrphans(s)
  }

  // ----- Counting one change -----

  lemma HoldersAfter(s: Server, u: Server, r: nat, p: Phase, t: string)
    requires u.requests == s.requests[r := p]
    ensures |Holders(u, t)| == |Holders(s, t)| - One(r in s.requests && Carried(s.requests[r]) == Some(t)) + One(Carried(p) == Some(t))
  {
    hide Carried;
    var rest := Holders(s, t) - {r};
    assert Holders(s, t) == if r in s.requests && Carried(s.requests[r]) == Some(t) then rest + {r} else rest;
    assert Holders(u, t) == if Carried(p) == Some(t) then rest + {r} else rest;
  }

  lemma CarriersAfter(s: Server, u: Server, r: nat, p: Phase, id: string)
    requires u.requests == s.requests[r := p]
    ensures |Carriers(u, id)| == |Carriers(s, id)| - One(r in s.requests && CarriesLease(s.requests[r], id)) + One(CarriesLease(p, id))
  {
    hide CarriesLease;
    var rest := Carriers(s, id) - {r};
    assert Carriers(s, id) == if r in s.requests && CarriesLease(s.requests[r], id) then rest + {r} else rest;
    assert Carriers(u, id) == if CarriesLease(p, id) then rest + {r} else rest;
  }

  lemma EntriesAdded(s: Server, u: Server, id: string, v: string, t: string)
    requires u.leaseTenant == s.leaseTenant[id := v] && id !in s.leaseTenant
    ensures |Entries(u, t)| == |Entries(s, t)| + One(v == t)
  {
    assert Entries(u, t) == if v == t then Entries(s, t) + {id} else Entries(s, t);
  }

  lemma EntriesRemoved(s: Server, u: Server, id: string, t: string)
    requires u.leaseTenant == s.leaseTenant - {id} && id in s.leaseTenant
    ensures |Entries(u, t)| == |Entries(s, t)| - One(s.leaseTenant[id] == t)
  {
    assert Entries(s, t) == if s.leaseTenant[id] == t then Entries(u, t) + {id} else Entries(u, t);
  }

  // ----- The counters stay exact -----

  /** Slots move only as the counter moves: this is what every step has to show per tenant. */
  lemma UsageStays(s: Server, u: Server, r: nat, p: Phase)
    requires UsageExact(s) && u.requests == s.requests[r := p]
    requires forall t :: t != "" ==>
               Used(u, t) + |Entries(s, t)| + One(r in s.requests && Carried(s.requests[r]) == Some(t))
               == Used(s, t) + |Entries(u, t)| + One(Carried(p) == Some(t))
    ensures UsageExact(u)
  {
    forall t | t != "" ensures Used(u, t) == |Entries(u, t)| + |Holders(u, t)| {
      HoldersAfter(s, u, r, p, t);
    }
  }

  lemma SlotStays(s: Server, u: Server, r: nat, p: Phase)
    requires SlotOnce(s) && u.requests == s.requests[r := p]
    requires forall id ::
               One(id in u.leaseTenant) + One(CarriesLease(p, id)) + u.released[id] + One(Charged(s, id))
               == One(id in s.leaseTenant) + One(r in s.requests && CarriesLease(s.requests[r], id)) + s.released[id] + One(Charged(u, id))
    ensures SlotOnce(u)
  {
    forall id ensures One(id in u.leaseTenant) + |Carriers(u, id)| + u.released[id] == One(Charged(u, id)) {
      CarriersAfter(s, u, r, p, id);
    }
  }

  lemma EntriesSame(s: Server, u: Server)
    requires u.leaseTenant == s.leaseTenant
    ensures forall t :: Entries(u, t) == Entries(s, t)
  {
  }

  /** A request holding a slot makes the counter positive: no release is ever lost at zero. */
  lemma ReleaseIsReal(s: Server, r: nat, t: string)
    requires UsageExact(s) && t != "" && r in s.requests && Carried(s.requests[r]) == Some(t)
    ensures Used(s, t) >= 1
  {
    assert r in Holders(s, t);
  }

  /** The plane only gained or finished leases; tenants never change. */
  ghost predicate PlaneAdvanced(s: State, u: State) {
    forall id :: id in s.leases ==>
      id in u.leases && u.leases[id].tenant == s.leases[id].tenant && (Terminal(s.leases[id]) ==> Terminal(u.leases[id]))
  }

  lemma FactsStay(s: Server, u: Server, r: nat, p: Phase)
    requires PhaseFacts(s) && HistoryFacts(s) && u.requests == s.requests[r := p]
    requires PlaneAdvanced(s.plane, u.plane)
    requires forall id :: id in s.leaseTenant ==> id in u.leaseTenant || !(exists q :: q in s.requests && q != r && InCritical(s.requests[q]))
    requires PhaseFact(u, p)
    requires forall id :: id in u.released ==> id in s.released || IsTerminal(u, id)
    requires u.exempt == s.exempt
    ensures PhaseFacts(u) && HistoryFacts(u)
  {
    forall q | q in u.requests ensures PhaseFact(u, u.requests[q]) {
      if q != r {
        assert PhaseFact(s, s.requests[q]);
      }
    }
  }

  lemma OrphansStay(s: Server, u: Server, r: nat, p: Phase)
    requires NoOrphans(s) && u.requests == s.requests[r := p]
    requires forall id :: id in u.leaseTenant && IsTerminal(u, id) ==>
               WillClear(p, id) || (id in s.leaseTenant && IsTerminal(s, id) && !(r in s.requests && WillClear(s.requests[r], id)))
    ensures NoOrphans(u)
  {
    forall id | id in u.leaseTenant && IsTerminal(u, id)
      ensures exists q :: q in u.requests && WillClear(u.requests[q], id)
    {
      if WillClear(p, id) {
        assert u.requests[r] == p;
      } else {
        var q :| q in s.requests && WillClear(s.requests[q], id);
        assert u.requests[q] == s.requests[q];
      }
    }
  }

  // ----- Every step keeps the invariant -----

  lemma FactOf(s: Server, r: nat)
    requires PhaseFacts(s) && r in s.requests
    ensures PhaseFact(s, s.requests[r])
  {
  }

  /** A request that only changes its phase, carrying the same slot as before. */
  lemma RelabelKeeps(s: Server, r: nat, p: Phase)
    requires Consistent(s) && r in s.requests && Neutral(s.requests[r]) && Neutral(p)
    requires Carried(p) == Carried(s.requests[r]) && PhaseFact(s, p)
    ensures Consistent(Enter(s, r, p))
  {
    hide Valid, UsageExact, SlotOnce, NoOrphans, HistoryFacts, PhaseFacts, Entries, Holders, Carriers;
    var u := Enter(s, r, p);
    assert UsageExact(u) by {
      hide PhaseFact, WillClear, IsTerminal, CarriesLease, InCritical;
      EntriesSame(s, u);
      UsageStays(s, u, r, p);
    }
    assert SlotOnce(u) by {
      hide PhaseFact, WillClear, Carried, InCritical, Used;
      SlotStays(s, u, r, p);
    }
    assert PhaseFacts(u) && HistoryFacts(u) by {
      hide WillClear, Carried, CarriesLease, Used;
      FactsStay(s, u, r, p);
    }
    assert NoOrphans(u) by {
      hide Carried, CarriesLease, Used;
      OrphansStay(s, u, r, p);
    }
  }

  lemma ReserveKeeps(s: Server, r: nat, m: Submission)
    requires Consistent(s) && r in s.requests && s.requests[r] == SubmitStart(m) && m.tenant != ""
    ensures Consistent(Enter(s.(usage := Charge(s, m.tenant)), r, SubmitReserved(m)))
  {
    hide Valid, UsageExact, SlotOnce, NoOrphans, HistoryFacts, PhaseFacts, Entries, Holders, Carriers;
    var p := SubmitReserved(m);
    var u := Enter(s.(usage := Charge(s, m.tenant)), r, p);
    assert UsageExact(u) by {
      hide PhaseFact, WillClear, IsTerminal, CarriesLease, InCritical;
      EntriesSame(s, u);
      UsageStays(s, u, r, p);
    }
    assert SlotOnce(u) by {
      hide PhaseFact, WillClear, Carried, InCritical, Used;
      SlotStays(s, u, r, p);
    }
    assert PhaseFacts(u) && HistoryFacts(u) by {
      hide WillClear, Carried, CarriesLease, Used;
      FactsStay(s, u, r, p);
    }
    assert NoOrphans(u) by {
      hide Carried, CarriesLease, Used;
      OrphansStay(s, u, r, p);
    }
  }

  lemma SubmitStartKeeps(s: Server, r: nat, now: Instant)
    requires Consistent(s) && r in s.requests && s.requests[r].SubmitStart?
    ensures Consistent(Advance(s, r, now))
  {
    hide Consistent;
    var m := s.requests[r].m;
    if m.tenant == "" {
      RelabelKeeps(s, r, SubmitReserved(m));
    } else if CanSchedule(s, m.tenant) {
      ReserveKeeps(s, r, m);
    } else {
      RelabelKeeps(s, r, Done);
    }
  }

  lemma SubmitValid(s: State, m: Submission)
    requires Valid(s) && SubmissionAccepted(m)
    ensures Valid(Submit(s, m)) && LeaseId(s.nextID + 1) !in s.leases
  {
    hide QueueIsPending, HoldersRegistered, WithinLimits, WorkersWellFormed, FieldsDurable, MarksDurable, SubmissionAccepted, Submit, LeaseId;
    FreshId(s);
    SubmitKeeps(s, m);
    SubmitDurable(s, m);
  }

  lemma SubmitPlane(s: State, m: Submission)
    requires Valid(s) && SubmissionAccepted(m)
    ensures var id := LeaseId(s.nextID + 1);
            var u := Submit(s, m);
            && Valid(u) && PlaneAdvanced(s, u) && id !in s.leases
            && u.leases.Keys == s.leases.Keys + {id}
            && u.leases[id].tenant == m.tenant && !Terminal(u.leases[id])
            && forall k :: k in s.leases ==> u.leases[k] == s.leases[k]
  {
    hide Valid, NormalTokens, LeaseId, SubmissionAccepted;
    SubmitValid(s, m);
  }

  lemma NotExempt(s: Server, id: string)
    requires HistoryFacts(s) && id !in s.plane.leases
    ensures id !in s.exempt
  {
  }

  lemma AdmitKeeps(s: Server, u: Server, r: nat, m: Submission, id: string)
    requires Consistent(s) && r in s.requests && s.requests[r] == SubmitReserved(m)
    requires PlaneAdvanced(s.plane, u.plane) && Valid(u.plane)
    requires id !in s.plane.leases && u.plane.leases.Keys == s.plane.leases.Keys + {id}
    requires u.plane.leases[id].tenant == m.tenant && !Terminal(u.plane.leases[id])
    requires forall k :: k in s.plane.leases ==> u.plane.leases[k] == s.plane.leases[k]
    requires u == Enter(s.(plane := u.plane), r, if m.tenant == "" then Done else SubmitAccepted(id, m.tenant))
    ensures Consistent(u)
  {
    hide Valid, UsageExact, SlotOnce, NoOrphans, HistoryFacts, PhaseFacts, Entries, Holders, Carriers;
    var p := u.requests[r];
    NotExempt(s, id);
    assert UsageExact(u) by {
      hide PhaseFact, WillClear, IsTerminal, CarriesLease, InCritical;
      EntriesSame(s, u);
      UsageStays(s, u, r, p);
    }
    assert SlotOnce(u) by {
      hide PhaseFact, WillClear, Carried, InCritical, Used;
      SlotStays(s, u, r, p);
    }
    assert PhaseFacts(u) && HistoryFacts(u) by {
      hide WillClear, Carried, CarriesLease, Used;
      FactsStay(s, u, r, p);
    }
    assert NoOrphans(u) by {
      hide Carried, CarriesLease, Used;
      OrphansStay(s, u, r, p);
    }
  }

  lemma SubmitReservedKeeps(s: Server, r: nat, now: Instant)
    requires Consistent(s) && r in s.requests && s.requests[r].SubmitReserved?
    ensures Consistent(Advance(s, r, now))
  {
    hide UsageExact, SlotOnce, NoOrphans, HistoryFacts, PhaseFacts, EntryFacts, LockHeld, Valid, SubmissionAccepted, Submit;
    var m := s.requests[r].m;
    if SubmissionAccepted(m) {
      SubmitPlane(s.plane, m);
      AdmitKeeps(s, Advance(s, r, now), r, m, LeaseId(s.plane.nextID + 1));
    } else {
      RelabelKeeps(s, r, if m.tenant == "" then Done else SubmitRefused(m.tenant));
    }
  }

  lemma SubmitRefusedKeeps(s: Server, r: nat, now: Instant)
    requires Consistent(s) && r in s.requests && s.requests[r].SubmitRefused?
    ensures Consistent(Advance(s, r, now))
  {
    hide Valid, UsageExact, SlotOnce, NoOrphans, HistoryFacts, PhaseFacts, Entries, Holders, Carriers;
    FactOf(s, r);
    var u := Advance(s, r, now);
    ReleaseIsReal(s, r, s.requests[r].tenant);
    assert UsageExact(u) by {
      hide PhaseFact, WillClear, IsTerminal, CarriesLease, InCritical;
      EntriesSame(s, u);
      UsageStays(s, u, r, Done);
    }
    assert SlotOnce(u) by {
      hide PhaseFact, WillClear, Carried, InCritical, Used;
      SlotStays(s, u, r, Done);
    }
    assert PhaseFacts(u) && HistoryFacts(u) by {
      hide WillClear, Carried, CarriesLease, Used;
      FactsStay(s, u, r, Done);
    }
    assert NoOrphans(u) by {
      hide Carried, CarriesLease, Used;
      OrphansStay(s, u, r, Done);
    }
  }

  /** A lease whose slot a request carries is not in the map and was not given back. */
  lemma CarriedIsNotStored(s: Server, r: nat, id: string)
    requires SlotOnce(s) && r in s.requests && CarriesLease(s.requests[r], id)
    ensures id !in s.leaseTenant && s.released[id] == 0 && Charged(s, id)
  {
    assert r in Carriers(s, id);
    assert |Carriers(s, id)| >= 1;
  }

  lemma SubmitAcceptedKeeps(s: Server, r: nat, now: Instant)
    requires Consistent(s) && r in s.requests && s.requests[r].SubmitAccepted?
    ensures Consistent(Advance(s, r, now))
  {
    hide Valid, UsageExact, SlotOnce, NoOrphans, HistoryFacts, PhaseFacts, Entries, Holders, Carriers;
    FactOf(s, r);
    if s.lock.None? {
      var id, t := s.requests[r].id, s.requests[r].tenant;
      var u := Advance(s, r, now);
      var p := u.requests[r];
      CarriedIsNotStored(s, r, id);
      assert UsageExact(u) by {
        hide PhaseFact, WillClear, IsTerminal, CarriesLease, InCritical;
        forall k | k != "" ensures |Entries(u, k)| == |Entries(s, k)| + One(t == k) {
          EntriesAdded(s, u, id, t, k);
        }
        UsageStays(s, u, r, p);
      }
      assert SlotOnce(u) by {
        hide PhaseFact, WillClear, Carried, InCritical, Used;
        SlotStays(s, u, r, p);
      }
      assert PhaseFacts(u) && HistoryFacts(u) by {
        hide WillClear, Carried, CarriesLease, Used;
        FactsStay(s, u, r, p);
      }
      assert NoOrphans(u) by {
        hide Carried, CarriesLease, Used;
        OrphansStay(s, u, r, p);
      }
    }
  }

  lemma RememberingKeeps(s: Server, r: nat, now: Instant)
    requires Consistent(s) && r in s.requests && s.requests[r].Remembering?
    ensures Consistent(Advance(s, r, now))
  {
    hide Valid, UsageExact, SlotOnce, NoOrphans, HistoryFacts, PhaseFacts, Entries, Holders, Carriers;
    FactOf(s, r);
    var u := Advance(s, r, now);
    var p := u.requests[r];
    assert UsageExact(u) by {
      hide PhaseFact, WillClear, IsTerminal, CarriesLease, InCritical;
      EntriesSame(s, u);
      UsageStays(s, u, r, p);
    }
    assert SlotOnce(u) by {
      hide PhaseFact, WillClear, Carried, InCritical, Used;
      SlotStays(s, u, r, p);
    }
    assert PhaseFacts(u) && HistoryFacts(u) by {
      hide WillClear, Carried, CarriesLease, Used;
      FactsStay(s, u, r, p);
    }
    assert NoOrphans(u) by {
      hide Carried, CarriesLease, Used;
      OrphansStay(s, u, r, p);
    }
  }

  lemma ReconcilingKeeps(s: Server, r: nat, now: Instant)
    requires Consistent(s) && r in s.requests && s.requests[r].Reconciling?
    ensures Consistent(Advance(s, r, now))
  {
    hide Valid, UsageExact, SlotOnce, NoOrphans, HistoryFacts, PhaseFacts, Entries, Holders, Carriers;
    FactOf(s, r);
    var id := s.requests[r].id;
    var u := Advance(s, r, now);
    var p := u.requests[r];
    assert UsageExact(u) by {
      hide PhaseFact, WillClear, IsTerminal, CarriesLease, InCritical;
      if s.requests[r].sawTerminal {
        forall k | k != "" ensures |Entries(u, k)| == |Entries(s, k)| - One(s.leaseTenant[id] == k) {
          EntriesRemoved(s, u, id, k);
        }
      } else {
        EntriesSame(s, u);
      }
      UsageStays(s, u, r, p);
    }
    assert SlotOnce(u) by {
      hide PhaseFact, WillClear, Carried, InCritical, Used;
      SlotStays(s, u, r, p);
    }
    assert PhaseFacts(u) && HistoryFacts(u) by {
      hide WillClear, Carried, CarriesLease, Used;
      FactsStay(s, u, r, p);
    }
    assert NoOrphans(u) by {
      hide Carried, CarriesLease, Used;
      OrphansStay(s, u, r, p);
    }
  }

  lemma ReleasedKeeps(s: Server, r: nat, now: Instant)
    requires Consistent(s) && r in s.requests && (s.requests[r].RememberRelease? || s.requests[r].Releasing?)
    ensures Consistent(Advance(s, r, now))
  {
    hide Valid, UsageExact, SlotOnce, NoOrphans, HistoryFacts, PhaseFacts, Entries, Holders, Carriers;
    FactOf(s, r);
    var u := Advance(s, r, now);
    ReleaseIsReal(s, r, s.requests[r].tenant);
    assert UsageExact(u) by {
      hide PhaseFact, WillClear, IsTerminal, CarriesLease, InCritical;
      EntriesSame(s, u);
      UsageStays(s, u, r, Done);
    }
    assert SlotOnce(u) by {
      hide PhaseFact, WillClear, Carried, InCritical, Used;
      SlotStays(s, u, r, Done);
    }
    assert PhaseFacts(u) && HistoryFacts(u) by {
      hide WillClear, Carried, CarriesLease, Used;
      FactsStay(s, u, r, Done);
    }
    assert NoOrphans(u) by {
      hide Carried, CarriesLease, Used;
      OrphansStay(s, u, r, Done);
    }
  }

  /** One open lease becomes final. */
  ghost predicate OneFinished(s: State, u: State, id: string) {
    && u.leases.Keys == s.leases.Keys && id in s.leases && Terminal(u.leases[id])
    && u.leases[id].tenant == s.leases[id].tenant
    && forall k :: k in s.leases && k != id ==> u.leases[k] == s.leases[k]
  }

  lemma CompletePlane(s: State, w: string, id: string, result: string, now: Instant)
    requires Valid(s) && CompletionWellFormed(w, id, result) && CanComplete(s, w, id)
    ensures Valid(Complete(s, w, id, result, now)) && OneFinished(s, Complete(s, w, id, result, now), id)
  {
    CompleteKeeps(s, w, id, result, now);
    CompleteDurable(s, w, id, result, now);
  }

  lemma CancelPlane(s: State, a: string, id: string, now: Instant)
    requires Valid(s) && ValidWorkerID(a) && CanCancel(s, id)
    ensures Valid(Cancel(s, a, id, now)) && OneFinished(s, Cancel(s, a, id, now), id)
  {
    CancelKeeps(s, a, id, now);
    CancelDurable(s, a, id, now);
  }

  lemma FinishKeeps(s: Server, u: Server, r: nat, id: string)
    requires Consistent(s) && r in s.requests && (s.requests[r].CompleteStart? || s.requests[r].CancelStart?)
    requires Valid(u.plane) && OneFinished(s.plane, u.plane, id)
    requires u == Enter(s.(plane := u.plane), r, Finished(id))
    ensures Consistent(u)
  {
    hide Valid, UsageExact, SlotOnce, NoOrphans, HistoryFacts, PhaseFacts, Entries, Holders, Carriers;
    FactOf(s, r);
    var p := Finished(id);
    assert UsageExact(u) by {
      hide PhaseFact, WillClear, IsTerminal, CarriesLease, InCritical;
      EntriesSame(s, u);
      UsageStays(s, u, r, p);
    }
    assert SlotOnce(u) by {
      hide PhaseFact, WillClear, Carried, InCritical, Used;
      SlotStays(s, u, r, p);
    }
    assert PhaseFacts(u) && HistoryFacts(u) by {
      hide WillClear, Carried, CarriesLease, Used;
      FactsStay(s, u, r, p);
    }
    assert NoOrphans(u) by {
      hide Carried, CarriesLease, Used;
      OrphansStay(s, u, r, p);
    }
  }

  /** A phase that is outside the lock, carries no lease's slot and clears nothing. */
  predicate Neutral(p: Phase) {
    p.SubmitStart? || p.SubmitReserved? || p.SubmitRefused? || p.CompleteStart? || p.CancelStart? || p.Done?
  }

  lemma FinishStartKeeps(s: Server, r: nat, now: Instant)
    requires Consistent(s) && r in s.requests && (s.requests[r].CompleteStart? || s.requests[r].CancelStart?)
    ensures Consistent(Advance(s, r, now))
  {
    hide Valid, OneFinished, UsageExact, SlotOnce, NoOrphans, PhaseFacts, EntryFacts, HistoryFacts, LockHeld, Complete, Cancel;
    var p := s.requests[r];
    if CompleteAllowed(s, p) {
      CompletePlane(s.plane, p.worker, p.id, p.result, now);
      FinishKeeps(s, Advance(s, r, now), r, p.id);
    } else if CancelAllowed(s, p) {
      CancelPlane(s.plane, p.actor, p.id, now);
      FinishKeeps(s, Advance(s, r, now), r, p.id);
    } else {
      RelabelKeeps(s, r, Done);
    }
  }

  lemma FinishedKeeps(s: Server, r: nat, now: Instant)
    requires Consistent(s) && r in s.requests && s.requests[r].Finished?
    ensures Consistent(Advance(s, r, now))
  {
    hide Valid, UsageExact, SlotOnce, NoOrphans, HistoryFacts, PhaseFacts, Entries, Holders, Carriers;
    FactOf(s, r);
    var id := s.requests[r].id;
    if s.lock.None? {
      var u := Advance(s, r, now);
      var p := u.requests[r];
      assert UsageExact(u) by {
        hide PhaseFact, WillClear, IsTerminal, CarriesLease, InCritical;
        if id in s.leaseTenant {
          forall k | k != "" ensures |Entries(u, k)| == |Entries(s, k)| - One(s.leaseTenant[id] == k) {
            EntriesRemoved(s, u, id, k);
          }
        } else {
          EntriesSame(s, u);
        }
        UsageStays(s, u, r, p);
      }
      assert SlotOnce(u) by {
        hide PhaseFact, WillClear, Carried, InCritical, Used;
        SlotStays(s, u, r, p);
      }
      assert PhaseFacts(u) && HistoryFacts(u) by {
        hide WillClear, Carried, CarriesLease, Used;
        FactsStay(s, u, r, p);
      }
      assert NoOrphans(u) by {
        hide Carried, CarriesLease, Used;
        OrphansStay(s, u, r, p);
      }
    }
  }

  lemma AdvanceKeeps(s: Server, r: nat, now: Instant)
    requires Consistent(s) && r in s.requests
    ensures Consistent(Advance(s, r, now))
  {
    hide Consistent;
    match s.requests[r]
    case SubmitStart(_) => SubmitStartKeeps(s, r, now);
    case SubmitReserved(_) => SubmitReservedKeeps(s, r, now);
    case SubmitRefused(_) => SubmitRefusedKeeps(s, r, now);
    case SubmitAccepted(_, _) => SubmitAcceptedKeeps(s, r, now);
    case Remembering(_, _) => RememberingKeeps(s, r, now);
    case Reconciling(_, _, _) => ReconcilingKeeps(s, r, now);
    case RememberRelease(_, _) => ReleasedKeeps(s, r, now);
    case CompleteStart(_, _, _) => FinishStartKeeps(s, r, now);
    case CancelStart(_, _) => FinishStartKeeps(s, r, now);
    case Finished(_) => FinishedKeeps(s, r, now);
    case Releasing(_, _) => ReleasedKeeps(s, r, now);
    case Done =>
  }

  // ----- What the handlers do to the plane -----

  /** A completion the plane takes: well formed, and from the worker that holds the lease. */
  predicate MayComplete(s: State, worker: string, id: string, result: string) {
    && ValidWorkerID(worker) && 0 < |id| <= 128 && |result| <= 0x10_0000
    && id in s.leases && s.leases[id].state == Assigned && s.leases[id].worker == worker
  }

  predicate MayCancel(s: State, actor: string, id: string) {
    && ValidWorkerID(actor) && 0 < |id| <= 128
    && id in s.leases && (s.leases[id].state == Pending || s.leases[id].state == Assigned)
  }

  /** The tenant's own limit, or the default, is not positive or not yet reached. */
  predicate HasRoom(s: Server, tenant: string) {
    var limit := if tenant in s.limits then s.limits[tenant] else s.defaultLimit;
    limit <= 0 || (if tenant in s.usage then s.usage[tenant] else 0) < limit
  }

  /** Everything a request's next step does to the plane, and where the request goes from there. */
  ghost predicate HandlerEffect(s: Server, p: Phase, u: Server, q: Phase, now: int) {
    match p
    case CompleteStart(w, id, result) =>
      if MayComplete(s.plane, w, id, result) then Committed(s.plane, u.plane, w, id, result, now) && q == Finished(id)
      else u.plane == s.plane && q == Done
    case CancelStart(a, id) =>
      if MayCancel(s.plane, a, id) then WasCanceled(s.plane, u.plane, a, id, now) && q == Finished(id)
      else u.plane == s.plane && q == Done
    case SubmitStart(m) =>
      u.plane == s.plane && q == if m.tenant == "" || HasRoom(s, m.tenant) then SubmitReserved(m) else Done
    case SubmitReserved(m) =>
      if SubmissionAccepted(m) then
        var id := LeaseId(s.plane.nextID + 1);
        && WasSubmitted(s.plane, u.plane, m, id)
        && q == if m.tenant == "" then Done else SubmitAccepted(id, m.tenant)
      else u.plane == s.plane && q == if m.tenant == "" then Done else SubmitRefused(m.tenant)
    case _ => u.plane == s.plane
  }

  lemma CompleteEffect(s: Server, r: nat, now: Instant)
    requires Valid(s.plane) && r in s.requests && s.requests[r].CompleteStart?
    ensures HandlerEffect(s, s.requests[r], Advance(s, r, now), Advance(s, r, now).requests[r], now)
  {
    hide Valid, ValidWorkerID, Committed;
    var p := s.requests[r];
    if MayComplete(s.plane, p.worker, p.id, p.result) {
      CompleteMeans(s.plane, p.worker, p.id, p.result, now);
    }
  }

  lemma CancelEffect(s: Server, r: nat, now: Instant)
    requires Valid(s.plane) && r in s.requests && s.requests[r].CancelStart?
    ensures HandlerEffect(s, s.requests[r], Advance(s, r, now), Advance(s, r, now).requests[r], now)
  {
    hide Valid, ValidWorkerID, WasCanceled;
    var p := s.requests[r];
    if MayCancel(s.plane, p.actor, p.id) {
      CancelWrites(s.plane, p.actor, p.id, now);
    }
  }

  lemma SubmitEffect(s: Server, r: nat, now: Instant)
    requires Valid(s.plane) && r in s.requests && s.requests[r].SubmitReserved?
    ensures HandlerEffect(s, s.requests[r], Advance(s, r, now), Advance(s, r, now).requests[r], now)
  {
    hide Valid, WasSubmitted, SubmissionAccepted, LeaseId;
    if SubmissionAccepted(s.requests[r].m) {
      SubmitWrites(s.plane, s.requests[r].m);
    }
  }

  /** A step commits, cancels or submits exactly what its request carries, and else leaves the plane alone. */
  lemma AdvanceMeans(s: Server, r: nat, now: Instant)
    requires Valid(s.plane) && r in s.requests
    ensures HandlerEffect(s, s.requests[r], Advance(s, r, now), Advance(s, r, now).requests[r], now)
  {
    hide Valid, Committed, WasCanceled, WasSubmitted, SubmissionAccepted, CompleteAllowed, CancelAllowed, Submit, Complete, Cancel, LeaseId,
      MayComplete, MayCancel, IsTerminal;
    match s.requests[r]
    case CompleteStart(_, _, _) => CompleteEffect(s, r, now);
    case CancelStart(_, _) => CancelEffect(s, r, now);
    case SubmitReserved(_) => SubmitEffect(s, r, now);
    case _ =>
  }
}
