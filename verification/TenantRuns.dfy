/** Tenant slots over every interleaving of handlers, from a server start on. */
module TenantRuns {
  import opened Wrappers
  import opened Sorting
  import opened Plane
  import opened PlaneSafety
  import opened TenantSlots
  import PlaneRuns
  import Snapshot

  // ----- Starting a server -----

  /** The map of open leases with a tenant. */
  function OpenEntries(plane: State): map<string, string> {
    map id | id in plane.leases && Open(plane.leases[id]) && plane.leases[id].tenant != "" :: plane.leases[id].tenant
  }

  ghost function TenantOpen(plane: State, t: string): set<string> {
    set id | id in plane.leases && Open(plane.leases[id]) && plane.leases[id].tenant == t
  }

  function UsedIn(usage: map<string, nat>, t: string): nat {
    if t in usage then usage[t] else 0
  }

  /** Rebuild the counters and the slot map from the open leases of the plane. */
  method RestoreQuotaUsage(plane: State) returns (usage: map<string, nat>, leaseTenant: map<string, string>)
    requires forall id :: id in plane.leases ==> plane.leases[id].id == id
    ensures leaseTenant == OpenEntries(plane)
    ensures forall t :: t != "" ==> UsedIn(usage, t) == |TenantOpen(plane, t)|
  {
    hide RestoredFor;
    var all := Snapshot.CollectLeases(plane.leases);
    usage, leaseTenant := CountOpen(plane, all);
    AllSeen(plane, all);
    EverythingRestored(plane, usage, leaseTenant);
  }

  /** One pass over the listed leases; those without a tenant or already final are skipped. */
  method CountOpen(plane: State, all: seq<Lease>) returns (usage: map<string, nat>, leaseTenant: map<string, string>)
    requires Snapshot.ListsTable(plane.leases, all)
    ensures RestoredFor(plane, Seen(all, |all|), usage, leaseTenant)
  {
    hide RestoredFor, Snapshot.ListsTable;
    usage, leaseTenant := map[], map[];
    NothingRestored(plane);
    for i := 0 to |all|
      invariant RestoredFor(plane, Seen(all, i), usage, leaseTenant)
    {
      var l := all[i];
      NotYetSeen(plane, all, i, i);
      if l.tenant == "" || (l.state != Pending && l.state != Assigned) {
        RestoreSkip(plane, Seen(all, i), usage, leaseTenant, l.id);
        continue;
      }
      var charged := usage[l.tenant := UsedIn(usage, l.tenant) + 1];
      var listed := leaseTenant[l.id := l.tenant];
      RestoreOne(plane, Seen(all, i), usage, leaseTenant, l.id, l.tenant, charged, listed);
      usage, leaseTenant := charged, listed;
    }
  }

  /** The counters and the map cover exactly the open leases among `done`. */
  ghost predicate RestoredFor(plane: State, done: set<string>, usage: map<string, nat>, leaseTenant: map<string, string>) {
    && (forall id :: id in leaseTenant <==> id in OpenEntries(plane) && id in done)
    && (forall id :: id in leaseTenant ==> leaseTenant[id] == OpenEntries(plane)[id])
    && (forall t :: t != "" ==> UsedIn(usage, t) == |TenantOpen(plane, t) * done|)
  }

  lemma NothingRestored(plane: State)
    ensures RestoredFor(plane, {}, map[], map[])
  {
    assert forall t :: TenantOpen(plane, t) * {} == {};
  }

  lemma EverythingRestored(plane: State, usage: map<string, nat>, leaseTenant: map<string, string>)
    requires RestoredFor(plane, plane.leases.Keys, usage, leaseTenant)
    ensures leaseTenant == OpenEntries(plane)
    ensures forall t :: t != "" ==> UsedIn(usage, t) == |TenantOpen(plane, t)|
  {
    assert forall t :: TenantOpen(plane, t) * plane.leases.Keys == TenantOpen(plane, t);
  }

  lemma RestoreSkip(plane: State, done: set<string>, usage: map<string, nat>, leaseTenant: map<string, string>, id: string)
    requires RestoredFor(plane, done, usage, leaseTenant) && id in plane.leases && id !in done
    requires plane.leases[id].tenant == "" || !Open(plane.leases[id])
    ensures RestoredFor(plane, done + {id}, usage, leaseTenant)
  {
    hide TenantOpen;
    forall t | t != "" ensures |TenantOpen(plane, t) * (done + {id})| == |TenantOpen(plane, t) * done| {
      OneMoreDone(plane, done, id, t);
    }
  }

  lemma RestoreOne(plane: State, done: set<string>, usage: map<string, nat>, leaseTenant: map<string, string>,
                   id: string, t: string, charged: map<string, nat>, listed: map<string, string>)
    requires RestoredFor(plane, done, usage, leaseTenant) && id in plane.leases && id !in done
    requires t == plane.leases[id].tenant && t != "" && Open(plane.leases[id])
    requires charged == usage[t := UsedIn(usage, t) + 1] && listed == leaseTenant[id := t]
    ensures RestoredFor(plane, done + {id}, charged, listed)
  {
    hide TenantOpen;
    forall k | k != "" ensures UsedIn(charged, k) == |TenantOpen(plane, k) * (done + {id})| {
      OneMoreDone(plane, done, id, k);
    }
  }

  /** The identifiers of the first `n` leases of a list. */
  ghost function Seen(all: seq<Lease>, n: nat): set<string>
    requires n <= |all|
  {
    if n == 0 then {} else Seen(all, n - 1) + {all[n - 1].id}
  }

  lemma {:induction false} NotYetSeen(plane: State, all: seq<Lease>, n: nat, i: nat)
    requires Snapshot.ListsTable(plane.leases, all) && n <= i < |all|
    ensures all[i].id in plane.leases && plane.leases[all[i].id] == all[i]
    ensures all[i].id !in Seen(all, n)
  {
    assert all[i] in all;
    if n > 0 {
      NotYetSeen(plane, all, n - 1, i);
      assert all[n - 1] in all && all[n - 1] != all[i];
    }
  }

  lemma {:induction false} SeenMember(all: seq<Lease>, n: nat, id: string)
    requires n <= |all|
    ensures id in Seen(all, n) <==> exists j :: 0 <= j < n && all[j].id == id
  {
    if n > 0 {
      SeenMember(all, n - 1, id);
    }
  }

  lemma OneMoreDone(plane: State, done: set<string>, id: string, t: string)
    requires id in plane.leases && id !in done
    ensures |TenantOpen(plane, t) * (done + {id})| ==
            |TenantOpen(plane, t) * done| + One(Open(plane.leases[id]) && t == plane.leases[id].tenant)
  {
    var open := TenantOpen(plane, t);
    assert open * (done + {id}) == if id in open then open * done + {id} else open * done;
  }

  lemma AllSeen(plane: State, all: seq<Lease>)
    requires Snapshot.ListsTable(plane.leases, all)
    ensures Seen(all, |all|) == plane.leases.Keys
  {
    forall id ensures id in Seen(all, |all|) <==> id in plane.leases {
      SeenMember(all, |all|, id);
      if id in plane.leases {
        var j :| 0 <= j < |all| && all[j] == plane.leases[id];
        assert all[j].id == id;
      }
      if id in Seen(all, |all|) {
        var j :| 0 <= j < |all| && all[j].id == id;
        assert all[j] in all;
      }
    }
  }

  /** A server right after `RestoreQuotaUsage`, before its first request. */
  ghost predicate Fresh(s: Server) {
    && Valid(s.plane) && s.lock.None? && s.requests == map[] && s.released == multiset{}
    && s.leaseTenant == OpenEntries(s.plane)
    && (forall t :: t != "" ==> Used(s, t) == |TenantOpen(s.plane, t)|)
    && s.exempt == set id | id in s.plane.leases && Terminal(s.plane.leases[id])
  }

  lemma KnownStates(plane: State, id: string)
    requires Durable(plane) && id in plane.leases
    ensures Open(plane.leases[id]) || Terminal(plane.leases[id])
  {
    hide FieldsDurable;
    assert MarksDurable(plane.leases[id]);
  }

  lemma FreshIsConsistent(s: Server)
    requires Fresh(s)
    ensures Consistent(s)
  {
    hide Valid;
    forall t | t != "" ensures Used(s, t) == |Entries(s, t)| + |Holders(s, t)| {
      assert Entries(s, t) == TenantOpen(s.plane, t);
      assert Holders(s, t) == {};
    }
    forall id ensures One(id in s.leaseTenant) + |Carriers(s, id)| + s.released[id] == One(Charged(s, id)) {
      assert Carriers(s, id) == {};
      if id in s.plane.leases {
        ValidStates(s.plane, id);
      }
    }
  }

  lemma ValidStates(plane: State, id: string)
    requires Valid(plane) && id in plane.leases
    ensures Open(plane.leases[id]) || Terminal(plane.leases[id])
  {
    KnownStates(plane, id);
  }

  // ----- Runs -----

  lemma ArriveKeeps(s: Server, r: nat, p: Phase)
    requires Consistent(s) && r !in s.requests && StartPhase(p)
    ensures Consistent(Enter(s, r, p))
  {
    hide Valid, UsageExact, SlotOnce, NoOrphans, HistoryFacts, PhaseFacts, Entries, Holders, Carriers;
    var u := Enter(s, r, p);
    EntriesSame(s, u);
    UsageStays(s, u, r, p);
    SlotStays(s, u, r, p);
    FactsStay(s, u, r, p);
    OrphansStay(s, u, r, p);
  }

  /** A worker's call neither adds nor finishes leases. */
  ghost predicate SameLeases(s: State, u: State) {
    && u.leases.Keys == s.leases.Keys
    && forall id :: id in s.leases ==>
         u.leases[id].tenant == s.leases[id].tenant && Terminal(u.leases[id]) == Terminal(s.leases[id])
  }

  lemma WorkerCallPlane(s: State, c: PlaneRuns.Call)
    requires Valid(s) && SlotFree(c)
    ensures Valid(PlaneRuns.Step(s, c)) && SameLeases(s, PlaneRuns.Step(s, c))
  {
    hide PlaneRuns.Step, PlaneRuns.Accepted, Inv, Durable;
    PlaneRuns.StepKeeps(s, c);
    var u := PlaneRuns.Step(s, c);
    forall id | id in s.leases
      ensures id in u.leases && u.leases[id].tenant == s.leases[id].tenant && Terminal(u.leases[id]) == Terminal(s.leases[id])
    {
      PlaneRuns.StepMovesLease(s, c, id);
    }
    forall id | id in u.leases ensures id in s.leases {
      if id !in s.leases {
        PlaneRuns.StepCreatesLease(s, c, id);
      }
    }
  }

  lemma WorkerCallKeeps(s: Server, plane: State)
    requires Consistent(s) && Valid(plane) && SameLeases(s.plane, plane)
    ensures Consistent(s.(plane := plane))
  {
    hide Valid, UsageExact, SlotOnce, NoOrphans, PhaseFacts;
    SameLeasesCount(s, plane);
    SameLeasesFacts(s, plane);
  }

  lemma SameLeasesCount(s: Server, plane: State)
    requires UsageExact(s) && SlotOnce(s) && SameLeases(s.plane, plane)
    ensures UsageExact(s.(plane := plane)) && SlotOnce(s.(plane := plane))
  {
    var u := s.(plane := plane);
    forall t | t != "" ensures Used(u, t) == |Entries(u, t)| + |Holders(u, t)| {
      assert Entries(u, t) == Entries(s, t) && Holders(u, t) == Holders(s, t);
    }
    forall id ensures One(id in u.leaseTenant) + |Carriers(u, id)| + u.released[id] == One(Charged(u, id)) {
      assert Carriers(u, id) == Carriers(s, id) && Charged(u, id) == Charged(s, id);
    }
  }

  lemma SameLeasesFacts(s: Server, plane: State)
    requires PhaseFacts(s) && NoOrphans(s) && SameLeases(s.plane, plane)
    ensures PhaseFacts(s.(plane := plane)) && NoOrphans(s.(plane := plane))
  {
    var u := s.(plane := plane);
    assert forall id :: IsTerminal(u, id) == IsTerminal(s, id);
    forall r | r in u.requests ensures PhaseFact(u, u.requests[r]) {
      assert PhaseFact(s, s.requests[r]);
    }
    forall id | id in u.leaseTenant && IsTerminal(u, id) ensures exists r :: r in u.requests && WillClear(u.requests[r], id) {
      var r :| r in s.requests && WillClear(s.requests[r], id);
    }
  }

  lemma NextKeeps(s: Server, move: Move)
    requires Consistent(s)
    ensures Consistent(Next(s, move))
  {
    hide UsageExact, SlotOnce, NoOrphans, HistoryFacts, PhaseFacts, EntryFacts, LockHeld, Advance, Valid;
    match move
    case Arrive(r, p) =>
      if r !in s.requests && StartPhase(p) { ArriveKeeps(s, r, p); }
    case Progress(r, now) =>
      if r in s.requests { AdvanceKeeps(s, r, now); }
    case WorkerCall(c) =>
      if SlotFree(c) {
        WorkerCallPlane(s.plane, c);
        WorkerCallKeeps(s, PlaneRuns.Step(s.plane, c));
      }
  }

  ghost function Run(s: Server, moves: seq<Move>): Server {
    if moves == [] then s else Next(Run(s, moves[..|moves| - 1]), moves[|moves| - 1])
  }

  /** Conservation over every interleaving: exact counters, one slot per lease, no orphaned entry. */
  lemma {:induction false} EveryInterleavingConserves(s: Server, moves: seq<Move>)
    requires Consistent(s)
    ensures Consistent(Run(s, moves))
  {
    hide Consistent, Next;
    if moves != [] {
      EveryInterleavingConserves(s, moves[..|moves| - 1]);
      NextKeeps(Run(s, moves[..|moves| - 1]), moves[|moves| - 1]);
    }
  }

  // ----- What the invariant says -----

  /** A tenant's open leases that are not yet in the map are each on a submit request of their own. */
  lemma OpenIsBacked(s: Server, id: string) returns (r: nat)
    requires Consistent(s) && id in s.plane.leases && Open(s.plane.leases[id]) && TenantOf(s, id) != "" && id !in s.leaseTenant
    ensures r in s.requests && s.requests[r] == SubmitAccepted(id, TenantOf(s, id))
  {
    hide Valid, UsageExact, NoOrphans;
    assert !IsTerminal(s, id);
    assert Charged(s, id) && s.released[id] == 0;
    assert |Carriers(s, id)| == 1;
    assert Carriers(s, id) != {};
    r :| r in Carriers(s, id);
    assert PhaseFact(s, s.requests[r]);
  }

  lemma {:induction false} ImageSize(requests: map<nat, Phase>, rs: set<nat>)
    requires forall r :: r in rs ==> r in requests && requests[r].SubmitAccepted?
    ensures |set r | r in rs :: requests[r].id| <= |rs|
  {
    if rs != {} {
      var r :| r in rs;
      var rest := rs - {r};
      ImageSize(requests, rest);
      assert (set q | q in rs :: requests[q].id) == (set q | q in rest :: requests[q].id) + {requests[r].id};
    }
  }

  /** In every consistent state a tenant's open leases never exceed its counted usage. */
  lemma OpenWithinUsage(s: Server, t: string)
    requires Consistent(s) && t != ""
    ensures |OpenOf(s, t)| <= Used(s, t)
  {
    hide Valid, SlotOnce, NoOrphans, PhaseFacts, HistoryFacts, LockHeld, Holders;
    var stored, flying := OpenOf(s, t) * s.leaseTenant.Keys, OpenOf(s, t) - s.leaseTenant.Keys;
    assert stored <= Entries(s, t);
    SubsetSize(stored, Entries(s, t));
    FlyingWithinHolders(s, t, flying);
    assert OpenOf(s, t) == stored + flying;
  }

  lemma FlyingWithinHolders(s: Server, t: string, flying: set<string>)
    requires Consistent(s) && t != "" && flying <= OpenOf(s, t) && flying !! s.leaseTenant.Keys
    ensures |flying| <= |Holders(s, t)|
  {
    hide Valid, SlotOnce, NoOrphans, PhaseFacts, HistoryFacts, LockHeld, UsageExact;
    var rs := set r | r in Holders(s, t) && s.requests[r].SubmitAccepted?;
    var image := set r | r in rs :: s.requests[r].id;
    forall id | id in flying ensures id in image {
      var r := OpenIsBacked(s, id);
      assert r in rs;
    }
    SubsetSize(flying, image);
    ImageSize(s.requests, rs);
    SubsetSize(rs, Holders(s, t));
  }

  ghost predicate Quiet(s: Server) {
    forall r :: r in s.requests ==> s.requests[r] == Done
  }

  /**
   With no handler in flight the counters equal the open leases, the map lists exactly them, and
   each lease finished in this incarnation gave its slot back exactly once.
   */
  lemma QuietIsExact(s: Server)
    requires Consistent(s) && Quiet(s)
    ensures s.leaseTenant == OpenEntries(s.plane)
    ensures forall t :: t != "" ==> Used(s, t) == |OpenOf(s, t)|
    ensures forall id :: Charged(s, id) ==> s.released[id] == One(IsTerminal(s, id))
  {
    hide Valid, PhaseFacts, LockHeld, UsageExact;
    forall id ensures Carriers(s, id) == {} && (id in s.leaseTenant ==> !IsTerminal(s, id)) {
    }
    forall id | id in s.plane.leases
      ensures Open(s.plane.leases[id]) || Terminal(s.plane.leases[id])
    {
      ValidStates(s.plane, id);
    }
    assert s.leaseTenant.Keys == OpenEntries(s.plane).Keys;
    QuietUsage(s);
  }

  lemma QuietUsage(s: Server)
    requires UsageExact(s) && Quiet(s) && s.leaseTenant == OpenEntries(s.plane)
    ensures forall t :: t != "" ==> Used(s, t) == |OpenOf(s, t)|
  {
    forall t | t != "" ensures Used(s, t) == |OpenOf(s, t)| {
      assert Holders(s, t) == {};
      assert Entries(s, t) == OpenOf(s, t);
    }
  }

  /** No lease ever gives its slot back twice, in any interleaving. */
  lemma ReleasedAtMostOnce(s: Server, moves: seq<Move>, id: string)
    requires Fresh(s)
    ensures Run(s, moves).released[id] <= 1
  {
    FreshIsConsistent(s);
    EveryInterleavingConserves(s, moves);
    hide Run, Valid;
    assert SlotOnce(Run(s, moves));
  }

  lemma AdvanceUsage(s: Server, r: nat, now: Instant, t: string)
    requires r in s.requests
    ensures var u := Advance(s, r, now);
            && u.limits == s.limits && u.defaultLimit == s.defaultLimit
            && (Used(u, t) <= Used(s, t) || (Used(u, t) == Used(s, t) + 1 && CanSchedule(s, t)))
  {
    hide SubmissionAccepted, Submit, Complete, Cancel, CompleteAllowed, CancelAllowed, IsTerminal, LeaseId;
    hide Charge, Discharge, CanSchedule;
    match s.requests[r]
    case SubmitStart(m) => OneMoreUsed(s, m.tenant, t);
    case SubmitRefused(o) => NoMoreUsed(s, o, t);
    case RememberRelease(_, o) => NoMoreUsed(s, o, t);
    case Releasing(_, o) => NoMoreUsed(s, o, t);
    case _ =>
  }

  lemma OneMoreUsed(s: Server, o: string, t: string)
    ensures Used(s.(usage := Charge(s, o)), t) == Used(s, t) + One(o == t)
  {
  }

  lemma NoMoreUsed(s: Server, o: string, t: string)
    ensures Used(s.(usage := Discharge(s, o)), t) <= Used(s, t)
  {
  }

  lemma UsageStep(s: Server, move: Move, t: string)
    ensures Limit(Next(s, move), t) == Limit(s, t)
    ensures Used(Next(s, move), t) <= Used(s, t) || (Used(Next(s, move), t) == Used(s, t) + 1 && CanSchedule(s, t))
  {
    hide Advance, PlaneRuns.Step;
    if move.Progress? && move.request in s.requests {
      AdvanceUsage(s, move.request, move.now, t);
    }
  }

  /** Admission: usage stays within the limit, except for work restored above it, which only drains. */
  lemma {:induction false} LimitHolds(s: Server, moves: seq<Move>, t: string)
    requires Limit(s, t) > 0
    ensures Limit(Run(s, moves), t) == Limit(s, t)
    ensures Used(Run(s, moves), t) <= Limit(s, t) || Used(Run(s, moves), t) <= Used(s, t)
  {
    hide Next;
    if moves != [] {
      LimitHolds(s, moves[..|moves| - 1], t);
      UsageStep(Run(s, moves[..|moves| - 1]), moves[|moves| - 1], t);
    }
  }
}
