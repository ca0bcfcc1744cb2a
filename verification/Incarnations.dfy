/**
 The scheduler over crashes.  A process changes its plane in memory; saving takes a copy under
 the lock and writes it later, so several copies can be on their way and an older one can land
 last; a crash loses everything but the file, which the next process loads.
 */
module Incarnations {
  import opened Wrappers
  import opened Patterns
  import opened Plane
  import opened PlaneSafety
  import opened PlaneRuns
  import opened Strings

  /** The plane in memory, the copies being saved, and what the snapshot file holds. */
  datatype Sys = Sys(plane: State, flight: seq<State>, disk: State)

  datatype Event =
    | Do(call: Call)
    | StartSave
    | EndSave(copy: nat, written: bool)
    | Crash

  /** A first start without a file is the same as with a file of an empty plane. */
  const START := Sys(EMPTY, [], EMPTY)

  ghost function Next(s: Sys, e: Event): Sys {
    match e
    case Do(c) => s.(plane := Step(s.plane, c))
    case StartSave => s.(flight := s.flight + [s.plane])
    case EndSave(i, written) =>
      if i < |s.flight| then Sys(s.plane, WithoutIndex(s.flight, i), if written then s.flight[i] else s.disk) else s
    case Crash => Sys(Restart(s.disk), [], s.disk)
  }

  /** The state a crash could bring back, now or after the saves under way: the file or one of the copies. */
  ghost predicate Loadable(s: Sys, d: State) {
    d == s.disk || d in s.flight
  }

  ghost predicate AllValid(s: Sys) {
    Valid(s.plane) && forall d :: Loadable(s, d) ==> Valid(d)
  }

  lemma WithoutIndexIn<T>(xs: seq<T>, i: nat, x: T)
    requires i < |xs| && x in WithoutIndex(xs, i)
    ensures x in xs
  {
  }

  /** A copy that is loadable after a step was loadable before it, or is the plane just copied. */
  lemma LoadableAfter(s: Sys, e: Event, d: State)
    requires Loadable(Next(s, e), d)
    ensures Loadable(s, d) || (e.StartSave? && d == s.plane)
  {
    hide Step, Restart;
    if e.EndSave? && e.copy < |s.flight| && d in WithoutIndex(s.flight, e.copy) {
      WithoutIndexIn(s.flight, e.copy, d);
    }
  }

  lemma NextKeepsValid(s: Sys, e: Event)
    requires AllValid(s)
    ensures AllValid(Next(s, e))
  {
    hide Step, Restart, Inv, Durable;
    assert Loadable(s, s.disk);
    if e.Do? {
      StepKeeps(s.plane, e.call);
    } else if e.Crash? {
      RestartKeeps(s.disk);
    }
    forall d | Loadable(Next(s, e), d) ensures Valid(d) {
      LoadableAfter(s, e, d);
    }
  }

  ghost function Exec(s: Sys, events: seq<Event>): (t: Sys)
    requires AllValid(s)
    ensures AllValid(t)
  {
    if events == [] then s
    else
      var last := |events| - 1;
      NextKeepsValid(Exec(s, events[..last]), events[last]);
      Next(Exec(s, events[..last]), events[last])
  }

  lemma ExecNext(s: Sys, events: seq<Event>, k: nat)
    requires AllValid(s) && k < |events|
    ensures Exec(s, events[..k + 1]) == Next(Exec(s, events[..k]), events[k])
  {
    hide AllValid, Next;
    assert events[..k + 1][..k] == events[..k];
  }

  lemma ExecOne(s: Sys, events: seq<Event>, e: Event)
    requires AllValid(s)
    ensures Exec(s, events + [e]) == Next(Exec(s, events), e)
  {
    hide AllValid, Next;
    assert (events + [e])[..|events|] == events;
  }

  lemma StartIsValid()
    ensures AllValid(START)
  {
  }

  /** The system after any events since the very first start. */
  ghost function History(events: seq<Event>): (t: Sys)
    ensures AllValid(t)
  {
    StartIsValid();
    Exec(START, events)
  }

  // ----- Safety of every reachable state -----

  /** Over all crashes and stale snapshots: queue, holders, limits and the next identifier are sound. */
  lemma EveryRunIsSafe(events: seq<Event>)
    ensures var s := History(events).plane;
            && QueueIsPending(s) && HoldersRegistered(s) && WithinLimits(s) && IdsIssued(s)
            && LeaseId(s.nextID + 1) !in s.leases
  {
    hide History, Durable, QueueIsPending, HoldersRegistered, WithinLimits, WorkersWellFormed, LeaseId;
    FreshId(History(events).plane);
  }

  /** What a crash brings back is an earlier plane of the same history, with its assignments undone. */
  lemma {:induction false} LoadableWasReal(events: seq<Event>, d: State) returns (k: nat)
    requires Loadable(History(events), d)
    ensures k <= |events| && d == History(events[..k]).plane
    decreases |events|
  {
    hide AllValid, Next;
    if events == [] {
      k := 0;
      assert events[..0] == events;
    } else {
      var last := |events| - 1;
      var s := History(events[..last]);
      LoadableAfter(s, events[last], d);
      if Loadable(s, d) {
        k := LoadableWasReal(events[..last], d);
        assert events[..last][..k] == events[..k];
      } else {
        k := last;
      }
    }
  }

  // ----- Within one process -----

  predicate NoCrash(events: seq<Event>) {
    forall i :: 0 <= i < |events| ==> !events[i].Crash?
  }

  function CallsOf(events: seq<Event>): seq<Call> {
    if events == [] then []
    else
      var last := |events| - 1;
      CallsOf(events[..last]) + if events[last].Do? then [events[last].call] else []
  }

  /** Between crashes the plane makes one run of calls; saving, stale or not, does not touch it. */
  lemma {:induction false} IncarnationIsRun(s: Sys, events: seq<Event>)
    requires AllValid(s) && NoCrash(events)
    ensures Exec(s, events).plane == Run(s.plane, CallsOf(events))
    decreases events
  {
    hide Step, Inv, Durable, Accepted, Restart;
    if events != [] {
      var last := |events| - 1;
      IncarnationIsRun(s, events[..last]);
      var calls, e := CallsOf(events[..last]), events[last];
      if e.Do? {
        assert (calls + [e.call])[..|calls|] == calls;
      } else {
        assert calls + [] == calls;
      }
    }
  }

  /** A process starts with nothing assigned, so what is proved of its run applies to it. */
  lemma CrashStartsAfresh(s: Sys)
    requires AllValid(s)
    ensures Valid(Next(s, Crash).plane) && Unassigned(Next(s, Crash).plane)
  {
    hide Inv, Durable;
    NextKeepsValid(s, Crash);
  }

  // ----- What survives every crash, exactly -----

  /** No call can make `p` false, and a restart neither makes nor breaks it. */
  ghost predicate Stable(p: State -> bool) {
    && (forall s, c :: Valid(s) && p(s) ==> p(Step(s, c)))
    && (forall s :: Valid(s) ==> (p(Restart(s)) <==> p(s)))
  }

  ghost predicate Everywhere(p: State -> bool, s: Sys) {
    p(s.plane) && forall d :: Loadable(s, d) ==> p(d)
  }

  lemma EverywhereNext(p: State -> bool, s: Sys, e: Event)
    requires Stable(p) && AllValid(s) && Everywhere(p, s)
    ensures Everywhere(p, Next(s, e))
  {
    hide Step, Restart, Valid;
    forall d | Loadable(Next(s, e), d) ensures p(d) {
      LoadableAfter(s, e, d);
    }
    if e.Crash? {
      assert Loadable(s, s.disk);
    }
  }

  lemma {:induction false} EverywhereForever(p: State -> bool, s: Sys, events: seq<Event>)
    requires Stable(p) && AllValid(s) && Everywhere(p, s)
    ensures Everywhere(p, Exec(s, events))
    decreases events
  {
    hide Stable, Everywhere, AllValid, Next;
    if events != [] {
      var last := |events| - 1;
      EverywhereForever(p, s, events[..last]);
      EverywhereNext(p, Exec(s, events[..last]), events[last]);
    }
  }

  /** Bring a loadable state back: finish its save if need be, then crash. */
  lemma CanBringBack(s: Sys, d: State) returns (events: seq<Event>)
    requires AllValid(s) && Loadable(s, d)
    ensures Exec(s, events).plane == Restart(d)
  {
    hide AllValid, Restart, Step;
    if d == s.disk {
      events := [Crash];
      ExecOne(s, [], Crash);
      assert [] + [Crash] == events;
    } else {
      var i :| 0 <= i < |s.flight| && s.flight[i] == d;
      var save := EndSave(i, true);
      ExecOne(s, [], save);
      ExecOne(s, [] + [save], Crash);
      events := [] + [save] + [Crash];
    }
  }

  /** In every future the plane satisfies `p`. */
  ghost predicate Forever(p: State -> bool, s: Sys)
    requires AllValid(s)
  {
    forall events :: p(Exec(s, events).plane)
  }

  lemma ForeverEverywhere(p: State -> bool, s: Sys, d: State)
    requires Stable(p) && AllValid(s) && Forever(p, s) && Loadable(s, d)
    ensures p(s.plane) && p(d)
  {
    hide Exec, Restart, Step, Inv, Durable;
    Now(s);
    assert p(Exec(s, []).plane);
    var events := CanBringBack(s, d);
    assert p(Exec(s, events).plane);
    assert Valid(d);
  }

  /** A stable fact holds in every future exactly if it holds of the plane, the file and every copy being saved. */
  lemma ForeverIff(p: State -> bool, s: Sys)
    requires Stable(p) && AllValid(s)
    ensures Forever(p, s) <==> Everywhere(p, s)
  {
    hide Stable, AllValid, Exec;
    if Everywhere(p, s) {
      forall events ensures p(Exec(s, events).plane) {
        EverywhereForever(p, s, events);
      }
    }
    if Forever(p, s) {
      forall d | Loadable(s, d) ensures p(d) {
        ForeverEverywhere(p, s, d);
      }
      ForeverEverywhere(p, s, s.disk);
    }
  }

  lemma Now(s: Sys)
    requires AllValid(s)
    ensures Exec(s, []) == s
  {
  }

  // ----- Final leases -----

  /** Lease `id` is on record as `l`. */
  predicate Recorded(s: State, id: string, l: Lease) {
    id in s.leases && s.leases[id] == l
  }

  lemma FinalIsStable(id: string, l: Lease)
    requires Terminal(l)
    ensures Stable(s => Recorded(s, id, l))
  {
    hide Step, Inv, Durable, Accepted;
    forall s, c | Valid(s) && Recorded(s, id, l) ensures Recorded(Step(s, c), id, l) {
      StepMovesLease(s, c, id);
    }
    forall s | Valid(s) ensures Recorded(Restart(s), id, l) <==> Recorded(s, id, l) {
      RestartOf(s, id);
    }
  }

  lemma RestartOf(s: State, id: string)
    ensures Restart(s).nextID == s.nextID && (id in Restart(s).leases <==> id in s.leases)
    ensures id in s.leases ==>
              Restart(s).leases[id] == if s.leases[id].state == Assigned then BackToPending(s.leases[id]) else s.leases[id]
  {
  }

  /** A result or a cancellation is final in every future exactly once every loadable state has it. */
  lemma FinalForeverIff(s: Sys, id: string, l: Lease)
    requires AllValid(s) && Terminal(l)
    ensures Forever(x => Recorded(x, id, l), s) <==> Everywhere(x => Recorded(x, id, l), s)
  {
    hide Forever, Everywhere, AllValid, Stable;
    FinalIsStable(id, l);
    ForeverIff(x => Recorded(x, id, l), s);
  }

  /** In a given run a final lease stays as it is exactly if every crash loads a file that has it. */
  lemma {:induction false} FinalInRunIff(s: Sys, events: seq<Event>, id: string, l: Lease)
    requires AllValid(s) && Terminal(l) && Recorded(s.plane, id, l)
    ensures (forall k :: 0 <= k <= |events| ==> Recorded(Exec(s, events[..k]).plane, id, l)) <==>
            (forall k :: 0 <= k < |events| && events[k].Crash? ==> Recorded(Exec(s, events[..k]).disk, id, l))
  {
    hide AllValid, Exec, Recorded;
    if forall k :: 0 <= k < |events| && events[k].Crash? ==> Recorded(Exec(s, events[..k]).disk, id, l) {
      forall k | 0 <= k <= |events| ensures Recorded(Exec(s, events[..k]).plane, id, l) {
        FinalUpTo(s, events, id, l, k);
      }
    }
    if forall k :: 0 <= k <= |events| ==> Recorded(Exec(s, events[..k]).plane, id, l) {
      forall k | 0 <= k < |events| && events[k].Crash? ensures Recorded(Exec(s, events[..k]).disk, id, l) {
        ExecNext(s, events, k);
        assert Recorded(Exec(s, events[..k + 1]).plane, id, l);
        FinalAfter(Exec(s, events[..k]), Crash, id, l);
      }
    }
  }

  lemma {:induction false} FinalUpTo(s: Sys, events: seq<Event>, id: string, l: Lease, k: nat)
    requires AllValid(s) && Terminal(l) && Recorded(s.plane, id, l) && k <= |events|
    requires forall i :: 0 <= i < |events| && events[i].Crash? ==> Recorded(Exec(s, events[..i]).disk, id, l)
    ensures Recorded(Exec(s, events[..k]).plane, id, l)
  {
    hide AllValid, Exec, Recorded, Next;
    if k == 0 {
      Now(s);
      assert events[..0] == [];
    } else {
      FinalUpTo(s, events, id, l, k - 1);
      ExecNext(s, events, k - 1);
      FinalAfter(Exec(s, events[..k - 1]), events[k - 1], id, l);
    }
  }

  /** After one event a final lease is there if it was, where a crash asks the file. */
  lemma FinalAfter(s: Sys, e: Event, id: string, l: Lease)
    requires AllValid(s) && Terminal(l)
    ensures e.Crash? ==> (Recorded(Next(s, e).plane, id, l) <==> Recorded(s.disk, id, l))
    ensures !e.Crash? && Recorded(s.plane, id, l) ==> Recorded(Next(s, e).plane, id, l)
  {
    hide Step, Inv, Durable, Accepted, Restart;
    RestartOf(s.disk, id);
    if e.Do? && Recorded(s.plane, id, l) {
      StepMovesLease(s.plane, e.call, id);
    }
  }

  // ----- Commits -----

  ghost predicate CommitsAt(s: Sys, events: seq<Event>, k: nat, id: string)
    requires AllValid(s)
  {
    k < |events| && events[k].Do? && Commits(Exec(s, events[..k]).plane, events[k].call, id)
  }

  /** Between two commits of one lease lies a crash that loaded a file without the first result. */
  lemma SecondCommitNeedsLoss(s: Sys, events: seq<Event>, i: nat, k: nat, id: string) returns (j: nat)
    requires AllValid(s) && CommitsAt(s, events, i, id) && CommitsAt(s, events, k, id) && i < k
    ensures i < j < k && events[j].Crash?
    ensures id in Exec(s, events[..i + 1]).plane.leases
    ensures !Recorded(Exec(s, events[..j]).disk, id, Exec(s, events[..i + 1]).plane.leases[id])
  {
    hide AllValid, Exec, Recorded, Step, Accepted, Inv, Durable, Next;
    var l := CommitIsFinal(s, events, i, id);
    CommitterHolds(Exec(s, events[..k]).plane, events[k].call, id);
    assert !Recorded(Exec(s, events[..k]).plane, id, l) by { NotFinal(Exec(s, events[..k]).plane, id, l); }
    j := FirstLoss(s, events, i + 1, k, id, l);
  }

  lemma NotFinal(s: State, id: string, l: Lease)
    requires id in s.leases && s.leases[id].state == Assigned && Terminal(l)
    ensures !Recorded(s, id, l)
  {
  }

  lemma CommitIsFinal(s: Sys, events: seq<Event>, i: nat, id: string) returns (l: Lease)
    requires AllValid(s) && CommitsAt(s, events, i, id)
    ensures id in Exec(s, events[..i + 1]).plane.leases && l == Exec(s, events[..i + 1]).plane.leases[id]
    ensures Terminal(l) && l.result == events[i].call.result && Recorded(Exec(s, events[..i + 1]).plane, id, l)
  {
    hide Exec, Step, Accepted, Inv, Durable;
    var t := Exec(s, events[..i]);
    CommitterHolds(t.plane, events[i].call, id);
    StepMovesLease(t.plane, events[i].call, id);
    ExecNext(s, events, i);
    l := Exec(s, events[..i + 1]).plane.leases[id];
  }

  lemma {:induction false} FirstLoss(s: Sys, events: seq<Event>, i: nat, k: nat, id: string, l: Lease) returns (j: nat)
    requires AllValid(s) && Terminal(l) && i <= k <= |events|
    requires Recorded(Exec(s, events[..i]).plane, id, l) && !Recorded(Exec(s, events[..k]).plane, id, l)
    ensures i <= j < k && events[j].Crash? && !Recorded(Exec(s, events[..j]).disk, id, l)
    decreases k - i
  {
    hide AllValid, Exec, Recorded, Next;
    ExecNext(s, events, i);
    FinalAfter(Exec(s, events[..i]), events[i], id, l);
    if Recorded(Exec(s, events[..i + 1]).plane, id, l) {
      j := FirstLoss(s, events, i + 1, k, id, l);
    } else {
      j := i;
    }
  }

  /** Once every loadable state has the result, no future commits the lease again. */
  lemma SavedCommitIsTheLast(s: Sys, id: string, l: Lease, events: seq<Event>, k: nat)
    requires AllValid(s) && Terminal(l) && Recorded(s.plane, id, l)
    requires forall d :: Loadable(s, d) ==> Recorded(d, id, l)
    ensures !CommitsAt(s, events, k, id)
  {
    hide AllValid, Exec, Loadable, Step, Accepted;
    if k < |events| {
      var t := Exec(s, events[..k]).plane;
      FinalIsStable(id, l);
      EverywhereForever(x => Recorded(x, id, l), s, events[..k]);
      assert Recorded(t, id, l);
      if events[k].Do? && Commits(t, events[k].call, id) {
        CommitterHolds(t, events[k].call, id);
        assert false;
      }
    }
  }

  // ----- Work and attempts -----

  /** Lease `id` still stands for the work of `l`, with at least its attempts. */
  predicate Covers(s: State, id: string, l: Lease) {
    id in s.leases && SameWork(l, s.leases[id]) && l.attempt <= s.leases[id].attempt
  }

  lemma CoversIsStable(id: string, l: Lease)
    ensures Stable(s => Covers(s, id, l))
  {
    hide Step, Inv, Durable, Accepted;
    forall s, c | Valid(s) && Covers(s, id, l) ensures Covers(Step(s, c), id, l) {
      StepMovesLease(s, c, id);
    }
    forall s | Valid(s) ensures Covers(Restart(s), id, l) <==> Covers(s, id, l) {
      RestartOf(s, id);
    }
  }

  /** An identifier keeps its work and never loses attempts, in every future, exactly once every loadable state covers it. */
  lemma WorkForeverIff(s: Sys, id: string, l: Lease)
    requires AllValid(s)
    ensures Forever(x => Covers(x, id, l), s) <==> Everywhere(x => Covers(x, id, l), s)
  {
    hide Forever, Everywhere, AllValid, Stable;
    CoversIsStable(id, l);
    ForeverIff(x => Covers(x, id, l), s);
  }

  // ----- Identifiers -----

  predicate Issued(s: State, n: nat) {
    n <= s.nextID
  }

  lemma StepNumbers(s: State, c: Call)
    ensures Step(s, c).nextID == s.nextID + if c.SubmitLease? && Accepted(s, c) then 1 else 0
  {
    hide RegistrationAccepted, SubmissionAccepted, NormalTokens;
    if c.ReapLost? {
      ReapClosedForm(s, c.at, c.timeout);
    }
  }

  lemma IssuedIsStable(n: nat)
    ensures Stable(s => Issued(s, n))
  {
    hide Step, Inv, Durable, Accepted;
    forall s, c | Valid(s) && Issued(s, n) ensures Issued(Step(s, c), n) {
      StepNumbers(s, c);
    }
    forall s | Valid(s) ensures Issued(Restart(s), n) <==> Issued(s, n) {
      RestartOf(s, "");
    }
  }

  /** Some future issues number `n`. */
  ghost predicate WillIssue(s: Sys, n: nat)
    requires AllValid(s)
  {
    exists events, m :: SubmissionAccepted(m) && Submits(Exec(s, events), m, n)
  }

  ghost predicate Submits(s: Sys, m: Submission, n: nat) {
    Accepted(s.plane, SubmitLease(m)) && s.plane.nextID + 1 == n
  }

  /** A number once issued can be issued again exactly if some loadable state does not know it yet. */
  lemma ReissuedIff(s: Sys, n: nat)
    requires AllValid(s) && 0 < n <= s.plane.nextID
    ensures WillIssue(s, n) <==> exists d :: Loadable(s, d) && d.nextID < n
  {
    hide AllValid, Exec, Restart, Step;
    if exists d :: Loadable(s, d) && d.nextID < n {
      var d :| Loadable(s, d) && d.nextID < n;
      var events := CanBringBack(s, d);
      RestartOf(d, "");
      events := CountUp(s, events, n);
      TinyAccepted(SOME_WORK);
      assert Submits(Exec(s, events), SOME_WORK, n);
    } else {
      assert Everywhere(x => Issued(x, n), s);
      IssuedIsStable(n);
      forall events, m | SubmissionAccepted(m) && Submits(Exec(s, events), m, n) ensures false {
        EverywhereForever(x => Issued(x, n), s, events);
      }
    }
  }

  /** The smallest acceptable submission. */
  const SOME_WORK := Submission("x", "", [], "", "", 0)

  /** Submitting until the next number is `n`. */
  lemma {:induction false} CountUp(s: Sys, events: seq<Event>, n: nat) returns (more: seq<Event>)
    requires AllValid(s) && Exec(s, events).plane.nextID < n
    ensures Exec(s, more).plane.nextID + 1 == n
    decreases n - Exec(s, events).plane.nextID
  {
    hide AllValid, Exec, Step, SubmissionAccepted;
    if Exec(s, events).plane.nextID + 1 == n {
      more := events;
    } else {
      var e := Do(SubmitLease(SOME_WORK));
      TinyAccepted(SOME_WORK);
      ExecOne(s, events, e);
      StepNumbers(Exec(s, events).plane, e.call);
      more := CountUp(s, events + [e], n);
    }
  }

  // ----- Two histories that lose something -----

  const OTHER_WORK := Submission("y", "", [], "", "", 0)

  lemma NoTokens()
    ensures NormalTokens([], ValidCapability, 64) == Some([]) && NormalTokens([], ValidDigest, 4096) == Some([])
  {
    var none: seq<string> := [];
    assert (set v | v in none) == {};
    assert |Sorted({})| == 0;
  }

  /** A plane whose only lease is fresh work nobody has taken. */
  ghost function Waiting(m: Submission): State {
    State(map[], map[LeaseId(1) := NewLease(LeaseId(1), m, [])], [LeaseId(1)], 1)
  }

  lemma TinyAccepted(m: Submission)
    requires m == SOME_WORK || m == OTHER_WORK
    ensures SubmissionAccepted(m)
  {
    hide Space;
    assert !Space('x') && !Space('y') by { NotSpace('x'); NotSpace('y'); }
    NoTokens();
    assert m.payload[0] == 'x' || m.payload[0] == 'y';
  }

  lemma NotSpace(c: char)
    requires 'a' <= c <= 'z'
    ensures !Space(c)
  {
  }

  lemma FirstSubmission(m: Submission)
    requires m == SOME_WORK || m == OTHER_WORK
    ensures Step(EMPTY, SubmitLease(m)) == Waiting(m)
  {
    TinyAccepted(m);
    NoTokens();
    hide LeaseId, NormalTokens, SubmissionAccepted;
    assert [] + [LeaseId(1)] == [LeaseId(1)];
  }

  lemma RestartWaiting(m: Submission)
    ensures Restart(Waiting(m)) == Waiting(m) && Restart(EMPTY) == EMPTY
  {
    hide LeaseId;
    var s := Waiting(m);
    assert AllAssigned(s) == {} && AllAssigned(EMPTY) == {};
    assert |Sorted({})| == 0;
    assert Restart(s).leases == s.leases;
  }

  /** A crash before the save: the same identifier is issued again, for other work. */
  lemma IdentifierReusedExample() returns (events: seq<Event>)
    ensures |events| == 3 && events[1].Crash?
    ensures var a, b := History(events[..1]).plane, History(events).plane;
            LeaseId(1) in a.leases && LeaseId(1) in b.leases && !SameWork(a.leases[LeaseId(1)], b.leases[LeaseId(1)])
  {
    hide AllValid, Step, Restart, LeaseId, Exec;
    StartIsValid();
    var e, f := Do(SubmitLease(SOME_WORK)), Do(SubmitLease(OTHER_WORK));
    Now(START);
    FirstSubmission(SOME_WORK);
    FirstSubmission(OTHER_WORK);
    RestartWaiting(SOME_WORK);
    ExecOne(START, [], e);
    ExecOne(START, [] + [e], Crash);
    ExecOne(START, [] + [e] + [Crash], f);
    events := [] + [e] + [Crash] + [f];
    assert events[..1] == [] + [e];
  }

  const WORKER := "w"
  const JOIN := Registration("a/b", [], [], 1, "", false)

  lemma JoinAccepted()
    ensures RegistrationAccepted(WORKER, JOIN)
  {
    NoTokens();
    assert JOIN.platform[1] == '/' && PlatformPart(JOIN.platform[..1]) && PlatformPart(JOIN.platform[2..]);
  }

  /** A worker joins, is given the only lease and commits it. */
  lemma Commit(s: Sys, events: seq<Event>, result: string) returns (more: seq<Event>)
    requires AllValid(s) && Exec(s, events).plane == Waiting(SOME_WORK) && |result| <= MAX_OPAQUE
    ensures events < more && |more| == |events| + 3 && CommitsAt(s, more, |events| + 2, LeaseId(1))
    ensures more[|events| + 2] == Do(CompleteLease(WORKER, LeaseId(1), result, 1))
    ensures Exec(s, more).disk == Exec(s, events).disk
  {
    hide AllValid, Exec, Step, LeaseId, Waiting;
    var join, take := Do(RegisterWorker(WORKER, JOIN, 1)), Do(NextLease(WORKER, 1));
    var commit := Do(CompleteLease(WORKER, LeaseId(1), result, 1));
    var n := |events|;
    more := events + [join] + [take] + [commit];
    ExecOne(s, events, join);
    ExecOne(s, events + [join], take);
    ExecOne(s, events + [join] + [take], commit);
    assert more[..n + 2] == events + [join] + [take];
    GivenToWorker();
    OwnedCommit(Exec(s, more[..n + 2]).plane, result);
  }

  lemma OwnedCommit(s: State, result: string)
    requires LeaseId(1) in s.leases && HeldBy(s.leases[LeaseId(1)], WORKER) && |result| <= MAX_OPAQUE
    ensures Commits(s, CompleteLease(WORKER, LeaseId(1), result, 1), LeaseId(1))
  {
    assert |LeaseId(1)| == 7;
  }

  lemma GivenToWorker()
    ensures var s := Step(Step(Waiting(SOME_WORK), RegisterWorker(WORKER, JOIN, 1)), NextLease(WORKER, 1));
            LeaseId(1) in s.leases && HeldBy(s.leases[LeaseId(1)], WORKER)
  {
    hide LeaseId;
    JoinAccepted();
    NoTokens();
    var s := Step(Waiting(SOME_WORK), RegisterWorker(WORKER, JOIN, 1));
    var c := NextLease(WORKER, 1);
    assert s.pending == [LeaseId(1)] && s.leases == Waiting(SOME_WORK).leases;
    assert Held(s, WORKER) == {};
    assert Chooses(s, c, 0);
    assert Position(s, c) == 0;
  }

  /** A crash after the commit and before its save: the lease is handed out and committed again. */
  lemma CommittedTwiceExample() returns (events: seq<Event>, i: nat, k: nat)
    ensures AllValid(START) && i < k && CommitsAt(START, events, i, LeaseId(1)) && CommitsAt(START, events, k, LeaseId(1))
    ensures events[i].call.result != events[k].call.result
  {
    hide AllValid, Step, Restart, LeaseId, Exec, CommitsAt, Waiting;
    StartIsValid();
    var submit, save, saved := Do(SubmitLease(SOME_WORK)), StartSave, EndSave(0, true);
    Now(START);
    FirstSubmission(SOME_WORK);
    ExecOne(START, [], submit);
    ExecOne(START, [] + [submit], save);
    ExecOne(START, [] + [submit] + [save], saved);
    var begun := [] + [submit] + [save] + [saved];
    var first := Commit(START, begun, "a");
    RestartWaiting(SOME_WORK);
    ExecOne(START, first, Crash);
    events := Commit(START, first + [Crash], "b");
    i, k := |begun| + 2, |first| + 3;
    CommitStays(START, first, events, i, LeaseId(1));
  }

  lemma CommitStays(s: Sys, a: seq<Event>, b: seq<Event>, k: nat, id: string)
    requires AllValid(s) && a <= b && CommitsAt(s, a, k, id)
    ensures CommitsAt(s, b, k, id)
  {
    hide AllValid, Exec, Commits;
    assert b[..k] == a[..k];
  }

  /** A save that took effect, then a crash: the next process has the plane as it was saved, however it changed since. */
  lemma SaveThenCrash(s: Sys, calls: seq<Call>, written: bool)
    requires AllValid(s) && s.flight == []
    ensures var saving := Next(s, StartSave);
            var working := saving.(plane := Run(saving.plane, calls));
            Next(Next(working, EndSave(0, written)), Crash).plane == Restart(if written then s.plane else s.disk)
  {
    hide Restart, Run, Valid;
  }
}
