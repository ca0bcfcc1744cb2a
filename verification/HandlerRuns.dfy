/** Over every interleaving: each result, cancellation and new lease is what some request asked for. */
module HandlerRuns {
  import opened Wrappers
  import opened Plane
  import opened PlaneSafety
  import opened PlaneMeaning
  import opened TenantSlots
  import opened TenantRuns
  import PlaneRuns

  /** The request came in with this phase. */
  ghost predicate Arrived(moves: seq<Move>, r: nat, p: Phase) {
    exists i :: 0 <= i < |moves| && moves[i] == Arrive(r, p)
  }

  /** What a request still carries of what it came in with. */
  ghost predicate Faithful(moves: seq<Move>, r: nat, p: Phase) {
    && (StartPhase(p) ==> Arrived(moves, r, p))
    && (p.SubmitReserved? ==> Arrived(moves, r, SubmitStart(p.m)))
  }

  /** Only request `r` moved on, and it made up nothing that it carries. */
  ghost predicate OwnStep(s: Server, u: Server, r: nat)
    requires r in s.requests
  {
    && r in u.requests && u.requests == s.requests[r := u.requests[r]]
    && var p, q := s.requests[r], u.requests[r];
       q == p || (!StartPhase(q) && (q.SubmitReserved? ==> p == SubmitStart(q.m)))
  }

  lemma EnterIsOwnStep(s: Server, t: Server, r: nat, q: Phase)
    requires r in s.requests && t.requests == s.requests
    requires !StartPhase(q) && (q.SubmitReserved? ==> s.requests[r] == SubmitStart(q.m))
    ensures OwnStep(s, Enter(t, r, q), r)
  {
  }

  lemma StayIsOwnStep(s: Server, r: nat)
    requires r in s.requests
    ensures OwnStep(s, s, r)
  {
  }

  /** A step leaves the other requests alone and never makes up what its own request carries. */
  lemma RequestStep(s: Server, r: nat, now: Instant)
    requires r in s.requests
    ensures OwnStep(s, Advance(s, r, now), r)
  {
    hide OwnStep, Enter, SubmissionAccepted, Submit, Complete, Cancel, CompleteAllowed, CancelAllowed, IsTerminal, LeaseId, Charge, Discharge, CanSchedule;
    StayIsOwnStep(s, r);
    forall t: Server, q | t.requests == s.requests && !StartPhase(q) && (q.SubmitReserved? ==> s.requests[r] == SubmitStart(q.m))
      ensures OwnStep(s, Enter(t, r, q), r)
    {
      EnterIsOwnStep(s, t, r, q);
    }
  }

  lemma ArrivedBefore(moves: seq<Move>, move: Move, r: nat, p: Phase)
    requires Arrived(moves, r, p)
    ensures Arrived(moves + [move], r, p)
  {
    var i :| 0 <= i < |moves| && moves[i] == Arrive(r, p);
    assert (moves + [move])[i] == moves[i];
  }

  lemma FaithfulBefore(moves: seq<Move>, move: Move, r: nat, p: Phase)
    requires Faithful(moves, r, p)
    ensures Faithful(moves + [move], r, p)
  {
    hide Arrived;
    if StartPhase(p) {
      ArrivedBefore(moves, move, r, p);
    }
    if p.SubmitReserved? {
      ArrivedBefore(moves, move, r, SubmitStart(p.m));
    }
  }

  ghost predicate AllFaithful(moves: seq<Move>, s: Server) {
    forall r :: r in s.requests ==> Faithful(moves, r, s.requests[r])
  }

  lemma FaithfulStep(moves: seq<Move>, s: Server, move: Move)
    requires AllFaithful(moves, s)
    ensures AllFaithful(moves + [move], Next(s, move))
  {
    hide Advance, Arrived, StartPhase, PlaneRuns.Step;
    var u := Next(s, move);
    forall r | r in u.requests ensures Faithful(moves + [move], r, u.requests[r]) {
      if r in s.requests {
        FaithfulBefore(moves, move, r, s.requests[r]);
      }
      if move.Progress? && move.request in s.requests {
        RequestStep(s, move.request, move.now);
        StartsAreStarts(s.requests[move.request]);
      } else if move.Arrive? && r !in s.requests {
        JustArrived(moves, move);
        StartsAreStarts(move.phase);
      }
    }
  }

  lemma StartsAreStarts(p: Phase)
    ensures p.SubmitStart? ==> StartPhase(p)
    ensures p.SubmitReserved? ==> !StartPhase(p)
  {
  }

  lemma JustArrived(moves: seq<Move>, move: Move)
    requires move.Arrive?
    ensures Arrived(moves + [move], move.request, move.phase)
  {
    assert (moves + [move])[|moves|] == move;
  }

  lemma {:induction false} RequestsAreFaithful(s: Server, moves: seq<Move>)
    requires s.requests == map[]
    ensures AllFaithful(moves, Run(s, moves))
  {
    hide Next;
    if moves != [] {
      var n := |moves| - 1;
      RequestsAreFaithful(s, moves[..n]);
      FaithfulStep(moves[..n], Run(s, moves[..n]), moves[n]);
      assert moves == moves[..n] + [moves[n]];
    }
  }

  // ----- One move and one lease -----

  /** The lease is on record with this state. */
  predicate Is(s: Server, id: string, state: LeaseState) {
    id in s.plane.leases && s.plane.leases[id].state == state
  }

  /** The lease stands for the submitted work. */
  ghost predicate CarriesWork(l: Lease, m: Submission) {
    && l.payload == m.payload && l.requiredPlatform == m.requiredPlatform && l.preferredContent == m.preferredContent
    && l.tenant == m.tenant && l.priority == m.priority
    && forall c :: c in l.requiredCapabilities <==> c in m.requiredCapabilities
  }

  /** Everything one move can newly say about lease `id`, and which request said it. */
  ghost predicate Explained(s: Server, move: Move, u: Server, id: string) {
    var l := u.plane.leases;
    && (id in s.plane.leases ==> id in l && PlaneRuns.SameWork(s.plane.leases[id], l[id])
                                 && (Terminal(s.plane.leases[id]) ==> l[id] == s.plane.leases[id]))
    && (Is(u, id, Completed) && !Is(s, id, Completed) ==>
          Steps(s, move) && s.requests[move.request] == CompleteStart(l[id].completedBy, id, l[id].result))
    && (Is(u, id, Canceled) && !Is(s, id, Canceled) ==>
          Steps(s, move) && s.requests[move.request] == CancelStart(l[id].canceledBy, id))
    && (id in l && id !in s.plane.leases ==>
          Steps(s, move) && s.requests[move.request].SubmitReserved? && CarriesWork(l[id], s.requests[move.request].m))
  }

  predicate Steps(s: Server, move: Move) {
    move.Progress? && move.request in s.requests
  }

  lemma ProgressExplained(s: Server, r: nat, now: Instant, id: string)
    requires Valid(s.plane) && r in s.requests
    ensures Explained(s, Progress(r, now), Advance(s, r, now), id)
  {
    hide Valid, Advance, MayComplete, MayCancel, SubmissionAccepted, LeaseId, HasRoom, Dropped;
    AdvanceMeans(s, r, now);
  }

  lemma WorkerCallExplained(s: Server, c: PlaneRuns.Call, id: string)
    requires Valid(s.plane) && SlotFree(c)
    ensures Explained(s, WorkerCall(c), s.(plane := PlaneRuns.Step(s.plane, c)), id)
  {
    hide Inv, Durable, PlaneRuns.Step, PlaneRuns.Accepted;
    var u := PlaneRuns.Step(s.plane, c);
    if id in s.plane.leases {
      PlaneRuns.StepMovesLease(s.plane, c, id);
    } else if id in u.leases {
      PlaneRuns.StepCreatesLease(s.plane, c, id);
    }
  }

  lemma MoveExplained(s: Server, move: Move, id: string)
    requires Valid(s.plane)
    ensures Explained(s, move, Next(s, move), id)
  {
    hide Valid, Advance, PlaneRuns.Step;
    if move.Progress? && move.request in s.requests {
      hide Explained;
      ProgressExplained(s, move.request, move.now, id);
    } else if move.WorkerCall? && SlotFree(move.call) {
      hide Explained;
      WorkerCallExplained(s, move.call, id);
    }
  }

  // ----- Over every interleaving -----

  /** Some request of the run asked for exactly this. */
  ghost predicate Asked(moves: seq<Move>, p: Phase) {
    exists r :: Arrived(moves, r, p)
  }

  lemma AskedBefore(moves: seq<Move>, move: Move, p: Phase)
    requires Asked(moves, p)
    ensures Asked(moves + [move], p)
  {
    hide Arrived;
    var r :| Arrived(moves, r, p);
    ArrivedBefore(moves, move, r, p);
  }

  /** What a lease of the running server says beyond what the server started with was asked for by some request. */
  ghost predicate Accounted(start: Server, moves: seq<Move>, s: Server, id: string) {
    var l := s.plane.leases;
    && (Is(s, id, Completed) && !Is(start, id, Completed) ==> Asked(moves, CompleteStart(l[id].completedBy, id, l[id].result)))
    && (Is(s, id, Canceled) && !Is(start, id, Canceled) ==> Asked(moves, CancelStart(l[id].canceledBy, id)))
    && (id in l && id !in start.plane.leases ==> exists m :: CarriesWork(l[id], m) && Asked(moves, SubmitStart(m)))
  }

  lemma AccountedStep(start: Server, moves: seq<Move>, s: Server, move: Move, id: string)
    requires Accounted(start, moves, s, id) && AllFaithful(moves, s) && Valid(s.plane)
    ensures Accounted(start, moves + [move], Next(s, move), id)
  {
    hide Valid, Next, Asked, Arrived, Terminal, CarriesWork;
    MoveExplained(s, move, id);
    var u := Next(s, move);
    var l, k := s.plane.leases, u.plane.leases;
    if Is(u, id, Completed) && !Is(start, id, Completed) {
      FinalStates(k[id]);
      if Is(s, id, Completed) {
        FinalStates(l[id]);
        AskedBefore(moves, move, CompleteStart(k[id].completedBy, id, k[id].result));
      } else {
        AskedNow(moves, s, move);
      }
    }
    if Is(u, id, Canceled) && !Is(start, id, Canceled) {
      if Is(s, id, Canceled) {
        FinalStates(l[id]);
        AskedBefore(moves, move, CancelStart(k[id].canceledBy, id));
      } else {
        AskedNow(moves, s, move);
      }
    }
    if id in k && id !in start.plane.leases {
      if id in l {
        var m :| CarriesWork(l[id], m) && Asked(moves, SubmitStart(m));
        AskedBefore(moves, move, SubmitStart(m));
        WorkCarriedOn(l[id], k[id], m);
      } else {
        AskedNow(moves, s, move);
      }
    }
  }

  lemma FinalStates(l: Lease)
    ensures l.state == Completed || l.state == Canceled ==> Terminal(l)
  {
  }

  lemma WorkCarriedOn(l: Lease, k: Lease, m: Submission)
    requires PlaneRuns.SameWork(l, k) && CarriesWork(l, m)
    ensures CarriesWork(k, m)
  {
  }

  /** The request that takes this step came in with what it carries. */
  lemma AskedNow(moves: seq<Move>, s: Server, move: Move)
    requires Steps(s, move) && AllFaithful(moves, s)
    ensures StartPhase(s.requests[move.request]) ==> Asked(moves + [move], s.requests[move.request])
    ensures s.requests[move.request].SubmitReserved? ==> Asked(moves + [move], SubmitStart(s.requests[move.request].m))
  {
    hide Arrived;
    FaithfulBefore(moves, move, move.request, s.requests[move.request]);
  }

  /**
   From a fresh server, in every interleaving of requests and worker calls: each completed lease
   has the worker and result of a completion request for it, each canceled lease the actor of a
   cancellation request for it, and each new lease the work of a submission.
   */
  lemma {:induction false} EverythingWasAsked(s: Server, moves: seq<Move>, id: string)
    requires Fresh(s)
    ensures Accounted(s, moves, Run(s, moves), id)
    decreases moves
  {
    hide Next, Accounted, Consistent, Valid;
    if moves == [] {
      NothingNew(s, id);
    } else {
      var n := |moves| - 1;
      EverythingWasAsked(s, moves[..n], id);
      RequestsAreFaithful(s, moves[..n]);
      FreshIsConsistent(s);
      EveryInterleavingConserves(s, moves[..n]);
      PlaneIsValid(Run(s, moves[..n]));
      AccountedStep(s, moves[..n], Run(s, moves[..n]), moves[n], id);
      assert moves == moves[..n] + [moves[n]];
    }
  }

  lemma NothingNew(s: Server, id: string)
    ensures Accounted(s, [], s, id)
  {
  }

  lemma PlaneIsValid(s: Server)
    requires Consistent(s)
    ensures Valid(s.plane)
  {
    hide Valid, UsageExact, SlotOnce, NoOrphans, HistoryFacts, PhaseFacts, EntryFacts, LockHeld;
  }
}
