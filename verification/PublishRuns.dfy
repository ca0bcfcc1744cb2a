/** What holds over every interleaving, failure and crash of publish runs. */
module PublishRuns {
  import opened Wrappers
  import opened Journal
  import opened Publish

  /** The whole of what one step does to the journal, seen from the run that takes it. */
  ghost predicate StepEffect(j: Records, run: Run, k: Records, after: Run) {
    && Preserves(j, k)
    && after.req == run.req && (run.pc.Stopped? ==> after == run)
    && (forall x :: x in j && run.claim != Some(x) ==> k[x] == j[x])
    && (forall x :: x in k && x !in j ==> k[x].status.Started?)
    && (run.claim.Some? ==> after.claim == run.claim)
    && (run.claim.None? && after.claim.Some? ==>
          after.claim.value !in j && after.claim.value in k && k[after.claim.value] == Record(Started, run.req.scope))
    && (run.claim.Some? && run.claim.value in j ==> Settles(j[run.claim.value], run, k[run.claim.value], after))
  }

  /** Only a finishing run changes its record, to the status its flag says. */
  predicate Settles(before: Record, run: Run, now: Record, after: Run) {
    || now == before
    || (&& before.status.Started? && run.pc.Finishing?
        && now == before.(status := if run.pc.succeeded then Completed else Failed)
        && after == run.(pc := Stopped))
  }

  lemma ClaimingEffect(j: Records, run: Run, id: string, o: Outcome)
    requires run.claim.None? && !run.pc.Stopped?
    ensures StepEffect(j, run, Claiming(j, run, id, o).0, Claiming(j, run, id, o).1)
  {
    StartPreserves(j, id, run.req.scope, WriteFault(o));
  }

  lemma FinishingEffect(derive: string -> string, j: Records, run: Run, o: Outcome)
    requires run.pc.Finishing? && OwnerAt(run)
    ensures StepEffect(j, run, Advance(derive, j, run, o).0, Advance(derive, j, run, o).1)
  {
    FinishPreserves(j, run.claim.value, if run.pc.succeeded then Completed else Failed, WriteFault(o));
  }

  lemma QuietEffect(j: Records, run: Run, after: Run)
    requires after.req == run.req && after.claim == run.claim && (run.pc.Stopped? ==> after == run)
    ensures StepEffect(j, run, j, after)
  {
  }

  lemma AdvanceEffect(derive: string -> string, j: Records, run: Run, o: Outcome)
    requires OwnerAt(run)
    ensures StepEffect(j, run, Advance(derive, j, run, o).0, Advance(derive, j, run, o).1)
  {
    hide StepEffect, AfterStart, AfterFinish, RecoveryId, ValidToken, Recoverable;
    if !o.Crash? && run.pc.Finishing? {
      FinishingEffect(derive, j, run, o);
    } else if !o.Crash? && run.pc.Idle? && run.req.token == "" {
      ClaimingEffect(j, run, run.req.base, o);
    } else if !o.Crash? && run.pc.Recovering? {
      ClaimingEffect(j, run, RecoveryId(run.req.base, run.req.token, derive), o);
    } else {
      QuietEffect(j, run, Advance(derive, j, run, o).1);
    }
  }

  // ----- The invariant -----

  predicate RunOk(run: Run) {
    LogAt(run) && OwnerAt(run)
  }

  /** A claim is a record of this history, open as long as the run has not stopped. */
  ghost predicate ClaimOk(j0: Records, j: Records, run: Run) {
    run.claim.Some? ==>
      var id := run.claim.value;
      id !in j0 && id in j && j[id].scope == run.req.scope && (!run.pc.Stopped? ==> j[id].status.Started?)
  }

  ghost predicate ClaimsDistinct(runs: seq<Run>) {
    forall r, q :: 0 <= r < q < |runs| && runs[r].claim.Some? ==> runs[r].claim != runs[q].claim
  }

  /** The run that settled an operation, and what it had done by then. */
  predicate Settled(j: Records, run: Run, id: string)
    requires id in j
  {
    && run.claim == Some(id) && run.pc.Stopped?
    && (j[id].status.Completed? ==> run.log == Publication(run.req, run.artifacts))
    && (j[id].status.Failed? ==> run.failure.Some? && LogOfFailure(run, run.failure.value))
  }

  ghost predicate HasStory(j: Records, runs: seq<Run>, id: string)
    requires id in j
  {
    exists r :: 0 <= r < |runs| && Settled(j, runs[r], id)
  }

  ghost predicate ClaimsOk(j0: Records, j: Records, runs: seq<Run>) {
    forall r :: 0 <= r < |runs| ==> ClaimOk(j0, j, runs[r])
  }

  /** Records of earlier histories are never touched. */
  ghost predicate EarlierKept(j0: Records, j: Records) {
    forall id :: id in j0 ==> id in j && j[id] == j0[id]
  }

  /** Every operation settled in this history was settled by a run that did what the status says. */
  ghost predicate StoriesTold(j0: Records, j: Records, runs: seq<Run>) {
    forall id :: id in j && id !in j0 && !j[id].status.Started? ==> HasStory(j, runs, id)
  }

  ghost predicate Inv(j0: Records, s: Sys) {
    && (forall r :: 0 <= r < |s.runs| ==> RunOk(s.runs[r]))
    && ClaimsOk(j0, s.journal, s.runs) && ClaimsDistinct(s.runs)
    && EarlierKept(j0, s.journal) && StoriesTold(j0, s.journal, s.runs)
  }

  lemma InitialInv(s: Sys)
    requires Initial(s)
    ensures Inv(s.journal, s)
  {
  }

  /** The step of run `r` keeps the claims on record. */
  lemma ClaimsStayOk(j0: Records, j: Records, runs: seq<Run>, r: nat, k: Records, after: Run)
    requires r < |runs| && StepEffect(j, runs[r], k, after)
    requires ClaimsOk(j0, j, runs) && ClaimsDistinct(runs)
    requires EarlierKept(j0, j)
    ensures ClaimsOk(j0, k, runs[r := after]) && EarlierKept(j0, k)
  {
    forall id | id in j0 ensures id in k && k[id] == j0[id] {
      assert ClaimOk(j0, j, runs[r]);
    }
    var next := runs[r := after];
    forall q | 0 <= q < |runs| ensures ClaimOk(j0, k, next[q]) {
      assert ClaimOk(j0, j, runs[q]) && ClaimOk(j0, j, runs[r]);
      if q < r {
        assert runs[q].claim.Some? ==> runs[q].claim != runs[r].claim;
      } else if q > r {
        assert runs[r].claim.Some? ==> runs[q].claim != runs[r].claim;
      }
    }
  }

  /** A new claim is of an operation nobody has on record, so no two runs share one. */
  lemma ClaimsStayDistinct(j0: Records, j: Records, runs: seq<Run>, r: nat, k: Records, after: Run)
    requires r < |runs| && StepEffect(j, runs[r], k, after)
    requires ClaimsOk(j0, j, runs) && ClaimsDistinct(runs)
    ensures ClaimsDistinct(runs[r := after])
  {
    var next := runs[r := after];
    forall p, q | 0 <= p < q < |runs| && next[p].claim.Some? ensures next[p].claim != next[q].claim {
      assert ClaimOk(j0, j, runs[p]) && ClaimOk(j0, j, runs[q]);
    }
  }

  /** A record settles in the step of its owner, and the owner's log says what it did. */
  lemma StoriesKept(j0: Records, j: Records, runs: seq<Run>, r: nat, k: Records, after: Run)
    requires r < |runs| && StepEffect(j, runs[r], k, after) && RunOk(runs[r])
    requires StoriesTold(j0, j, runs)
    ensures StoriesTold(j0, k, runs[r := after])
  {
    hide Publication, Evidence, SentAll, FilesWritten, Begun, OwnerAt;
    var next := runs[r := after];
    forall id | id in k && id !in j0 && !k[id].status.Started? ensures HasStory(k, next, id) {
      assert id in j;
      if k[id] == j[id] {
        var q :| 0 <= q < |runs| && Settled(j, runs[q], id);
        assert Settled(k, next[q], id);
      } else {
        assert Settled(k, next[r], id);
      }
    }
  }

  /** Every step keeps the invariant. */
  lemma NextKeeps(derive: string -> string, j0: Records, s: Sys, l: Label)
    requires Inv(j0, s)
    ensures Inv(j0, Next(derive, s, l))
  {
    hide StepEffect, Advance, ClaimsOk, ClaimsDistinct, EarlierKept, StoriesTold, LogAt, OwnerAt;
    if l.run < |s.runs| {
      var r, run := l.run, s.runs[l.run];
      var (k, after) := Advance(derive, s.journal, run, l.outcome);
      assert RunOk(run);
      AdvanceEffect(derive, s.journal, run, l.outcome);
      AdvanceKeepsLog(derive, s.journal, run, l.outcome);
      ClaimsStayOk(j0, s.journal, s.runs, r, k, after);
      ClaimsStayDistinct(j0, s.journal, s.runs, r, k, after);
      StoriesKept(j0, s.journal, s.runs, r, k, after);
    }
  }

  lemma {:induction false} EveryRunKeeps(derive: string -> string, s: Sys, labels: seq<Label>)
    requires Initial(s)
    ensures Inv(s.journal, Exec(derive, s, labels))
    decreases labels
  {
    if labels == [] {
      InitialInv(s);
    } else {
      var n := |labels| - 1;
      EveryRunKeeps(derive, s, labels[..n]);
      NextKeeps(derive, s.journal, Exec(derive, s, labels[..n]), labels[n]);
    }
  }

  // ----- Main results -----

  /** Each operation ID is owned by at most one run, and none of the IDs already on record is run again. */
  lemma RunsAtMostOnce(derive: string -> string, s: Sys, labels: seq<Label>, r: nat, q: nat)
    requires Initial(s) && r < |s.runs| && q < |s.runs|
    ensures var t := Exec(derive, s, labels);
            && (t.runs[r].claim.Some? && t.runs[r].claim == t.runs[q].claim ==> r == q)
            && (t.runs[r].claim.Some? ==> t.runs[r].claim.value !in s.journal)
  {
    hide Exec;
    EveryRunKeeps(derive, s, labels);
    var t := Exec(derive, s, labels);
    assert ClaimOk(s.journal, t.journal, t.runs[r]);
  }

  /**
   An operation recorded as completed in this history was run by an invocation that pushed
   the verified digest, then every artifact, then passed the policy if there is one, and
   moved the tag only after all of that.
   */
  lemma CompletedMeansPublished(derive: string -> string, s: Sys, labels: seq<Label>, id: string)
    requires Initial(s) && id !in s.journal
    requires id in Exec(derive, s, labels).journal && Exec(derive, s, labels).journal[id].status.Completed?
    ensures var t := Exec(derive, s, labels);
            exists r :: 0 <= r < |t.runs| && t.runs[r].claim == Some(id) && t.runs[r].log == Publication(t.runs[r].req, t.runs[r].artifacts)
  {
    hide Exec, Publication;
    EveryRunKeeps(derive, s, labels);
    var t := Exec(derive, s, labels);
    assert HasStory(t.journal, t.runs, id);
    var r :| 0 <= r < |t.runs| && Settled(t.journal, t.runs[r], id);
  }

  /** Wherever a run stops, if it moved the tag it had done all that must precede the tag. */
  lemma TagMovesLast(derive: string -> string, s: Sys, labels: seq<Label>, r: nat)
    requires Initial(s) && r < |s.runs| && TagMoved in Exec(derive, s, labels).runs[r].log
    ensures var run := Exec(derive, s, labels).runs[r];
            Evidence(run.req, run.artifacts) + [TagMoved] <= run.log <= Publication(run.req, run.artifacts)
  {
    hide Exec;
    EveryRunKeeps(derive, s, labels);
    var t := Exec(derive, s, labels);
    assert RunOk(t.runs[r]);
    PrefixAt(t.runs[r]);
    TagPosition(t.runs[r]);
  }

  lemma PrefixAt(run: Run)
    requires LogAt(run) && TagMoved in run.log
    ensures run.log <= Publication(run.req, run.artifacts)
  {
    hide LogAt, Publication;
    BegunAt(run);
  }

  lemma TagPosition(run: Run)
    requires run.log <= Publication(run.req, run.artifacts) && TagMoved in run.log
    ensures Evidence(run.req, run.artifacts) + [TagMoved] <= run.log
  {
    var e, whole := Evidence(run.req, run.artifacts), Publication(run.req, run.artifacts);
    var i :| 0 <= i < |run.log| && run.log[i] == TagMoved;
    assert whole[i] == TagMoved;
    NoTagInEvidence(run.req, run.artifacts);
    assert whole[..|e| + 1] == e + [TagMoved];
    assert run.log[..|e| + 1] == whole[..|e| + 1];
  }

  lemma NoTagInEvidence(req: Request, n: nat)
    ensures forall i :: 0 <= i < |Evidence(req, n)| ==> Publication(req, n)[i] != TagMoved
  {
    assert forall i :: 0 <= i < |Evidence(req, n)| ==> Publication(req, n)[i] == Evidence(req, n)[i];
  }

  /** Once an operation is settled its record never changes again. */
  lemma {:induction false} SettledForever(derive: string -> string, s: Sys, labels: seq<Label>)
    requires forall r :: 0 <= r < |s.runs| ==> OwnerAt(s.runs[r])
    ensures Preserves(s.journal, Exec(derive, s, labels).journal)
    ensures forall r :: 0 <= r < |s.runs| ==> OwnerAt(Exec(derive, s, labels).runs[r])
    decreases labels
  {
    if labels != [] {
      hide OwnerAt, Advance;
      var n := |labels| - 1;
      SettledForever(derive, s, labels[..n]);
      var t, l := Exec(derive, s, labels[..n]), labels[n];
      if l.run < |s.runs| {
        AdvanceEffect(derive, t.journal, t.runs[l.run], l.outcome);
        AdvanceOwner(derive, t.journal, t.runs[l.run], l.outcome);
      }
    }
  }

  lemma AdvanceOwner(derive: string -> string, j: Records, run: Run, o: Outcome)
    requires OwnerAt(run)
    ensures OwnerAt(Advance(derive, j, run, o).1)
  {
    hide AfterStart, AfterFinish, RecoveryId, ValidToken, Recoverable;
  }

  /** A run that has not begun when its operation is completed never goes on, token or not. */
  lemma {:induction false} NeverAfterCompletion(derive: string -> string, s: Sys, labels: seq<Label>, r: nat)
    requires r < |s.runs| && forall q :: 0 <= q < |s.runs| ==> OwnerAt(s.runs[q])
    requires s.runs[r].pc.Idle?
    requires s.runs[r].req.base in s.journal && s.journal[s.runs[r].req.base].status.Completed?
    ensures var run := Exec(derive, s, labels).runs[r];
            run.claim.None? && run.log == s.runs[r].log && run.req == s.runs[r].req && (run.pc.Idle? || run.pc.Stopped?)
    decreases labels
  {
    if labels != [] {
      hide OwnerAt, Advance;
      var n := |labels| - 1;
      NeverAfterCompletion(derive, s, labels[..n], r);
      SettledForever(derive, s, labels[..n]);
      var t, l := Exec(derive, s, labels[..n]), labels[n];
      if l.run == r {
        CompletedStops(derive, t.journal, t.runs[r], l.outcome);
      }
    } else {
      assert OwnerAt(s.runs[r]);
    }
  }

  lemma CompletedStops(derive: string -> string, j: Records, run: Run, o: Outcome)
    requires run.claim.None? && (run.pc.Idle? || run.pc.Stopped?)
    requires run.req.base in j && j[run.req.base].status.Completed?
    ensures Advance(derive, j, run, o).1 == run.(pc := Stopped)
  {
  }

  // ----- After a completed publication -----

  /** `Start` on this operation would succeed. */
  predicate Claimable(j: Records, id: string, scope: string) {
    ValidOperationId(id) && scope != "" && id !in j
  }

  ghost predicate Owns(derive: string -> string, s: Sys, labels: seq<Label>, r: nat)
    requires r < |s.runs|
  {
    Exec(derive, s, labels).runs[r].claim.Some?
  }

  /** In some future the run owns an operation. */
  ghost predicate GoesOn(derive: string -> string, s: Sys, r: nat)
    requires r < |s.runs|
  {
    exists labels :: Owns(derive, s, labels, r)
  }

  /**
   Exactly which runs still go on once their operation is completed: those that had already
   looked the operation up for a recovery, and whose recovery was not run yet.
   */
  lemma GoesOnAfterCompletionIff(derive: string -> string, s: Sys, r: nat)
    requires r < |s.runs| && forall q :: 0 <= q < |s.runs| ==> OwnerAt(s.runs[q])
    requires s.runs[r].claim.None? && s.runs[r].req.base in s.journal && s.journal[s.runs[r].req.base].status.Completed?
    ensures var run := s.runs[r];
            GoesOn(derive, s, r) <==>
            run.pc.Recovering? && Claimable(s.journal, RecoveryId(run.req.base, run.req.token, derive), run.req.scope)
  {
    hide Exec, Advance, OwnerAt, RecoveryId, ValidOperationId;
    var run := s.runs[r];
    var id := RecoveryId(run.req.base, run.req.token, derive);
    if run.pc.Recovering? && Claimable(s.journal, id, run.req.scope) {
      var o := Succeeds("", true, 0);
      StartsAt(derive, s, r);
      Extend(derive, s, [], r, s.journal, run, o);
      assert Advance(derive, s.journal, run, o).1.claim == Some(id) by { RecoveryStarts(derive, s.journal, run, o); }
      var labels := [] + [Label(r, o)];
      assert Owns(derive, s, labels, r);
    } else {
      forall labels ensures !Owns(derive, s, labels, r) {
        NeverGoesOn(derive, s, labels, r);
      }
    }
  }

  lemma RecoveryStarts(derive: string -> string, j: Records, run: Run, o: Outcome)
    requires run.pc.Recovering? && o.Succeeds? && Claimable(j, RecoveryId(run.req.base, run.req.token, derive), run.req.scope)
    ensures Advance(derive, j, run, o).1 == run.(pc := Claimed, claim := Some(RecoveryId(run.req.base, run.req.token, derive)))
    ensures Advance(derive, j, run, o).0 == j[RecoveryId(run.req.base, run.req.token, derive) := Record(Started, run.req.scope)]
  {
  }

  lemma {:induction false} NeverGoesOn(derive: string -> string, s: Sys, labels: seq<Label>, r: nat)
    requires r < |s.runs| && forall q :: 0 <= q < |s.runs| ==> OwnerAt(s.runs[q])
    requires s.runs[r].claim.None? && s.runs[r].req.base in s.journal && s.journal[s.runs[r].req.base].status.Completed?
    requires s.runs[r].pc.Recovering? ==>
               !Claimable(s.journal, RecoveryId(s.runs[r].req.base, s.runs[r].req.token, derive), s.runs[r].req.scope)
    ensures var run := Exec(derive, s, labels).runs[r];
            run.claim.None? && run.req == s.runs[r].req && (run.pc == s.runs[r].pc || run.pc.Stopped?)
    decreases labels
  {
    if labels != [] {
      hide OwnerAt, Advance, RecoveryId, ValidOperationId;
      var n := |labels| - 1;
      NeverGoesOn(derive, s, labels[..n], r);
      SettledForever(derive, s, labels[..n]);
      var t, l := Exec(derive, s, labels[..n]), labels[n];
      if l.run == r {
        Blocked(derive, t.journal, t.runs[r], l.outcome);
      }
    }
  }

  lemma Blocked(derive: string -> string, j: Records, run: Run, o: Outcome)
    requires run.claim.None? && OwnerAt(run) && run.req.base in j && j[run.req.base].status.Completed?
    requires run.pc.Recovering? ==> !Claimable(j, RecoveryId(run.req.base, run.req.token, derive), run.req.scope)
    ensures Advance(derive, j, run, o).1 == run.(pc := Stopped)
  {
    hide RecoveryId, ValidOperationId;
  }

  /** What lets a run that has not begun claim an operation. */
  predicate CanBegin(derive: string -> string, j: Records, req: Request) {
    if req.token == "" then Claimable(j, req.base, req.scope)
    else ValidToken(req.token) && Recoverable(j, req.base, req.scope) && Claimable(j, RecoveryId(req.base, req.token, derive), req.scope)
  }

  function ClaimId(derive: string -> string, req: Request): string {
    if req.token == "" then req.base else RecoveryId(req.base, req.token, derive)
  }

  /**
   Only the record of the original operation stops a recovery: as long as that one is not
   completed, a new token goes on, whatever other recoveries of it have completed.
   */
  lemma RecoveryGoesOn(derive: string -> string, s: Sys, r: nat) returns (labels: seq<Label>)
    requires Initial(s) && r < |s.runs| && CanBegin(derive, s.journal, s.runs[r].req)
    ensures var req := s.runs[r].req;
            At(derive, s, labels, r, s.journal[ClaimId(derive, req) := Record(Started, req.scope)],
               s.runs[r].(pc := Claimed, claim := Some(ClaimId(derive, req))))
  {
    hide Exec, Advance, RecoveryId, ValidOperationId, ValidToken, Recoverable;
    var run, req, o := s.runs[r], s.runs[r].req, Succeeds("", true, 0);
    StartsAt(derive, s, r);
    Extend(derive, s, [], r, s.journal, run, o);
    labels := [] + [Label(r, o)];
    FirstStep(derive, s.journal, run, o);
    if req.token != "" {
      var looked := run.(pc := Recovering);
      Extend(derive, s, labels, r, s.journal, looked, o);
      RecoveryStarts(derive, s.journal, looked, o);
      labels := labels + [Label(r, o)];
    }
  }

  lemma FirstStep(derive: string -> string, j: Records, run: Run, o: Outcome)
    requires run.pc.Idle? && o.Succeeds? && CanBegin(derive, j, run.req)
    ensures run.req.token == "" ==>
              Advance(derive, j, run, o) == (j[run.req.base := Record(Started, run.req.scope)], run.(pc := Claimed, claim := Some(run.req.base)))
    ensures run.req.token != "" ==> Advance(derive, j, run, o) == (j, run.(pc := Recovering))
  {
  }

  // ----- When a failed operation has moved the tag -----

  /** The operation of run `r` is recorded as failed. */
  predicate RecordedFailed(s: Sys, r: nat)
    requires r < |s.runs|
  {
    var run := s.runs[r];
    run.claim.Some? && run.claim.value in s.journal && s.journal[run.claim.value].status.Failed?
  }

  /** The tag call itself failed although it took effect, or a project file failed after it. */
  predicate FailedPastTag(f: Failure) {
    f.at.Persisting? || (f.at.Tagging? && f.tookEffect)
  }

  /** Over every run, recoveries included: a failed record hides a moved tag exactly if it failed at or after the tag call. */
  lemma FailedAfterTagIff(derive: string -> string, s: Sys, labels: seq<Label>, r: nat)
    requires Initial(s) && r < |s.runs| && RecordedFailed(Exec(derive, s, labels), r)
    ensures var run := Exec(derive, s, labels).runs[r];
            run.failure.Some? && (TagMoved in run.log <==> FailedPastTag(run.failure.value))
  {
    hide Exec;
    EveryRunKeeps(derive, s, labels);
    var t := Exec(derive, s, labels);
    var run := t.runs[r];
    var id := run.claim.value;
    assert ClaimOk(s.journal, t.journal, run) && HasStory(t.journal, t.runs, id);
    var q :| 0 <= q < |t.runs| && Settled(t.journal, t.runs[q], id);
    assert q == r;
    TagOfFailure(run, run.failure.value);
  }

  lemma TagOfFailure(run: Run, f: Failure)
    requires LogOfFailure(run, f)
    ensures TagMoved in run.log <==> FailedPastTag(f)
  {
    NoTagInEvidence(run.req, run.artifacts);
    var e := Evidence(run.req, run.artifacts);
    assert forall i :: 0 <= i < |e| ==> Publication(run.req, run.artifacts)[i] == e[i];
    if FailedPastTag(f) {
      assert run.log[|e|] == TagMoved;
    }
  }

  ghost predicate At(derive: string -> string, s: Sys, labels: seq<Label>, r: nat, j: Records, run: Run)
    requires r < |s.runs|
  {
    Exec(derive, s, labels).journal == j && Exec(derive, s, labels).runs[r] == run
  }

  lemma Extend(derive: string -> string, s: Sys, labels: seq<Label>, r: nat, j: Records, run: Run, o: Outcome)
    requires r < |s.runs| && At(derive, s, labels, r, j, run)
    ensures var (k, after) := Advance(derive, j, run, o);
            At(derive, s, labels + [Label(r, o)], r, k, after)
  {
    hide Advance;
    var more := labels + [Label(r, o)];
    assert more[..|labels|] == labels;
  }

  lemma StartsAt(derive: string -> string, s: Sys, r: nat)
    requires r < |s.runs|
    ensures At(derive, s, [], r, s.journal, s.runs[r])
  {
  }

  function OnTheWay(steps: nat): Pc {
    match steps
    case 0 => Claimed
    case 1 => Pushing
    case 2 => Building
    case 3 => Sending(0)
    case 4 => Deciding
    case _ => Tagging
  }

  /** Up to the tag call, with no artifacts, every call succeeding. */
  lemma ReachTagging(derive: string -> string, s: Sys, r: nat) returns (labels: seq<Label>)
    requires Initial(s) && r < |s.runs| && CanBegin(derive, s.journal, s.runs[r].req)
    ensures var req, id := s.runs[r].req, ClaimId(derive, s.runs[r].req);
            At(derive, s, labels, r, s.journal[id := Record(Started, req.scope)], Run(req, Tagging, Some(id), 0, Evidence(req, 0), None))
  {
    hide Exec, Evidence, CanBegin;
    var req, id := s.runs[r].req, ClaimId(derive, s.runs[r].req);
    var good, j := Succeeds(req.localDigest, true, 0), s.journal[id := Record(Started, req.scope)];
    labels := RecoveryGoesOn(derive, s, r);
    var now := s.runs[r].(pc := Claimed, claim := Some(id));
    var steps := 0;
    while steps < 5
      invariant 0 <= steps <= 5
      invariant At(derive, s, labels, r, j, now)
      invariant now.req == req && now.claim == Some(id) && now.failure.None? && now.pc == OnTheWay(steps)
      invariant steps < 2 ==> now.log == []
      invariant 2 <= steps < 5 ==> now.log == [Pushed(req.localDigest)]
      invariant 3 <= steps ==> now.artifacts == 0
      invariant steps == 5 ==> now.log == Evidence(req, 0)
    {
      Extend(derive, s, labels, r, j, now, good);
      labels := labels + [Label(r, good)];
      EvidenceOfNothing(req);
      now := Advance(derive, j, now, good).1;
      steps := steps + 1;
    }
  }

  lemma EvidenceOfNothing(req: Request)
    ensures Evidence(req, 0) == [Pushed(req.localDigest)] + if req.policy then [PolicyPassed] else []
    ensures !req.policy ==> Evidence(req, 0) == [Pushed(req.localDigest)]
  {
  }

  /** A run whose operation is recorded as failed although the tag moved. */
  predicate FailedAfterTag(s: Sys, r: nat, at: Pc)
    requires r < |s.runs|
  {
    RecordedFailed(s, r) && TagMoved in s.runs[r].log && s.runs[r].failure.Some? && s.runs[r].failure.value.at == at
  }

  /** It happens to any request that can begin, first or recovery: the response to the tag call is lost. */
  lemma LostTagResponseExample(derive: string -> string, s: Sys, r: nat) returns (labels: seq<Label>)
    requires Initial(s) && r < |s.runs| && CanBegin(derive, s.journal, s.runs[r].req)
    ensures FailedAfterTag(Exec(derive, s, labels), r, Tagging)
  {
    hide Exec, Evidence, CanBegin;
    labels := ReachTagging(derive, s, r);
    var req, id := s.runs[r].req, ClaimId(derive, s.runs[r].req);
    var j, run := s.journal[id := Record(Started, req.scope)], Run(req, Tagging, Some(id), 0, Evidence(req, 0), None);
    var lost, recorded := Fails(true, ""), Succeeds("", true, 0);
    Extend(derive, s, labels, r, j, run, lost);
    labels := labels + [Label(r, lost)];
    var failed := Advance(derive, j, run, lost).1;
    assert failed.log == Evidence(req, 0) + [TagMoved];
    Extend(derive, s, labels, r, j, failed, recorded);
    labels := labels + [Label(r, recorded)];
  }

  /** And to any request with a project: the first project file cannot be written. */
  lemma ProjectFileExample(derive: string -> string, s: Sys, r: nat) returns (labels: seq<Label>)
    requires Initial(s) && r < |s.runs| && CanBegin(derive, s.journal, s.runs[r].req) && s.runs[r].req.project
    ensures FailedAfterTag(Exec(derive, s, labels), r, Persisting(0))
  {
    hide Exec, Evidence, CanBegin;
    labels := ReachTagging(derive, s, r);
    var req, id := s.runs[r].req, ClaimId(derive, s.runs[r].req);
    var j, run := s.journal[id := Record(Started, req.scope)], Run(req, Tagging, Some(id), 0, Evidence(req, 0), None);
    var good, bad := Succeeds("", true, 0), Fails(false, "");
    Extend(derive, s, labels, r, j, run, good);
    labels := labels + [Label(r, good)];
    var tagged := Advance(derive, j, run, good).1;
    assert tagged.log == Evidence(req, 0) + [TagMoved];
    Extend(derive, s, labels, r, j, tagged, bad);
    labels := labels + [Label(r, bad)];
    var failed := Advance(derive, j, tagged, bad).1;
    assert failed.log == tagged.log;
    Extend(derive, s, labels, r, j, failed, good);
    labels := labels + [Label(r, good)];
  }

  // ----- What a run claims -----

  /** The run's operation is its base, or the recovery of a recorded one of the same scope, as its token says. */
  ghost predicate ClaimNamed(derive: string -> string, j: Records, run: Run) {
    var req := run.req;
    && (run.claim.Some? ==> run.claim.value == if req.token == "" then req.base else req.base + "-recovery-" + derive(req.token))
    && (run.pc.Recovering? ==> req.token != "")
    && (run.pc.Recovering? || (run.claim.Some? && req.token != "") ==>
          |req.token| <= 64 && ValidOperationId(req.token) && req.base in j && j[req.base].scope == req.scope)
  }

  lemma AdvanceNames(derive: string -> string, j: Records, run: Run, o: Outcome)
    requires ClaimNamed(derive, j, run) && OwnerAt(run)
    ensures ClaimNamed(derive, Advance(derive, j, run, o).0, Advance(derive, j, run, o).1)
  {
    hide ValidOperationId, AfterFinish;
    AdvanceEffect(derive, j, run, o);
    assert Preserves(j, Advance(derive, j, run, o).0);
    hide Preserves;
    if run.req.base in j {
      KeptScope(j, Advance(derive, j, run, o).0, run.req.base);
    }
  }

  lemma KeptScope(j: Records, k: Records, id: string)
    requires Preserves(j, k) && id in j
    ensures id in k && k[id].scope == j[id].scope
  {
  }

  lemma StillNamed(derive: string -> string, j: Records, k: Records, run: Run)
    requires ClaimNamed(derive, j, run) && Preserves(j, k)
    ensures ClaimNamed(derive, k, run)
  {
    hide ValidOperationId, Preserves;
    if run.req.base in j {
      KeptScope(j, k, run.req.base);
    }
  }

  /** In every run each claim has its request's own name; a recovery is of a recorded operation with the same scope. */
  lemma {:induction false} ClaimsAreNamed(derive: string -> string, s: Sys, labels: seq<Label>, r: nat)
    requires Initial(s) && r < |s.runs|
    ensures ClaimNamed(derive, Exec(derive, s, labels).journal, Exec(derive, s, labels).runs[r])
    decreases labels
  {
    hide ClaimNamed, Advance, OwnerAt;
    if labels == [] {
      NothingClaimed(derive, s, r);
    } else {
      var n := |labels| - 1;
      ClaimsAreNamed(derive, s, labels[..n], r);
      var t, l := Exec(derive, s, labels[..n]), labels[n];
      OwnersThroughout(derive, s, labels[..n]);
      if l.run < |t.runs| {
        AdvanceEffect(derive, t.journal, t.runs[l.run], l.outcome);
        if l.run == r {
          AdvanceNames(derive, t.journal, t.runs[r], l.outcome);
        } else {
          StillNamed(derive, t.journal, Advance(derive, t.journal, t.runs[l.run], l.outcome).0, t.runs[r]);
        }
      }
    }
  }

  lemma NothingClaimed(derive: string -> string, s: Sys, r: nat)
    requires Initial(s) && r < |s.runs|
    ensures ClaimNamed(derive, s.journal, s.runs[r])
  {
  }

  lemma OwnersThroughout(derive: string -> string, s: Sys, labels: seq<Label>)
    requires Initial(s)
    ensures forall q :: 0 <= q < |s.runs| ==> OwnerAt(Exec(derive, s, labels).runs[q])
  {
    hide Exec;
    SettledForever(derive, s, labels);
  }
}
