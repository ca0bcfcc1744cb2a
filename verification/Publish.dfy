/**
 Publication: any number of publish runs share one journal, each a sequence of steps that
 any other run, a failure or a crash can come between.
 */
module Publish {
  import opened Wrappers
  import opened Journal

  /** What one invocation asks for; `base` names the operation, a token asks for recovery. */
  datatype Request = Request(base: string, scope: string, token: string, localDigest: string, policy: bool, project: bool)

  /** An external call that took effect, in the order of the run's calls, whatever it reported. */
  datatype Effect = Pushed(digest: string) | Sent(artifact: nat) | PolicyPassed | TagMoved | FileWritten(file: nat)

  datatype Pc =
    | Idle
    | Recovering                 // the original was looked up and is not completed
    | Claimed                    // owns the operation; nothing is recorded if it stops here
    | Pushing                    // from here on the outcome is recorded when the run returns
    | Building
    | Sending(next: nat)
    | Deciding
    | Tagging
    | Persisting(file: nat)
    | Finishing(succeeded: bool)
    | Stopped

  /** The call that made a run fail, and whether it took effect all the same. */
  datatype Failure = Failure(at: Pc, tookEffect: bool)

  datatype Run = Run(req: Request, pc: Pc, claim: Option<string>, artifacts: nat, log: seq<Effect>, failure: Option<Failure>)

  /**
   How the next call of a run ends.  A call can fail after it took effect, as when the registry
   applies a request and the response is lost.
   */
  datatype Outcome =
    | Crash
    | Fails(tookEffect: bool, digest: string)
    | Succeeds(digest: string, validReference: bool, artifacts: nat)

  const PROJECT_FILES := 3

  function WriteFault(o: Outcome): Fault {
    match o
    case Crash => NotWritten
    case Fails(tookEffect, _) => if tookEffect then Unreported else NotWritten
    case Succeeds(_, _, _) => Sound
  }

  /** `Start`, and where the run goes from there. */
  function Claiming(j: Records, run: Run, id: string, o: Outcome): (Records, Run) {
    var (k, claim) := AfterStart(j, id, run.req.scope, WriteFault(o));
    (k, if claim.Proceed? then run.(pc := Claimed, claim := Some(id)) else run.(pc := Stopped))
  }

  /** A failed call, logged if it took effect. */
  function FailRun(run: Run, tookEffect: bool, effects: seq<Effect>): Run {
    run.(pc := Finishing(false), failure := Some(Failure(run.pc, tookEffect)), log := run.log + if tookEffect then effects else [])
  }

  /** A successful call is logged and the run goes on. */
  function GoOn(run: Run, pc: Pc, effects: seq<Effect>): Run {
    run.(pc := pc, log := run.log + effects)
  }

  function AfterTag(run: Run): Pc {
    if run.req.project then Persisting(0) else Finishing(true)
  }

  /** One step of one run. A crash can come at any point and records nothing. */
  function Advance(derive: string -> string, j: Records, run: Run, o: Outcome): (Records, Run) {
    if o.Crash? || run.pc.Stopped? then (j, run.(pc := Stopped))
    else
      match run.pc
      case Idle =>
        if run.req.token == "" then Claiming(j, run, run.req.base, o)
        else if o.Succeeds? && ValidToken(run.req.token) && Recoverable(j, run.req.base, run.req.scope) then (j, run.(pc := Recovering))
        else (j, run.(pc := Stopped))
      case Recovering => Claiming(j, run, RecoveryId(run.req.base, run.req.token, derive), o)
      case Claimed => (j, if o.Succeeds? then run.(pc := Pushing) else run.(pc := Stopped))
      case Pushing =>
        if o.Fails? then (j, FailRun(run, o.tookEffect, [Pushed(o.digest)]))
        else if o.digest != run.req.localDigest || !o.validReference then (j, FailRun(run, true, [Pushed(o.digest)]))
        else (j, GoOn(run, Building, [Pushed(o.digest)]))
      case Building => (j, if o.Fails? then FailRun(run, false, []) else run.(pc := Sending(0), artifacts := o.artifacts))
      case Sending(next) =>
        if next >= run.artifacts then (j, run.(pc := Deciding))
        else (j, if o.Fails? then FailRun(run, o.tookEffect, [Sent(next)]) else GoOn(run, Sending(next + 1), [Sent(next)]))
      case Deciding =>
        if !run.req.policy then (j, run.(pc := Tagging))
        else (j, if o.Fails? then FailRun(run, false, []) else GoOn(run, Tagging, [PolicyPassed]))
      case Tagging => (j, if o.Fails? then FailRun(run, o.tookEffect, [TagMoved]) else GoOn(run, AfterTag(run), [TagMoved]))
      case Persisting(file) =>
        (j, if o.Fails? then FailRun(run, o.tookEffect, [FileWritten(file)])
            else GoOn(run, if file + 1 < PROJECT_FILES then Persisting(file + 1) else Finishing(true), [FileWritten(file)]))
      case Finishing(succeeded) =>
        (if run.claim.Some? then AfterFinish(j, run.claim.value, if succeeded then Completed else Failed, WriteFault(o)) else j,
         run.(pc := Stopped))
  }

  datatype Sys = Sys(journal: Records, runs: seq<Run>)

  /** A step of run `run`; a label that names no run does nothing. */
  datatype Label = Label(run: nat, outcome: Outcome)

  function Next(derive: string -> string, s: Sys, l: Label): (t: Sys)
    ensures |t.runs| == |s.runs|
  {
    if l.run < |s.runs| then
      var (j, run) := Advance(derive, s.journal, s.runs[l.run], l.outcome);
      Sys(j, s.runs[l.run := run])
    else s
  }

  function Exec(derive: string -> string, s: Sys, labels: seq<Label>): (t: Sys)
    ensures |t.runs| == |s.runs|
  {
    if labels == [] then s else Next(derive, Exec(derive, s, labels[..|labels| - 1]), labels[|labels| - 1])
  }

  /** Every run is about to begin; the journal holds whatever earlier runs left. */
  ghost predicate Initial(s: Sys) {
    forall r :: 0 <= r < |s.runs| ==> s.runs[r].pc.Idle? && s.runs[r].claim.None? && s.runs[r].log == [] && s.runs[r].failure.None?
  }

  // ----- The order of a publication -----

  function SentAll(n: nat): (log: seq<Effect>)
    ensures |log| == n
  {
    seq(n, i requires 0 <= i < n => Sent(i))
  }

  function FilesWritten(n: nat): (log: seq<Effect>)
    ensures |log| == n
  {
    seq(n, i requires 0 <= i < n => FileWritten(i))
  }

  /** Everything that precedes the tag: the verified digest, every artifact, the policy. */
  function Evidence(req: Request, artifacts: nat): seq<Effect> {
    [Pushed(req.localDigest)] + SentAll(artifacts) + if req.policy then [PolicyPassed] else []
  }

  /** A complete publication: the evidence, the tag after it, then the project's own files. */
  function Publication(req: Request, artifacts: nat): seq<Effect> {
    Evidence(req, artifacts) + [TagMoved] + FilesWritten(if req.project then PROJECT_FILES else 0)
  }

  /** The log of a run that is about to make the call at `pc`. */
  predicate LogBefore(run: Run, pc: Pc) {
    var req, log, n := run.req, run.log, run.artifacts;
    match pc
    case Building => log == [Pushed(req.localDigest)]
    case Sending(next) => next <= n && log == [Pushed(req.localDigest)] + SentAll(next)
    case Deciding => log == [Pushed(req.localDigest)] + SentAll(n)
    case Tagging => log == Evidence(req, n)
    case Persisting(file) => req.project && file < PROJECT_FILES && log == Evidence(req, n) + [TagMoved] + FilesWritten(file)
    case Finishing(true) => log == Publication(req, n)
    case Finishing(false) => false
    case Stopped => false
    case _ => log == []
  }

  /** The log of a run whose call at `at` failed. */
  predicate LogOfFailure(run: Run, f: Failure) {
    var req, log, n := run.req, run.log, run.artifacts;
    match f.at
    case Pushing => if f.tookEffect then |log| == 1 && log[0].Pushed? else log == []
    case Building => log == [Pushed(req.localDigest)]
    case Sending(next) => next < n && log == [Pushed(req.localDigest)] + SentAll(if f.tookEffect then next + 1 else next)
    case Deciding => log == [Pushed(req.localDigest)] + SentAll(n)
    case Tagging => log == Evidence(req, n) + if f.tookEffect then [TagMoved] else []
    case Persisting(file) =>
      && req.project && file < PROJECT_FILES
      && log == Evidence(req, n) + [TagMoved] + FilesWritten(if f.tookEffect then file + 1 else file)
    case _ => false
  }

  /** A beginning of the publication, or a push the registry answered with another digest or reference. */
  predicate Begun(run: Run) {
    run.log <= Publication(run.req, run.artifacts) || (|run.log| == 1 && run.log[0].Pushed?)
  }

  /** The log so far, by program point; a stopped run may have crashed anywhere. */
  predicate LogAt(run: Run) {
    if run.failure.Some? then (run.pc == Finishing(false) || run.pc.Stopped?) && LogOfFailure(run, run.failure.value)
    else if run.pc.Stopped? then Begun(run)
    else LogBefore(run, run.pc)
  }

  /** Whether the run owns its operation at this point. */
  predicate OwnerAt(run: Run) {
    if run.pc.Idle? || run.pc.Recovering? then run.claim.None? else run.claim.Some? || run.pc.Stopped?
  }

  lemma PublicationPrefix(req: Request, n: nat, k: nat)
    requires k <= n
    ensures [Pushed(req.localDigest)] + SentAll(k) <= Publication(req, n)
    ensures Evidence(req, n) + [TagMoved] <= Publication(req, n)
  {
    var log, whole := [Pushed(req.localDigest)] + SentAll(k), Publication(req, n);
    assert forall i :: 0 < i < |log| ==> log[i] == Sent(i - 1) && whole[i] == Sent(i - 1);
  }

  lemma FilesPrefix(req: Request, n: nat, k: nat)
    requires req.project && k <= PROJECT_FILES
    ensures Evidence(req, n) + [TagMoved] + FilesWritten(k) <= Publication(req, n)
  {
    assert FilesWritten(k) == FilesWritten(PROJECT_FILES)[..k];
  }

  lemma PrefixOfPrefix(a: seq<Effect>, b: seq<Effect>, whole: seq<Effect>)
    requires a + b <= whole
    ensures a <= whole
  {
  }

  /** Whatever the point, a run that has not failed has done a beginning of the publication. */
  lemma BegunBefore(run: Run, pc: Pc)
    requires LogBefore(run, pc)
    ensures Begun(run)
  {
    hide Evidence, Publication, SentAll, FilesWritten;
    var req, n := run.req, run.artifacts;
    match pc
    case Building => OnePush(req); PublicationPrefix(req, n, 0);
    case Sending(next) => PublicationPrefix(req, n, next);
    case Persisting(file) => FilesPrefix(req, n, file);
    case Tagging => PublicationPrefix(req, n, n); PrefixOfPrefix(Evidence(req, n), [TagMoved], Publication(req, n));
    case _ => PublicationPrefix(req, n, n);
  }

  lemma BegunFailure(run: Run, f: Failure)
    requires LogOfFailure(run, f)
    ensures Begun(run)
  {
    hide Evidence, Publication, SentAll, FilesWritten;
    var req, n := run.req, run.artifacts;
    match f.at
    case Building => OnePush(req); PublicationPrefix(req, n, 0);
    case Sending(next) => PublicationPrefix(req, n, if f.tookEffect then next + 1 else next);
    case Persisting(file) => FilesPrefix(req, n, if f.tookEffect then file + 1 else file);
    case Tagging =>
      PublicationPrefix(req, n, n);
      PrefixOfPrefix(Evidence(req, n), [TagMoved], Publication(req, n));
      assert Evidence(req, n) + [] == Evidence(req, n);
    case _ => PublicationPrefix(req, n, n);
  }

  lemma BegunAt(run: Run)
    requires LogAt(run)
    ensures Begun(run)
  {
    hide LogBefore, LogOfFailure, Begun;
    if run.failure.Some? {
      BegunFailure(run, run.failure.value);
    } else if !run.pc.Stopped? {
      BegunBefore(run, run.pc);
    }
  }

  lemma OnePush(req: Request)
    ensures [Pushed(req.localDigest)] + SentAll(0) == [Pushed(req.localDigest)]
  {
  }

  lemma OneMoreSent(req: Request, n: nat)
    ensures [Pushed(req.localDigest)] + SentAll(n) + [Sent(n)] == [Pushed(req.localDigest)] + SentAll(n + 1)
  {
  }

  lemma OneMoreFile(head: seq<Effect>, k: nat)
    ensures head + FilesWritten(k) + [FileWritten(k)] == head + FilesWritten(k + 1)
    ensures head + FilesWritten(0) == head
  {
  }

  lemma Shapes(req: Request, n: nat)
    ensures Evidence(req, n) == if req.policy then [Pushed(req.localDigest)] + SentAll(n) + [PolicyPassed] else [Pushed(req.localDigest)] + SentAll(n)
    ensures Publication(req, n) ==
            if req.project then Evidence(req, n) + [TagMoved] + FilesWritten(PROJECT_FILES) else Evidence(req, n) + [TagMoved]
  {
  }

  lemma NoEffect(log: seq<Effect>)
    ensures log + [] == log
  {
  }

  lemma EvidenceStepKeepsLog(derive: string -> string, j: Records, run: Run, o: Outcome)
    requires LogAt(run) && !o.Crash? && (run.pc.Pushing? || run.pc.Building? || run.pc.Sending? || run.pc.Deciding?)
    ensures LogAt(Advance(derive, j, run, o).1)
  {
    hide SentAll, Evidence, Publication;
    NoEffect(run.log);
    match run.pc
    case Building => OnePush(run.req);
    case Sending(next) => OneMoreSent(run.req, next);
    case _ => Shapes(run.req, run.artifacts);
  }

  lemma TagStepKeepsLog(derive: string -> string, j: Records, run: Run, o: Outcome)
    requires LogAt(run) && !o.Crash? && (run.pc.Tagging? || run.pc.Persisting?)
    ensures LogAt(Advance(derive, j, run, o).1)
  {
    hide FilesWritten, Evidence, Publication;
    NoEffect(run.log);
    Shapes(run.req, run.artifacts);
    OneMoreFile(Evidence(run.req, run.artifacts) + [TagMoved], if run.pc.Persisting? then run.pc.file else 0);
  }

  lemma OtherStepKeepsLog(derive: string -> string, j: Records, run: Run, o: Outcome)
    requires LogAt(run)
    requires o.Crash? || run.pc.Idle? || run.pc.Recovering? || run.pc.Claimed? || run.pc.Finishing? || run.pc.Stopped?
    ensures LogAt(Advance(derive, j, run, o).1)
  {
    hide Publication, AfterStart, AfterFinish, ValidToken, Recoverable, RecoveryId;
    BegunAt(run);
  }

  lemma AdvanceKeepsLog(derive: string -> string, j: Records, run: Run, o: Outcome)
    requires LogAt(run) && OwnerAt(run)
    ensures LogAt(Advance(derive, j, run, o).1) && OwnerAt(Advance(derive, j, run, o).1)
  {
    hide LogAt, AfterStart, AfterFinish, ValidToken, Recoverable, RecoveryId;
    if o.Crash? {
      OtherStepKeepsLog(derive, j, run, o);
    } else if run.pc.Tagging? || run.pc.Persisting? {
      TagStepKeepsLog(derive, j, run, o);
    } else if run.pc.Pushing? || run.pc.Building? || run.pc.Sending? || run.pc.Deciding? {
      EvidenceStepKeepsLog(derive, j, run, o);
    } else {
      OtherStepKeepsLog(derive, j, run, o);
    }
  }
}
