/**
  From evidence to a commit: the verification record and the commit or rollback of execute in
  src/drc_agent/backends/transaction.py, and evaluate_acceptance in src/drc_agent/evaluation/policy.py.
 */
module Commit {
  import opened Basics
  import opened Evidence

  // ----- evaluate_acceptance

  datatype AcceptanceConfig = AcceptanceConfig(requireConnectivity: bool, requireDrcProgress: bool,
                                               rejectNewViolations: bool)

  /** versioned: the execution protocol version starts with p3.2. None stands for an absent value. */
  datatype Verification = Verification(outcome: Outcome, versioned: bool, complete: bool, scriptValid: Option<bool>,
                                       gdsSanityPass: Option<bool>, connectivityPreserved: Option<bool>,
                                       timingGatePass: Option<bool>, baseline: int, residual: Option<int>,
                                       newViolations: Option<int>, removed: Option<int>)

  datatype Reason = FreshEvidenceIncomplete | ScriptInvalid | GdsSanityFailed | ConnectivityFailed | TimingFailed
                  | DrcNotEvaluated | NoDrcProgress | NewDrcIntroducedReason | OutcomeNotSuccess

  /** Grounds that speak against a result, apart from its outcome. */
  ghost predicate Against(v: Verification, cfg: AcceptanceConfig, reason: Reason) {
    match reason
    case FreshEvidenceIncomplete => v.versioned && !v.complete
    case ScriptInvalid => v.scriptValid != Some(true)
    case GdsSanityFailed => v.gdsSanityPass != Some(true)
    case ConnectivityFailed => cfg.requireConnectivity && v.connectivityPreserved != Some(true)
    case TimingFailed => v.timingGatePass == Some(false)
    case DrcNotEvaluated => cfg.requireDrcProgress && v.residual.None?
    case NoDrcProgress => cfg.requireDrcProgress && v.residual.Some? && v.residual.value >= v.baseline
    case NewDrcIntroducedReason => cfg.rejectNewViolations && v.newViolations.Some? && v.newViolations.value != 0
    case OutcomeNotSuccess => false
  }

  ghost predicate Acceptable(v: Verification, cfg: AcceptanceConfig) {
    v.outcome.Success? && forall reason: Reason :: !Against(v, cfg, reason)
  }

  /** Exactly the grounds that apply are given; the outcome is one only when there is no other. */
  method EvaluateAcceptance(v: Verification, cfg: AcceptanceConfig) returns (accepted: bool, reasons: seq<Reason>)
    ensures accepted <==> Acceptable(v, cfg)
    ensures accepted <==> reasons == []
    ensures forall reason :: reason in reasons && reason != OutcomeNotSuccess <==> Against(v, cfg, reason)
    ensures OutcomeNotSuccess in reasons <==> reasons == [OutcomeNotSuccess]
  {
    reasons := Grounds(v, cfg);
    accepted := reasons == [];
    AllNoted(v, cfg, reasons);
    if accepted && !v.outcome.Success? {
      reasons := reasons + [OutcomeNotSuccess];
      accepted := false;
    }
  }

  method Grounds(v: Verification, cfg: AcceptanceConfig) returns (reasons: seq<Reason>)
    ensures NotedUpTo(v, cfg, reasons, Position(OutcomeNotSuccess))
  {
    reasons := [];
    reasons := Note(v, cfg, reasons, v.versioned && !v.complete, FreshEvidenceIncomplete);
    reasons := Note(v, cfg, reasons, v.scriptValid != Some(true), ScriptInvalid);
    reasons := Note(v, cfg, reasons, v.gdsSanityPass != Some(true), GdsSanityFailed);
    reasons := Note(v, cfg, reasons, cfg.requireConnectivity && v.connectivityPreserved != Some(true),
                    ConnectivityFailed);
    reasons := Note(v, cfg, reasons, v.timingGatePass == Some(false), TimingFailed);
    reasons := Note(v, cfg, reasons, cfg.requireDrcProgress && v.residual.None?, DrcNotEvaluated);
    reasons := Note(v, cfg, reasons, cfg.requireDrcProgress && v.residual.Some? && v.residual.value >= v.baseline,
                    NoDrcProgress);
    reasons := Note(v, cfg, reasons, cfg.rejectNewViolations && v.newViolations.Some? && v.newViolations.value != 0,
                    NewDrcIntroducedReason);
  }

  /** The order in which grounds are looked for. */
  ghost function Position(reason: Reason): nat {
    match reason
    case FreshEvidenceIncomplete => 0
    case ScriptInvalid => 1
    case GdsSanityFailed => 2
    case ConnectivityFailed => 3
    case TimingFailed => 4
    case DrcNotEvaluated => 5
    case NoDrcProgress => 6
    case NewDrcIntroducedReason => 7
    case OutcomeNotSuccess => 8
  }

  ghost predicate NotedUpTo(v: Verification, cfg: AcceptanceConfig, reasons: seq<Reason>, n: nat) {
    forall reason :: reason in reasons <==> Position(reason) < n && Against(v, cfg, reason)
  }

  /** One if statement: the ground is noted when it applies. */
  method Note(ghost v: Verification, ghost cfg: AcceptanceConfig, reasons: seq<Reason>, applies: bool, reason: Reason)
    returns (noted: seq<Reason>)
    requires NotedUpTo(v, cfg, reasons, Position(reason)) && (applies <==> Against(v, cfg, reason))
    ensures NotedUpTo(v, cfg, noted, Position(reason) + 1)
  {
    noted := if applies then reasons + [reason] else reasons;
    forall other ensures other in noted <==> Position(other) <= Position(reason) && Against(v, cfg, other) {
      if Position(other) == Position(reason) {
        PositionIsInjective(other, reason);
      }
      assert other in reasons <==> Position(other) < Position(reason) && Against(v, cfg, other);
    }
  }

  lemma PositionIsInjective(a: Reason, b: Reason)
    requires Position(a) == Position(b)
    ensures a == b
  {}

  lemma AllNoted(v: Verification, cfg: AcceptanceConfig, reasons: seq<Reason>)
    requires NotedUpTo(v, cfg, reasons, Position(OutcomeNotSuccess))
    ensures reasons == [] <==> forall reason :: !Against(v, cfg, reason)
    ensures forall reason :: reason in reasons <==> Against(v, cfg, reason)
    ensures OutcomeNotSuccess !in reasons
  {
    forall reason ensures reason in reasons <==> Against(v, cfg, reason) {
      assert reason in reasons <==> Position(reason) < Position(OutcomeNotSuccess) && Against(v, cfg, reason);
      if Position(reason) >= Position(OutcomeNotSuccess) {
        PositionIsInjective(reason, OutcomeNotSuccess);
      }
    }
    if reasons != [] {
      assert reasons[0] in reasons;
    }
  }

  // ----- The verification record

  function Markers(a: Attempt, e: Evidence): Option<Delta> {
    if e.drc.Valid? && e.score.Some? then a.delta else Some(Delta(0, 0))
  }

  /** The record refuses more marker identities than the scorer counted. */
  predicate WellCounted(score: Option<Score>, delta: Delta) {
    score.Some? ==> delta.removedMarkers <= score.value.removed && delta.newMarkers <= score.value.new_
  }

  function Graded(e: Evidence): Outcome
    requires e.score.Some?
  {
    if !e.sanityPassed then GdsSanityFailure
    else if !e.connectivityPassed then ConnectivityFailure
    else if e.score.value.new_ != 0 then NewDrcIntroduced
    else if e.score.value.removed <= 0 then DrcNoProgress
    else Success
  }

  function Record(a: Attempt, e: Evidence, before: int, versioned: bool): Verification
    requires e.failure.None? ==> e.score.Some?
  {
    var residual := if e.score.Some? then Some(e.score.value.final) else None;
    var new_ := if e.score.Some? then Some(e.score.value.new_) else None;
    var removed := if e.score.Some? then Some(e.score.value.removed) else None;
    if e.failure.Some? then
      Verification(e.failure.value, versioned, Complete(e),
                   if e.script.NotEvaluated? then None else Some(a.validate.Succeeded?),
                   if e.sanity.Valid? then Some(e.sanityPassed) else None,
                   if e.connectivity.Valid? then Some(e.connectivityPassed) else None,
                   None, before, residual, new_, removed)
    else
      Verification(Graded(e), versioned, Complete(e), Some(a.validate.Succeeded?), Some(e.sanityPassed),
                   Some(e.connectivityPassed), None, e.score.value.original, residual, new_, removed)
  }

  // ----- Commit or rollback

  datatype Terminal = Evaluated | ExecutionFailure | CancelledTerminal

  datatype Status = Committed | RolledBack | CancelledStatus

  /** Threw: execute raises and there is no result. */
  datatype Result = Threw | Done(evidence: Evidence, verification: Verification, terminal: Terminal, status: Status,
                                 accepted: bool, committedTotal: int)

  /** What it takes to be accepted, in terms of what the tools answered. */
  ghost predicate Deserves(a: Attempt, cfg: AcceptanceConfig) {
    && (forall k: nat :: k < STAGES ==> StageVerdict(a, k).Passes?)
    && a.sanityReading == Some(true) && a.connectivityReading == Some(true)
    && a.score.Some? && a.score.value.new_ == 0 && a.score.value.removed >= 1
    && (cfg.requireDrcProgress ==> a.score.value.final < a.score.value.original)
  }

  ghost predicate Commits(a: Attempt, cfg: AcceptanceConfig) {
    && Deserves(a, cfg)
    && a.delta.Some? && WellCounted(a.score, a.delta.value) && a.attemptedTotal.Some?
  }

  ghost function TotalAfter(a: Attempt, cfg: AcceptanceConfig, before: int): int {
    if Commits(a, cfg) then a.attemptedTotal.value else before
  }

  lemma GatheredFacts(a: Attempt, e: Evidence)
    requires Gathered(a, e)
    ensures Complete(e) <==> e.failure.None?
    ensures Complete(e) <==> forall k: nat :: k < STAGES ==> StageVerdict(a, k).Passes?
    ensures Complete(e) ==> a.sanityReading == Some(e.sanityPassed)
    ensures Complete(e) ==> a.connectivityReading == Some(e.connectivityPassed)
    ensures Complete(e) ==> e.score.Some? && e.score == a.score
    ensures e.failure.Some? ==> !e.failure.value.Success?
  {
    var k: nat :| StopsAt(a, k) && Shape(e, k)
      && (k < STAGES ==> StageVerdict(a, k).Fails? && e.failure == Some(StageVerdict(a, k).outcome))
      && (k == STAGES ==> e.failure.None?)
      && e.score == (if Scored(a, k) then a.score else None)
      && (k > 3 ==> a.sanityReading == Some(e.sanityPassed))
      && (k > 4 ==> a.connectivityReading == Some(e.connectivityPassed));
    assert ValidityOf(e, 0) == e.script && ValidityOf(e, 1) == e.layout && ValidityOf(e, 2) == e.drc
        && ValidityOf(e, 3) == e.sanity && ValidityOf(e, 4) == e.connectivity;
    if k == STAGES {
      assert StageVerdict(a, 2).Passes?;
    }
  }

  /** The outcome that complete evidence earns: the first check that fails, then what the score says. */
  ghost predicate Earned(a: Attempt, outcome: Outcome) {
    && a.score.Some? && a.sanityReading.Some? && a.connectivityReading.Some?
    && var (sane, connected, score) := (a.sanityReading.value, a.connectivityReading.value, a.score.value);
       && (outcome.GdsSanityFailure? <==> !sane)
       && (outcome.ConnectivityFailure? <==> sane && !connected)
       && (outcome.NewDrcIntroduced? <==> sane && connected && score.new_ != 0)
       && (outcome.DrcNoProgress? <==> sane && connected && score.new_ == 0 && score.removed <= 0)
       && (outcome.Success? <==> sane && connected && score.new_ == 0 && score.removed > 0)
  }

  /** Scoring returned a score, whether or not recording it succeeded. */
  ghost predicate ScoreTaken(a: Attempt) {
    AnswersBefore(a, 2) && a.drc.Succeeded? && ReportAccepted(a) && a.score.Some?
  }

  /** The verification record, told by the attempt: outcome, readings and counts. */
  ghost predicate RecordTells(a: Attempt, e: Evidence, before: int, versioned: bool, v: Verification) {
    && v.versioned == versioned && v.timingGatePass.None?
    && (v.complete <==> AnswersBefore(a, STAGES))
    && (if v.complete then Earned(a, v.outcome) else e.failure == Some(v.outcome))
    && v.scriptValid == Some(a.validate.Succeeded?)
    && v.gdsSanityPass == (if AnswersBefore(a, 4) then a.sanityReading else None)
    && v.connectivityPreserved == (if AnswersBefore(a, 5) then a.connectivityReading else None)
    && v.baseline == (if v.complete then a.score.value.original else before)
    && v.residual == (if ScoreTaken(a) then Some(a.score.value.final) else None)
    && v.newViolations == (if ScoreTaken(a) then Some(a.score.value.new_) else None)
    && v.removed == (if ScoreTaken(a) then Some(a.score.value.removed) else None)
  }

  lemma RecordIsTold(a: Attempt, e: Evidence, before: int, versioned: bool)
    requires Gathered(a, e)
    ensures e.failure.None? ==> e.score.Some?
    ensures RecordTells(a, e, before, versioned, Record(a, e, before, versioned))
  {
    GatheredFacts(a, e);
    ReadingsAreTold(a, e);
    FailureIff(a, e, Success);
    ValidIff(a, e, 0);
    ValidIff(a, e, 3);
    ValidIff(a, e, 4);
    if AnswersBefore(a, STAGES) {
      assert Answers(a, 0) && Answers(a, 2) && Answers(a, 3) && Answers(a, 4);
    }
  }

  /** The markers matched between the two reports do not fit the score; without recorded evidence none are. */
  ghost predicate MarkersRefused(a: Attempt) {
    && ScoreTaken(a)
    && if a.drcLogged then a.delta.None? || !WellCounted(a.score, a.delta.value)
       else !WellCounted(a.score, Delta(0, 0))
  }

  /** The ways in which execute raises once a job is prepared. */
  ghost predicate Throwing(a: Attempt, cfg: AcceptanceConfig) {
    Aborted(a) || MarkersRefused(a) || (Deserves(a, cfg) && a.attemptedTotal.None?)
  }

  lemma MarkersAreMatched(a: Attempt, e: Evidence)
    requires Gathered(a, e)
    ensures MarkersRefused(a) <==> Markers(a, e).None? || !WellCounted(e.score, Markers(a, e).value)
    ensures !Aborted(a)
  {
    ReadingsAreTold(a, e);
    ValidIff(a, e, 2);
    assert AnswersBefore(a, 3) <==> AnswersBefore(a, 2) && Answers(a, 2);
    GatheredDoesNotAbort(a, e);
  }

  lemma GatheredDoesNotAbort(a: Attempt, e: Evidence)
    requires Gathered(a, e)
    ensures !Aborted(a)
  {
    var k: nat :| StopsAt(a, k) && (k < STAGES ==> StageVerdict(a, k).Fails?);
    if l: nat :| StopsAt(a, l) && l < STAGES && StageVerdict(a, l).Throws? {
      assert false;
    }
  }

  method ExecutePrepared(a: Attempt, cfg: AcceptanceConfig, before: int, versioned: bool) returns (r: Result)
    ensures r.Done? ==> Gathered(a, r.evidence) && r.verification.complete == Complete(r.evidence)
    ensures r.Done? ==> (r.status.Committed? <==> r.accepted) && (r.accepted <==> Commits(a, cfg))
    ensures r.Done? && r.accepted ==> Complete(r.evidence)
    ensures r.Done? ==> (r.terminal.Evaluated? <==> r.evidence.failure.None?)
    ensures r.Done? ==> (r.terminal.CancelledTerminal? <==> r.evidence.failure == Some(CancelledOutcome))
    ensures r.Done? ==> (r.status.CancelledStatus? <==> r.terminal.CancelledTerminal?)
    ensures r.Done? ==> r.committedTotal == TotalAfter(a, cfg, before)
    ensures r.Done? ==> RecordTells(a, r.evidence, before, versioned, r.verification)
    ensures r.Threw? <==> Throwing(a, cfg)
    ensures Commits(a, cfg) ==> r.Done?
  {
    var gathered := Gather(a);
    if gathered.None? {
      return Threw;
    }
    var e := gathered.value;
    GatheredFacts(a, e);
    MarkersAreMatched(a, e);
    RecordIsTold(a, e, before, versioned);
    var delta := Markers(a, e);
    if delta.None? || !WellCounted(e.score, delta.value) {
      return Threw;
    }
    var terminal :=
      if e.failure == Some(CancelledOutcome) then CancelledTerminal
      else if Complete(e) then Evaluated
      else ExecutionFailure;
    var verification := Record(a, e, before, versioned);
    var accepted, reasons := EvaluateAcceptance(verification, cfg);
    AcceptableMeansDeserves(a, cfg, e, before, versioned);
    var status := if terminal.CancelledTerminal? then CancelledStatus else if accepted then Committed else RolledBack;
    var attemptedTotal := if e.drc.Valid? then a.attemptedTotal else None;
    if accepted {
      if attemptedTotal.None? {
        return Threw;
      }
      r := Done(e, verification, terminal, status, true, attemptedTotal.value);
    } else {
      r := Done(e, verification, terminal, status, false, before);
    }
  }

  /** The acceptance policy accepts the record exactly when the tools' answers deserve it. */
  lemma AcceptableMeansDeserves(a: Attempt, cfg: AcceptanceConfig, e: Evidence, before: int, versioned: bool)
    requires Gathered(a, e) && (e.failure.None? ==> e.score.Some?)
    ensures Acceptable(Record(a, e, before, versioned), cfg) <==> Deserves(a, cfg)
  {
    GatheredFacts(a, e);
    var v := Record(a, e, before, versioned);
    if e.failure.None? {
      assert StageVerdict(a, 0).Passes? ==> a.validate.Succeeded?;
      if Acceptable(v, cfg) {
        assert !Against(v, cfg, NoDrcProgress);
      }
    }
  }

  // ----- Which settings matter

  /** requireConnectivity and rejectNewViolations never change a verdict: the outcome already demands both. */
  lemma TwoSettingsAreInert(a: Attempt, e: Evidence, before: int, versioned: bool, cfg: AcceptanceConfig,
                            other: AcceptanceConfig)
    requires Gathered(a, e) && cfg.requireDrcProgress == other.requireDrcProgress
    ensures e.failure.None? ==> e.score.Some?
    ensures Acceptable(Record(a, e, before, versioned), cfg) <==> Acceptable(Record(a, e, before, versioned), other)
  {
    GatheredFacts(a, e);
    AcceptableMeansDeserves(a, cfg, e, before, versioned);
    AcceptableMeansDeserves(a, other, e, before, versioned);
  }

  /** The scorer's counts agree with each other and with the two reports. */
  ghost predicate Consistent(a: Attempt, before: int) {
    && (a.score.Some? ==> a.score.value.original == before)
    && (a.score.Some? ==> a.score.value.final == before - a.score.value.removed + a.score.value.new_)
    && (a.score.Some? && a.attemptedTotal.Some? ==> a.attemptedTotal.value == a.score.value.final)
    && (a.attemptedTotal.Some? ==> 0 <= a.attemptedTotal.value)
  }

  /** With a consistent scorer no setting matters. */
  lemma SettingsAreInertWhenConsistent(a: Attempt, e: Evidence, before: int, versioned: bool,
                                       cfg: AcceptanceConfig, other: AcceptanceConfig)
    requires Gathered(a, e) && Consistent(a, before)
    ensures e.failure.None? ==> e.score.Some?
    ensures Acceptable(Record(a, e, before, versioned), cfg) <==> Acceptable(Record(a, e, before, versioned), other)
  {
    GatheredFacts(a, e);
    AcceptableMeansDeserves(a, cfg, e, before, versioned);
    AcceptableMeansDeserves(a, other, e, before, versioned);
  }

  /** The scorer reads the same totals from the two reports as the executor does. */
  ghost predicate TotalsAgree(a: Attempt, before: int) {
    a.score.Some? && a.attemptedTotal.Some? ==>
      a.score.value.original == before && a.score.value.final == a.attemptedTotal.value
  }

  /** An attempt in which every tool succeeds and both checks pass. */
  function Flawless(score: Score, total: int): Attempt {
    Attempt(Succeeded, Succeeded, true, Succeeded, Accepted, Succeeded, Accepted, Some(score), true,
            Succeeded, Some(true), Succeeded, Some(true), Some(Delta(0, 0)), Some(total))
  }

  lemma FlawlessCommits(score: Score, total: int, cfg: AcceptanceConfig)
    requires score.removed >= 1 && score.new_ == 0 && (cfg.requireDrcProgress ==> score.final < score.original)
    ensures Commits(Flawless(score, total), cfg)
  {
    forall k: nat | k < STAGES ensures StageVerdict(Flawless(score, total), k).Passes? {
    }
  }

  /** With agreeing totals, every commit lowers the total exactly when the settings require progress. */
  lemma CommitsLowerTotalIffRequired(cfg: AcceptanceConfig, before: int)
    ensures cfg.requireDrcProgress <==>
            forall a: Attempt :: Commits(a, cfg) && TotalsAgree(a, before) ==> TotalAfter(a, cfg, before) < before
  {
    if !cfg.requireDrcProgress {
      var same := Score(before, before, 1, 0);
      FlawlessCommits(same, before, cfg);
      assert Commits(Flawless(same, before), cfg) && TotalsAgree(Flawless(same, before), before);
      assert TotalAfter(Flawless(same, before), cfg, before) == before;
    }
  }

  /** Without agreeing totals no setting helps: from any total, some commit raises it. */
  lemma CommitMayAddViolations(cfg: AcceptanceConfig, before: int)
    ensures exists a :: Commits(a, cfg) && TotalAfter(a, cfg, before) > before
  {
    var wrong := Score(1, 0, 1, 0);
    FlawlessCommits(wrong, before + 1, cfg);
    assert TotalAfter(Flawless(wrong, before + 1), cfg, before) == before + 1;
  }

  // ----- Runs of transactions

  /** One transaction of a run: its tools, and the settings it was executed under. */
  datatype Step = Step(attempt: Attempt, cfg: AcceptanceConfig)

  /** The committed total after the steps, each executed on what the steps before it left. */
  ghost function TotalAfterRun(steps: seq<Step>, before: int): int {
    if steps == [] then before
    else TotalAfterRun(steps[1..], TotalAfter(steps[0].attempt, steps[0].cfg, before))
  }

  ghost predicate ConsistentRun(steps: seq<Step>, before: int) {
    steps == [] ||
    (Consistent(steps[0].attempt, before) &&
     ConsistentRun(steps[1..], TotalAfter(steps[0].attempt, steps[0].cfg, before)))
  }

  ghost function CommitCount(steps: seq<Step>): nat {
    if steps == [] then 0
    else CommitCount(steps[1..]) + if Commits(steps[0].attempt, steps[0].cfg) then 1 else 0
  }

  /** A commit lowers the total by what was removed, and nothing else changes it. */
  lemma CommitLowersTotal(a: Attempt, cfg: AcceptanceConfig, before: int)
    requires Consistent(a, before)
    ensures Commits(a, cfg) ==> a.score.Some? && TotalAfter(a, cfg, before) == before - a.score.value.removed < before
    ensures Commits(a, cfg) ==> 0 <= TotalAfter(a, cfg, before)
    ensures !Commits(a, cfg) ==> TotalAfter(a, cfg, before) == before
  {}

  /** Over any run the total never rises, and there are at most as many commits as violations removed. */
  lemma {:induction false} RunsMakeProgress(steps: seq<Step>, before: int)
    requires ConsistentRun(steps, before) && 0 <= before
    ensures 0 <= TotalAfterRun(steps, before) <= before - CommitCount(steps)
  {
    if steps != [] {
      CommitLowersTotal(steps[0].attempt, steps[0].cfg, before);
      RunsMakeProgress(steps[1..], TotalAfter(steps[0].attempt, steps[0].cfg, before));
    }
  }

  /** At every point of a run, not only at its end: a longer run never has a higher total. */
  lemma {:induction false} TotalsFall(steps: seq<Step>, more: seq<Step>, before: int)
    requires ConsistentRun(steps + more, before) && 0 <= before
    ensures TotalAfterRun(steps + more, before) <= TotalAfterRun(steps, before)
    ensures CommitCount(more) > 0 ==> TotalAfterRun(steps + more, before) < TotalAfterRun(steps, before)
  {
    if steps == [] {
      assert steps + more == more;
      RunsMakeProgress(more, before);
    } else {
      assert (steps + more)[1..] == steps[1..] + more;
      CommitLowersTotal(steps[0].attempt, steps[0].cfg, before);
      TotalsFall(steps[1..], more, TotalAfter(steps[0].attempt, steps[0].cfg, before));
    }
  }

  // ----- What stands behind DRC evidence

  lemma DrcValidIffReached(a: Attempt, e: Evidence)
    requires Gathered(a, e)
    ensures e.drc.Valid? <==> StageVerdict(a, 0).Passes? && StageVerdict(a, 1).Passes? && StageVerdict(a, 2).Passes?
  {
    var k: nat :| StopsAt(a, k) && Shape(e, k);
    assert ValidityOf(e, 2) == e.drc;
    if k < 3 {
      assert !StageVerdict(a, k).Passes?;
    }
  }

  /** VALID DRC evidence: a generated layout, one report that validated, at most one retry, and a recorded score. */
  lemma ValidDrcIsBacked(a: Attempt, e: Evidence)
    requires Gathered(a, e) && e.drc.Valid?
    ensures a.validate.Succeeded? && a.layout.Succeeded? && a.layoutLogged && a.drc.Succeeded?
    ensures if a.report.Accepted? then true else a.retry.Succeeded? && a.retryReport.Accepted?
    ensures a.drcLogged && e.score.Some? && e.score == a.score
  {
    DrcValidIffReached(a, e);
    var k: nat :| StopsAt(a, k) && Shape(e, k) && e.score == (if Scored(a, k) then a.score else None);
    if k < 3 {
      assert !StageVerdict(a, k).Passes?;
    }
    assert StageVerdict(a, 0) == Tool(a.validate, SyntaxFailure);
    assert StageVerdict(a, 2) == Then(Then(Tool(a.drc, DrcExecutionFailure), ReportVerdict(a)),
                   if a.score.Some? && a.drcLogged then Passes else Fails(DrcExecutionFailure));
  }

  // ----- Scores that outlive their evidence

  /** A score is reported for an attempt whose DRC evidence is ERROR exactly when only recording it failed. */
  lemma ScoreWithoutEvidence(a: Attempt, e: Evidence)
    requires Gathered(a, e)
    ensures e.score.Some? && e.drc.Error? <==>
            StageVerdict(a, 0).Passes? && StageVerdict(a, 1).Passes? && a.drc.Succeeded?
            && ReportVerdict(a).Passes? && a.score.Some? && !a.drcLogged
  {
    var k: nat :| StopsAt(a, k) && Shape(e, k) && e.score == (if Scored(a, k) then a.score else None);
    assert ValidityOf(e, 2) == e.drc;
    assert StageVerdict(a, 2) == Then(Then(Tool(a.drc, DrcExecutionFailure), ReportVerdict(a)),
                   if a.score.Some? && a.drcLogged then Passes else Fails(DrcExecutionFailure));
    if k > 2 {
      assert StageVerdict(a, 2).Passes?;
    } else if k < 2 {
      assert !StageVerdict(a, k).Passes?;
    }
  }
}
