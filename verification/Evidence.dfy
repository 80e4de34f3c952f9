/**
  From a prepared attempt to its verdict: the five evidence stages of execute in
  src/drc_agent/backends/transaction.py, evaluate_acceptance in src/drc_agent/evaluation/policy.py,
  and the commit or rollback that follows.
 */
module Evidence {
  import opened Basics

  datatype Outcome = SyntaxFailure | LayoutGenerationFailure | DrcExecutionFailure | GdsSanityFailure
                   | ConnectivityFailure | CancelledOutcome | NewDrcIntroduced | DrcNoProgress | Success

  datatype Validity = NotEvaluated | Valid | Error

  /** Raising: the call raises instead of returning a tool result. */
  datatype ToolStatus = Succeeded | Cancelled | Failed | Raising

  /** Rejected: validate_lyrpt raises ValueError. Crashing: it raises something else. */
  datatype ReportCheck = Accepted | Rejected | Crashing

  datatype Score = Score(original: int, final: int, removed: int, new_: int)

  /** Distinct marker fingerprints, as matched between the two reports. */
  datatype Delta = Delta(removedMarkers: nat, newMarkers: nat)

  /**
    What the tools answer. A journal append can fail after layout generation and after scoring. A reading
    is None when the evidence file is missing or malformed, else whether it reports success.
   */
  datatype Attempt = Attempt(
    validate: ToolStatus,
    layout: ToolStatus, layoutLogged: bool,
    drc: ToolStatus, report: ReportCheck, retry: ToolStatus, retryReport: ReportCheck,
    score: Option<Score>, drcLogged: bool,
    sanity: ToolStatus, sanityReading: Option<bool>,
    connectivity: ToolStatus, connectivityReading: Option<bool>,
    delta: Option<Delta>, attemptedTotal: Option<int>)

  // ----- What each stage decides

  datatype Verdict = Passes | Fails(outcome: Outcome) | Throws

  function Tool(status: ToolStatus, failed: Outcome): Verdict {
    match status
    case Succeeded => Passes
    case Cancelled => Fails(CancelledOutcome)
    case Failed => Fails(failed)
    case Raising => Throws
  }

  function Then(first: Verdict, second: Verdict): Verdict {
    if first.Passes? then second else first
  }

  function Reading(reading: Option<bool>, failed: Outcome): Verdict {
    if reading.Some? then Passes else Fails(failed)
  }

  /** A rejected report is retried once; a retry that does not succeed counts as rejected. */
  function ReportVerdict(a: Attempt): Verdict {
    match a.report
    case Accepted => Passes
    case Crashing => Throws
    case Rejected =>
      if a.retry.Raising? then Throws
      else if !a.retry.Succeeded? || a.retryReport.Rejected? then Fails(DrcExecutionFailure)
      else if a.retryReport.Crashing? then Throws
      else Passes
  }

  const STAGES: nat := 5

  function StageVerdict(a: Attempt, stage: nat): Verdict
    requires stage < STAGES
  {
    match stage
    case 0 => Tool(a.validate, SyntaxFailure)
    case 1 => Then(Tool(a.layout, LayoutGenerationFailure), if a.layoutLogged then Passes else Throws)
    case 2 => Then(Then(Tool(a.drc, DrcExecutionFailure), ReportVerdict(a)),
                   if a.score.Some? && a.drcLogged then Passes else Fails(DrcExecutionFailure))
    case 3 => Then(Tool(a.sanity, GdsSanityFailure), Reading(a.sanityReading, GdsSanityFailure))
    case 4 => Then(Tool(a.connectivity, ConnectivityFailure), Reading(a.connectivityReading, ConnectivityFailure))
  }

  /** The stages before k pass, and k is the first that does not, or there is none. */
  ghost predicate StopsAt(a: Attempt, k: nat) {
    && k <= STAGES
    && (forall j: nat :: j < k ==> StageVerdict(a, j).Passes?)
    && (k < STAGES ==> !StageVerdict(a, k).Passes?)
  }

  // ----- The evidence

  datatype Evidence = Evidence(script: Validity, layout: Validity, drc: Validity, sanity: Validity,
                               connectivity: Validity, failure: Option<Outcome>, score: Option<Score>,
                               sanityPassed: bool, connectivityPassed: bool)

  function ValidityOf(e: Evidence, stage: nat): Validity
    requires stage < STAGES
  {
    match stage
    case 0 => e.script
    case 1 => e.layout
    case 2 => e.drc
    case 3 => e.sanity
    case 4 => e.connectivity
  }

  /** VALID up to the stage that stopped the attempt, ERROR there, NOT_EVALUATED after it. */
  ghost predicate Shape(e: Evidence, k: nat) {
    forall j: nat :: j < STAGES ==>
      ValidityOf(e, j) == if j < k then Valid else if j == k then Error else NotEvaluated
  }

  predicate Complete(e: Evidence) {
    e.script.Valid? && e.layout.Valid? && e.drc.Valid? && e.sanity.Valid? && e.connectivity.Valid?
  }

  /** Scoring was reached and succeeded, even if recording it failed afterwards. */
  ghost predicate Scored(a: Attempt, k: nat) {
    && k >= 2 && a.score.Some? && Tool(a.drc, DrcExecutionFailure).Passes? && ReportVerdict(a).Passes?
  }

  /** What the stages leave behind when none of them raises. */
  ghost predicate Gathered(a: Attempt, e: Evidence) {
    exists k: nat :: StopsAt(a, k) && Shape(e, k)
      && (k < STAGES ==> StageVerdict(a, k).Fails? && e.failure == Some(StageVerdict(a, k).outcome))
      && (k == STAGES ==> e.failure.None?)
      && e.score == (if Scored(a, k) then a.score else None)
      && (k > 3 ==> a.sanityReading == Some(e.sanityPassed))
      && (k > 4 ==> a.connectivityReading == Some(e.connectivityPassed))
  }

  ghost predicate Aborted(a: Attempt) {
    exists k: nat :: StopsAt(a, k) && k < STAGES && StageVerdict(a, k).Throws?
  }

  /** The retry inside the DRC stage: None when it raises, else whether some report was accepted. */
  method CheckReport(a: Attempt) returns (accepted: Option<bool>)
    ensures accepted.None? <==> ReportVerdict(a).Throws?
    ensures accepted.Some? ==> (accepted.value <==> ReportVerdict(a).Passes?)
    ensures accepted == Some(false) ==> ReportVerdict(a) == Fails(DrcExecutionFailure)
  {
    if a.report.Accepted? {
      return Some(true);
    }
    if a.report.Crashing? || a.retry.Raising? {
      return None;
    }
    if !a.retry.Succeeded? || a.retryReport.Rejected? {
      return Some(false);
    }
    accepted := if a.retryReport.Crashing? then None else Some(true);
  }

  function FailureOf(status: ToolStatus, failed: Outcome): Option<Outcome> {
    Some(if status.Cancelled? then CancelledOutcome else failed)
  }

  /** None when a stage raises. */
  method Gather(a: Attempt) returns (evidence: Option<Evidence>)
    ensures evidence.None? <==> Aborted(a)
    ensures evidence.Some? ==> Gathered(a, evidence.value)
  {
    var e := Evidence(NotEvaluated, NotEvaluated, NotEvaluated, NotEvaluated, NotEvaluated, None, None, false, false);
    if a.validate.Raising? {
      assert StopsAt(a, 0);
      return None;
    }
    if !a.validate.Succeeded? {
      e := e.(script := Error, failure := FailureOf(a.validate, SyntaxFailure));
      assert StopsAt(a, 0);
    } else {
      e := e.(script := Valid);
    }
    if e.failure.None? {
      if a.layout.Raising? || (a.layout.Succeeded? && !a.layoutLogged) {
        assert StopsAt(a, 1);
        return None;
      }
      if !a.layout.Succeeded? {
        e := e.(layout := Error, failure := FailureOf(a.layout, LayoutGenerationFailure));
        assert StopsAt(a, 1);
      } else {
        e := e.(layout := Valid);
      }
    }
    if e.failure.None? {
      if a.drc.Raising? {
        assert StopsAt(a, 2);
        return None;
      }
      if !a.drc.Succeeded? {
        e := e.(drc := Error, failure := FailureOf(a.drc, DrcExecutionFailure));
        assert StopsAt(a, 2);
      }
    }
    if e.failure.None? {
      var accepted := CheckReport(a);
      if accepted.None? {
        assert StopsAt(a, 2);
        return None;
      }
      if !accepted.value {
        e := e.(drc := Error, failure := Some(DrcExecutionFailure));
        assert StopsAt(a, 2);
      }
    }
    if e.failure.None? {
      e := e.(score := a.score);
      if a.score.None? || !a.drcLogged {
        e := e.(drc := Error, failure := Some(DrcExecutionFailure));
        assert StopsAt(a, 2);
      } else {
        e := e.(drc := Valid);
      }
    }
    if e.failure.None? {
      if a.sanity.Raising? {
        assert StopsAt(a, 3);
        return None;
      }
      if !a.sanity.Succeeded? {
        e := e.(sanity := Error, failure := FailureOf(a.sanity, GdsSanityFailure));
        assert StopsAt(a, 3);
      } else if a.sanityReading.None? {
        e := e.(sanity := Error, failure := Some(GdsSanityFailure));
        assert StopsAt(a, 3);
      } else {
        e := e.(sanity := Valid, sanityPassed := a.sanityReading.value);
      }
      if e.failure.None? {
        if a.connectivity.Raising? {
          assert StopsAt(a, 4);
          return None;
        }
        if !a.connectivity.Succeeded? {
          e := e.(connectivity := Error, failure := FailureOf(a.connectivity, ConnectivityFailure));
          assert StopsAt(a, 4);
        } else if a.connectivityReading.None? {
          e := e.(connectivity := Error, failure := Some(ConnectivityFailure));
          assert StopsAt(a, 4);
        } else {
          e := e.(connectivity := Valid, connectivityPassed := a.connectivityReading.value);
          assert StopsAt(a, 5);
        }
      }
    }
    evidence := Some(e);
  }

  // ----- The same, told by what the tools answer

  /** Some report validated: the first, or the one of the only retry. */
  ghost predicate ReportAccepted(a: Attempt) {
    a.report.Accepted? || (a.report.Rejected? && a.retry.Succeeded? && a.retryReport.Accepted?)
  }

  ghost predicate ReportCrashes(a: Attempt) {
    || a.report.Crashing?
    || (a.report.Rejected? && (a.retry.Raising? || (a.retry.Succeeded? && a.retryReport.Crashing?)))
  }

  /** The answers that a stage needs to pass. */
  ghost predicate Answers(a: Attempt, stage: nat)
    requires stage < STAGES
  {
    match stage
    case 0 => a.validate.Succeeded?
    case 1 => a.layout.Succeeded? && a.layoutLogged
    case 2 => a.drc.Succeeded? && ReportAccepted(a) && a.score.Some? && a.drcLogged
    case 3 => a.sanity.Succeeded? && a.sanityReading.Some?
    case 4 => a.connectivity.Succeeded? && a.connectivityReading.Some?
  }

  ghost predicate AnswersBefore(a: Attempt, stage: nat)
    requires stage <= STAGES
  {
    forall j: nat :: j < stage ==> Answers(a, j)
  }

  ghost function StageTool(a: Attempt, stage: nat): ToolStatus
    requires stage < STAGES
  {
    match stage
    case 0 => a.validate
    case 1 => a.layout
    case 2 => a.drc
    case 3 => a.sanity
    case 4 => a.connectivity
  }

  ghost function StageFailure(stage: nat): Outcome
    requires stage < STAGES
  {
    match stage
    case 0 => SyntaxFailure
    case 1 => LayoutGenerationFailure
    case 2 => DrcExecutionFailure
    case 3 => GdsSanityFailure
    case 4 => ConnectivityFailure
  }

  /** A stage raises: its tool does, the journal does after the layout, or a report check crashes. */
  ghost predicate StageRaises(a: Attempt, stage: nat)
    requires stage < STAGES
  {
    || StageTool(a, stage).Raising?
    || (stage == 1 && a.layout.Succeeded? && !a.layoutLogged)
    || (stage == 2 && a.drc.Succeeded? && ReportCrashes(a))
  }

  lemma StageIsDecided(a: Attempt, stage: nat)
    requires stage < STAGES
    ensures StageVerdict(a, stage).Passes? <==> Answers(a, stage)
    ensures StageVerdict(a, stage).Throws? <==> StageRaises(a, stage)
    ensures !Answers(a, stage) && !StageRaises(a, stage) ==>
              StageVerdict(a, stage)
              == Fails(if StageTool(a, stage).Cancelled? then CancelledOutcome else StageFailure(stage))
  {}

  lemma StopIsDecided(a: Attempt, k: nat)
    requires StopsAt(a, k)
    ensures AnswersBefore(a, k) && (k < STAGES ==> !Answers(a, k))
  {
    forall j: nat | j < STAGES ensures StageVerdict(a, j).Passes? <==> Answers(a, j) {
      StageIsDecided(a, j);
    }
  }

  /** execute raises exactly when a stage does before which every tool gave what its stage needs. */
  lemma AbortedIff(a: Attempt)
    ensures Aborted(a) <==> exists k: nat :: k < STAGES && AnswersBefore(a, k) && StageRaises(a, k)
  {
    if k: nat :| StopsAt(a, k) && k < STAGES && StageVerdict(a, k).Throws? {
      StopIsDecided(a, k);
      StageIsDecided(a, k);
    }
    if k: nat :| k < STAGES && AnswersBefore(a, k) && StageRaises(a, k) {
      forall j: nat | j <= k ensures StageVerdict(a, j).Passes? <==> Answers(a, j) {
        StageIsDecided(a, j);
      }
      StageIsDecided(a, k);
      assert StopsAt(a, k);
    }
  }

  /** Evidence is VALID exactly when the tools up to its stage answered, and a stage is reached after such answers. */
  lemma ValidIff(a: Attempt, e: Evidence, stage: nat)
    requires Gathered(a, e) && stage < STAGES
    ensures ValidityOf(e, stage).Valid? <==> AnswersBefore(a, stage + 1)
    ensures ValidityOf(e, stage).NotEvaluated? <==> !AnswersBefore(a, stage)
  {
    var k: nat :| StopsAt(a, k) && Shape(e, k);
    StopIsDecided(a, k);
  }

  /** The failure names the first stage that did not pass, or a cancellation of that stage's own tool. */
  lemma FailureIff(a: Attempt, e: Evidence, outcome: Outcome)
    requires Gathered(a, e)
    ensures e.failure == Some(outcome) <==>
            exists k: nat :: k < STAGES && AnswersBefore(a, k) && !Answers(a, k)
                             && outcome == if StageTool(a, k).Cancelled? then CancelledOutcome else StageFailure(k)
    ensures e.failure.None? <==> AnswersBefore(a, STAGES)
  {
    var k: nat :| StopsAt(a, k) && Shape(e, k)
      && (k < STAGES ==> StageVerdict(a, k).Fails? && e.failure == Some(StageVerdict(a, k).outcome))
      && (k == STAGES ==> e.failure.None?);
    StopIsDecided(a, k);
    if k < STAGES {
      StageIsDecided(a, k);
    }
    if l: nat :| l < STAGES && AnswersBefore(a, l) && !Answers(a, l) {
      assert l == k;
    }
  }

  /** What the evidence carries besides validities: the readings of the stages that passed, and the score. */
  lemma ReadingsAreTold(a: Attempt, e: Evidence)
    requires Gathered(a, e)
    ensures e.sanity.Valid? ==> a.sanityReading == Some(e.sanityPassed)
    ensures e.connectivity.Valid? ==> a.connectivityReading == Some(e.connectivityPassed)
    ensures e.score == if AnswersBefore(a, 2) && a.drc.Succeeded? && ReportAccepted(a) then a.score else None
  {
    var k: nat :| StopsAt(a, k) && Shape(e, k)
      && e.score == (if Scored(a, k) then a.score else None)
      && (k > 3 ==> a.sanityReading == Some(e.sanityPassed))
      && (k > 4 ==> a.connectivityReading == Some(e.connectivityPassed));
    StopIsDecided(a, k);
    assert ValidityOf(e, 3) == e.sanity && ValidityOf(e, 4) == e.connectivity;
  }
}
