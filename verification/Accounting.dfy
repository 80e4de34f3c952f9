/**
  The accounting of physical attempts in src/drc_agent/backends/transaction.py: the attempt ledger,
  the prepare loop of execute, and the decorator that settles the ledger on every way out.
 */
module Accounting {
  import opened Basics

  // ----- What the environment decides

  /** storage: storage_pause_from_exception turns the exception into a pause. */
  datatype Exception =
    | Infrastructure
    | Cancellation(storage: bool)
    | Ordinary(storage: bool)

  /** A journal append may raise before or after its line is on disk. */
  datatype Append = Written | Lost(exception: Exception) | WrittenThenRaised(exception: Exception)

  datatype TerminalStatus = Evaluated | ExecutionFailure | Cancelled

  datatype Event = Registered(attempt: nat) | Phase(attempt: nat) | Terminal(attempt: nat, status: TerminalStatus)

  /** finish: what finish_claim raises, if anything. */
  datatype Closing = Closing(append: Append, finish: Option<Exception>)

  /** Raised: an Exception other than an InfrastructureFailure. Escaped: no Exception, as KeyboardInterrupt. */
  datatype Prepared =
    | Job
    | PreparationError(retryable: bool, closing: Closing)
    | InfrastructureRaised
    | Raised(exception: Exception, incident: Option<Exception>)
    | Escaped(exception: Exception)

  /** One round of the prepare loop. */
  datatype Attempt = Attempt(id: nat, claim: Option<Exception>, registration: Append, prepared: Prepared)

  /** caught: the phase record stands inside a try of its own, as DRC_VERIFIED does. */
  datatype PhaseRecord = PhaseRecord(append: Append, caught: bool)

  /** With a job prepared, phase records are appended; then execute raises, or closes the ledger itself. */
  datatype Ending = Interrupted(exception: Exception)
                  | Completed(status: TerminalStatus, closing: Closing, after: Option<Exception>)

  /** preflight: what execute raises before its first ledger. incident, closing: the decorator's own calls. */
  datatype Environment = Environment(preflight: Option<Exception>, first: Attempt, second: Attempt,
                                     phases: seq<PhaseRecord>, ending: Ending,
                                     incident: Option<Exception>, closing: Closing)

  predicate IsStorage(e: Exception) { !e.Infrastructure? && e.storage }

  function Fault(append: Append): Option<Exception> {
    if append.Written? then None else Some(append.exception)
  }

  /** What terminal() raises: the finally clause runs finish_claim, and its exception replaces the append's. */
  function ClosingFault(closing: Closing): Option<Exception> {
    if closing.finish.Some? then closing.finish else Fault(closing.append)
  }

  // ----- How execute ends, as a function of its environment

  /** open: the last ledger is still open. */
  datatype Exit = Exit(attempts: nat, open: bool, raised: Option<Exception>)

  datatype Round = Ready | Again | Stop(open: bool, ledger: bool, exception: Exception)

  function RoundOf(a: Attempt): Round {
    if a.claim.Some? then Stop(false, false, a.claim.value)
    else if Fault(a.registration).Some? then Stop(true, true, Fault(a.registration).value)
    else match a.prepared
      case Job => Ready
      case PreparationError(retryable, closing) =>
        if ClosingFault(closing).Some? then Stop(false, true, ClosingFault(closing).value)
        else if retryable then Again
        else Stop(false, true, Infrastructure)
      case InfrastructureRaised => Stop(true, true, Infrastructure)
      case Raised(e, incident) =>
        Stop(true, true, if IsStorage(e) && incident.Some? then incident.value else Infrastructure)
      case Escaped(e) => Stop(true, true, e)
  }

  function PhaseFault(phases: seq<PhaseRecord>): Option<Exception> {
    if phases == [] then None
    else if Fault(phases[0].append).Some? && !phases[0].caught then Fault(phases[0].append)
    else PhaseFault(phases[1..])
  }

  function WorkExit(env: Environment, attempts: nat): Exit {
    if PhaseFault(env.phases).Some? then Exit(attempts, true, PhaseFault(env.phases))
    else match env.ending
      case Interrupted(e) => Exit(attempts, true, Some(e))
      case Completed(_, closing, after) =>
        Exit(attempts, false, if ClosingFault(closing).Some? then ClosingFault(closing) else after)
  }

  function StopExit(round: Round, earlier: nat): Exit
    requires round.Stop?
  {
    Exit(earlier + if round.ledger then 1 else 0, round.open, Some(round.exception))
  }

  function ExitOf(env: Environment): Exit {
    if env.preflight.Some? then Exit(0, false, env.preflight)
    else
      var first := RoundOf(env.first);
      if first.Ready? then WorkExit(env, 1)
      else if first.Stop? then StopExit(first, 0)
      else
        var second := RoundOf(env.second);
        if second.Ready? then WorkExit(env, 2)
        else if second.Stop? then StopExit(second, 1)
        else Exit(2, false, Some(Infrastructure))
  }

  /** The decorator leaves a ledger open: recording the storage incident raises before it reaches the ledger. */
  predicate Leaks(env: Environment) {
    var exit := ExitOf(env);
    exit.open && exit.raised.Some? && IsStorage(exit.raised.value) && env.incident.Some?
  }

  /** Some append of a terminal record is lost. */
  predicate LosesTerminal(env: Environment) {
    || env.closing.append.Lost?
    || (env.ending.Completed? && env.ending.closing.append.Lost?)
    || (env.first.prepared.PreparationError? && env.first.prepared.closing.append.Lost?)
    || (env.second.prepared.PreparationError? && env.second.prepared.closing.append.Lost?)
  }

  /** A cancellation is recorded as such, unless a full disk hides behind it. */
  function StatusFor(e: Exception): TerminalStatus {
    if e.Cancellation? && !e.storage then Cancelled else ExecutionFailure
  }

  /** A disk that fills up while a phase is recorded, and stays full: the ledger is never closed. */
  lemma FullDiskLeaks(env: Environment)
    requires env.preflight.None? && RoundOf(env.first).Ready?
    requires env.phases == [PhaseRecord(Lost(Ordinary(true)), false)] && env.incident == Some(Ordinary(true))
    ensures Leaks(env)
  {}

  // ----- The leak, in terms of the environment alone

  predicate StorageFault(fault: Option<Exception>) { fault.Some? && IsStorage(fault.value) }

  /** The attempt's ledger exists and its registration is recorded. */
  predicate Registers(a: Attempt) { a.claim.None? && a.registration.Written? }

  /** A storage exception leaves the round with the ledger open: from registering, or from preparing the job. */
  predicate StorageStop(a: Attempt) {
    || (a.claim.None? && StorageFault(Fault(a.registration)))
    || (Registers(a) && a.prepared.Raised? && IsStorage(a.prepared.exception) && StorageFault(a.prepared.incident))
    || (Registers(a) && a.prepared.Escaped? && IsStorage(a.prepared.exception))
  }

  predicate Prepares(a: Attempt) { Registers(a) && a.prepared.Job? }

  predicate Retries(a: Attempt) {
    Registers(a) && a.prepared.PreparationError? && a.prepared.retryable
    && a.prepared.closing.append.Written? && a.prepared.closing.finish.None?
  }

  /** The first uncaught phase record to fail fills the disk; or the work is interrupted by a full disk. */
  predicate StorageWork(env: Environment) {
    if PhaseFault(env.phases).Some? then IsStorage(PhaseFault(env.phases).value)
    else env.ending.Interrupted? && IsStorage(env.ending.exception)
  }

  /** A ledger is left open exactly when recording the incident raises after a storage exception met an open ledger. */
  lemma LeaksIff(env: Environment)
    ensures Leaks(env) <==>
            && env.preflight.None? && env.incident.Some?
            && (|| StorageStop(env.first)
                || (Prepares(env.first) && StorageWork(env))
                || (Retries(env.first)
                    && (StorageStop(env.second) || (Prepares(env.second) && StorageWork(env)))))
  {
    RoundInFields(env.first);
    RoundInFields(env.second);
  }

  lemma RoundInFields(a: Attempt)
    ensures RoundOf(a).Ready? <==> Prepares(a)
    ensures RoundOf(a).Again? <==> Retries(a)
    ensures RoundOf(a).Stop? && RoundOf(a).open && IsStorage(RoundOf(a).exception) <==> StorageStop(a)
  {}

  /** Calls whose attempts end in preparation errors leak only at the registration of an attempt. */
  lemma PreparationErrorsLeakIff(env: Environment)
    requires env.first.prepared.PreparationError? && env.second.prepared.PreparationError?
    ensures Leaks(env) <==>
            && env.preflight.None? && env.incident.Some?
            && (StorageStop(env.first) || (Retries(env.first) && StorageStop(env.second)))
  {
    LeaksIff(env);
  }

  /** The phase records that reach the disk, up to the first uncaught failure. */
  function PhaseEvents(attempt: nat, phases: seq<PhaseRecord>): seq<Event> {
    if phases == [] then []
    else
      (if phases[0].append.Lost? then [] else [Phase(attempt)])
      + if Fault(phases[0].append).Some? && !phases[0].caught then [] else PhaseEvents(attempt, phases[1..])
  }

  /** Phases i and later are still to be recorded. */
  ghost predicate PhasesLeft(phases: seq<PhaseRecord>, i: nat, attempt: nat, before: seq<Event>, log: seq<Event>) {
    && i <= |phases| && PhaseFault(phases) == PhaseFault(phases[i..])
    && log + PhaseEvents(attempt, phases[i..]) == before + PhaseEvents(attempt, phases)
  }

  lemma PhaseEventsFrom(phases: seq<PhaseRecord>, i: nat, attempt: nat)
    requires i < |phases|
    ensures var first := if phases[i].append.Lost? then [] else [Phase(attempt)];
            PhaseEvents(attempt, phases[i..])
            == first + if Fault(phases[i].append).Some? && !phases[i].caught then []
                       else PhaseEvents(attempt, phases[i + 1..])
    ensures PhaseFault(phases[i..])
         == if Fault(phases[i].append).Some? && !phases[i].caught then Fault(phases[i].append)
            else PhaseFault(phases[i + 1..])
  {
    assert phases[i..][1..] == phases[i + 1..];
  }

  lemma NextPhase(phases: seq<PhaseRecord>, i: nat, attempt: nat, before: seq<Event>, log: seq<Event>,
                  after: seq<Event>)
    requires PhasesLeft(phases, i, attempt, before, log) && i < |phases|
    requires after == if phases[i].append.Lost? then log else log + [Phase(attempt)]
    ensures Fault(phases[i].append).Some? && !phases[i].caught ==>
              after == before + PhaseEvents(attempt, phases) && PhaseFault(phases) == Fault(phases[i].append)
    ensures !(Fault(phases[i].append).Some? && !phases[i].caught) ==>
              PhasesLeft(phases, i + 1, attempt, before, after)
  {
    PhaseEventsFrom(phases, i, attempt);
    var first := if phases[i].append.Lost? then [] else [Phase(attempt)];
    assert after == log + first;
    if Fault(phases[i].append).Some? && !phases[i].caught {
      assert first + [] == first;
    } else {
      Regroup(log, first, PhaseEvents(attempt, phases[i + 1..]));
    }
  }

  lemma Regroup(a: seq<Event>, b: seq<Event>, c: seq<Event>)
    ensures a + (b + c) == a + b + c
  {}

  // ----- How a call ends, told by the fields of its environment

  /** The first uncaught phase record to fail, if there is one. */
  lemma {:induction false} PhaseFaultIsFirst(phases: seq<PhaseRecord>, e: Exception)
    ensures PhaseFault(phases) == Some(e) <==> exists k :: FailsFirst(phases, k, e)
  {
    if phases != [] {
      var rest := phases[1..];
      PhaseFaultIsFirst(rest, e);
      if k :| FailsFirst(rest, k, e) && (phases[0].append.Written? || phases[0].caught) {
        assert FailsFirst(phases, k + 1, e);
      }
      if k :| FailsFirst(phases, k, e) {
        assert k > 0 ==> FailsFirst(rest, k - 1, e);
      } else {
        assert !FailsFirst(phases, 0, e);
      }
    }
  }

  ghost predicate FailsFirst(phases: seq<PhaseRecord>, k: int, e: Exception) {
    && 0 <= k < |phases| && !phases[k].caught && !phases[k].append.Written? && phases[k].append.exception == e
    && forall j :: 0 <= j < k ==> phases[j].caught || phases[j].append.Written?
  }

  /** The second attempt decides only when the first one ends in a retryable preparation error. */
  ghost function LastAttempt(env: Environment): Attempt {
    if Retries(env.first) then env.second else env.first
  }

  /** e leaves execute while the attempt's ledger is open. */
  ghost predicate LeavesOpen(env: Environment, a: Attempt, e: Exception) {
    || (a.claim.None? && !a.registration.Written? && a.registration.exception == e)
    || (Registers(a) && a.prepared.InfrastructureRaised? && e == Infrastructure)
    || (&& Registers(a) && a.prepared.Raised?
        && e == if IsStorage(a.prepared.exception) && a.prepared.incident.Some? then a.prepared.incident.value
                else Infrastructure)
    || (Registers(a) && a.prepared == Escaped(e))
    || (Prepares(a) && (if PhaseFault(env.phases).Some? then PhaseFault(env.phases) == Some(e)
                        else env.ending == Interrupted(e)))
  }

  /** e leaves execute before the attempt has a ledger, or after the ledger was closed. */
  ghost predicate LeavesClosed(env: Environment, a: Attempt, e: Exception) {
    || a.claim == Some(e)
    || (&& Registers(a) && a.prepared.PreparationError?
        && e == if ClosingFault(a.prepared.closing).Some? then ClosingFault(a.prepared.closing).value
                else Infrastructure)
    || (&& Finishes(env, a)
        && Some(e) == if ClosingFault(env.ending.closing).Some? then ClosingFault(env.ending.closing)
                      else env.ending.after)
  }

  /** The attempt's job runs to the end, and its ledger is closed with the status of the work. */
  ghost predicate Finishes(env: Environment, a: Attempt) {
    Prepares(a) && PhaseFault(env.phases).None? && env.ending.Completed?
  }

  /** Which exception leaves execute, and when it returns a result. */
  lemma ExitInFields(env: Environment)
    ensures env.preflight.Some? ==> ExitOf(env) == Exit(0, false, env.preflight)
    ensures env.preflight.None? ==>
              var (exit, last) := (ExitOf(env), LastAttempt(env));
              && exit.attempts == (if Retries(env.first) then 1 else 0) + (if last.claim.None? then 1 else 0)
              && (exit.open ==> exit.raised.Some? && LeavesOpen(env, last, exit.raised.value))
              && (!exit.open && exit.raised.Some? ==> LeavesClosed(env, last, exit.raised.value))
              && (exit.raised.None? <==> && Finishes(env, last) && env.ending.closing.append.Written?
                                         && env.ending.closing.finish.None? && env.ending.after.None?)
  {
    RoundInFields(env.first);
    RoundInFields(env.second);
  }

  /** What the decorator lets through of an exception: the fault of its own calls, or a pause for a full disk. */
  function Surfaced(e: Exception, open: bool, incident: Option<Exception>, closing: Closing): Exception {
    if IsStorage(e) && incident.Some? then incident.value
    else if open && ClosingFault(closing).Some? then ClosingFault(closing).value
    else if IsStorage(e) then Infrastructure
    else e
  }

  /** What the caller of execute gets: None for a result. */
  function CallerGets(env: Environment): Option<Exception> {
    var exit := ExitOf(env);
    if exit.raised.None? then None else Some(Surfaced(exit.raised.value, exit.open, env.incident, env.closing))
  }

  // ----- The statuses in the journal

  /** The status that the attempt's ledger is to be closed with. */
  ghost predicate OwedTo(env: Environment, a: Attempt, status: TerminalStatus) {
    || (Registers(a) && a.prepared.PreparationError? && status == ExecutionFailure)
    || (Finishes(env, a) && status == env.ending.status)
    || (exists e :: LeavesOpen(env, a, e) && status == if e == Cancellation(false) then Cancelled else ExecutionFailure)
  }

  ghost predicate Owed(env: Environment, attempt: nat, status: TerminalStatus) {
    || (attempt == env.first.id && OwedTo(env, env.first, status))
    || (attempt == env.second.id && OwedTo(env, env.second, status))
  }

  /** The journal only grows, and every terminal record that is new carries the status it is owed. */
  ghost predicate Journalled(env: Environment, before: seq<Event>, after: seq<Event>) {
    && before <= after
    && forall k :: |before| <= k < |after| && after[k].Terminal? ==> Owed(env, after[k].attempt, after[k].status)
  }

  ghost predicate MarksOnly(before: seq<Event>, after: seq<Event>) {
    before <= after && forall k :: |before| <= k < |after| ==> !after[k].Terminal?
  }

  /** Work that finishes closes the last ledger with its status. */
  lemma WorkIsOwed(env: Environment, attempts: seq<nat>)
    requires attempts == if RoundOf(env.first).Ready? then [env.first.id] else [env.first.id, env.second.id]
    requires RoundOf(env.first).Ready? || (RoundOf(env.first).Again? && RoundOf(env.second).Ready?)
    requires PhaseFault(env.phases).None? && env.ending.Completed?
    ensures Owed(env, attempts[|attempts| - 1], env.ending.status)
  {
    RoundInFields(env.first);
    RoundInFields(env.second);
  }

  /** An exception that meets an open ledger decides how that ledger is closed. */
  lemma OpenIsOwed(env: Environment, attempts: seq<nat>)
    requires ExitOf(env).open && |attempts| == ExitOf(env).attempts && attempts <= [env.first.id, env.second.id]
    ensures attempts != [] && ExitOf(env).raised.Some?
    ensures Owed(env, attempts[|attempts| - 1], StatusFor(ExitOf(env).raised.value))
  {
    ExitInFields(env);
    var last := LastAttempt(env);
    assert LeavesOpen(env, last, ExitOf(env).raised.value);
  }

  /** A round closes its ledger only after a preparation error. */
  ghost predicate RoundJournal(a: Attempt, before: seq<Event>, after: seq<Event>) {
    && before <= after
    && forall k :: |before| <= k < |after| && after[k].Terminal? ==>
         after[k] == Terminal(a.id, ExecutionFailure) && Registers(a) && a.prepared.PreparationError?
  }

  lemma RoundIsJournalled(env: Environment, a: Attempt, before: seq<Event>, middle: seq<Event>, after: seq<Event>)
    requires a == env.first || a == env.second
    requires Journalled(env, before, middle) && RoundJournal(a, middle, after)
    ensures Journalled(env, before, after)
  {}

  lemma JournalledMarks(env: Environment, before: seq<Event>, middle: seq<Event>, after: seq<Event>)
    requires Journalled(env, before, middle) && MarksOnly(middle, after)
    ensures Journalled(env, before, after)
  {}

  /** The terminal record of the last attempt. */
  lemma LastIsJournalled(env: Environment, before: seq<Event>, log: seq<Event>, attempt: nat, status: TerminalStatus)
    requires Journalled(env, before, log) && Owed(env, attempt, status)
    ensures Journalled(env, before, log + [Terminal(attempt, status)])
  {}

  // ----- The journal

  function TerminalCount(log: seq<Event>, attempt: nat): nat {
    if log == [] then 0
    else
      var earlier := TerminalCount(log[..|log| - 1], attempt);
      if log[|log| - 1].Terminal? && log[|log| - 1].attempt == attempt then earlier + 1 else earlier
  }

  lemma TerminalCountStep(log: seq<Event>, event: Event, attempt: nat)
    ensures TerminalCount(log + [event], attempt)
         == TerminalCount(log, attempt) + if event.Terminal? && event.attempt == attempt then 1 else 0
  {
    assert (log + [event])[..|log|] == log;
  }

  lemma TerminalCountSnoc(log: seq<Event>, event: Event)
    ensures forall attempt | event.Terminal? && event.attempt == attempt ::
              TerminalCount(log + [event], attempt) == TerminalCount(log, attempt) + 1
    ensures forall attempt | !(event.Terminal? && event.attempt == attempt) ::
              TerminalCount(log + [event], attempt) == TerminalCount(log, attempt)
  {
    forall attempt ensures
      TerminalCount(log + [event], attempt)
      == TerminalCount(log, attempt) + if event.Terminal? && event.attempt == attempt then 1 else 0
    {
      TerminalCountStep(log, event, attempt);
    }
  }

  /** No attempt has more or fewer terminal records than before. */
  ghost predicate CountsKept(before: seq<Event>, after: seq<Event>) {
    forall attempt {:trigger TerminalCount(after, attempt)} ::
      TerminalCount(after, attempt) == TerminalCount(before, attempt)
  }

  ghost predicate CountsKeptBut(before: seq<Event>, after: seq<Event>, except: nat) {
    forall attempt {:trigger TerminalCount(after, attempt)} ::
      attempt != except ==> TerminalCount(after, attempt) == TerminalCount(before, attempt)
  }

  /** An open attempt has no terminal record; a closed one has at most one, and exactly one if none was lost. */
  ghost predicate Recorded(log: seq<Event>, attempt: nat, open: bool, lost: bool) {
    if open then TerminalCount(log, attempt) == 0
    else TerminalCount(log, attempt) <= 1 && (!lost ==> TerminalCount(log, attempt) == 1)
  }

  /** Of the attempts so far, only the last can be open. */
  ghost predicate AllRecorded(log: seq<Event>, attempts: seq<nat>, open: bool, lost: bool) {
    && (forall j, k :: 0 <= j < k < |attempts| ==> attempts[j] != attempts[k])
    && (forall k :: 0 <= k < |attempts| ==> Recorded(log, attempts[k], open && k == |attempts| - 1, lost))
  }

  lemma MarkKeepsRecords(log: seq<Event>, event: Event, attempts: seq<nat>, open: bool, lost: bool)
    requires AllRecorded(log, attempts, open, lost) && !event.Terminal?
    ensures AllRecorded(log + [event], attempts, open, lost)
  {
    TerminalCountSnoc(log, event);
  }

  lemma TerminalClosesRecord(log: seq<Event>, event: Event, attempts: seq<nat>, lost: bool)
    requires attempts != [] && AllRecorded(log, attempts, true, lost)
    requires event.Terminal? && event.attempt == attempts[|attempts| - 1]
    ensures AllRecorded(log + [event], attempts, false, lost)
    ensures AllRecorded(log, attempts, false, true)
  {
    forall k | 0 <= k < |attempts| ensures Recorded(log + [event], attempts[k], false, lost) {
      TerminalCountStep(log, event, attempts[k]);
      assert Recorded(log, attempts[k], k == |attempts| - 1, lost);
    }
    forall k | 0 <= k < |attempts| ensures Recorded(log, attempts[k], false, true) {
      assert Recorded(log, attempts[k], k == |attempts| - 1, lost);
    }
  }

  // ----- The ledger

  /** finishes counts the calls of finish_claim on the ledger's reservation. */
  class AttemptLedger {
    const attempt: nat
    var terminalWritten: bool
    ghost var finishes: nat

    constructor (attempt: nat)
      ensures this.attempt == attempt && IsOpen()
    {
      this.attempt := attempt;
      terminalWritten, finishes := false, 0;
    }

    ghost predicate IsOpen()
      reads this
    {
      !terminalWritten && finishes == 0
    }

    /** The finally clause of terminal(). */
    method Finish()
      requires IsOpen()
      modifies this
      ensures IsSettled()
    {
      terminalWritten, finishes := true, finishes + 1;
    }

    /** Terminal, and its reservation finished exactly once. */
    ghost predicate IsSettled()
      reads this
    {
      terminalWritten && finishes == 1
    }
  }

  /** ledgers: those constructed since the call of execute began. lost: a terminal record was lost. */
  class Accounts {
    var log: seq<Event>
    var active: AttemptLedger?
    ghost var ledgers: seq<AttemptLedger>
    ghost var attempts: seq<nat>
    ghost var lost: bool

    constructor (log: seq<Event>)
      ensures this.log == log && active == null && ledgers == [] && attempts == [] && !lost
    {
      this.log, active, ledgers, attempts, lost := log, null, [], [], false;
    }

    ghost predicate AllSettled()
      reads this, ledgers
    {
      forall k :: 0 <= k < |ledgers| ==> ledgers[k].IsSettled()
    }

    ghost predicate ActiveOpen()
      reads this, active
    {
      active != null && active.IsOpen()
    }

    /** Every ledger but the active one is settled, so at most one is open at any time. */
    ghost predicate Valid()
      reads this, ledgers, active
    {
      && |attempts| == |ledgers|
      && (forall k :: 0 <= k < |ledgers| ==> ledgers[k].attempt == attempts[k])
      && (active == null <==> ledgers == [])
      && (active != null ==> active == ledgers[|ledgers| - 1] && (active.IsSettled() || active.IsOpen()))
      && (forall k :: 0 <= k < |ledgers| - 1 ==> ledgers[k].IsSettled())
      && AllRecorded(log, attempts, ActiveOpen(), lost)
    }

    ghost predicate Fresh(attempt: nat)
      reads this
    {
      TerminalCount(log, attempt) == 0 && attempt !in attempts
    }

    method AppendEvent(event: Event, append: Append) returns (raised: Option<Exception>)
      modifies this`log
      ensures raised == Fault(append)
      ensures log == if append.Lost? then old(log) else old(log) + [event]
    {
      if !append.Lost? {
        log := log + [event];
      }
      raised := Fault(append);
    }

    /** A registration or phase record changes the standing of no ledger. */
    method AppendMark(event: Event, append: Append) returns (raised: Option<Exception>)
      requires Valid() && !event.Terminal?
      modifies this`log
      ensures raised == Fault(append)
      ensures log == if append.Lost? then old(log) else old(log) + [event]
      ensures Valid() && ActiveOpen() == old(ActiveOpen()) && MarksOnly(old(log), log)
      ensures CountsKept(old(log), log)
    {
      TerminalCountSnoc(log, event);
      MarkKeepsRecords(log, event, attempts, ActiveOpen(), lost);
      raised := AppendEvent(event, append);
    }

    method OpenLedger(a: Attempt) returns (raised: Option<Exception>)
      requires Valid() && !ActiveOpen() && Fresh(a.id)
      modifies this`log, this`active, this`ledgers, this`attempts
      ensures Valid() && MarksOnly(old(log), log)
      ensures a.claim.Some? ==> raised == a.claim && ledgers == old(ledgers) && active == old(active)
      ensures a.claim.Some? ==> !ActiveOpen() && attempts == old(attempts)
      ensures a.claim.None? ==>
                && raised == Fault(a.registration) && ActiveOpen() && fresh(active)
                && ledgers == old(ledgers) + [active] && attempts == old(attempts) + [a.id]
      ensures log == old(log) + if a.claim.Some? || a.registration.Lost? then [] else [Registered(a.id)]
      ensures CountsKept(old(log), log)
    {
      if a.claim.Some? {
        return a.claim;
      }
      var ledger := new AttemptLedger(a.id);
      active, ledgers, attempts := ledger, ledgers + [ledger], attempts + [a.id];
      raised := AppendMark(Registered(a.id), a.registration);
    }

    /** terminal() on the active ledger. */
    method CloseActive(status: TerminalStatus, closing: Closing) returns (raised: Option<Exception>)
      requires Valid() && active != null
      modifies this`log, this`lost, active
      ensures Valid() && AllSettled()
      ensures old(!ActiveOpen()) ==> raised == None && log == old(log) && lost == old(lost)
      ensures old(ActiveOpen()) ==>
                && raised == ClosingFault(closing)
                && log == (if closing.append.Lost? then old(log) else old(log) + [Terminal(active.attempt, status)])
                && lost == (old(lost) || closing.append.Lost?)
    {
      if active.terminalWritten {
        return None;
      }
      raised := WriteTerminal(status, closing);
    }

    /** The rest of terminal(): the record, and finish_claim whatever became of it. */
    method WriteTerminal(status: TerminalStatus, closing: Closing) returns (raised: Option<Exception>)
      requires Valid() && ActiveOpen()
      modifies this`log, this`lost, active
      ensures Valid() && AllSettled()
      ensures raised == ClosingFault(closing)
      ensures log == if closing.append.Lost? then old(log) else old(log) + [Terminal(active.attempt, status)]
      ensures lost == (old(lost) || closing.append.Lost?)
    {
      TerminalClosesRecord(log, Terminal(active.attempt, status), attempts, lost);
      raised := AppendEvent(Terminal(active.attempt, status), closing.append);
      lost := lost || closing.append.Lost?;
      assert AllRecorded(log, attempts, false, lost);
      active.Finish();
      if closing.finish.Some? {
        raised := closing.finish;
      }
    }

    /** One round of the prepare loop: a ledger is opened, and the job is prepared or the round ends. */
    method PrepareRound(a: Attempt) returns (round: Round)
      requires Valid() && !ActiveOpen() && Fresh(a.id)
      modifies this
      ensures Valid() && round == RoundOf(a) && RoundJournal(a, old(log), log)
      ensures round.Stop? && !round.ledger ==> ledgers == old(ledgers) && attempts == old(attempts)
      ensures !(round.Stop? && !round.ledger) ==>
                fresh(active) && ledgers == old(ledgers) + [active] && attempts == old(attempts) + [a.id]
      ensures ActiveOpen() <==> round.Ready? || (round.Stop? && round.open)
      ensures CountsKeptBut(old(log), log, a.id)
      ensures lost ==> old(lost) || (a.prepared.PreparationError? && a.prepared.closing.append.Lost?)
    {
      var raised := OpenLedger(a);
      if raised.Some? {
        return Stop(a.claim.None?, a.claim.None?, raised.value);
      }
      round := PrepareJob(a, old(log));
    }

    /** prepare_job, and the except clauses around it. */
    method PrepareJob(a: Attempt, ghost before: seq<Event>) returns (round: Round)
      requires Valid() && ActiveOpen() && active.attempt == a.id && Registers(a) && MarksOnly(before, log)
      modifies this`log, this`lost, active
      ensures Valid() && round == RoundOf(a) && RoundJournal(a, before, log)
      ensures ActiveOpen() <==> round.Ready? || (round.Stop? && round.open)
      ensures CountsKeptBut(old(log), log, a.id)
      ensures lost ==> old(lost) || (a.prepared.PreparationError? && a.prepared.closing.append.Lost?)
    {
      match a.prepared
      case Job => return Ready;
      case InfrastructureRaised => return Stop(true, true, Infrastructure);
      case Escaped(e) => return Stop(true, true, e);
      case Raised(e, incident) =>
        if IsStorage(e) && incident.Some? {
          return Stop(true, true, incident.value);
        }
        return Stop(true, true, Infrastructure);
      case PreparationError(retryable, closing) =>
        TerminalCountSnoc(log, Terminal(active.attempt, ExecutionFailure));
        var raised := CloseActive(ExecutionFailure, closing);
        if raised.Some? {
          return Stop(false, true, raised.value);
        }
        return if retryable then Again else Stop(false, true, Infrastructure);
    }

    /** The loop around prepare_job: None once a job is prepared, otherwise what it raises. */
    method Prepare(env: Environment) returns (raised: Option<Exception>)
      requires Valid() && active == null && Fresh(env.first.id) && Fresh(env.second.id) && !lost
      requires env.first.id != env.second.id
      modifies this
      ensures Valid() && fresh(ledgers) && (lost ==> LosesTerminal(env))
      ensures raised.None? <==> RoundOf(env.first).Ready? || (RoundOf(env.first).Again? && RoundOf(env.second).Ready?)
      ensures raised.None? ==> ActiveOpen() && |ledgers| == if RoundOf(env.first).Ready? then 1 else 2
      ensures raised.Some? ==> ExitOf(env.(preflight := None)) == Exit(|ledgers|, ActiveOpen(), raised)
      ensures Attempts(env) && Journalled(env, old(log), log)
    {
      var number := 0;
      while true
        invariant number == 0 || number == 1
        invariant Valid() && !ActiveOpen() && |ledgers| == number && fresh(ledgers) && (lost ==> LosesTerminal(env))
        invariant number == 0 ==> Fresh(env.first.id)
        invariant Fresh(env.second.id)
        invariant number == 1 ==> RoundOf(env.first).Again?
        invariant Attempts(env) && Journalled(env, old(log), log)
        decreases 1 - number
      {
        ghost var before := log;
        var round := PrepareRound(if number == 0 then env.first else env.second);
        RoundIsJournalled(env, if number == 0 then env.first else env.second, old(log), before, log);
        if round.Ready? {
          return None;
        }
        if round.Stop? {
          return Some(round.exception);
        }
        if number == 0 {
          number := number + 1;
          continue;
        }
        return Some(Infrastructure);
      }
    }

    /** At most two attempts, the second only after the first ended in a retryable preparation error. */
    ghost predicate Attempts(env: Environment)
      reads this, ledgers
    {
      && |ledgers| == |attempts| <= 2 && attempts <= [env.first.id, env.second.id]
      && (|ledgers| == 2 ==>
            env.first.prepared.PreparationError? && env.first.prepared.retryable && ledgers[0].IsSettled())
    }

    /** The phase records of a prepared job. */
    method RecordPhases(phases: seq<PhaseRecord>) returns (raised: Option<Exception>)
      requires Valid() && ActiveOpen()
      modifies this`log
      ensures Valid() && ActiveOpen() && raised == PhaseFault(phases) && MarksOnly(old(log), log)
      ensures log == old(log) + PhaseEvents(active.attempt, phases)
      ensures CountsKept(old(log), log)
    {
      for i := 0 to |phases|
        invariant Valid() && ActiveOpen() && MarksOnly(old(log), log)
        invariant PhasesLeft(phases, i, active.attempt, old(log), log)
        invariant CountsKept(old(log), log)
      {
        ghost var before := log;
        raised := AppendMark(Phase(active.attempt), phases[i].append);
        NextPhase(phases, i, active.attempt, old(log), before, log);
        if raised.Some? && !phases[i].caught {
          return;
        }
      }
      raised := None;
    }

    /** execute: None when it returns a result. */
    method Execute(env: Environment) returns (raised: Option<Exception>)
      requires Valid() && active == null && Fresh(env.first.id) && Fresh(env.second.id) && !lost
      requires env.first.id != env.second.id
      modifies this
      ensures Valid() && fresh(ledgers) && Attempts(env) && (lost ==> LosesTerminal(env))
      ensures ExitOf(env) == Exit(|ledgers|, ActiveOpen(), raised)
      ensures Journalled(env, old(log), log)
    {
      if env.preflight.Some? {
        return env.preflight;
      }
      raised := Prepare(env);
      if raised.Some? {
        return;
      }
      raised := Work(env, old(log));
    }

    /** What follows the prepare loop. */
    method Work(env: Environment, ghost before: seq<Event>) returns (raised: Option<Exception>)
      requires Valid() && ActiveOpen() && Attempts(env) && Journalled(env, before, log)
      requires RoundOf(env.first).Ready? || (RoundOf(env.first).Again? && RoundOf(env.second).Ready?)
      requires |ledgers| == if RoundOf(env.first).Ready? then 1 else 2
      modifies this`log, this`lost, active
      ensures Valid() && Attempts(env) && (lost ==> old(lost) || LosesTerminal(env))
      ensures WorkExit(env, |ledgers|) == Exit(|ledgers|, ActiveOpen(), raised)
      ensures Journalled(env, before, log)
    {
      raised := RecordPhases(env.phases);
      JournalledMarks(env, before, old(log), log);
      if raised.Some? {
        return;
      }
      match env.ending
      case Interrupted(e) => return Some(e);
      case Completed(status, closing, after) =>
        assert attempts == if RoundOf(env.first).Ready? then [env.first.id] else [env.first.id, env.second.id];
        WorkIsOwed(env, attempts);
        LastIsJournalled(env, before, log, active.attempt, status);
        raised := CloseActive(status, closing);
        if raised.None? {
          raised := after;
        }
    }

    /** The terminal record that Handle adds, if it reaches an open ledger and the append is not lost. */
    ghost predicate ClosedWith(before: seq<Event>, after: seq<Event>, ledger: AttemptLedger?, open: bool, e: Exception,
                               incident: Option<Exception>, closing: Closing)
    {
      after == before + if ledger != null && open && !closing.append.Lost? && !(IsStorage(e) && incident.Some?)
                        then [Terminal(ledger.attempt, StatusFor(e))] else []
    }

    /** The except clause of the decorator. */
    method Handle(e: Exception, incident: Option<Exception>, closing: Closing) returns (raised: Exception)
      requires Valid()
      modifies this`log, this`lost, active
      ensures Valid()
      ensures AllSettled() <==> !(old(ActiveOpen()) && IsStorage(e) && incident.Some?)
      ensures lost ==> old(lost) || closing.append.Lost?
      ensures raised == Surfaced(e, old(ActiveOpen()), incident, closing)
      ensures ClosedWith(old(log), log, active, old(ActiveOpen()), e, incident, closing)
    {
      var normalized := e;
      if IsStorage(e) {
        if incident.Some? {
          return incident.value;
        }
        normalized := Infrastructure;
      }
      raised := normalized;
      if active != null && !active.terminalWritten {
        var fault := CloseActive(if normalized.Cancellation? then Cancelled else ExecutionFailure, closing);
        if fault.Some? {
          raised := fault.value;
        }
      }
    }

    /** The decorator around a finished call: outcome is what the call raised, if anything. */
    method Settle(outcome: Option<Exception>, incident: Option<Exception>, closing: Closing)
      returns (raised: Option<Exception>)
      requires Valid()
      modifies this`log, this`lost, active
      ensures Valid()
      ensures AllSettled() <==>
              !(old(ActiveOpen()) && outcome.Some? && IsStorage(outcome.value) && incident.Some?)
      ensures lost ==> old(lost) || closing.append.Lost?
      ensures outcome.None? && old(!ActiveOpen()) ==> raised == None && log == old(log)
      ensures outcome.None? && old(ActiveOpen()) ==> raised.Some?
      ensures outcome.Some? ==> raised == Some(Surfaced(outcome.value, old(ActiveOpen()), incident, closing))
      ensures outcome.Some? ==> ClosedWith(old(log), log, active, old(ActiveOpen()), outcome.value, incident, closing)
    {
      raised := outcome;
      if outcome.None? && active != null && !active.terminalWritten {
        var fault := CloseActive(ExecutionFailure, closing);
        raised := if fault.Some? then fault else Some(Ordinary(false));
      }
      if raised.Some? {
        var e := Handle(raised.value, incident, closing);
        raised := Some(e);
      }
    }

    /** The call and its settlement, before the context variable is restored. */
    method ExecuteAndSettle(env: Environment) returns (raised: Option<Exception>)
      requires Valid() && active == null && Fresh(env.first.id) && Fresh(env.second.id) && !lost
      requires env.first.id != env.second.id
      modifies this
      ensures Valid() && fresh(ledgers) && Attempts(env) && (lost ==> LosesTerminal(env))
      ensures |ledgers| == ExitOf(env).attempts && (AllSettled() <==> !Leaks(env))
      ensures raised == CallerGets(env) && Journalled(env, old(log), log)
    {
      raised := Execute(env);
      if ActiveOpen() {
        OpenIsOwed(env, attempts);
        LastIsJournalled(env, old(log), log, active.attempt, StatusFor(raised.value));
      }
      raised := Settle(raised, env.incident, env.closing);
    }

    /** execute as callers see it. Its context variable starts empty and is restored at the end. */
    method AccountedExecute(env: Environment) returns (raised: Option<Exception>)
      requires TerminalCount(log, env.first.id) == 0 == TerminalCount(log, env.second.id)
      requires env.first.id != env.second.id
      modifies this
      ensures active == old(active) && fresh(ledgers) && Attempts(env)
      ensures forall k :: 0 <= k < |attempts| ==> Recorded(log, attempts[k], !ledgers[k].IsSettled(), lost)
      ensures |ledgers| == ExitOf(env).attempts
      ensures AllSettled() <==> !Leaks(env)
      ensures lost ==> LosesTerminal(env)
      ensures raised == CallerGets(env) && Journalled(env, old(log), log)
    {
      var token := active;
      active, ledgers, attempts, lost := null, [], [], false;
      raised := ExecuteAndSettle(env);
      active := token;
    }
  }
}
