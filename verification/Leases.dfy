/**
  The cross-process lease protocol of src/drc_agent/infrastructure/resource_arbiter.py as a step relation.

  A slot is an advisory lock plus a persisted JSON record. Locks vanish with the process that holds them,
  records and workers do not. Every step below is one atomic action of one process; failures of the event
  log and of record writes, and crashes, may happen at every point where the code can meet them.
 */
module Leases {
  import opened Basics

  type Process = nat
  type Worker = nat
  type LeaseId = nat

  datatype Kind = Http | Eda

  datatype Slot = Slot(kind: Kind, index: nat)

  /** The metadata as a later reader sees it: an unreadable or empty file is no record at all. */
  datatype Record =
    | NoRecord
    | Held(lease: LeaseId, owner: Process, worker: Option<Worker>)
    | Released(lease: LeaseId)

  /** How far the process that holds the lock has come. */
  datatype Phase =
    | Checking                  // locked, record not examined yet
    | Cleared                   // nobody owns the slot; the new record may be written
    | Written(lease: LeaseId)   // HELD persisted, ACQUIRED not logged yet
    | BackingOut(lease: LeaseId)  // ACQUIRED failed; about to mark the slot reusable
    | Open(lease: LeaseId)      // the lease was returned to the caller
    | Closing(lease: LeaseId)   // RELEASED persisted, not logged yet

  datatype Holder = Holder(process: Process, phase: Phase)

  datatype Event = ACQUIRED(lease: LeaseId) | RELEASED(lease: LeaseId) | RECLAIMED(lease: LeaseId)

  /** Where a worker was started, and under which lease. */
  datatype Spawn = Spawn(slot: Slot, lease: LeaseId)

  /** `born`, `spawned`, `home` and `returned` are history: what ever lived, where, and what was handed out. */
  datatype Pool = Pool(
    httpLimit: nat, edaLimit: nat,
    locks: map<Slot, Holder>, records: map<Slot, Record>,
    alive: set<Process>, born: set<Process>,
    running: set<Worker>, spawned: map<Worker, Spawn>,
    home: map<LeaseId, Slot>, nextLease: LeaseId, returned: set<LeaseId>,
    log: seq<Event>)
  {
    function Limit(kind: Kind): nat { if kind == Http then httpLimit else edaLimit }

    predicate IsSlot(slot: Slot) { slot.index < Limit(slot.kind) }

    function RecordAt(slot: Slot): Record { if slot in records then records[slot] else NoRecord }

    predicate InPhase(slot: Slot, phase: Phase) { slot in locks && locks[slot].phase == phase }

    /** The worker named in a record is still running. */
    predicate Busy(record: Record) { record.Held? && record.worker.Some? && record.worker.value in running }
  }

  /** What a failed or successful record write leaves on disk. */
  datatype Write = Persisted | Unchanged | Torn

  /** A torn record does not parse, and then reads as none: it holds the slot for nobody. */
  function AfterWrite(before: Record, record: Record, write: Write): (after: Record)
    ensures after.Held? ==> write != Torn && (after == before || after == record)
  {
    match write
    case Persisted => record
    case Unchanged => before
    case Torn => NoRecord
  }

  /** All that one action on a slot can change: its lock, its record, the log, and what is issued or started there. */
  datatype Effect = Effect(
    slot: Slot, holder: Option<Holder>, record: Record, event: Option<Event>,
    issues: bool, hands: Option<LeaseId>, starts: Option<Spawned>)

  datatype Spawned = Spawned(worker: Worker, lease: LeaseId)

  function Perform(s: Pool, e: Effect): Pool {
    s.(locks := if e.holder.Some? then s.locks[e.slot := e.holder.value] else s.locks - {e.slot},
       records := s.records[e.slot := e.record],
       log := if e.event.Some? then s.log + [e.event.value] else s.log,
       home := if e.issues then s.home[s.nextLease := e.slot] else s.home,
       nextLease := if e.issues then s.nextLease + 1 else s.nextLease,
       returned := if e.hands.Some? then s.returned + {e.hands.value} else s.returned,
       running := if e.starts.Some? then s.running + {e.starts.value.worker} else s.running,
       spawned := if e.starts.Some? then s.spawned[e.starts.value.worker := Spawn(e.slot, e.starts.value.lease)]
                  else s.spawned)
  }

  // ----- Steps

  datatype Step =
    | Start(process: Process)
    | Crash(process: Process)
    | TakeLock(process: Process, slot: Slot)
    | Decline(slot: Slot)
    | FindFree(slot: Slot)
    | Reclaim(slot: Slot, logged: bool, ok: bool)
    | WriteHeld(slot: Slot, write: Write, ok: bool)
    | LogAcquired(slot: Slot, logged: bool, ok: bool)
    | BackOut(slot: Slot, write: Write)
    | SpawnWorker(slot: Slot, worker: Worker)
    | WorkerExit(worker: Worker)
    | ClearWorker(slot: Slot, write: Write)
    | CloseRecord(slot: Slot, write: Write, ok: bool)
    | CloseLog(slot: Slot, logged: bool)

  predicate Enabled(s: Pool, step: Step) {
    match step
    case Start(p) => p !in s.born
    case Crash(p) => p in s.alive
    case TakeLock(p, slot) => p in s.alive && s.IsSlot(slot) && slot !in s.locks
    case Decline(slot) => s.InPhase(slot, Checking) && s.RecordAt(slot).Held?
    case FindFree(slot) => s.InPhase(slot, Checking) && !s.RecordAt(slot).Held?
    case Reclaim(slot, logged, ok) =>
      // a sound orphan probe: it may only deny ownership when owner and worker are gone
      && s.InPhase(slot, Checking) && s.RecordAt(slot).Held?
      && s.RecordAt(slot).owner !in s.alive && !s.Busy(s.RecordAt(slot)) && (ok ==> logged)
    case WriteHeld(slot, write, ok) => s.InPhase(slot, Cleared) && (ok ==> write == Persisted)
    case LogAcquired(slot, logged, ok) => slot in s.locks && s.locks[slot].phase.Written? && (ok ==> logged)
    case BackOut(slot, write) => slot in s.locks && s.locks[slot].phase.BackingOut?
    case SpawnWorker(slot, w) =>
      slot in s.locks && s.locks[slot].phase.Open? && w !in s.spawned && !s.Busy(s.RecordAt(slot))
    case WorkerExit(w) => w in s.running
    case ClearWorker(slot, write) => slot in s.locks && s.locks[slot].phase.Open? && !s.Busy(s.RecordAt(slot))
    case CloseRecord(slot, write, ok) =>
      slot in s.locks && s.locks[slot].phase.Open? && !s.Busy(s.RecordAt(slot)) && (ok ==> write == Persisted)
    case CloseLog(slot, logged) => slot in s.locks && s.locks[slot].phase.Closing?
  }

  predicate OnSlot(step: Step) { !step.Start? && !step.Crash? && !step.WorkerExit? }

  /** The action on the slot of a step: what the lines between two atomic points of the code do. */
  function EffectOf(s: Pool, step: Step): Effect
    requires Enabled(s, step) && OnSlot(step)
  {
    var slot := step.slot;
    var record := s.RecordAt(slot);
    var p := if step.TakeLock? then step.process else s.locks[slot].process;
    var keep := Effect(slot, if slot in s.locks then Some(s.locks[slot]) else None, record, None, false, None, None);
    match step
    case TakeLock(_, _) => keep.(holder := Some(Holder(p, Checking)))
    case Decline(_) => keep.(holder := None)
    case FindFree(_) => keep.(holder := Some(Holder(p, Cleared)))
    case Reclaim(_, logged, ok) =>
      keep.(event := if logged then Some(RECLAIMED(record.lease)) else None,
            holder := if ok then Some(Holder(p, Cleared)) else None)
    case WriteHeld(_, write, ok) =>
      keep.(record := AfterWrite(record, Held(s.nextLease, p, None), write), issues := true,
            holder := if ok then Some(Holder(p, Written(s.nextLease))) else None)
    case LogAcquired(_, logged, ok) =>
      var l := s.locks[slot].phase.lease;
      keep.(event := if logged then Some(ACQUIRED(l)) else None,
            holder := Some(Holder(p, if ok then Open(l) else BackingOut(l))),
            hands := if ok then Some(l) else None)
    case BackOut(_, write) =>
      keep.(record := AfterWrite(record, Released(s.locks[slot].phase.lease), write), holder := None)
    case SpawnWorker(_, w) =>
      var l := s.locks[slot].phase.lease;
      keep.(record := Held(l, p, Some(w)), starts := Some(Spawned(w, l)))
    case ClearWorker(_, write) =>
      keep.(record := AfterWrite(record, Held(s.locks[slot].phase.lease, p, None), write))
    case CloseRecord(_, write, ok) =>
      var l := s.locks[slot].phase.lease;
      keep.(record := AfterWrite(record, Released(l), write),
            holder := if ok then Some(Holder(p, Closing(l))) else None)
    case CloseLog(_, logged) =>
      keep.(event := if logged then Some(RELEASED(s.locks[slot].phase.lease)) else None, holder := None)
  }

  function Apply(s: Pool, step: Step): Pool
    requires Enabled(s, step)
  {
    match step
    case Start(p) => s.(alive := s.alive + {p}, born := s.born + {p})
    case Crash(p) =>
      s.(alive := s.alive - {p}, locks := map slot | slot in s.locks && s.locks[slot].process != p :: s.locks[slot])
    case WorkerExit(w) => s.(running := s.running - {w})
    case _ => Perform(s, EffectOf(s, step))
  }

  predicate Initial(s: Pool) {
    s.locks == map[] && s.records == map[] && s.alive == {} && s.born == {} && s.running == {}
    && s.spawned == map[] && s.home == map[] && s.nextLease == 0 && s.returned == {} && s.log == []
  }

  ghost predicate IsRun(states: seq<Pool>, steps: seq<Step>) {
    && |states| == |steps| + 1
    && forall i :: 0 <= i < |steps| ==> Enabled(states[i], steps[i]) && states[i + 1] == Apply(states[i], steps[i])
  }

  ghost predicate Reaches(s: Pool, t: Pool) {
    exists states: seq<Pool>, steps: seq<Step> :: IsRun(states, steps) && states[0] == s && states[|steps|] == t
  }

  ghost predicate Reachable(t: Pool) {
    exists s :: Initial(s) && Reaches(s, t)
  }
}
