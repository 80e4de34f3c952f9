/**
  The imperative side of src/drc_agent/infrastructure/resource_arbiter.py: one process working on the shared
  slots. Every method is a sequence of protocol steps, so all that LeaseSafety proves of runs holds of it.
 */
module Arbiter {
  import opened Basics
  import opened Leases
  import opened LeaseSafety

  /** An event-log append: done, or an exception that may come before or after the line is in the file. */
  datatype Log = Logged | LogRaised(written: bool)

  /** A record write: done, or an exception that leaves the file as described. */
  datatype Store = Stored | StoreRaised(left: Write)

  /** What goes wrong, if anything, while one slot is being admitted. */
  datatype Faults = Faults(reclaimed: Log, held: Store, acquired: Log, backOut: Store)

  datatype Outcome = Acquired(lease: LeaseId, slot: Slot) | NoneFree | Raised

  function IsWritten(log: Log): bool { log.Logged? || log.written }

  function Left(store: Store): Write { if store.Stored? then Persisted else store.left }

  /** The probe never denies ownership of a slot whose owner or recorded worker is alive. */
  ghost predicate SoundProbe(pool: Pool, probe: Record -> bool) {
    forall record: Record :: record.Held? && (record.owner in pool.alive || pool.Busy(record)) ==> probe(record)
  }

  ghost predicate Unavailable(pool: Pool, slot: Slot, probe: Record -> bool) {
    slot in pool.locks || (pool.RecordAt(slot).Held? && probe(pool.RecordAt(slot)))
  }

  /** The first slots of a kind are all unavailable. */
  ghost predicate AllTaken(pool: Pool, kind: Kind, slots: nat, probe: Record -> bool) {
    forall i: nat {:trigger Slot(kind, i)} :: i < slots ==> Unavailable(pool, Slot(kind, i), probe)
  }

  lemma OneMoreTaken(pool: Pool, kind: Kind, slots: nat, probe: Record -> bool)
    requires AllTaken(pool, kind, slots, probe) && Unavailable(pool, Slot(kind, slots), probe)
    ensures AllTaken(pool, kind, slots + 1, probe)
  {}

  /** The slot that an attempt works on: neither locked nor owned, and the first such. */
  ghost predicate IsFirstFree(pool: Pool, kind: Kind, index: nat, probe: Record -> bool) {
    index < pool.Limit(kind) && AllTaken(pool, kind, index, probe) && !Unavailable(pool, Slot(kind, index), probe)
  }

  /** Logging RECLAIMED over a HELD record, writing HELD, or logging ACQUIRED goes wrong. */
  predicate Fails(previous: Record, fault: Faults) {
    (previous.Held? && fault.reclaimed.LogRaised?) || fault.held.StoreRaised? || fault.acquired.LogRaised?
  }

  /** The record an attempt leaves: the old one, what the HELD write left, the backed-out one, or HELD. */
  function RecordLeft(previous: Record, fault: Faults, lease: LeaseId, process: Process): Record {
    var held := Held(lease, process, None);
    if previous.Held? && fault.reclaimed.LogRaised? then previous
    else if fault.held.StoreRaised? then AfterWrite(previous, held, fault.held.left)
    else if fault.acquired.LogRaised? then AfterWrite(held, Released(lease), Left(fault.backOut))
    else held
  }

  function ReclaimEvents(previous: Record, fault: Faults): seq<Event> {
    if previous.Held? && IsWritten(fault.reclaimed) then [RECLAIMED(previous.lease)] else []
  }

  /** The events an attempt logs. */
  function EventsLeft(previous: Record, fault: Faults, lease: LeaseId): seq<Event> {
    var stored := (previous.Held? ==> fault.reclaimed.Logged?) && fault.held.Stored?;
    ReclaimEvents(previous, fault) + if stored && IsWritten(fault.acquired) then [ACQUIRED(lease)] else []
  }

  /** Record and log are as the faults say, and no other record has changed. */
  ghost predicate Leaves(before: Pool, after: Pool, process: Process, slot: Slot, fault: Faults) {
    var previous, lease := before.RecordAt(slot), before.nextLease;
    && after.RecordAt(slot) == RecordLeft(previous, fault, lease, process)
    && after.log == before.log + EventsLeft(previous, fault, lease)
    && OthersUntouched(before, after, slot)
  }

  ghost predicate OthersUntouched(before: Pool, after: Pool, slot: Slot) {
    forall other {:trigger after.RecordAt(other)} :: other != slot ==> after.RecordAt(other) == before.RecordAt(other)
  }

  /** What one attempt leaves behind, in terms of the pool it found and of what goes wrong at each slot. */
  ghost predicate Attempted(before: Pool, after: Pool, process: Process, kind: Kind, probe: Record -> bool,
                            faults: nat -> Faults, outcome: Outcome)
  {
    match outcome
    case NoneFree =>
      after == before && AllTaken(before, kind, before.Limit(kind), probe)
    case Raised =>
      exists index: nat :: RaisedAt(before, after, process, kind, probe, faults, index)
    case Acquired(lease, slot) =>
      && slot.kind == kind && IsFirstFree(before, kind, slot.index, probe)
      && !Fails(before.RecordAt(slot), faults(slot.index))
      && lease == before.nextLease && after.returned == before.returned + {lease}
      && after.locks == before.locks[slot := Holder(process, Open(lease))]
      && Leaves(before, after, process, slot, faults(slot.index))
      && Count(after, ACQUIRED(lease)) == 1
  }

  ghost predicate RaisedAt(before: Pool, after: Pool, process: Process, kind: Kind, probe: Record -> bool,
                           faults: nat -> Faults, index: nat)
  {
    && IsFirstFree(before, kind, index, probe) && Fails(before.RecordAt(Slot(kind, index)), faults(index))
    && after.locks == before.locks && after.returned == before.returned
    && Leaves(before, after, process, Slot(kind, index), faults(index))
  }

  /** Which outcome it is: no slot is free, something goes wrong at the first free one, or nothing does. */
  lemma OutcomeIff(before: Pool, after: Pool, process: Process, kind: Kind, probe: Record -> bool,
                   faults: nat -> Faults, outcome: Outcome)
    requires Attempted(before, after, process, kind, probe, faults, outcome)
    ensures outcome.NoneFree? <==> AllTaken(before, kind, before.Limit(kind), probe)
    ensures outcome.Raised? <==>
            exists i: nat :: IsFirstFree(before, kind, i, probe) && Fails(before.RecordAt(Slot(kind, i)), faults(i))
    ensures outcome.Acquired? <==>
            exists i: nat :: IsFirstFree(before, kind, i, probe) && !Fails(before.RecordAt(Slot(kind, i)), faults(i))
  {
    forall i: nat, j: nat | IsFirstFree(before, kind, i, probe) && IsFirstFree(before, kind, j, probe) ensures i == j {
      FirstFreeIsUnique(before, kind, i, j, probe);
    }
    if i: nat :| IsFirstFree(before, kind, i, probe) {
      assert !Unavailable(before, Slot(kind, i), probe);
    }
    if outcome.Raised? {
      var index: nat :| RaisedAt(before, after, process, kind, probe, faults, index);
      assert IsFirstFree(before, kind, index, probe);
    } else if outcome.Acquired? {
      assert IsFirstFree(before, kind, outcome.slot.index, probe) && outcome.slot == Slot(kind, outcome.slot.index);
    }
  }

  lemma FirstFreeIsUnique(pool: Pool, kind: Kind, i: nat, j: nat, probe: Record -> bool)
    requires IsFirstFree(pool, kind, i, probe) && IsFirstFree(pool, kind, j, probe)
    ensures i == j
  {
    assert i < j ==> Unavailable(pool, Slot(kind, i), probe);
    assert j < i ==> Unavailable(pool, Slot(kind, j), probe);
  }

  class Arbiter {
    var pool: Pool

    /** One atomic action of the process. */
    method Do(step: Step, ghost first: Pool)
      requires Enabled(pool, step) && Reaches(first, pool)
      modifies this
      ensures pool == Apply(old(pool), step) && Reaches(first, pool)
    {
      ReachesStep(first, pool, step);
      pool := Apply(pool, step);
    }

    /** Locks a slot and reads its record; a slot that the probe finds owned is unlocked again. */
    method Examine(process: Process, slot: Slot, probe: Record -> bool, ghost start: Pool)
      returns (previous: Record, owned: bool)
      requires pool == start && process in start.alive && start.IsSlot(slot) && slot !in start.locks
      modifies this
      ensures Reaches(start, pool) && previous == start.RecordAt(slot)
      ensures owned <==> previous.Held? && probe(previous)
      ensures pool == if owned then start else Apply(start, TakeLock(process, slot))
    {
      ReachesSelf(start);
      Do(TakeLock(process, slot), start);
      previous := pool.RecordAt(slot);
      assert previous == start.RecordAt(slot);
      owned := previous.Held? && probe(previous);
      if owned {
        DeclineRestores(start, process, slot);
        Do(Decline(slot), start);
      }
    }

    /** _try_acquire: the first slot that is neither locked nor owned, with every lock given back otherwise. */
    method TryAcquire(process: Process, kind: Kind, probe: Record -> bool, faults: nat -> Faults)
      returns (outcome: Outcome)
      requires Reachable(pool) && process in pool.alive && SoundProbe(pool, probe)
      modifies this
      ensures Reaches(old(pool), pool)
      ensures Attempted(old(pool), pool, process, kind, probe, faults, outcome)
    {
      ghost var start := pool;
      ReachesSelf(start);
      for slotId := 0 to pool.Limit(kind)
        invariant pool == start
        invariant AllTaken(start, kind, slotId, probe)
      {
        var slot := Slot(kind, slotId);
        if slot in pool.locks {
          OneMoreTaken(start, kind, slotId, probe);
          continue;
        }
        var previous, owned := Examine(process, slot, probe, start);
        if owned {
          OneMoreTaken(start, kind, slotId, probe);
          continue;
        }
        var lease := Admit(slot, previous, faults(slotId), start, process, probe);
        AdmissionIsAttempt(start, pool, process, slot, probe, faults, lease);
        return if lease.Some? then Acquired(lease.value, slot) else Raised;
      }
      outcome := NoneFree;
    }

    /** The rest of the loop body, once the probe has found nobody: reclaim, persist, log, hand out. */
    method Admit(slot: Slot, previous: Record, fault: Faults, ghost start: Pool, ghost process: Process,
                 ghost probe: Record -> bool)
      returns (lease: Option<LeaseId>)
      requires Reachable(start) && process in start.alive && start.IsSlot(slot) && !Unavailable(start, slot, probe)
      requires SoundProbe(start, probe)
      requires Reaches(start, pool) && pool == Apply(start, TakeLock(process, slot))
      requires previous == start.RecordAt(slot)
      modifies this
      ensures Reaches(start, pool) && Admitted(start, pool, process, slot, fault, lease)
    {
      TakeLockAhead(start, process, slot);
      if previous.Held? {
        var logged, ok := IsWritten(fault.reclaimed), fault.reclaimed.Logged?;
        ReclaimStep(start, pool, process, slot, previous, logged, ok);
        Do(Reclaim(slot, logged, ok), start);
        if fault.reclaimed.LogRaised? {
          return None;
        }
      } else {
        FreeStep(start, pool, process, slot, previous);
        Do(FindFree(slot), start);
      }
      lease := Publish(slot, fault, start, process);
    }

    /** Writes the HELD record and logs ACQUIRED; a lease that could not be logged is backed out. */
    method Publish(slot: Slot, fault: Faults, ghost start: Pool, ghost process: Process)
      returns (lease: Option<LeaseId>)
      requires Reachable(start) && Reaches(start, pool)
      requires start.RecordAt(slot).Held? ==> fault.reclaimed.Logged?
      requires Ahead(start, pool, process, slot, Cleared, start.RecordAt(slot),
                     ReclaimEvents(start.RecordAt(slot), fault))
      modifies this
      ensures Reaches(start, pool) && Admitted(start, pool, process, slot, fault, lease)
    {
      ghost var events := ReclaimEvents(start.RecordAt(slot), fault);
      var next := pool.nextLease;
      var write, stored := Left(fault.held), fault.held.Stored?;
      WriteStep(start, pool, process, slot, start.RecordAt(slot), events, write, stored);
      Do(WriteHeld(slot, write, stored), start);
      if fault.held.StoreRaised? {
        assert events + [] == events;
        return None;
      }
      lease := Announce(slot, next, fault, start, process, events);
      FinishAdmission(start, pool, process, slot, fault, lease, events);
    }

    /** Logs ACQUIRED; if that fails, marks the slot reusable as far as possible and gives it back. */
    method Announce(slot: Slot, next: LeaseId, fault: Faults, ghost start: Pool, ghost process: Process,
                    ghost events: seq<Event>)
      returns (lease: Option<LeaseId>)
      requires Reachable(start) && Reaches(start, pool)
      requires Ahead(start, pool, process, slot, Written(next), Held(next, process, None), events)
      modifies this
      ensures Reaches(start, pool) && Announced(start, pool, process, slot, next, fault, events, lease)
    {
      var logged, ok := IsWritten(fault.acquired), fault.acquired.Logged?;
      AuditStep(start, pool, process, slot, next, events, logged, ok);
      Do(LogAcquired(slot, logged, ok), start);
      if fault.acquired.LogRaised? {
        var write := Left(fault.backOut);
        BackOutStep(start, pool, process, slot, next, events + Logs(logged, ACQUIRED(next)), write);
        Do(BackOut(slot, write), start);
        return None;
      }
      FreshCount(start, pool, next);
      lease := Some(next);
    }

    /** update_worker, in one action with the start of the worker it records; a released lease raises. */
    method UpdateWorker(slot: Slot, lease: LeaseId, worker: Worker) returns (raised: bool)
      requires Reachable(pool)
      requires pool.InPhase(slot, Open(lease)) ==> worker !in pool.spawned && !pool.Busy(pool.RecordAt(slot))
      modifies this
      ensures Reaches(old(pool), pool) && pool.locks == old(pool.locks)
      ensures raised <==> !old(pool).InPhase(slot, Open(lease))
      ensures raised ==> pool == old(pool)
      ensures !raised ==> pool.running == old(pool.running) + {worker} && pool.log == old(pool.log)
      ensures OthersUntouched(old(pool), pool, slot)
      ensures !raised ==> pool.RecordAt(slot) == Held(lease, pool.locks[slot].process, Some(worker))
    {
      ReachesSelf(pool);
      raised := !pool.InPhase(slot, Open(lease));
      if !raised {
        Do(SpawnWorker(slot, worker), pool);
      }
    }

    /** clear_worker, once the worker is done: nothing on a released lease. */
    method ClearWorker(slot: Slot, lease: LeaseId, store: Store)
      requires Reachable(pool)
      requires pool.InPhase(slot, Open(lease)) ==> !pool.Busy(pool.RecordAt(slot))
      modifies this
      ensures Reaches(old(pool), pool) && pool.locks == old(pool.locks) && pool.log == old(pool.log)
      ensures !old(pool).InPhase(slot, Open(lease)) ==> pool == old(pool)
      ensures pool.running == old(pool.running) && OthersUntouched(old(pool), pool, slot)
      ensures old(pool).InPhase(slot, Open(lease)) ==>
                pool.RecordAt(slot)
                == AfterWrite(old(pool.RecordAt(slot)), Held(lease, pool.locks[slot].process, None), Left(store))
    {
      ReachesSelf(pool);
      if !pool.InPhase(slot, Open(lease)) {
        return;
      }
      Do(Step.ClearWorker(slot, Left(store)), pool);
      assert pool.locks == old(pool.locks);
    }

    /** close: nothing the second time; otherwise the lock is given back whichever write fails. */
    method Close(slot: Slot, lease: LeaseId, store: Store, log: Log)
      requires Reachable(pool)
      requires pool.InPhase(slot, Open(lease)) ==> !pool.Busy(pool.RecordAt(slot))
      modifies this
      ensures Reaches(old(pool), pool)
      ensures !pool.InPhase(slot, Open(lease))
      ensures !old(pool).InPhase(slot, Open(lease)) ==> pool == old(pool)
      ensures old(pool).InPhase(slot, Open(lease)) ==>
        && pool.locks == old(pool.locks) - {slot}
        && pool.RecordAt(slot) == AfterWrite(old(pool.RecordAt(slot)), Released(lease), Left(store))
        && pool.log == old(pool.log) + (if store.Stored? && IsWritten(log) then [RELEASED(lease)] else [])
        && Count(pool, RELEASED(lease)) == if store.Stored? && IsWritten(log) then 1 else 0
      ensures pool.running == old(pool.running) && OthersUntouched(old(pool), pool, slot)
    {
      ghost var start := pool;
      ReachesSelf(start);
      if !pool.InPhase(slot, Open(lease)) {
        return;
      }
      NotReleasedYet(start, slot, lease);
      Do(CloseRecord(slot, Left(store), store.Stored?), start);
      if store.Stored? {
        Do(CloseLog(slot, IsWritten(log)), start);
      }
      ReleasedOnce(start, pool, lease, store.Stored? && IsWritten(log));
      assert pool.locks == start.locks - {slot};
    }
  }

  lemma ReleasedOnce(s: Pool, t: Pool, lease: LeaseId, logged: bool)
    requires Count(s, RELEASED(lease)) == 0 && t.log == s.log + if logged then [RELEASED(lease)] else []
    ensures Count(t, RELEASED(lease)) == if logged then 1 else 0
  {}

  lemma NotReleasedYet(s: Pool, slot: Slot, lease: LeaseId)
    requires Reachable(s) && s.InPhase(slot, Open(lease))
    ensures Count(s, RELEASED(lease)) == 0
  {
    ReachableInv(s);
    assert SlotOk(s, slot);
    assert LeaseOk(s, lease);
  }

  /** Taking and giving back a lock changes nothing. */
  lemma DeclineRestores(s: Pool, process: Process, slot: Slot)
    requires Enabled(s, TakeLock(process, slot)) && s.RecordAt(slot).Held?
    ensures Enabled(Apply(s, TakeLock(process, slot)), Decline(slot))
    ensures Apply(Apply(s, TakeLock(process, slot)), Decline(slot)) == s
  {
    var t := Apply(Apply(s, TakeLock(process, slot)), Decline(slot));
    assert t.locks == s.locks && t.records == s.records;
  }

  lemma FreshCount(start: Pool, t: Pool, lease: LeaseId)
    requires Reachable(start) && Reaches(start, t) && lease in t.returned
    ensures Count(t, ACQUIRED(lease)) == 1
  {
    ReachesFromReachable(start, t);
    AuditLog(t, lease);
  }

  /** What Admit leaves behind on its slot. */
  ghost predicate Admitted(start: Pool, pool: Pool, process: Process, slot: Slot, fault: Faults,
                           lease: Option<LeaseId>)
  {
    && Leaves(start, pool, process, slot, fault)
    && (lease.None? <==> Fails(start.RecordAt(slot), fault))
    && (lease.None? ==> pool.locks == start.locks && pool.returned == start.returned)
    && (lease.Some? ==>
          && lease.value == start.nextLease && pool.returned == start.returned + {lease.value}
          && pool.locks == start.locks[slot := Holder(process, Open(lease.value))]
          && Count(pool, ACQUIRED(lease.value)) == 1)
  }

  /** What Announce leaves behind. */
  ghost predicate Announced(start: Pool, pool: Pool, process: Process, slot: Slot, next: LeaseId, fault: Faults,
                            events: seq<Event>, lease: Option<LeaseId>)
  {
    var held, more := Held(next, process, None), events + Logs(IsWritten(fault.acquired), ACQUIRED(next));
    if fault.acquired.LogRaised? then
      lease == None && GivenUp(start, pool, slot, AfterWrite(held, Released(next), Left(fault.backOut)), more)
    else
      && lease == Some(next) && pool.locks == start.locks[slot := Holder(process, Open(next))]
      && pool.returned == start.returned + {next} && Shows(start, pool, slot, held, more)
      && Count(pool, ACQUIRED(next)) == 1
  }

  lemma FinishAdmission(start: Pool, pool: Pool, process: Process, slot: Slot, fault: Faults, lease: Option<LeaseId>,
                        events: seq<Event>)
    requires Announced(start, pool, process, slot, start.nextLease, fault, events, lease)
    requires start.RecordAt(slot).Held? ==> fault.reclaimed.Logged?
    requires fault.held.Stored? && events == ReclaimEvents(start.RecordAt(slot), fault)
    ensures Admitted(start, pool, process, slot, fault, lease)
  {}

  lemma AdmissionIsAttempt(start: Pool, pool: Pool, process: Process, slot: Slot, probe: Record -> bool,
                           faults: nat -> Faults, lease: Option<LeaseId>)
    requires IsFirstFree(start, slot.kind, slot.index, probe)
    requires Admitted(start, pool, process, slot, faults(slot.index), lease)
    ensures Attempted(start, pool, process, slot.kind, probe, faults,
                      if lease.Some? then Acquired(lease.value, slot) else Raised)
  {
    assert slot == Slot(slot.kind, slot.index);
    if lease.None? {
      assert RaisedAt(start, pool, process, slot.kind, probe, faults, slot.index);
    }
  }

  /** The process holds the slot in the given phase; these are its record and the events logged since the start. */
  ghost predicate Ahead(start: Pool, pool: Pool, process: Process, slot: Slot, phase: Phase, record: Record,
                        events: seq<Event>)
  {
    && slot !in start.locks && pool.locks == start.locks[slot := Holder(process, phase)]
    && pool.returned == start.returned && pool.alive == start.alive && pool.running == start.running
    && (pool.nextLease == start.nextLease + if phase.Checking? || phase.Cleared? then 0 else 1)
    && Shows(start, pool, slot, record, events)
  }

  ghost predicate Shows(start: Pool, pool: Pool, slot: Slot, record: Record, events: seq<Event>) {
    pool.RecordAt(slot) == record && pool.log == start.log + events && OthersUntouched(start, pool, slot)
  }

  ghost predicate GivenUp(start: Pool, pool: Pool, slot: Slot, record: Record, events: seq<Event>) {
    pool.locks == start.locks && pool.returned == start.returned && Shows(start, pool, slot, record, events)
  }

  function Logs(logged: bool, event: Event): seq<Event> { if logged then [event] else [] }

  /** One action on the slot: its record is as the effect says, its event is logged, other records stay. */
  lemma EffectShows(start: Pool, pool: Pool, slot: Slot, record: Record, events: seq<Event>, e: Effect)
    requires Shows(start, pool, slot, record, events) && e.slot == slot
    ensures Shows(start, Perform(pool, e), slot, e.record, events + if e.event.Some? then [e.event.value] else [])
  {
    PerformHere(pool, e);
    var more := if e.event.Some? then [e.event.value] else [];
    assert start.log + (events + more) == pool.log + more;
    forall other | other != slot ensures Perform(pool, e).RecordAt(other) == start.RecordAt(other) {
      PerformElsewhere(pool, e, other);
    }
  }

  lemma TakeLockAhead(start: Pool, process: Process, slot: Slot)
    requires Enabled(start, TakeLock(process, slot))
    ensures Ahead(start, Apply(start, TakeLock(process, slot)), process, slot, Checking, start.RecordAt(slot), [])
  {
    EffectShows(start, start, slot, start.RecordAt(slot), [], EffectOf(start, TakeLock(process, slot)));
  }

  lemma FreeStep(start: Pool, pool: Pool, process: Process, slot: Slot, record: Record)
    requires Ahead(start, pool, process, slot, Checking, record, []) && Enabled(pool, FindFree(slot))
    ensures Ahead(start, Apply(pool, FindFree(slot)), process, slot, Cleared, record, [])
  {
    EffectShows(start, pool, slot, record, [], EffectOf(pool, FindFree(slot)));
  }

  lemma ReclaimStep(start: Pool, pool: Pool, process: Process, slot: Slot, record: Record, logged: bool, ok: bool)
    requires Ahead(start, pool, process, slot, Checking, record, []) && Enabled(pool, Reclaim(slot, logged, ok))
    ensures var t, events := Apply(pool, Reclaim(slot, logged, ok)), Logs(logged, RECLAIMED(record.lease));
            if ok then Ahead(start, t, process, slot, Cleared, record, events)
            else GivenUp(start, t, slot, record, events)
  {
    EffectShows(start, pool, slot, record, [], EffectOf(pool, Reclaim(slot, logged, ok)));
  }

  lemma WriteStep(start: Pool, pool: Pool, process: Process, slot: Slot, record: Record, events: seq<Event>,
                  write: Write, ok: bool)
    requires Ahead(start, pool, process, slot, Cleared, record, events) && Enabled(pool, WriteHeld(slot, write, ok))
    ensures var t, l := Apply(pool, WriteHeld(slot, write, ok)), pool.nextLease;
            var held := Held(l, process, None);
            if ok then Ahead(start, t, process, slot, Written(l), held, events)
            else GivenUp(start, t, slot, AfterWrite(record, held, write), events)
  {
    EffectShows(start, pool, slot, record, events, EffectOf(pool, WriteHeld(slot, write, ok)));
  }

  lemma AuditStep(start: Pool, pool: Pool, process: Process, slot: Slot, lease: LeaseId, events: seq<Event>,
                  logged: bool, ok: bool)
    requires Ahead(start, pool, process, slot, Written(lease), Held(lease, process, None), events)
    requires Enabled(pool, LogAcquired(slot, logged, ok))
    ensures var t, more := Apply(pool, LogAcquired(slot, logged, ok)), events + Logs(logged, ACQUIRED(lease));
            if ok then && t.locks == start.locks[slot := Holder(process, Open(lease))]
                       && t.returned == start.returned + {lease}
                       && Shows(start, t, slot, Held(lease, process, None), more)
            else Ahead(start, t, process, slot, BackingOut(lease), Held(lease, process, None), more)
  {
    EffectShows(start, pool, slot, Held(lease, process, None), events, EffectOf(pool, LogAcquired(slot, logged, ok)));
  }

  lemma BackOutStep(start: Pool, pool: Pool, process: Process, slot: Slot, lease: LeaseId, events: seq<Event>,
                    write: Write)
    requires Ahead(start, pool, process, slot, BackingOut(lease), Held(lease, process, None), events)
    requires Enabled(pool, BackOut(slot, write))
    ensures GivenUp(start, Apply(pool, BackOut(slot, write)), slot,
                    AfterWrite(Held(lease, process, None), Released(lease), write), events)
  {
    EffectShows(start, pool, slot, Held(lease, process, None), events, EffectOf(pool, BackOut(slot, write)));
  }
}
