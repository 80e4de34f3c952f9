/**
  What every run of the lease protocol keeps: capacity, no re-admission over living work, and the audit log.
 */
module LeaseSafety {
  import opened Basics
  import opened Leases

  // ----- The invariant, slot by slot, worker by worker, lease by lease

  ghost predicate At(s: Pool, lease: LeaseId, slot: Slot) {
    lease < s.nextLease && lease in s.home && s.home[lease] == slot
  }

  ghost predicate SlotOk(s: Pool, slot: Slot) {
    var record := s.RecordAt(slot);
    && (record.Held? ==>
          && s.IsSlot(slot) && At(s, record.lease, slot) && record.owner in s.born
          && (record.worker.Some? ==> record.worker.value in s.spawned))
    && (slot in s.locks ==>
          var Holder(p, phase) := s.locks[slot];
          && s.IsSlot(slot) && p in s.alive
          && match phase
             case Checking => true
             case Cleared => record.Held? ==> record.owner !in s.alive && !s.Busy(record)
             case Written(l) => At(s, l, slot) && record == Held(l, p, None)
             case BackingOut(l) => At(s, l, slot) && record == Held(l, p, None)
             case Open(l) =>
               At(s, l, slot) && (record == NoRecord || (record.Held? && record.lease == l && record.owner == p))
             case Closing(l) => At(s, l, slot) && record == Released(l))
  }

  /** A running worker is named by the record of the slot it was started under. */
  ghost predicate WorkerOk(s: Pool, w: Worker) {
    w in s.running ==>
      && w in s.spawned
      && var record := s.RecordAt(s.spawned[w].slot);
         record.Held? && record.lease == s.spawned[w].lease && record.worker == Some(w)
  }

  ghost function Count(s: Pool, event: Event): nat { multiset(s.log)[event] }

  ghost predicate LeaseOk(s: Pool, l: LeaseId) {
    var acquired, released, reclaimed := Count(s, ACQUIRED(l)), Count(s, RELEASED(l)), Count(s, RECLAIMED(l));
    && (l in s.home <==> l < s.nextLease)
    && (l !in s.home ==> acquired == released == reclaimed == 0 && l !in s.returned)
    && acquired <= 1 && released <= 1
    && (l in s.returned ==> acquired == 1)
    && (released > 0 ==> l in s.returned && reclaimed == 0)
    && (l in s.home ==>
          var slot := s.home[l];
          && (s.InPhase(slot, Written(l)) ==> acquired == released == reclaimed == 0 && l !in s.returned)
          && (s.InPhase(slot, BackingOut(l)) ==> released == reclaimed == 0 && l !in s.returned)
          && (s.InPhase(slot, Open(l)) || s.InPhase(slot, Closing(l)) ==> released == reclaimed == 0 && l in s.returned)
          && (s.RecordAt(slot).Held? && s.RecordAt(slot).lease == l ==> released == 0))
  }

  ghost predicate Inv(s: Pool) {
    && s.alive <= s.born
    && (forall slot {:trigger SlotOk(s, slot)} :: SlotOk(s, slot))
    && (forall w {:trigger WorkerOk(s, w)} :: WorkerOk(s, w))
    && (forall l {:trigger LeaseOk(s, l)} :: LeaseOk(s, l))
  }

  lemma InitialInv(s: Pool)
    requires Initial(s)
    ensures Inv(s)
  {}

  // ----- What no step undoes

  /** Identities are never reused: the dead stay dead, workers do not restart, leases keep their slot, the log grows. */
  ghost predicate Later(s: Pool, t: Pool) { LaterLives(s, t) && LaterLeases(s, t) }

  ghost predicate LaterLives(s: Pool, t: Pool) {
    && s.born <= t.born && (forall p <- s.born :: p in t.alive ==> p in s.alive)
    && s.spawned.Keys <= t.spawned.Keys && (forall w <- s.spawned.Keys :: w in t.running ==> w in s.running)
    && (forall w <- s.spawned.Keys :: t.spawned[w] == s.spawned[w])
  }

  ghost predicate LaterLeases(s: Pool, t: Pool) {
    && t.httpLimit == s.httpLimit && t.edaLimit == s.edaLimit
    && s.nextLease <= t.nextLease
    && (forall l <- s.home.Keys :: l < s.nextLease ==> l in t.home && t.home[l] == s.home[l])
    && s.returned <= t.returned
  }

  lemma StepIsLater(s: Pool, step: Step)
    requires Enabled(s, step)
    ensures Later(s, Apply(s, step))
  {
    if OnSlot(step) {
      EffectIsFresh(s, step);
      PerformIsLater(s, EffectOf(s, step));
    }
  }

  /** A step starts only a worker that never ran before. */
  lemma EffectIsFresh(s: Pool, step: Step)
    requires Enabled(s, step) && OnSlot(step)
    ensures var e := EffectOf(s, step); e.starts.Some? ==> e.starts.value.worker !in s.spawned
  {}

  lemma PerformIsLater(s: Pool, e: Effect)
    requires e.starts.Some? ==> e.starts.value.worker !in s.spawned
    ensures Later(s, Perform(s, e))
  {}

  // ----- Slots

  /** A step leaves every other slot's record alone, and its lock too unless the holder crashes. */
  lemma OtherSlots(s: Pool, step: Step, slot: Slot)
    requires Enabled(s, step) && (OnSlot(step) ==> step.slot != slot)
    ensures var t := Apply(s, step);
            && t.RecordAt(slot) == s.RecordAt(slot)
            && (slot in t.locks ==> slot in s.locks && t.locks[slot] == s.locks[slot])
            && (slot in t.locks && s.locks[slot].process in s.alive ==> s.locks[slot].process in t.alive)
  {
    if OnSlot(step) {
      PerformElsewhere(s, EffectOf(s, step), slot);
    }
  }

  lemma PerformElsewhere(s: Pool, e: Effect, slot: Slot)
    requires e.slot != slot
    ensures var t := Perform(s, e);
            && t.RecordAt(slot) == s.RecordAt(slot) && t.alive == s.alive
            && (slot in t.locks <==> slot in s.locks) && (slot in s.locks ==> t.locks[slot] == s.locks[slot])
  {}

  lemma PerformHere(s: Pool, e: Effect)
    ensures var t := Perform(s, e);
            && t.RecordAt(e.slot) == e.record && t.alive == s.alive && t.born == s.born
            && (e.slot in t.locks <==> e.holder.Some?) && (e.holder.Some? ==> t.locks[e.slot] == e.holder.value)
  {}

  lemma SlotFrame(s: Pool, t: Pool, slot: Slot)
    requires SlotOk(s, slot) && Later(s, t)
    requires t.RecordAt(slot) == s.RecordAt(slot)
    requires slot in t.locks ==> slot in s.locks && t.locks[slot] == s.locks[slot]
    requires slot in t.locks && s.locks[slot].process in s.alive ==> s.locks[slot].process in t.alive
    ensures SlotOk(t, slot)
  {}

  lemma TargetSlotKept(s: Pool, step: Step)
    requires Enabled(s, step) && OnSlot(step) && SlotOk(s, step.slot) && s.alive <= s.born
    ensures SlotOk(Apply(s, step), step.slot)
  {
    StepIsLater(s, step);
    PerformHere(s, EffectOf(s, step));
  }

  lemma SlotKept(s: Pool, step: Step, slot: Slot)
    requires Inv(s) && Enabled(s, step)
    ensures SlotOk(Apply(s, step), slot)
  {
    assert SlotOk(s, slot);
    if OnSlot(step) && step.slot == slot {
      TargetSlotKept(s, step);
    } else {
      StepIsLater(s, step);
      OtherSlots(s, step, slot);
      SlotFrame(s, Apply(s, step), slot);
    }
  }

  // ----- Workers

  /** While a worker runs, its slot's record keeps naming it. */
  lemma RecordKept(s: Pool, step: Step)
    requires Enabled(s, step) && OnSlot(step) && SlotOk(s, step.slot) && s.Busy(s.RecordAt(step.slot))
    ensures EffectOf(s, step).record == s.RecordAt(step.slot)
    ensures EffectOf(s, step).starts.None?
  {}

  lemma StartedWorkerIsRecorded(s: Pool, step: Step)
    requires Enabled(s, step) && OnSlot(step)
    ensures var e := EffectOf(s, step);
            e.starts.Some? ==> e.record.Held? && e.record.lease == e.starts.value.lease
                               && e.record.worker == Some(e.starts.value.worker)
  {}

  lemma WorkerKept(s: Pool, step: Step, w: Worker)
    requires Inv(s) && Enabled(s, step)
    ensures WorkerOk(Apply(s, step), w)
  {
    assert WorkerOk(s, w);
    if w in s.running {
      var slot := s.spawned[w].slot;
      assert SlotOk(s, slot);
      StepIsLater(s, step);
      if OnSlot(step) && step.slot == slot {
        RecordKept(s, step);
        PerformHere(s, EffectOf(s, step));
      } else {
        OtherSlots(s, step, slot);
      }
    } else if OnSlot(step) {
      StartedWorkerIsRecorded(s, step);
      PerformHere(s, EffectOf(s, step));
    }
  }

  // ----- The log, lease by lease

  ghost predicate SameCounts(s: Pool, t: Pool, l: LeaseId) {
    && Count(t, ACQUIRED(l)) == Count(s, ACQUIRED(l))
    && Count(t, RELEASED(l)) == Count(s, RELEASED(l))
    && Count(t, RECLAIMED(l)) == Count(s, RECLAIMED(l))
    && (l in t.returned <==> l in s.returned)
  }

  /** An effect that neither logs nor hands out l. */
  predicate Silent(e: Effect, l: LeaseId) {
    (e.event.Some? ==> e.event.value.lease != l) && (e.hands.Some? ==> e.hands.value != l)
  }

  lemma PerformCounts(s: Pool, e: Effect, l: LeaseId)
    requires Silent(e, l)
    ensures SameCounts(s, Perform(s, e), l)
  {}

  predicate Holds(s: Pool, slot: Slot, l: LeaseId) {
    || s.InPhase(slot, Written(l)) || s.InPhase(slot, BackingOut(l))
    || s.InPhase(slot, Open(l)) || s.InPhase(slot, Closing(l))
  }

  /** Nothing was logged about l, and its slot shows nothing new about it. */
  lemma LeaseFrame(s: Pool, t: Pool, l: LeaseId)
    requires LeaseOk(s, l) && SameCounts(s, t, l)
    requires (l in t.home <==> l in s.home) && (l < t.nextLease <==> l < s.nextLease)
    requires l in s.home ==>
      && t.home[l] == s.home[l]
      && var slot := s.home[l];
         && (Holds(t, slot, l) ==> slot in s.locks && t.locks[slot].phase == s.locks[slot].phase)
         && (t.RecordAt(slot).Held? && t.RecordAt(slot).lease == l ==> Count(s, RELEASED(l)) == 0)
    ensures LeaseOk(t, l)
  {}

  /** A fresh lease has no history. */
  lemma NewLease(s: Pool, step: Step)
    requires step.WriteHeld? && Enabled(s, step) && LeaseOk(s, s.nextLease) && SlotOk(s, step.slot)
    ensures LeaseOk(Apply(s, step), s.nextLease)
  {
    PerformCounts(s, EffectOf(s, step), s.nextLease);
    PerformHere(s, EffectOf(s, step));
  }

  /** A step on the slot of lease l that logs nothing about l: if the slot shows l afterwards, it did so before. */
  lemma QuietEffect(s: Pool, step: Step, l: LeaseId)
    requires LeaseOk(s, l) && l in s.home && Enabled(s, step) && OnSlot(step) && step.slot == s.home[l]
    requires SlotOk(s, step.slot) && Silent(EffectOf(s, step), l)
    requires !step.CloseRecord? && !step.LogAcquired?
    ensures var e, slot := EffectOf(s, step), step.slot;
            && (e.holder.Some? && (e.holder.value.phase in {Written(l), BackingOut(l), Open(l), Closing(l)})
                ==> slot in s.locks && e.holder.value.phase == s.locks[slot].phase)
            && (e.record.Held? && e.record.lease == l ==> Count(s, RELEASED(l)) == 0)
  {}

  lemma LeaseKeptQuietly(s: Pool, step: Step, l: LeaseId)
    requires LeaseOk(s, l) && l in s.home && Enabled(s, step) && OnSlot(step) && step.slot == s.home[l]
    requires SlotOk(s, step.slot) && Silent(EffectOf(s, step), l) && l < s.nextLease
    ensures LeaseOk(Apply(s, step), l)
  {
    var e := EffectOf(s, step);
    PerformCounts(s, e, l);
    PerformHere(s, e);
    if !step.CloseRecord? && !step.LogAcquired? {
      QuietEffect(s, step, l);
      LeaseFrame(s, Apply(s, step), l);
    }
  }

  /** A step that logs an event about l, or hands l out. */
  lemma LeaseKeptLogged(s: Pool, step: Step, l: LeaseId)
    requires LeaseOk(s, l) && Enabled(s, step) && OnSlot(step)
    requires SlotOk(s, step.slot) && !Silent(EffectOf(s, step), l)
    ensures LeaseOk(Apply(s, step), l)
  {
    PerformHere(s, EffectOf(s, step));
  }

  lemma LeaseKept(s: Pool, step: Step, l: LeaseId)
    requires Inv(s) && Enabled(s, step)
    ensures LeaseOk(Apply(s, step), l)
  {
    assert LeaseOk(s, l);
    var t := Apply(s, step);
    if !OnSlot(step) {
      if l in s.home {
        OtherSlots(s, step, s.home[l]);
      }
      LeaseFrame(s, t, l);
    } else {
      assert SlotOk(s, step.slot);
      if step.WriteHeld? && l == s.nextLease {
        NewLease(s, step);
      } else if !Silent(EffectOf(s, step), l) {
        LeaseKeptLogged(s, step, l);
      } else if l in s.home && step.slot == s.home[l] {
        LeaseKeptQuietly(s, step, l);
      } else {
        PerformCounts(s, EffectOf(s, step), l);
        if l in s.home {
          OtherSlots(s, step, s.home[l]);
        }
        LeaseFrame(s, t, l);
      }
    }
  }

  lemma StepKeepsInv(s: Pool, step: Step)
    requires Inv(s) && Enabled(s, step)
    ensures Inv(Apply(s, step))
  {
    var t := Apply(s, step);
    StepIsLater(s, step);
    assert t.alive <= t.born;
    forall slot ensures SlotOk(t, slot) { SlotKept(s, step, slot); }
    forall w ensures WorkerOk(t, w) { WorkerKept(s, step, w); }
    forall l ensures LeaseOk(t, l) { LeaseKept(s, step, l); }
  }

  lemma {:induction false} RunKeepsInv(states: seq<Pool>, steps: seq<Step>, n: nat)
    requires IsRun(states, steps) && n <= |steps| && Inv(states[0])
    ensures Inv(states[n])
  {
    if n > 0 {
      RunKeepsInv(states, steps, n - 1);
      StepKeepsInv(states[n - 1], steps[n - 1]);
    }
  }

  lemma ReachableInv(s: Pool)
    requires Reachable(s)
    ensures Inv(s)
  {
    var first :| Initial(first) && Reaches(first, s);
    var states: seq<Pool>, steps: seq<Step> :| IsRun(states, steps) && states[0] == first && states[|steps|] == s;
    InitialInv(first);
    RunKeepsInv(states, steps, |steps|);
  }

  // ----- Capacity

  /** A lease in use, or a worker that its owner left behind. */
  datatype Operation = Lease(lease: LeaseId) | Orphan(worker: Worker)

  ghost predicate InUse(s: Pool, slot: Slot, l: LeaseId) {
    s.InPhase(slot, Open(l)) || s.InPhase(slot, Closing(l))
  }

  ghost predicate IsLive(s: Pool, kind: Kind, op: Operation) {
    match op
    case Lease(l) => l in s.home && s.home[l].kind == kind && InUse(s, s.home[l], l)
    case Orphan(w) =>
      w in s.running && w in s.spawned && s.spawned[w].slot.kind == kind
      && !s.InPhase(s.spawned[w].slot, Open(s.spawned[w].lease))
  }

  /** The live operations of a kind: open leases, and running workers whose lease is no longer open. */
  ghost function LiveOperations(s: Pool, kind: Kind): set<Operation> {
    (set l | l in s.home && IsLive(s, kind, Lease(l)) :: Lease(l))
    + (set w | w in s.running && IsLive(s, kind, Orphan(w)) :: Orphan(w))
  }

  ghost function SlotOf(s: Pool, op: Operation): Slot {
    match op
    case Lease(l) => if l in s.home then s.home[l] else Slot(Http, 0)
    case Orphan(w) => if w in s.spawned then s.spawned[w].slot else Slot(Http, 0)
  }

  /** Every running worker is accounted for: by an open lease of its slot or as an orphan. */
  lemma RunningWorkersAreLive(s: Pool, w: Worker)
    requires Reachable(s) && w in s.running
    ensures w in s.spawned
    ensures var slot := s.spawned[w].slot;
            s.IsSlot(slot) && (Orphan(w) in LiveOperations(s, slot.kind)
                               || Lease(s.spawned[w].lease) in LiveOperations(s, slot.kind))
  {
    ReachableInv(s);
    assert WorkerOk(s, w);
    assert SlotOk(s, s.spawned[w].slot);
  }

  lemma LiveOperationsHaveSlots(s: Pool, kind: Kind, op: Operation)
    requires Inv(s) && op in LiveOperations(s, kind)
    ensures IsLive(s, kind, op) && s.IsSlot(SlotOf(s, op)) && SlotOf(s, op).kind == kind
  {
    assert SlotOk(s, SlotOf(s, op));
    if op.Orphan? {
      assert WorkerOk(s, op.worker);
    }
  }

  /** Two live operations never share a slot. */
  lemma SlotsAreDistinct(s: Pool, kind: Kind, op: Operation, other: Operation)
    requires Inv(s) && op in LiveOperations(s, kind) && other in LiveOperations(s, kind)
    requires SlotOf(s, op) == SlotOf(s, other)
    ensures op == other
  {
    LiveOperationsHaveSlots(s, kind, op);
    LiveOperationsHaveSlots(s, kind, other);
    assert SlotOk(s, SlotOf(s, op));
    if op.Orphan? {
      assert WorkerOk(s, op.worker);
    }
    if other.Orphan? {
      assert WorkerOk(s, other.worker);
    }
  }

  lemma {:induction false} InjectionBounds(s: Pool, ops: set<Operation>, kind: Kind, n: nat)
    requires forall op <- ops :: SlotOf(s, op).kind == kind && SlotOf(s, op).index < n
    requires forall op <- ops, other <- ops :: SlotOf(s, op) == SlotOf(s, other) ==> op == other
    ensures |ops| <= n
  {
    if ops != {} {
      if op :| op in ops && SlotOf(s, op).index == n - 1 {
        InjectionBounds(s, ops - {op}, kind, n - 1);
      } else {
        var op :| op in ops;
        InjectionBounds(s, ops, kind, n - 1);
      }
    }
  }

  /** In every reachable state the live operations of a kind occupy distinct slots of that kind, at most its limit. */
  lemma Capacity(s: Pool, kind: Kind)
    requires Reachable(s)
    ensures |LiveOperations(s, kind)| <= s.Limit(kind)
    ensures forall op <- LiveOperations(s, kind) :: s.IsSlot(SlotOf(s, op)) && SlotOf(s, op).kind == kind
    ensures forall op <- LiveOperations(s, kind), other <- LiveOperations(s, kind) ::
      SlotOf(s, op) == SlotOf(s, other) ==> op == other
  {
    ReachableInv(s);
    var ops := LiveOperations(s, kind);
    forall op | op in ops ensures s.IsSlot(SlotOf(s, op)) && SlotOf(s, op).kind == kind {
      LiveOperationsHaveSlots(s, kind, op);
    }
    forall op, other | op in ops && other in ops && SlotOf(s, op) == SlotOf(s, other) ensures op == other {
      SlotsAreDistinct(s, kind, op, other);
    }
    InjectionBounds(s, ops, kind, s.Limit(kind));
  }

  // ----- No re-admission over living work

  /** When a HELD record gives way to another lease's, its owner is dead and its worker has stopped. */
  lemma ReadmissionOnlyAfterDeath(s: Pool, step: Step, slot: Slot)
    requires Reachable(s) && Enabled(s, step)
    requires s.RecordAt(slot).Held?
    requires var record := Apply(s, step).RecordAt(slot);
             record.Held? && record.lease != s.RecordAt(slot).lease
    ensures s.RecordAt(slot).owner !in s.alive
    ensures s.RecordAt(slot).worker.Some? ==> s.RecordAt(slot).worker.value !in s.running
  {
    ReachableInv(s);
    assert SlotOk(s, slot);
    if !OnSlot(step) || step.slot != slot {
      OtherSlots(s, step, slot);
    }
  }

  /** Nor is a lease handed out on a slot while a worker started there still runs. */
  lemma NoRunningWorkerAtAdmission(s: Pool, step: Step, w: Worker)
    requires Reachable(s) && Enabled(s, step) && step.LogAcquired? && step.ok && w in s.running
    ensures w in s.spawned && s.spawned[w].slot != step.slot
  {
    ReachableInv(s);
    assert WorkerOk(s, w);
    assert SlotOk(s, step.slot);
  }

  // ----- The audit log

  /** Returned leases have exactly one ACQUIRED; RELEASED is logged at most once and excludes RECLAIMED. */
  lemma AuditLog(s: Pool, l: LeaseId)
    requires Reachable(s)
    ensures l in s.returned ==> Count(s, ACQUIRED(l)) == 1
    ensures Count(s, ACQUIRED(l)) <= 1 && Count(s, RELEASED(l)) <= 1
    ensures Count(s, RELEASED(l)) > 0 ==> Count(s, RECLAIMED(l)) == 0 && l in s.returned
  {
    ReachableInv(s);
    assert LeaseOk(s, l);
  }

  // ----- Runs, one step at a time

  lemma ReachesStep(first: Pool, s: Pool, step: Step)
    requires Reaches(first, s) && Enabled(s, step)
    ensures Reaches(first, Apply(s, step))
  {
    var states: seq<Pool>, steps: seq<Step> :| IsRun(states, steps) && states[0] == first && states[|steps|] == s;
    var states', steps' := states + [Apply(s, step)], steps + [step];
    forall i | 0 <= i < |steps'|
      ensures Enabled(states'[i], steps'[i]) && states'[i + 1] == Apply(states'[i], steps'[i])
    {
      if i < |steps| {
        assert states'[i] == states[i] && steps'[i] == steps[i] && states'[i + 1] == states[i + 1];
      }
    }
    assert IsRun(states', steps') && states'[|steps'|] == Apply(s, step);
  }

  /** What a reachable pool reaches is reachable, and keeps the invariant. */
  lemma ReachesFromReachable(s: Pool, t: Pool)
    requires Reachable(s) && Reaches(s, t)
    ensures Reachable(t)
  {
    var first :| Initial(first) && Reaches(first, s);
    var states: seq<Pool>, steps: seq<Step> :| IsRun(states, steps) && states[0] == s && states[|steps|] == t;
    Follow(first, states, steps, |steps|);
  }

  lemma {:induction false} Follow(first: Pool, states: seq<Pool>, steps: seq<Step>, n: nat)
    requires IsRun(states, steps) && n <= |steps| && Reaches(first, states[0])
    ensures Reaches(first, states[n])
  {
    if n > 0 {
      Follow(first, states, steps, n - 1);
      ReachesStep(first, states[n - 1], steps[n - 1]);
    }
  }

  lemma ReachesSelf(s: Pool)
    ensures Reaches(s, s)
  {
    assert IsRun([s], []);
  }

  /** A live process takes over a slot whose recorded owner and worker are gone. */
  lemma SlotIsTakenOver(s: Pool, slot: Slot, q: Process) returns (t: Pool)
    requires q in s.alive && s.IsSlot(slot) && slot !in s.locks
    requires s.RecordAt(slot).Held? && s.RecordAt(slot).owner !in s.alive && !s.Busy(s.RecordAt(slot))
    ensures Reaches(s, t) && t.InPhase(slot, Open(s.nextLease)) && t.home == s.home[s.nextLease := slot]
    ensures t.running == s.running && t.spawned == s.spawned && s.nextLease in t.returned
  {
    ReachesSelf(s);
    var s1 := Apply(s, TakeLock(q, slot));
    ReachesStep(s, s, TakeLock(q, slot));
    assert s1.RecordAt(slot) == s.RecordAt(slot);
    var s2 := Apply(s1, Reclaim(slot, true, true));
    ReachesStep(s, s1, Reclaim(slot, true, true));
    var s3 := Apply(s2, WriteHeld(slot, Persisted, true));
    ReachesStep(s, s2, WriteHeld(slot, Persisted, true));
    t := Apply(s3, LogAcquired(slot, true, true));
    ReachesStep(s, s3, LogAcquired(slot, true, true));
  }

  /** A slot whose owner crashed and whose worker stopped is not lost: any live process can take it over. */
  lemma AbandonedSlotIsReclaimable(s: Pool, slot: Slot, p: Process)
    requires Reachable(s) && p in s.alive && s.IsSlot(slot) && slot !in s.locks
    requires s.RecordAt(slot).Held? && s.RecordAt(slot).owner !in s.alive && !s.Busy(s.RecordAt(slot))
    ensures exists t :: Reaches(s, t) && s.nextLease in t.returned && t.InPhase(slot, Open(s.nextLease))
  {
    var t := SlotIsTakenOver(s, slot, p);
  }

  // ----- What the protocol does not promise

  lemma ReclaimThenCrash(first: Pool, s: Pool, slot: Slot, p: Process) returns (t: Pool)
    requires Reaches(first, s) && p in s.alive && s.IsSlot(slot) && slot !in s.locks
    requires s.RecordAt(slot).Held? && s.RecordAt(slot).owner !in s.alive && !s.Busy(s.RecordAt(slot))
    ensures Reaches(first, t) && t.RecordAt(slot) == s.RecordAt(slot) && slot !in t.locks && t.alive == s.alive - {p}
    ensures t.running == s.running && t.IsSlot(slot)
    ensures t.log == s.log + [RECLAIMED(s.RecordAt(slot).lease)]
  {
    var s1 := Apply(s, TakeLock(p, slot));
    ReachesStep(first, s, TakeLock(p, slot));
    assert s1.RecordAt(slot) == s.RecordAt(slot);
    var s2 := Apply(s1, Reclaim(slot, true, true));
    ReachesStep(first, s1, Reclaim(slot, true, true));
    t := Apply(s2, Crash(p));
    ReachesStep(first, s2, Crash(p));
  }

  /** RECLAIMED is not once-only: a reclaimer that dies before writing its own record leaves the old one to the next. */
  lemma ReclaimedMayRepeat(s: Pool, slot: Slot, p: Process, q: Process) returns (t: Pool)
    requires p in s.alive && q in s.alive && p != q && s.IsSlot(slot) && slot !in s.locks
    requires s.RecordAt(slot).Held? && s.RecordAt(slot).owner !in s.alive && !s.Busy(s.RecordAt(slot))
    ensures Reaches(s, t)
    ensures Count(t, RECLAIMED(s.RecordAt(slot).lease)) == Count(s, RECLAIMED(s.RecordAt(slot).lease)) + 2
  {
    ReachesSelf(s);
    var middle := ReclaimThenCrash(s, s, slot, p);
    t := ReclaimThenCrash(s, middle, slot, q);
  }

  /** A worker start whose record write is torn: outside the step relation, which makes the two one action. */
  ghost function TornSpawn(s: Pool, slot: Slot, w: Worker): Pool
    requires Enabled(s, SpawnWorker(slot, w))
  {
    Perform(s, EffectOf(s, SpawnWorker(slot, w)).(record := NoRecord))
  }

  /** A slot without a HELD record is handed out to any live process, whatever still runs there. */
  lemma FreeSlotIsAdmitted(s: Pool, slot: Slot, q: Process) returns (t: Pool)
    requires q in s.alive && s.IsSlot(slot) && slot !in s.locks && !s.RecordAt(slot).Held?
    ensures Reaches(s, t) && t.InPhase(slot, Open(s.nextLease)) && t.home == s.home[s.nextLease := slot]
    ensures t.running == s.running && t.spawned == s.spawned
  {
    ReachesSelf(s);
    var s1 := Apply(s, TakeLock(q, slot));
    ReachesStep(s, s, TakeLock(q, slot));
    var s2 := Apply(s1, FindFree(slot));
    ReachesStep(s, s1, FindFree(slot));
    var s3 := Apply(s2, WriteHeld(slot, Persisted, true));
    ReachesStep(s, s2, WriteHeld(slot, Persisted, true));
    t := Apply(s3, LogAcquired(slot, true, true));
    ReachesStep(s, s3, LogAcquired(slot, true, true));
  }

  /** Why that assumption is needed: after a torn start and a crash, the slot is handed out beside the living worker. */
  lemma TornSpawnBreaksCapacity(s: Pool, slot: Slot, w: Worker, q: Process) returns (crashed: Pool, t: Pool)
    requires Reachable(s) && Enabled(s, SpawnWorker(slot, w)) && q in s.alive && q != s.locks[slot].process
    ensures var torn := TornSpawn(s, slot, w);
            Enabled(torn, Crash(s.locks[slot].process)) && crashed == Apply(torn, Crash(s.locks[slot].process))
    ensures Reaches(crashed, t)
    ensures Orphan(w) in LiveOperations(t, slot.kind) && Lease(s.nextLease) in LiveOperations(t, slot.kind)
    ensures SlotOf(t, Orphan(w)) == SlotOf(t, Lease(s.nextLease)) == slot
  {
    ReachableInv(s);
    assert SlotOk(s, slot);
    crashed := Apply(TornSpawn(s, slot, w), Crash(s.locks[slot].process));
    t := FreeSlotIsAdmitted(crashed, slot, q);
    assert IsLive(t, slot.kind, Lease(s.nextLease));
    assert IsLive(t, slot.kind, Orphan(w));
  }

  /** A worker start recorded over a worker that still runs: outside the step relation, which excludes it. */
  ghost function SecondSpawn(s: Pool, slot: Slot, w: Worker): Pool
    requires slot in s.locks && s.locks[slot].phase.Open?
  {
    var Holder(p, phase) := s.locks[slot];
    Perform(s, Effect(slot, Some(s.locks[slot]), Held(phase.lease, p, Some(w)), None, false, None,
                      Some(Spawned(w, phase.lease))))
  }

  /** The first worker runs, recorded on the slot of an open lease; x is new. */
  ghost predicate RunsHere(s: Pool, slot: Slot, w: Worker, x: Worker) {
    && slot in s.locks && s.locks[slot].phase.Open? && w in s.running && x !in s.spawned
    && w in s.spawned && s.spawned[w].slot == slot
  }

  lemma RunningWorkerHere(s: Pool, slot: Slot, w: Worker, x: Worker)
    requires Inv(s) && RunsHere(s, slot, w, x)
    ensures s.IsSlot(slot) && s.locks[slot].process in s.alive && s.nextLease !in s.home
    ensures s.spawned[w].lease == s.locks[slot].phase.lease < s.nextLease
  {
    assert SlotOk(s, slot) && WorkerOk(s, w) && LeaseOk(s, s.nextLease);
  }

  /** The second worker exits and the owner crashes: the record shows nobody, and the first worker still runs. */
  lemma FirstWorkerIsForgotten(s: Pool, slot: Slot, w: Worker, x: Worker) returns (t: Pool)
    requires Inv(s) && RunsHere(s, slot, w, x)
    ensures Reaches(SecondSpawn(s, slot, x), t)
    ensures t.alive == s.alive - {s.locks[slot].process} && w in t.running
    ensures w in t.spawned && t.spawned[w] == s.spawned[w] && t.nextLease == s.nextLease && t.home == s.home
    ensures slot !in t.locks && t.IsSlot(slot)
    ensures t.RecordAt(slot).Held? && t.RecordAt(slot).owner !in t.alive && !t.Busy(t.RecordAt(slot))
  {
    RunningWorkerHere(s, slot, w, x);
    var p, second := s.locks[slot].process, SecondSpawn(s, slot, x);
    ReachesSelf(second);
    var exited := Apply(second, WorkerExit(x));
    ReachesStep(second, second, WorkerExit(x));
    t := Apply(exited, Crash(p));
    ReachesStep(second, exited, Crash(p));
  }

  /** Why that exclusion is needed: the slot is handed out beside the first worker. */
  lemma SecondSpawnBreaksCapacity(s: Pool, slot: Slot, w: Worker, x: Worker, q: Process) returns (t: Pool)
    requires Reachable(s) && RunsHere(s, slot, w, x) && q in s.alive && q != s.locks[slot].process
    ensures Reaches(SecondSpawn(s, slot, x), t)
    ensures Orphan(w) in LiveOperations(t, slot.kind) && Lease(s.nextLease) in LiveOperations(t, slot.kind)
    ensures SlotOf(t, Orphan(w)) == SlotOf(t, Lease(s.nextLease)) == slot
  {
    ReachableInv(s);
    RunningWorkerHere(s, slot, w, x);
    var forgotten := FirstWorkerIsForgotten(s, slot, w, x);
    t := SlotIsTakenOver(forgotten, slot, q);
    ReachesTransitive(SecondSpawn(s, slot, x), forgotten, t);
    assert t.home[s.nextLease] == slot && t.spawned[w] == s.spawned[w];
    assert IsLive(t, slot.kind, Lease(s.nextLease));
    assert IsLive(t, slot.kind, Orphan(w));
  }

  lemma ReachesTransitive(first: Pool, s: Pool, t: Pool)
    requires Reaches(first, s) && Reaches(s, t)
    ensures Reaches(first, t)
  {
    var states: seq<Pool>, steps: seq<Step> :| IsRun(states, steps) && states[0] == s && states[|steps|] == t;
    Follow(first, states, steps, |steps|);
  }
}
