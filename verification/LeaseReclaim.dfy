/**
  How often RECLAIMED is logged in src/drc_agent/infrastructure/resource_arbiter.py: a run that logs it twice
  for one lease, and exactly when it can still be logged.
 */
module LeaseReclaim {
  import opened Basics
  import opened Leases
  import opened LeaseSafety

  // ----- A run

  /** Extends a run from an initial pool by one step. */
  lemma Extend(first: Pool, s: Pool, step: Step) returns (t: Pool)
    requires Reaches(first, s) && Enabled(s, step)
    ensures t == Apply(s, step) && Reaches(first, t)
  {
    ReachesStep(first, s, step);
    t := Apply(s, step);
  }

  function EmptyPool(): Pool {
    Pool(1, 1, map[], map[], {}, {}, {}, map[], map[], 0, {}, [])
  }

  /** Process 0 has locked the only HTTP slot and found it free. */
  lemma FirstLock(first: Pool) returns (s: Pool)
    requires first == EmptyPool()
    ensures Reaches(first, s)
    ensures s == first.(alive := {0}, born := {0}, locks := map[Slot(Http, 0) := Holder(0, Cleared)],
                        records := map[Slot(Http, 0) := NoRecord])
  {
    ReachesSelf(first);
    s := Extend(first, first, Start(0));
    s := Extend(first, s, TakeLock(0, Slot(Http, 0)));
    s := Extend(first, s, FindFree(Slot(Http, 0)));
  }

  /** And has been handed lease 0. */
  lemma FirstLease(first: Pool) returns (s: Pool)
    requires first == EmptyPool()
    ensures Reaches(first, s) && s.alive == s.born == {0} && s.running == {} && s.httpLimit == 1
    ensures s.locks == map[Slot(Http, 0) := Holder(0, Open(0))] && s.RecordAt(Slot(Http, 0)) == Held(0, 0, None)
    ensures s.log == [ACQUIRED(0)]
  {
    var slot := Slot(Http, 0);
    s := FirstLock(first);
    s := Extend(first, s, WriteHeld(slot, Persisted, true));
    assert s.locks == map[slot := Holder(0, Written(0))] && s.RecordAt(slot) == Held(0, 0, None);
    s := Extend(first, s, LogAcquired(slot, true, true));
  }

  /** Then processes 1 and 2 start, and process 0 dies with the lease open. */
  lemma CrashedOwner() returns (s: Pool)
    ensures Reachable(s) && s.IsSlot(Slot(Http, 0)) && s.locks == map[] && s.alive == {1, 2} && s.running == {}
    ensures s.RecordAt(Slot(Http, 0)) == Held(0, 0, None) && s.log == [ACQUIRED(0)]
  {
    var first := EmptyPool();
    s := FirstLease(first);
    s := Extend(first, s, Start(1));
    s := Extend(first, s, Start(2));
    s := Extend(first, s, Crash(0));
    assert Initial(first);
  }

  /** From the empty pool: an owner dies, a first reclaimer dies after logging, a second one logs again. */
  lemma ReclaimedTwice() returns (t: Pool)
    ensures Reachable(t) && Count(t, RECLAIMED(0)) == 2
  {
    var s := CrashedOwner();
    t := ReclaimedMayRepeat(s, Slot(Http, 0), 1, 2);
    ReachesFromReachable(s, t);
  }

  // ----- When RECLAIMED can still be logged

  /** The record of the lease's slot still says that the lease holds it. */
  ghost predicate StillHeld(s: Pool, l: LeaseId) {
    l in s.home && s.RecordAt(s.home[l]).Held? && s.RecordAt(s.home[l]).lease == l
  }

  /** Or its record is torn, but the lease is open, so that its owner may write it again. */
  ghost predicate MayBeReclaimed(s: Pool, l: LeaseId) {
    StillHeld(s, l) || (l in s.home && s.InPhase(s.home[l], Open(l)))
  }

  ghost predicate CanLogReclaimed(s: Pool, l: LeaseId) {
    exists t :: Reaches(s, t) && Count(t, RECLAIMED(l)) > Count(s, RECLAIMED(l))
  }

  // ----- Once it is over, it stays over

  ghost predicate IsOver(s: Pool, l: LeaseId) { l in s.home && !MayBeReclaimed(s, l) }

  lemma OverStaysOver(s: Pool, step: Step, l: LeaseId)
    requires Inv(s) && Enabled(s, step) && IsOver(s, l)
    ensures IsOver(Apply(s, step), l) && Count(Apply(s, step), RECLAIMED(l)) == Count(s, RECLAIMED(l))
  {
    var slot := s.home[l];
    assert SlotOk(s, slot) && LeaseOk(s, l);
    StepIsLater(s, step);
    if OnSlot(step) && step.slot == slot {
      OverHere(s, step, l);
    } else {
      OtherSlots(s, step, slot);
      if OnSlot(step) {
        assert SlotOk(s, step.slot);
        OverElsewhere(s, step, l);
      }
    }
  }

  /** A step on the lease's own slot. */
  lemma OverHere(s: Pool, step: Step, l: LeaseId)
    requires Enabled(s, step) && OnSlot(step) && IsOver(s, l) && step.slot == s.home[l]
    requires SlotOk(s, step.slot) && LeaseOk(s, l)
    ensures IsOver(Apply(s, step), l) && Count(Apply(s, step), RECLAIMED(l)) == Count(s, RECLAIMED(l))
  {
    PerformHere(s, EffectOf(s, step));
  }

  /** A step on another slot cannot reclaim the lease: a HELD record names a lease of its own slot. */
  lemma OverElsewhere(s: Pool, step: Step, l: LeaseId)
    requires Enabled(s, step) && OnSlot(step) && l in s.home && step.slot != s.home[l] && SlotOk(s, step.slot)
    ensures Count(Apply(s, step), RECLAIMED(l)) == Count(s, RECLAIMED(l))
  {}

  lemma {:induction false} OverForGood(states: seq<Pool>, steps: seq<Step>, n: nat, l: LeaseId)
    requires IsRun(states, steps) && n <= |steps| && Inv(states[0]) && IsOver(states[0], l)
    ensures Inv(states[n]) && IsOver(states[n], l)
    ensures Count(states[n], RECLAIMED(l)) == Count(states[0], RECLAIMED(l))
  {
    if n > 0 {
      OverForGood(states, steps, n - 1, l);
      StepKeepsInv(states[n - 1], steps[n - 1]);
      OverStaysOver(states[n - 1], steps[n - 1], l);
    }
  }

  // ----- As long as it is not over, it can happen

  lemma {:induction false} FreshProcess(used: set<Process>) returns (p: Process)
    ensures p !in used && forall q <- used :: q < p
  {
    if used == {} {
      p := 0;
    } else {
      var q :| q in used;
      var r := FreshProcess(used - {q});
      p := if q < r then r else q + 1;
      forall x | x in used ensures x < p {
        assert x == q || x in used - {q};
      }
    }
  }

  /** An open lease whose record is torn: its owner writes the record again. */
  lemma RewriteRecord(s: Pool, l: LeaseId) returns (t: Pool)
    requires Inv(s) && MayBeReclaimed(s, l)
    ensures Reaches(s, t) && Inv(t) && StillHeld(t, l) && t.log == s.log
  {
    t := s;
    ReachesSelf(s);
    if !StillHeld(s, l) {
      var slot := s.home[l];
      assert SlotOk(s, slot);
      var step := ClearWorker(slot, Persisted);
      t := Extend(s, s, step);
      StepKeepsInv(s, step);
      PerformHere(s, EffectOf(s, step));
    }
  }

  /** The process that holds the lock dies. */
  lemma FreeLock(first: Pool, s: Pool, l: LeaseId) returns (t: Pool)
    requires Reaches(first, s) && Inv(s) && StillHeld(s, l)
    ensures Reaches(first, t) && Inv(t) && StillHeld(t, l) && t.home[l] !in t.locks && t.log == s.log
  {
    t := s;
    var slot := s.home[l];
    assert SlotOk(s, slot);
    if slot in s.locks {
      var step := Crash(s.locks[slot].process);
      t := Extend(first, s, step);
      StepKeepsInv(s, step);
    }
  }

  /** The owner on record dies, and the worker on record exits. */
  lemma AbandonSlot(first: Pool, s: Pool, l: LeaseId) returns (t: Pool)
    requires Reaches(first, s) && Inv(s) && StillHeld(s, l) && s.home[l] !in s.locks
    ensures Reaches(first, t) && Inv(t) && StillHeld(t, l) && t.home[l] !in t.locks && t.log == s.log
    ensures t.RecordAt(t.home[l]).owner !in t.alive && !t.Busy(t.RecordAt(t.home[l]))
  {
    t := s;
    var record := s.RecordAt(s.home[l]);
    if record.owner in t.alive {
      StepKeepsInv(t, Crash(record.owner));
      t := Extend(first, t, Crash(record.owner));
    }
    if t.Busy(record) {
      StepKeepsInv(t, WorkerExit(record.worker.value));
      t := Extend(first, t, WorkerExit(record.worker.value));
    }
  }

  /** A new process reclaims the slot. */
  lemma ReclaimNow(first: Pool, s: Pool, l: LeaseId) returns (t: Pool)
    requires Reaches(first, s) && Inv(s) && StillHeld(s, l) && s.home[l] !in s.locks
    requires s.RecordAt(s.home[l]).owner !in s.alive && !s.Busy(s.RecordAt(s.home[l]))
    ensures Reaches(first, t) && Count(t, RECLAIMED(l)) == Count(s, RECLAIMED(l)) + 1
  {
    var slot := s.home[l];
    assert SlotOk(s, slot);
    var p := FreshProcess(s.born);
    t := Extend(first, s, Start(p));
    t := ReclaimThenCrash(first, t, slot, p);
  }

  lemma CanStillHappen(s: Pool, l: LeaseId)
    requires Inv(s) && MayBeReclaimed(s, l)
    ensures CanLogReclaimed(s, l)
  {
    var t := RewriteRecord(s, l);
    t := FreeLock(s, t, l);
    t := AbandonSlot(s, t, l);
    t := ReclaimNow(s, t, l);
  }

  /**
    RECLAIMED can be logged for a lease, once more or for the first time, exactly while its record may still be
    HELD.
   */
  lemma ReclaimedIsPossibleIff(s: Pool, l: LeaseId)
    requires Reachable(s) && l in s.home
    ensures CanLogReclaimed(s, l) <==> MayBeReclaimed(s, l)
  {
    ReachableInv(s);
    if MayBeReclaimed(s, l) {
      CanStillHappen(s, l);
    } else if CanLogReclaimed(s, l) {
      var t :| Reaches(s, t) && Count(t, RECLAIMED(l)) > Count(s, RECLAIMED(l));
      var states: seq<Pool>, steps: seq<Step> :| IsRun(states, steps) && states[0] == s && states[|steps|] == t;
      OverForGood(states, steps, |steps|, l);
    }
  }
}
