/**
  The truncated flag of the context budget in src/drc_agent/agents/context.py: it compares the lengths of four
  lists, and this is exactly when it tells whether anything was dropped.
 */
module ContextFlag {
  import opened Basics
  import opened ContextBudget
  import opened ContextFacts

  /** What build may return for an estimator and a budget. */
  ghost predicate MayReturn(start: Context, estimate: Context -> nat, maxTokens: nat, c: Context) {
    && 1800 <= maxTokens && Trimmed(start, c)
    && estimate(c) <= Target(maxTokens) && StoppedInTime(start, c, estimate, Target(maxTokens))
  }

  /** One of the four lists that the flag looks at has lost something. */
  predicate Omits(start: Context, c: Context) {
    |c.violations| != |start.violations| || |c.editable| != |start.editable|
    || |c.frozen| != |start.frozen| || |c.messages| != |start.messages|
  }

  lemma TruncatedIsOmits(start: Context, c: Context, near: Near, blueprint: set<Id>, f: Facts)
    requires IsFacts(start, c, near, blueprint, f)
    ensures f.truncated <==> Omits(start, c)
  {}

  // ----- The kind that is dropped first

  function FirstKind(c: Context, from: nat): (kind: nat)
    requires from <= KINDS
    ensures from <= kind <= KINDS && (kind < KINDS ==> Left(c, kind) > 0)
    ensures forall j: nat {:trigger Left(c, j)} :: from <= j < kind ==> Left(c, j) == 0
    decreases KINDS - from
  {
    if from == KINDS || Left(c, from) > 0 then from else FirstKind(c, from + 1)
  }

  /** Frozen objects, messages, violations and editable objects are the kinds the flag counts. */
  predicate IsCounted(kind: nat) { kind == 1 || kind == 7 || kind == 8 || kind == 9 }

  /** What a caller can check: nothing can be dropped, or what would go first is counted. */
  predicate FlagWorks(start: Context) {
    FirstKind(start, 0) == KINDS || IsCounted(FirstKind(start, 0))
  }

  // ----- When the flag works

  lemma {:induction false} NoSlices(objects: seq<ContextObject>)
    requires SliceCount(objects) == 0
    ensures forall i :: 0 <= i < |objects| ==> Unsliced(objects[i]) == objects[i]
  {
    if objects != [] {
      var init := objects[..|objects| - 1];
      NoSlices(init);
      assert forall i :: 0 <= i < |init| ==> objects[i] == init[i];
    }
  }

  lemma SameObjects(start: seq<ContextObject>, now: seq<ContextObject>)
    requires Shortened(start, now) && |now| == |start| && SliceCount(start) == 0
    ensures now == start
  {
    NoSlices(start);
  }

  /** As long as the kind that goes first has lost nothing, nothing else has. */
  lemma NothingElseLost(start: Context, c: Context, first: nat, kind: nat)
    requires InOrder(start, c) && first < kind < KINDS && Left(start, first) > 0 && Left(c, first) == Left(start, first)
    ensures Left(c, kind) >= Left(start, kind)
  {}

  lemma UncountedIsUntouched(start: Context, c: Context)
    requires Trimmed(start, c) && FlagWorks(start) && !Omits(start, c)
    ensures forall kind: nat {:trigger Left(c, kind)} :: 2 <= kind < KINDS ==> Left(c, kind) >= Left(start, kind)
  {
    var first := FirstKind(start, 0);
    forall kind: nat {:trigger Left(c, kind)} | 2 <= kind < KINDS ensures Left(c, kind) >= Left(start, kind) {
      if first < kind {
        NothingElseLost(start, c, first, kind);
      } else if kind < first {
        assert Left(start, kind) == 0;
      }
    }
  }

  lemma NothingLost(start: Context, c: Context)
    requires Trimmed(start, c) && FlagWorks(start) && !Omits(start, c)
    ensures c == start
  {
    UncountedIsUntouched(start, c);
    assert Left(start, 0) == 0;
    SameObjects(start.editable, c.editable);
    SameObjects(start.frozen, c.frozen);
    assert Left(c, 2) >= Left(start, 2) && Left(c, 3) >= Left(start, 3) && Left(c, 4) >= Left(start, 4);
    assert Left(c, 5) >= Left(start, 5) && Left(c, 6) >= Left(start, 6) && Left(c, 10) >= Left(start, 10);
    assert start.violations[|c.violations|..] == [];
    assert Ids([]) == {};
    WithoutNothing(start.witnesses);
  }

  // ----- When it does not

  /** A kind the flag does not count goes first: its loss shows nowhere. */
  lemma FirstLossIsMissed(start: Context)
    requires !FlagWorks(start)
    ensures IsNext(start, FirstKind(start, 0)) && Trimmed(start, Dropped(start, FirstKind(start, 0)))
    ensures Dropped(start, FirstKind(start, 0)) != start && !Omits(start, Dropped(start, FirstKind(start, 0)))
  {
    var kind := FirstKind(start, 0);
    NothingDropped(start);
    DropKeepsTrimmed(start, start, kind);
    DropTakesOne(start, kind);
  }

  /** The whole context is too large, anything else fits. */
  function JustTooLarge(start: Context, maxTokens: nat): Context -> nat {
    c => if c == start then Target(maxTokens) + 1 else 0
  }

  lemma OneDropIsReturned(start: Context, maxTokens: nat, kind: nat)
    requires 1800 <= maxTokens && IsNext(start, kind)
    requires Dropped(start, kind) != start && Trimmed(start, Dropped(start, kind))
    ensures MayReturn(start, JustTooLarge(start, maxTokens), maxTokens, Dropped(start, kind))
  {
    NothingDropped(start);
  }

  /** And only that: build returns the start without one item of its first kind. */
  lemma OnlyOneDropIsReturned(start: Context, maxTokens: nat, c: Context)
    requires MayReturn(start, JustTooLarge(start, maxTokens), maxTokens, c)
    ensures FirstKind(start, 0) < KINDS && c == Dropped(start, FirstKind(start, 0))
  {
    var p: Context, k: nat :|
      Trimmed(start, p) && JustTooLarge(start, maxTokens)(p) > Target(maxTokens) && IsNext(p, k) && c == Dropped(p, k);
    assert p == start;
    var first := FirstKind(start, 0);
    assert Left(start, first) > 0 && Left(start, k) > 0;
  }

  // ----- The exact condition

  /**
    Over every estimator and budget, the flag tells whether anything was dropped exactly when it works for the
    start.
   */
  lemma FlagWorksIff(start: Context)
    ensures FlagWorks(start) <==>
            forall estimate: Context -> nat, maxTokens: nat, c: Context
              {:trigger MayReturn(start, estimate, maxTokens, c)} ::
              MayReturn(start, estimate, maxTokens, c) ==> (Omits(start, c) <==> c != start)
  {
    if FlagWorks(start) {
      forall estimate: Context -> nat, maxTokens: nat, c: Context | MayReturn(start, estimate, maxTokens, c)
        ensures Omits(start, c) <==> c != start
      {
        if !Omits(start, c) {
          NothingLost(start, c);
        }
      }
    } else {
      FirstLossIsMissed(start);
      OneDropIsReturned(start, 1800, FirstKind(start, 0));
      assert MayReturn(start, JustTooLarge(start, 1800), 1800, Dropped(start, FirstKind(start, 0)));
    }
  }

  lemma SomethingGoes(start: Context)
    requires FirstKind(start, 0) < KINDS
    ensures Minimum(start) != start
  {
    var kind := FirstKind(start, 0);
    if kind == 0 {
      MinimumHasNoSlices(start);
    }
  }

  lemma MinimumHasNoSlices(start: Context)
    ensures SliceCount(Minimum(start).editable) + SliceCount(Minimum(start).frozen) == 0
  {
    var minimum := Minimum(start);
    if minimum.editable != [] {
      assert minimum.editable[..0] == [];
    }
  }

  /**
    For every start for which the flag does not work there is a run that shows it: with an estimator that only finds the
    whole context too large, build does return a context, that context lost something, and the flag does not say so.
   */
  lemma FlagFailsInARun(start: Context, maxTokens: nat)
    requires !FlagWorks(start) && 1800 <= maxTokens
    ensures JustTooLarge(start, maxTokens)(Minimum(start)) <= Target(maxTokens)
    ensures forall c {:trigger MayReturn(start, JustTooLarge(start, maxTokens), maxTokens, c)} ::
              MayReturn(start, JustTooLarge(start, maxTokens), maxTokens, c) ==> c != start && !Omits(start, c)
  {
    SomethingGoes(start);
    forall c | MayReturn(start, JustTooLarge(start, maxTokens), maxTokens, c) ensures c != start && !Omits(start, c) {
      OnlyOneDropIsReturned(start, maxTokens, c);
      FirstLossIsMissed(start);
    }
  }

  // ----- An input

  /** One editable object with a source slice, and nothing else. */
  function OneSlice(): Context {
    Context([], [ContextObject(0, true, true, false, None, true)], [], [], [], [], [], [], [], [], [],
            Rules(map[], map[], map[], map[], map[]))
  }

  lemma OneSliceIsNext()
    ensures FirstKind(OneSlice(), 0) == 0 && SliceCount(Dropped(OneSlice(), 0).editable) == 0
  {
    var start := OneSlice();
    assert start.editable[..0] == [] && SliceCount(start.editable) == 1 && Left(start, 0) == 1;
    DropTakesOne(start, 0);
  }

  /** Whatever build returns for it when it is just too large has lost the slice, and truncated is false. */
  lemma LostSliceIsMissed(maxTokens: nat, c: Context, near: Near, blueprint: set<Id>, f: Facts)
    requires MayReturn(OneSlice(), JustTooLarge(OneSlice(), maxTokens), maxTokens, c)
    requires IsFacts(OneSlice(), c, near, blueprint, f)
    ensures c != OneSlice() && SliceCount(c.editable) == 0 && !f.truncated
  {
    OneSliceIsNext();
    OnlyOneDropIsReturned(OneSlice(), maxTokens, c);
    FirstLossIsMissed(OneSlice());
    TruncatedIsOmits(OneSlice(), c, near, blueprint, f);
  }

  /** And it does return something. */
  lemma OneSliceIsReturned(maxTokens: nat)
    ensures JustTooLarge(OneSlice(), maxTokens)(Minimum(OneSlice())) <= Target(maxTokens)
  {
    assert Minimum(OneSlice()).editable[0] != OneSlice().editable[0];
  }
}
