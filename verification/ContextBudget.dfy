/**
  The budgeted truncation of a region context in src/drc_agent/agents/context.py: the loop that drops
  context until the token estimate fits. The estimator is an arbitrary function of the context.
 */
module ContextBudget {
  import opened Basics

  type Id = nat

  /** sliced: the object still carries its source slice. */
  datatype ContextObject = ContextObject(id: Id, sliced: bool, segment: bool, via: bool, net: Option<Id>,
                                         traceable: bool)

  datatype Violation = Violation(id: Id, rule: Id, associated: set<Id>)

  /** exact: its evidence quality lets it decide which objects its violation may change. */
  datatype Witness = Witness(id: Option<Id>, violation: Option<Id>, sources: Option<set<Id>>, exact: bool)

  datatype Message = Message(evidence: set<Id>)

  /** The five maps from rule id to what is known of the rule. */
  datatype Rules = Rules(predicates: map<Id, int>, packs: map<Id, int>, constraints: map<Id, int>,
                         hints: map<Id, int>, distances: map<Id, int>)

  datatype Context = Context(violations: seq<Violation>, editable: seq<ContextObject>, frozen: seq<ContextObject>,
                             fragments: seq<Id>, endpoints: seq<Id>, landings: seq<Id>, adjacencies: seq<Id>,
                             messages: seq<Message>, failures: seq<Id>, rollbacks: seq<Id>,
                             witnesses: seq<Witness>, rules: Rules)

  // ----- Filters

  function RuleIds(violations: seq<Violation>): set<Id> { set v | v in violations :: v.rule }

  function Ids(violations: seq<Violation>): set<Id> { set v | v in violations :: v.id }

  function Kept(m: map<Id, int>, rules: set<Id>): map<Id, int> { map r | r in m && r in rules :: m[r] }

  function Restrict(rules: Rules, ids: set<Id>): Rules {
    Rules(Kept(rules.predicates, ids), Kept(rules.packs, ids), Kept(rules.constraints, ids),
          Kept(rules.hints, ids), Kept(rules.distances, ids))
  }

  /** The witnesses that belong to none of the given violations. */
  function Without(witnesses: seq<Witness>, gone: set<Id>): seq<Witness> {
    if witnesses == [] then []
    else
      var w := witnesses[0];
      if w.violation.Some? && w.violation.value in gone then Without(witnesses[1..], gone)
      else [w] + Without(witnesses[1..], gone)
  }

  /** The witnesses that belong to one of the given violations. */
  function Of(witnesses: seq<Witness>, ids: set<Id>): seq<Witness> {
    if witnesses == [] then []
    else
      var w := witnesses[0];
      if w.violation.Some? && w.violation.value in ids then [w] + Of(witnesses[1..], ids)
      else Of(witnesses[1..], ids)
  }

  lemma {:induction false} WithoutBoth(witnesses: seq<Witness>, a: set<Id>, b: set<Id>)
    ensures Without(Without(witnesses, a), b) == Without(witnesses, a + b)
  {
    if witnesses != [] {
      WithoutBoth(witnesses[1..], a, b);
    }
  }

  lemma {:induction false} WithoutNothing(witnesses: seq<Witness>)
    ensures Without(witnesses, {}) == witnesses
  {
    if witnesses != [] {
      WithoutNothing(witnesses[1..]);
    }
  }

  // ----- Source slices

  function Unsliced(o: ContextObject): ContextObject { o.(sliced := false) }

  function SliceCount(objects: seq<ContextObject>): nat {
    if objects == [] then 0
    else SliceCount(objects[..|objects| - 1]) + if objects[|objects| - 1].sliced then 1 else 0
  }

  /** Removes the last source slice. */
  function ClearLast(objects: seq<ContextObject>): (r: seq<ContextObject>)
    requires SliceCount(objects) > 0
    ensures |r| == |objects| && SliceCount(r) == SliceCount(objects) - 1
  {
    var init, last := objects[..|objects| - 1], objects[|objects| - 1];
    var r := if last.sliced then init + [Unsliced(last)] else ClearLast(init) + [last];
    assert r[..|r| - 1] == if last.sliced then init else ClearLast(init);
    r
  }

  lemma {:induction false} LastSlice(objects: seq<ContextObject>) returns (k: nat)
    requires SliceCount(objects) > 0
    ensures k < |objects| && objects[k].sliced
    ensures forall i :: k < i < |objects| ==> !objects[i].sliced
    ensures ClearLast(objects) == objects[k := Unsliced(objects[k])]
  {
    var init, last := objects[..|objects| - 1], objects[|objects| - 1];
    if last.sliced {
      k := |objects| - 1;
    } else {
      k := LastSlice(init);
    }
  }

  // ----- What is dropped, and in which order

  /** The kinds of context in the order in which they are given up. */
  const KINDS: nat := 11

  function LessOne(n: nat): nat { if n > 1 then n - 1 else 0 }

  /** How much of a kind can still be dropped; one message, violation and object always stay. */
  function Left(c: Context, kind: nat): nat
    requires kind < KINDS
  {
    match kind
    case 0 => SliceCount(c.editable) + SliceCount(c.frozen)
    case 1 => |c.frozen|
    case 2 => |c.endpoints|
    case 3 => |c.adjacencies|
    case 4 => |c.landings|
    case 5 => |c.failures|
    case 6 => |c.rollbacks|
    case 7 => LessOne(|c.messages|)
    case 8 => LessOne(|c.violations|)
    case 9 => LessOne(|c.editable|)
    case 10 => |c.fragments|
  }

  function Droppable(c: Context, kinds: nat): nat
    requires kinds <= KINDS
  {
    if kinds == 0 then 0 else Droppable(c, kinds - 1) + Left(c, kinds - 1)
  }

  ghost predicate Exhausted(c: Context) {
    forall k: nat {:trigger Left(c, k)} :: k < KINDS ==> Left(c, k) == 0
  }

  /** Whatever lost something, all that goes before it is gone. */
  ghost predicate InOrder(start: Context, c: Context) {
    forall j: nat, k: nat {:trigger Left(c, j), Left(c, k)} ::
      j < k < KINDS && Left(c, k) < Left(start, k) ==> Left(c, j) == 0
  }

  /** The objects are those of the start up to their slices, and slices went from the last to the first. */
  ghost predicate Shortened(start: seq<ContextObject>, now: seq<ContextObject>) {
    && |now| <= |start|
    && (forall i :: 0 <= i < |now| ==> now[i] == start[i] || now[i] == Unsliced(start[i]))
    && (forall i, j :: 0 <= i < j < |now| && now[i] != start[i] ==> !now[j].sliced)
  }

  ghost predicate SlicesKept(start: seq<ContextObject>, now: seq<ContextObject>) {
    |now| <= |start| && forall i :: 0 <= i < |now| ==> now[i] == start[i]
  }

  /** Every list left is a prefix of what there was. */
  ghost predicate ListsRetained(start: Context, c: Context) {
    && c.violations <= start.violations && c.fragments <= start.fragments && c.endpoints <= start.endpoints
    && c.landings <= start.landings && c.adjacencies <= start.adjacencies && c.messages <= start.messages
    && c.failures <= start.failures && c.rollbacks <= start.rollbacks
    && (start.violations != [] ==> c.violations != []) && (start.messages != [] ==> c.messages != [])
    && (start.editable != [] ==> c.editable != [])
  }

  ghost predicate ObjectsRetained(start: Context, c: Context) {
    && Shortened(start.editable, c.editable) && Shortened(start.frozen, c.frozen)
    && (SlicesKept(start.editable, c.editable) || SliceCount(c.frozen) == 0)
  }

  /** What is said of rules and witnesses fits the violations left. */
  ghost predicate FactsRetained(start: Context, c: Context) {
    && c.violations <= start.violations
    && c.rules == (if c.violations == start.violations then start.rules
                   else Restrict(start.rules, RuleIds(c.violations)))
    && c.witnesses == Without(start.witnesses, Ids(start.violations[|c.violations|..]))
  }

  ghost predicate Retained(start: Context, c: Context) {
    ListsRetained(start, c) && ObjectsRetained(start, c) && FactsRetained(start, c)
  }

  ghost predicate Trimmed(start: Context, c: Context) {
    Retained(start, c) && InOrder(start, c)
  }

  // ----- One drop

  function Dropped(c: Context, kind: nat): Context
    requires kind < KINDS && Left(c, kind) > 0
  {
    match kind
    case 0 =>
      if SliceCount(c.frozen) > 0 then c.(frozen := ClearLast(c.frozen)) else c.(editable := ClearLast(c.editable))
    case 1 => c.(frozen := c.frozen[..|c.frozen| - 1])
    case 2 => c.(endpoints := c.endpoints[..|c.endpoints| - 1])
    case 3 => c.(adjacencies := c.adjacencies[..|c.adjacencies| - 1])
    case 4 => c.(landings := c.landings[..|c.landings| - 1])
    case 5 => c.(failures := c.failures[..|c.failures| - 1])
    case 6 => c.(rollbacks := c.rollbacks[..|c.rollbacks| - 1])
    case 7 => c.(messages := c.messages[..|c.messages| - 1])
    case 8 =>
      var violations := c.violations[..|c.violations| - 1];
      c.(violations := violations,
         witnesses := Without(c.witnesses, {c.violations[|c.violations| - 1].id}),
         rules := Restrict(c.rules, RuleIds(violations)))
    case 9 => c.(editable := c.editable[..|c.editable| - 1])
    case 10 => c.(fragments := c.fragments[..|c.fragments| - 1])
  }

  lemma SliceFreeEnd(objects: seq<ContextObject>)
    requires objects != [] && SliceCount(objects) == 0
    ensures SliceCount(objects[..|objects| - 1]) == 0
  {}

  /** A drop takes one item of its kind, and nothing of any other kind. */
  lemma DropTakesOne(c: Context, kind: nat)
    requires kind < KINDS && Left(c, kind) > 0
    requires forall j: nat {:trigger Left(c, j)} :: j < kind ==> Left(c, j) == 0
    ensures Left(Dropped(c, kind), kind) == Left(c, kind) - 1
    ensures forall j: nat {:trigger Left(Dropped(c, kind), j)} ::
              j < KINDS && j != kind ==> Left(Dropped(c, kind), j) == Left(c, j)
  {
    if kind > 0 {
      assert Left(c, 0) == 0;
    }
    if kind == 1 {
      SliceFreeEnd(c.frozen);
    } else if kind == 9 {
      SliceFreeEnd(c.editable);
    }
  }

  lemma {:induction false} DroppableFalls(c: Context, kind: nat, kinds: nat)
    requires kind < KINDS && kinds <= KINDS && Left(c, kind) > 0
    requires forall j: nat {:trigger Left(c, j)} :: j < kind ==> Left(c, j) == 0
    ensures Droppable(Dropped(c, kind), kinds) == Droppable(c, kinds) - if kind < kinds then 1 else 0
  {
    if kinds > 0 {
      DropTakesOne(c, kind);
      DroppableFalls(c, kind, kinds - 1);
    }
  }

  lemma DropKeepsOrder(start: Context, c: Context, kind: nat)
    requires InOrder(start, c) && kind < KINDS && Left(c, kind) > 0
    requires forall j: nat {:trigger Left(c, j)} :: j < kind ==> Left(c, j) == 0
    ensures InOrder(start, Dropped(c, kind))
  {
    DropTakesOne(c, kind);
    var d := Dropped(c, kind);
    forall j: nat, k: nat {:trigger Left(d, j), Left(d, k)} | j < k < KINDS && Left(d, k) < Left(start, k)
      ensures Left(d, j) == 0
    {
      if k != kind {
        assert Left(d, k) == Left(c, k);
        assert Left(c, j) == 0;
      } else {
        assert Left(d, j) == Left(c, j);
      }
    }
  }

  lemma ClearKeepsShortened(start: seq<ContextObject>, now: seq<ContextObject>)
    requires Shortened(start, now) && SliceCount(now) > 0
    ensures Shortened(start, ClearLast(now))
  {
    var k := LastSlice(now);
  }

  lemma PopKeepsShortened(start: seq<ContextObject>, now: seq<ContextObject>)
    requires Shortened(start, now) && now != []
    ensures Shortened(start, now[..|now| - 1])
    ensures SlicesKept(start, now) ==> SlicesKept(start, now[..|now| - 1])
  {}

  lemma RestrictTwice(rules: Rules, ids: set<Id>, fewer: set<Id>)
    requires fewer <= ids
    ensures Restrict(Restrict(rules, ids), fewer) == Restrict(rules, fewer)
  {
    assert forall m :: Kept(Kept(m, ids), fewer) == Kept(m, fewer);
  }

  lemma DropKeepsFacts(start: Context, c: Context, kind: nat)
    requires FactsRetained(start, c) && kind < KINDS && Left(c, kind) > 0
    ensures FactsRetained(start, Dropped(c, kind))
  {
    if kind == 8 {
      DropViolationKeepsFacts(start, c);
    } else {
      OthersSayNothing(c, kind);
    }
  }

  lemma OthersSayNothing(c: Context, kind: nat)
    requires kind < KINDS && kind != 8 && Left(c, kind) > 0
    ensures var d := Dropped(c, kind);
            d.violations == c.violations && d.rules == c.rules && d.witnesses == c.witnesses
  {}

  lemma DropViolationKeepsFacts(start: Context, c: Context)
    requires FactsRetained(start, c) && Left(c, 8) > 0
    ensures FactsRetained(start, Dropped(c, 8))
  {
    WitnessesInStep(start, c);
    RulesInStep(start, c);
  }

  /** Dropping the last violation drops its witnesses from those of the violations dropped so far. */
  lemma WitnessesInStep(start: Context, c: Context)
    requires FactsRetained(start, c) && Left(c, 8) > 0
    ensures Dropped(c, 8).witnesses == Without(start.witnesses, Ids(start.violations[|c.violations| - 1..]))
  {
    var n := |c.violations| - 1;
    assert start.violations[n..] == [start.violations[n]] + start.violations[n + 1..];
    assert Ids(start.violations[n..]) == Ids(start.violations[n + 1..]) + {c.violations[n].id};
    WithoutBoth(start.witnesses, Ids(start.violations[n + 1..]), {c.violations[n].id});
  }

  lemma RulesInStep(start: Context, c: Context)
    requires FactsRetained(start, c) && Left(c, 8) > 0
    ensures Dropped(c, 8).rules == Restrict(start.rules, RuleIds(Dropped(c, 8).violations))
    ensures Dropped(c, 8).violations < start.violations
  {
    var d := Dropped(c, 8);
    assert c.violations == d.violations + [c.violations[|d.violations|]];
    assert RuleIds(d.violations) <= RuleIds(c.violations);
    RestrictTwice(start.rules, RuleIds(c.violations), RuleIds(d.violations));
  }

  lemma DropKeepsObjects(start: Context, c: Context, kind: nat)
    requires ObjectsRetained(start, c) && kind < KINDS && Left(c, kind) > 0
    requires kind > 0 ==> Left(c, 0) == 0
    ensures ObjectsRetained(start, Dropped(c, kind))
  {
    if kind == 0 {
      if SliceCount(c.frozen) > 0 {
        ClearKeepsShortened(start.frozen, c.frozen);
      } else {
        ClearKeepsShortened(start.editable, c.editable);
      }
    } else if kind == 1 {
      PopKeepsShortened(start.frozen, c.frozen);
      SliceFreeEnd(c.frozen);
    } else if kind == 9 {
      PopKeepsShortened(start.editable, c.editable);
    }
  }

  lemma DropKeepsLists(start: Context, c: Context, kind: nat)
    requires ListsRetained(start, c) && kind < KINDS && Left(c, kind) > 0
    ensures ListsRetained(start, Dropped(c, kind))
  {}

  lemma DropKeepsTrimmed(start: Context, c: Context, kind: nat)
    requires Trimmed(start, c) && kind < KINDS && Left(c, kind) > 0
    requires forall j: nat {:trigger Left(c, j)} :: j < kind ==> Left(c, j) == 0
    ensures Trimmed(start, Dropped(c, kind))
  {
    DropKeepsLists(start, c, kind);
    DropKeepsObjects(start, c, kind);
    DropKeepsFacts(start, c, kind);
    DropKeepsOrder(start, c, kind);
  }

  lemma NothingDropped(start: Context)
    ensures Trimmed(start, start)
  {
    assert start.violations[|start.violations|..] == [];
    assert Ids([]) == {};
    WithoutNothing(start.witnesses);
  }

  // ----- The minimum context

  function First<T>(items: seq<T>): seq<T> { if items == [] then [] else [items[0]] }

  /** What cannot be dropped: one message, one violation and one object without its slice. */
  ghost function Minimum(start: Context): Context {
    var violations := First(start.violations);
    Context(violations, if start.editable == [] then [] else [Unsliced(start.editable[0])], [], [], [], [], [],
            First(start.messages), [], [], Without(start.witnesses, Ids(start.violations[|violations|..])),
            if violations == start.violations then start.rules else Restrict(start.rules, RuleIds(violations)))
  }

  lemma ExhaustedIsMinimum(start: Context, c: Context)
    requires Trimmed(start, c) && Exhausted(c)
    ensures c == Minimum(start)
  {
    assert Left(c, 0) == 0 && Left(c, 1) == 0 && Left(c, 2) == 0 && Left(c, 3) == 0 && Left(c, 4) == 0
        && Left(c, 5) == 0
        && Left(c, 6) == 0 && Left(c, 7) == 0 && Left(c, 8) == 0 && Left(c, 9) == 0 && Left(c, 10) == 0;
    assert c.violations == First(start.violations);
    assert c.messages == First(start.messages);
    if |c.editable| == 1 {
      assert c.editable[..0] == [];
      assert !c.editable[0].sliced;
    }
  }

  /** A violation is only dropped once everything that goes before violations is gone. */
  lemma ViolationsGoLate(start: Context, c: Context)
    requires Trimmed(start, c) && |c.violations| < |start.violations|
    ensures SliceCount(c.editable) == 0 && c.frozen == [] && c.endpoints == []
    ensures c.adjacencies == [] && c.landings == []
    ensures c.failures == [] && c.rollbacks == [] && |c.messages| <= 1
  {
    assert Left(c, 8) < Left(start, 8);
    assert Left(c, 0) == 0 && Left(c, 1) == 0 && Left(c, 2) == 0 && Left(c, 3) == 0 && Left(c, 4) == 0
        && Left(c, 5) == 0
        && Left(c, 6) == 0 && Left(c, 7) == 0;
  }

  // ----- The loop

  /** The first kind of which something is left: the one the loop drops from. */
  ghost predicate IsNext(c: Context, kind: nat) {
    && kind < KINDS && Left(c, kind) > 0
    && forall j: nat {:trigger Left(c, j)} :: j < kind ==> Left(c, j) == 0
  }

  /** The last step before c fits was needed: the context before it did not fit. */
  ghost predicate StoppedInTime(start: Context, c: Context, estimate: Context -> nat, target: nat) {
    c == start
    || exists p: Context, k: nat ::
         Trimmed(start, p) && estimate(p) > target && IsNext(p, k) && c == Dropped(p, k)
  }

  /** The if and elif chain of the loop: the first kind of which something is left. */
  method NextKind(c: Context) returns (kind: Option<nat>)
    ensures kind.Some? ==> IsNext(c, kind.value)
    ensures kind.None? ==> Exhausted(c)
  {
    if SliceCount(c.editable) + SliceCount(c.frozen) > 0 {
      return Some(0);
    } else if |c.frozen| > 0 {
      return Some(1);
    } else if |c.endpoints| > 0 {
      return Some(2);
    } else if |c.adjacencies| > 0 {
      return Some(3);
    } else if |c.landings| > 0 {
      return Some(4);
    } else if |c.failures| > 0 {
      return Some(5);
    } else if |c.rollbacks| > 0 {
      return Some(6);
    } else if |c.messages| > 1 {
      return Some(7);
    } else if |c.violations| > 1 {
      return Some(8);
    } else if |c.editable| > 1 {
      return Some(9);
    } else if |c.fragments| > 0 {
      return Some(10);
    }
    kind := None;
  }

  /**
    Drops context, the least important first, until the estimate is within the target. None stands for the
    ValueError about the minimum context. The loop ends for any estimator.
   */
  method Truncate(start: Context, estimate: Context -> nat, target: nat) returns (r: Option<Context>)
    ensures r.Some? ==> estimate(r.value) <= target && Trimmed(start, r.value)
    ensures r.Some? ==> StoppedInTime(start, r.value, estimate, target)
    ensures r.None? ==> estimate(Minimum(start)) > target
  {
    var c := start;
    NothingDropped(start);
    while estimate(c) > target
      invariant Trimmed(start, c) && StoppedInTime(start, c, estimate, target)
      decreases Droppable(c, KINDS)
    {
      var kind := NextKind(c);
      if kind.None? {
        ExhaustedIsMinimum(start, c);
        return None;
      }
      DropKeepsTrimmed(start, c, kind.value);
      DroppableFalls(c, kind.value, KINDS);
      c := Dropped(c, kind.value);
    }
    r := Some(c);
  }
}
