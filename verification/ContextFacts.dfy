/**
  What is computed from a truncated context in src/drc_agent/agents/context.py: rule facts, evidence,
  and which objects may be changed for which violations. All of it speaks of what was retained.
 */
module ContextFacts {
  import opened Basics
  import opened ContextBudget
  import opened Orders

  /** near: the object lies on a layer of the violation and within reach of its marker. */
  type Near = (Violation, ContextObject) -> bool

  datatype Facts = Facts(violations: seq<Violation>, witnesses: seq<Witness>, rules: Rules, summary: map<Id, nat>,
                         evidence: set<Id>, relations: map<Id, set<Id>>,
                         segments: set<Id>, vias: set<Id>, nets: set<Id>,
                         omitted: Counts, truncated: bool)

  datatype Counts = Counts(violations: int, editable: int, frozen: int, messages: int)

  function ObjectIds(objects: seq<ContextObject>): set<Id> { set o | o in objects :: o.id }

  function Included(c: Context): set<Id> { ObjectIds(c.editable) + ObjectIds(c.frozen) }

  /** The last witness of a violation: later entries of the dict replace earlier ones. */
  function WitnessOf(witnesses: seq<Witness>, violation: Id): Option<Witness> {
    if witnesses == [] then None
    else
      var last := witnesses[|witnesses| - 1];
      if last.violation == Some(violation) then Some(last) else WitnessOf(witnesses[..|witnesses| - 1], violation)
  }

  predicate Decides(w: Option<Witness>) { w.Some? && w.value.sources.Some? && w.value.exact }

  /** The retained editable objects that may be changed for a violation. */
  function Candidates(c: Context, witnesses: seq<Witness>, v: Violation, near: Near): set<Id> {
    var w := WitnessOf(witnesses, v.id);
    if Decides(w) then w.value.sources.value * ObjectIds(c.editable)
    else if v.associated * Included(c) != {} then v.associated * Included(c) * ObjectIds(c.editable)
    else set o | o in c.editable && near(v, o) :: o.id
  }

  function Narrowed(c: Context, v: Violation): Violation { v.(associated := v.associated * Included(c)) }

  function CountOf(violations: seq<Violation>, rule: Id): nat {
    if violations == [] then 0
    else
      var init := CountOf(violations[..|violations| - 1], rule);
      if violations[|violations| - 1].rule == rule then init + 1 else init
  }

  ghost predicate Relates(c: Context, witnesses: seq<Witness>, violations: seq<Violation>, near: Near, o: Id, id: Id) {
    exists v :: v in violations && v.id == id && o in Candidates(c, witnesses, v, near)
  }

  // ----- What the facts must be

  ghost predicate IsSummary(violations: seq<Violation>, summary: map<Id, nat>) {
    && summary.Keys == RuleIds(violations)
    && forall r <- summary.Keys :: summary[r] == CountOf(violations, r)
  }

  ghost predicate IsRelation(c: Context, witnesses: seq<Witness>, near: Near, relations: map<Id, set<Id>>) {
    && (forall o <- relations.Keys :: o in ObjectIds(c.editable) && relations[o] != {})
    && (forall o, id {:trigger Relates(c, witnesses, c.violations, near, o, id)} ::
          Relates(c, witnesses, c.violations, near, o, id) <==> o in relations && id in relations[o])
  }

  function WitnessIds(witnesses: seq<Witness>): set<Id> { set w | w in witnesses && w.id.Some? :: w.id.value }

  function MessageEvidence(messages: seq<Message>): set<Id> {
    set m, e | m in messages && e in m.evidence :: e
  }

  ghost predicate IsFacts(start: Context, c: Context, near: Near, blueprint: set<Id>, f: Facts) {
    && |c.violations| <= |start.violations|
    && f.rules == Restrict(start.rules, RuleIds(c.violations))
    && f.witnesses == Of(start.witnesses, Ids(c.violations) - Ids(start.violations[|c.violations|..]))
    && |f.violations| == |c.violations|
    && (forall i :: 0 <= i < |c.violations| ==> f.violations[i] == Narrowed(c, c.violations[i]))
    && IsSummary(c.violations, f.summary)
    && f.evidence == Ids(c.violations) + WitnessIds(f.witnesses) + MessageEvidence(c.messages) + blueprint
    && IsRelation(c, f.witnesses, near, f.relations)
    && f.segments == Choices(c, f.relations, set o | o in c.editable && o.segment :: o.id)
    && f.vias == Choices(c, f.relations, set o | o in c.editable && o.via :: o.id)
    && f.nets == (set o | o in c.editable && o.net.Some? :: o.net.value)
    && f.omitted == Counts(|start.violations| - |c.violations|, |start.editable| - |c.editable|,
                           |start.frozen| - |c.frozen|, |start.messages| - |c.messages|)
    && (f.truncated <==> f.omitted != Counts(0, 0, 0, 0))
  }

  /** Of some objects, those that are grounded in a violation and traceable. */
  function Choices(c: Context, relations: map<Id, set<Id>>, ids: set<Id>): set<Id> {
    ids * relations.Keys * set o | o in c.editable && o.traceable :: o.id
  }

  // ----- Filtering after the loop agrees with filtering inside it

  lemma {:induction false} OfWithout(witnesses: seq<Witness>, gone: set<Id>, ids: set<Id>)
    ensures Of(Without(witnesses, gone), ids) == Of(witnesses, ids - gone)
  {
    if witnesses != [] {
      OfWithout(witnesses[1..], gone, ids);
    }
  }

  lemma FiltersAgree(start: Context, c: Context)
    requires Trimmed(start, c)
    ensures Restrict(c.rules, RuleIds(c.violations)) == Restrict(start.rules, RuleIds(c.violations))
    ensures Of(c.witnesses, Ids(c.violations))
         == Of(start.witnesses, Ids(c.violations) - Ids(start.violations[|c.violations|..]))
  {
    RestrictTwice(start.rules, RuleIds(c.violations), RuleIds(c.violations));
    OfWithout(start.witnesses, Ids(start.violations[|c.violations|..]), Ids(c.violations));
  }

  // ----- The computation

  method Summarize(violations: seq<Violation>) returns (summary: map<Id, nat>)
    ensures IsSummary(violations, summary)
  {
    summary := map[];
    for i := 0 to |violations|
      invariant IsSummary(violations[..i], summary)
    {
      var r := violations[i].rule;
      assert violations[..i + 1] == violations[..i] + [violations[i]];
      summary := summary[r := if r in summary then summary[r] + 1 else 1];
      SummaryStep(violations[..i], violations[i]);
    }
    assert violations[..|violations|] == violations;
  }

  lemma {:induction false} CountOfNone(violations: seq<Violation>, rule: Id)
    ensures rule !in RuleIds(violations) ==> CountOf(violations, rule) == 0
  {
    if violations != [] {
      var init, last := violations[..|violations| - 1], violations[|violations| - 1];
      assert violations == init + [last];
      CountOfNone(init, rule);
      assert last in violations;
    }
  }

  lemma SummaryStep(violations: seq<Violation>, v: Violation)
    ensures RuleIds(violations + [v]) == RuleIds(violations) + {v.rule}
    ensures forall r :: CountOf(violations + [v], r) == CountOf(violations, r) + if v.rule == r then 1 else 0
    ensures v.rule !in RuleIds(violations) ==> CountOf(violations, v.rule) == 0
  {
    assert (violations + [v])[..|violations|] == violations;
    CountOfNone(violations, v.rule);
  }

  lemma RelatesStep(c: Context, witnesses: seq<Witness>, violations: seq<Violation>, v: Violation, near: Near, o: Id,
                    id: Id)
    ensures Relates(c, witnesses, violations + [v], near, o, id) <==>
            Relates(c, witnesses, violations, near, o, id) || (v.id == id && o in Candidates(c, witnesses, v, near))
  {}

  ghost predicate RelatedSoFar(c: Context, witnesses: seq<Witness>, violations: seq<Violation>, near: Near,
                               relation: map<Id, set<Id>>)
  {
    && relation.Keys == ObjectIds(c.editable)
    && forall o, id {:trigger Relates(c, witnesses, violations, near, o, id)} ::
         Relates(c, witnesses, violations, near, o, id) <==> o in relation && id in relation[o]
  }

  /** One violation is entered for each of its candidates. */
  method Enter(c: Context, witnesses: seq<Witness>, near: Near, relation: map<Id, set<Id>>,
               ghost violations: seq<Violation>, v: Violation) returns (next: map<Id, set<Id>>)
    requires RelatedSoFar(c, witnesses, violations, near, relation)
    ensures RelatedSoFar(c, witnesses, violations + [v], near, next)
  {
    var candidates := Candidates(c, witnesses, v, near);
    next := map o | o in relation :: if o in candidates then relation[o] + {v.id} else relation[o];
    assert candidates <= ObjectIds(c.editable);
    forall o, id {:trigger Relates(c, witnesses, violations + [v], near, o, id)}
      ensures Relates(c, witnesses, violations + [v], near, o, id) <==> o in next && id in next[o]
    {
      RelatesStep(c, witnesses, violations, v, near, o, id);
    }
  }

  method Relate(c: Context, witnesses: seq<Witness>, near: Near) returns (relations: map<Id, set<Id>>)
    ensures IsRelation(c, witnesses, near, relations)
  {
    var relation: map<Id, set<Id>> := map o | o in ObjectIds(c.editable) :: {};
    for i := 0 to |c.violations|
      invariant RelatedSoFar(c, witnesses, c.violations[..i], near, relation)
    {
      assert c.violations[..i + 1] == c.violations[..i] + [c.violations[i]];
      relation := Enter(c, witnesses, near, relation, c.violations[..i], c.violations[i]);
    }
    assert c.violations[..|c.violations|] == c.violations;
    relations := map o | o in relation && relation[o] != {} :: relation[o];
  }

  method Conclude(ghost start: Context, originals: Counts, c: Context, near: Near, blueprint: set<Id>)
    returns (f: Facts)
    requires Trimmed(start, c)
    requires originals == Counts(|start.violations|, |start.editable|, |start.frozen|, |start.messages|)
    ensures IsFacts(start, c, near, blueprint, f)
  {
    FiltersAgree(start, c);
    var witnesses := Of(c.witnesses, Ids(c.violations));
    var rules := Restrict(c.rules, RuleIds(c.violations));
    var summary := Summarize(c.violations);
    var evidence := Ids(c.violations) + WitnessIds(witnesses) + MessageEvidence(c.messages) + blueprint;
    var relations := Relate(c, witnesses, near);
    var violations := seq(|c.violations|, i requires 0 <= i < |c.violations| => Narrowed(c, c.violations[i]));
    var segments := Choices(c, relations, set o | o in c.editable && o.segment :: o.id);
    var vias := Choices(c, relations, set o | o in c.editable && o.via :: o.id);
    var nets := set o | o in c.editable && o.net.Some? :: o.net.value;
    var omitted := Counts(originals.violations - |c.violations|, originals.editable - |c.editable|,
                          originals.frozen - |c.frozen|, originals.messages - |c.messages|);
    var truncated := omitted.violations != 0 || omitted.editable != 0 || omitted.frozen != 0 || omitted.messages != 0;
    f := Facts(violations, witnesses, rules, summary, evidence, relations, segments, vias, nets, omitted, truncated);
  }

  /** The budget: 1200 tokens are kept for the schema and 256 for what is computed after truncation. */
  function Target(maxTokens: nat): (target: nat)
    ensures 1800 <= maxTokens ==> target == Max(512, maxTokens - 1456) <= maxTokens - 1200
  {
    var budget := if maxTokens < 1712 then 512 else maxTokens - 1200;
    if budget < 768 then 512 else budget - 256
  }

  method Build(start: Context, estimate: Context -> nat, maxTokens: nat, near: Near, blueprint: set<Id>)
    returns (context: Option<Context>, facts: Option<Facts>)
    requires 1800 <= maxTokens
    ensures context.Some? <==> facts.Some?
    ensures context.Some? ==> Trimmed(start, context.value) && estimate(context.value) <= Target(maxTokens)
    ensures context.Some? ==> StoppedInTime(start, context.value, estimate, Target(maxTokens))
    ensures context.Some? ==> IsFacts(start, context.value, near, blueprint, facts.value)
    ensures context.None? ==> estimate(Minimum(start)) > Target(maxTokens)
  {
    var originals := Counts(|start.violations|, |start.editable|, |start.frozen|, |start.messages|);
    context := Truncate(start, estimate, Target(maxTokens));
    if context.None? {
      return None, None;
    }
    var f := Conclude(start, originals, context.value, near, blueprint);
    facts := Some(f);
  }

  // ----- What that means

  ghost predicate UniqueViolations(c: Context) {
    forall i, j :: 0 <= i < j < |c.violations| ==> c.violations[i].id != c.violations[j].id
  }

  /** Nothing that is listed for reference mentions a dropped violation, rule or object. */
  lemma OnlyRetainedIsMentioned(start: Context, c: Context, near: Near, blueprint: set<Id>, f: Facts)
    requires Trimmed(start, c) && IsFacts(start, c, near, blueprint, f)
    ensures f.relations.Keys <= ObjectIds(c.editable) && f.segments <= f.relations.Keys && f.vias <= f.relations.Keys
    ensures forall o <- f.relations.Keys :: f.relations[o] <= Ids(c.violations)
    ensures forall v <- f.violations :: v.associated <= Included(c)
    ensures forall w <- f.witnesses :: w.violation.Some? && w.violation.value in Ids(c.violations)
    ensures f.summary.Keys == RuleIds(c.violations) && f.rules.predicates.Keys <= RuleIds(c.violations)
    ensures f.rules.packs.Keys <= RuleIds(c.violations) && f.rules.constraints.Keys <= RuleIds(c.violations)
    ensures f.rules.hints.Keys <= RuleIds(c.violations) && f.rules.distances.Keys <= RuleIds(c.violations)
  {
    forall o, id | o in f.relations && id in f.relations[o] ensures id in Ids(c.violations) {
      assert Relates(c, f.witnesses, c.violations, near, o, id);
    }
    OfBelongs(start.witnesses, Ids(c.violations) - Ids(start.violations[|c.violations|..]));
  }

  lemma {:induction false} OfBelongs(witnesses: seq<Witness>, ids: set<Id>)
    ensures forall w <- Of(witnesses, ids) :: w.violation.Some? && w.violation.value in ids
  {
    if witnesses != [] {
      OfBelongs(witnesses[1..], ids);
    }
  }

  /** With unique violation ids, every witness of a retained violation is retained, however much was dropped. */
  lemma WitnessesOfRetainedStay(start: Context, c: Context, near: Near, blueprint: set<Id>, f: Facts)
    requires Trimmed(start, c) && IsFacts(start, c, near, blueprint, f) && UniqueViolations(start)
    ensures f.witnesses == Of(start.witnesses, Ids(c.violations))
  {
    var dropped := start.violations[|c.violations|..];
    forall v, u | v in c.violations && u in dropped ensures v.id != u.id {
      var i :| 0 <= i < |c.violations| && c.violations[i] == v;
      var j :| 0 <= j < |dropped| && dropped[j] == u;
      assert start.violations[i] == v && start.violations[|c.violations| + j] == u;
    }
    assert Ids(c.violations) - Ids(dropped) == Ids(c.violations);
  }

  /** An object may be changed for a violation whose witness decides exactly when that witness names it. */
  lemma DecidingWitnessRules(start: Context, c: Context, near: Near, blueprint: set<Id>, f: Facts, v: Violation, o: Id)
    requires Trimmed(start, c) && IsFacts(start, c, near, blueprint, f) && UniqueViolations(start)
    requires v in c.violations && o in ObjectIds(c.editable) && Decides(WitnessOf(f.witnesses, v.id))
    ensures o in f.relations && v.id in f.relations[o] <==> o in WitnessOf(f.witnesses, v.id).value.sources.value
  {
    RelatesOne(start, c, near, f.witnesses, v, o);
  }

  // ----- Nothing retained is lost

  ghost predicate Names(w: Witness, ids: set<Id>) { w.violation.Some? && w.violation.value in ids }

  lemma {:induction false} OfCounts(witnesses: seq<Witness>, ids: set<Id>, w: Witness)
    ensures multiset(Of(witnesses, ids))[w] == if Names(w, ids) then multiset(witnesses)[w] else 0
  {
    if witnesses != [] {
      assert witnesses == [witnesses[0]] + witnesses[1..];
      OfCounts(witnesses[1..], ids, w);
    }
  }

  lemma {:induction false} WithoutCounts(witnesses: seq<Witness>, gone: set<Id>, w: Witness)
    ensures multiset(Without(witnesses, gone))[w] == if Names(w, gone) then 0 else multiset(witnesses)[w]
  {
    if witnesses != [] {
      assert witnesses == [witnesses[0]] + witnesses[1..];
      WithoutCounts(witnesses[1..], gone, w);
    }
  }

  /** The filters keep exactly the witnesses of retained violations, each as often as before. */
  lemma WitnessesStay(start: Context, c: Context, near: Near, blueprint: set<Id>, f: Facts, w: Witness)
    requires Trimmed(start, c) && IsFacts(start, c, near, blueprint, f) && UniqueViolations(start)
    ensures multiset(f.witnesses)[w] == if Names(w, Ids(c.violations)) then multiset(start.witnesses)[w] else 0
    ensures w in f.witnesses <==> w in start.witnesses && exists v <- c.violations :: w.violation == Some(v.id)
    ensures w in c.witnesses <==> w in start.witnesses
                                  && !exists v <- start.violations[|c.violations|..] :: w.violation == Some(v.id)
  {
    WitnessesOfRetainedStay(start, c, near, blueprint, f);
    OfCounts(start.witnesses, Ids(c.violations), w);
    assert w in multiset(f.witnesses) <==> w in f.witnesses;
    assert w in multiset(start.witnesses) <==> w in start.witnesses;
    WithoutCounts(start.witnesses, Ids(start.violations[|c.violations|..]), w);
    assert w in multiset(c.witnesses) <==> w in c.witnesses;
  }

  /** Of a map of rule facts, exactly what is said of these rules is there, unchanged. */
  ghost predicate SaidOf(before: map<Id, int>, after: map<Id, int>, violations: seq<Violation>) {
    && (forall r :: r in after <==> r in before && exists v <- violations :: v.rule == r)
    && (forall r <- after :: after[r] == before[r])
  }

  lemma KeptIsSaid(before: map<Id, int>, violations: seq<Violation>)
    ensures SaidOf(before, Kept(before, RuleIds(violations)), violations)
  {
    var after := Kept(before, RuleIds(violations));
    forall r ensures r in after <==> r in before && exists v <- violations :: v.rule == r {
      assert r in RuleIds(violations) <==> exists v <- violations :: v.rule == r;
    }
  }

  /** All that was known of the rules of retained violations is still there, and nothing else is. */
  lemma RuleFactsStay(start: Context, c: Context, near: Near, blueprint: set<Id>, f: Facts)
    requires Trimmed(start, c) && IsFacts(start, c, near, blueprint, f)
    ensures SaidOf(start.rules.predicates, f.rules.predicates, c.violations)
    ensures SaidOf(start.rules.packs, f.rules.packs, c.violations)
    ensures SaidOf(start.rules.constraints, f.rules.constraints, c.violations)
    ensures SaidOf(start.rules.hints, f.rules.hints, c.violations)
    ensures SaidOf(start.rules.distances, f.rules.distances, c.violations)
  {
    KeptIsSaid(start.rules.predicates, c.violations);
    KeptIsSaid(start.rules.packs, c.violations);
    KeptIsSaid(start.rules.constraints, c.violations);
    KeptIsSaid(start.rules.hints, c.violations);
    KeptIsSaid(start.rules.distances, c.violations);
  }

  lemma {:induction false} CountOfCounts(violations: seq<Violation>, rule: Id)
    ensures CountOf(violations, rule) == CountWhere(violations, (v: Violation) => v.rule == rule)
  {
    if violations != [] {
      CountOfCounts(violations[..|violations| - 1], rule);
    }
  }

  /** The summary counts, for each rule, the retained violations of that rule. */
  lemma SummaryCounts(violations: seq<Violation>, summary: map<Id, nat>, rule: Id)
    requires IsSummary(violations, summary)
    ensures rule in summary <==> exists v <- violations :: v.rule == rule
    ensures rule in summary ==> summary[rule] == |set k | 0 <= k < |violations| && violations[k].rule == rule|
  {
    CountOfCounts(violations, rule);
    CountIsOfPlaces(violations, (v: Violation) => v.rule == rule,
                    set k | 0 <= k < |violations| && violations[k].rule == rule);
    assert rule in RuleIds(violations) <==> exists v <- violations :: v.rule == rule;
  }

  lemma IncludedObjects(c: Context, o: Id)
    ensures o in ObjectIds(c.editable) <==> exists e <- c.editable :: e.id == o
    ensures o in Included(c) <==> exists e <- c.editable + c.frozen :: e.id == o
  {}

  // ----- What is listed for reference

  ghost predicate Cited(c: Context, witnesses: seq<Witness>, blueprint: set<Id>, id: Id) {
    || (exists v <- c.violations :: v.id == id)
    || (exists w <- witnesses :: w.id == Some(id))
    || (exists m <- c.messages :: id in m.evidence)
    || id in blueprint
  }

  /** The evidence that may be cited: retained violations, their witnesses, messages and the blueprint. */
  lemma EvidenceIff(start: Context, c: Context, near: Near, blueprint: set<Id>, f: Facts, id: Id)
    requires IsFacts(start, c, near, blueprint, f)
    ensures id in f.evidence <==> Cited(c, f.witnesses, blueprint, id)
  {
    assert id in Ids(c.violations) <==> exists v <- c.violations :: v.id == id;
    assert id in MessageEvidence(c.messages) <==> exists m <- c.messages :: id in m.evidence;
    if w :| w in f.witnesses && w.id == Some(id) {
      assert w.id.value in WitnessIds(f.witnesses);
    }
  }

  /** Choices are the retained objects of the kind that some violation allows and that can be traced. */
  lemma ChoicesIff(start: Context, c: Context, near: Near, blueprint: set<Id>, f: Facts, o: Id)
    requires IsFacts(start, c, near, blueprint, f)
    ensures o in f.segments <==>
            && o in f.relations && (exists e <- c.editable :: e.id == o && e.segment)
            && (exists e <- c.editable :: e.id == o && e.traceable)
    ensures o in f.vias <==>
            && o in f.relations && (exists e <- c.editable :: e.id == o && e.via)
            && (exists e <- c.editable :: e.id == o && e.traceable)
  {}

  /** A violation comes back as it was, but associated with retained objects only, and with all of them that were. */
  lemma AssociationsStay(start: Context, c: Context, near: Near, blueprint: set<Id>, f: Facts, i: nat, o: Id)
    requires Trimmed(start, c) && IsFacts(start, c, near, blueprint, f) && i < |c.violations|
    ensures i < |f.violations| && f.violations[i].id == start.violations[i].id
    ensures f.violations[i].rule == start.violations[i].rule
    ensures o in f.violations[i].associated <==>
            o in start.violations[i].associated && exists e <- c.editable + c.frozen :: e.id == o
  {
    IncludedObjects(c, o);
  }

  // ----- Which objects may be changed

  /** Entry k is the last witness of the violation. */
  ghost predicate LastOf(witnesses: seq<Witness>, violation: Id, k: nat) {
    && k < |witnesses| && witnesses[k].violation == Some(violation)
    && forall j :: k < j < |witnesses| ==> witnesses[j].violation != Some(violation)
  }

  lemma {:induction false} LastIsFound(witnesses: seq<Witness>, violation: Id, k: nat)
    requires LastOf(witnesses, violation, k)
    ensures WitnessOf(witnesses, violation) == Some(witnesses[k])
  {
    var n := |witnesses| - 1;
    if k < n {
      assert witnesses[n].violation != Some(violation);
      LastIsFound(witnesses[..n], violation, k);
    }
  }

  lemma {:induction false} FoundIsLast(witnesses: seq<Witness>, violation: Id) returns (k: nat)
    requires WitnessOf(witnesses, violation).Some?
    ensures LastOf(witnesses, violation, k) && WitnessOf(witnesses, violation) == Some(witnesses[k])
  {
    k := |witnesses| - 1;
    if witnesses[k].violation != Some(violation) {
      k := FoundIsLast(witnesses[..k], violation);
    }
  }

  lemma {:induction false} OfSnoc(witnesses: seq<Witness>, w: Witness, ids: set<Id>)
    ensures Of(witnesses + [w], ids) == Of(witnesses, ids) + if Names(w, ids) then [w] else []
  {
    if witnesses == [] {
      assert [] + [w] == [w];
    } else {
      assert (witnesses + [w])[1..] == witnesses[1..] + [w];
      OfSnoc(witnesses[1..], w, ids);
    }
  }

  /** The filter does not change which witness is the last. */
  lemma {:induction false} LastSurvives(witnesses: seq<Witness>, ids: set<Id>, violation: Id)
    requires violation in ids
    ensures WitnessOf(Of(witnesses, ids), violation) == WitnessOf(witnesses, violation)
  {
    if witnesses != [] {
      var init, last := witnesses[..|witnesses| - 1], witnesses[|witnesses| - 1];
      assert witnesses == init + [last];
      OfSnoc(init, last, ids);
      LastSurvives(init, ids, violation);
      if Names(last, ids) {
        var kept := Of(init, ids) + [last];
        assert kept[..|kept| - 1] == Of(init, ids) && kept[|kept| - 1] == last;
      } else {
        assert Of(init, ids) + [] == Of(init, ids);
      }
    }
  }

  /** Entry k decides for the violation: it is the last of its witnesses, exact, and names its objects. */
  ghost predicate Deciding(witnesses: seq<Witness>, violation: Id, k: nat) {
    LastOf(witnesses, violation, k) && witnesses[k].exact && witnesses[k].sources.Some?
  }

  ghost predicate SomeDeciding(witnesses: seq<Witness>, violation: Id) {
    exists k: nat :: Deciding(witnesses, violation, k)
  }

  /** The objects a violation allows: its deciding witness rules, then its associations, then what lies near. */
  ghost predicate Allowed(start: Context, c: Context, near: Near, v: Violation, o: Id) {
    if SomeDeciding(start.witnesses, v.id) then
      exists k: nat :: Deciding(start.witnesses, v.id, k) && o in start.witnesses[k].sources.value
    else if exists e <- c.editable + c.frozen :: e.id in v.associated then o in v.associated
    else exists e <- c.editable :: e.id == o && near(v, e)
  }

  /** Of the retained objects, exactly the allowed editable ones may be changed for a retained violation. */
  lemma ChangeableIff(start: Context, c: Context, near: Near, blueprint: set<Id>, f: Facts, v: Violation, o: Id)
    requires Trimmed(start, c) && IsFacts(start, c, near, blueprint, f) && UniqueViolations(start)
    requires v in c.violations
    ensures o in f.relations && v.id in f.relations[o]
       <==> (exists e <- c.editable :: e.id == o) && Allowed(start, c, near, v, o)
  {
    WitnessesOfRetainedStay(start, c, near, blueprint, f);
    LastSurvives(start.witnesses, Ids(c.violations), v.id);
    RelatesOne(start, c, near, f.witnesses, v, o);
    CandidatesAreAllowed(start, c, near, f.witnesses, v, o);
  }

  lemma RelatesOne(start: Context, c: Context, near: Near, witnesses: seq<Witness>, v: Violation, o: Id)
    requires UniqueViolations(start) && c.violations <= start.violations && v in c.violations
    ensures Relates(c, witnesses, c.violations, near, o, v.id) <==> o in Candidates(c, witnesses, v, near)
  {
    forall u | u in c.violations && u.id == v.id ensures u == v {
      var i :| 0 <= i < |c.violations| && c.violations[i] == u;
      var j :| 0 <= j < |c.violations| && c.violations[j] == v;
      assert start.violations[i] == u && start.violations[j] == v;
    }
  }

  lemma CandidatesAreAllowed(start: Context, c: Context, near: Near, witnesses: seq<Witness>, v: Violation, o: Id)
    requires WitnessOf(witnesses, v.id) == WitnessOf(start.witnesses, v.id)
    ensures o in Candidates(c, witnesses, v, near)
       <==> (exists e <- c.editable :: e.id == o) && Allowed(start, c, near, v, o)
  {
    IncludedObjects(c, o);
    var w := WitnessOf(start.witnesses, v.id);
    if Decides(w) {
      var k := FoundIsLast(start.witnesses, v.id);
      assert Deciding(start.witnesses, v.id, k);
    }
    forall k: nat | Deciding(start.witnesses, v.id, k) ensures w == Some(start.witnesses[k]) {
      LastIsFound(start.witnesses, v.id, k);
    }
    if !Decides(w) {
      assert v.associated * Included(c) != {} <==> exists e <- c.editable + c.frozen :: e.id in v.associated by {
        if x :| x in v.associated * Included(c) {
          IncludedObjects(c, x);
        }
        if e :| e in c.editable + c.frozen && e.id in v.associated {
          IncludedObjects(c, e.id);
          assert e.id in v.associated * Included(c);
        }
      }
    }
  }
}
