/**
  What the batches of src/drc_agent/coordinator/batching.py hold, told by the fields of the bundles and candidates
  handed to schedule: which bundles wait, which candidates a bundle brings in, and which objects count.
 */
module BatchContents {
  import opened Orders
  import opened Batching

  /** Position i holds the last candidate of its id: the one that a repeated id stands for. */
  ghost predicate Last(candidates: seq<Candidate>, i: nat) {
    i < |candidates| && forall j :: i < j < |candidates| ==> candidates[j].id != candidates[i].id
  }

  ghost predicate Acts(candidates: seq<Candidate>, i: nat, id: Id) {
    Last(candidates, i) && candidates[i].id == id && !candidates[i].isNoop
  }

  /** A known candidate that does something. */
  ghost predicate Known(candidates: seq<Candidate>, id: Id) {
    exists i: nat :: Acts(candidates, i, id)
  }

  /** Affected objects count; the targets stand in for them only when none is named. */
  ghost predicate Modifies(c: Candidate, o: Id) {
    o in c.affected || (c.affected == [] && o in c.targets)
  }

  ghost predicate ModifiedBy(candidates: seq<Candidate>, ids: seq<Id>, o: Id, i: nat) {
    i < |candidates| && Acts(candidates, i, candidates[i].id) && candidates[i].id in ids && Modifies(candidates[i], o)
  }

  ghost predicate SomeModifies(candidates: seq<Candidate>, ids: seq<Id>, o: Id) {
    exists i: nat :: ModifiedBy(candidates, ids, o, i)
  }

  ghost predicate Waits(bundle: Bundle, candidates: seq<Candidate>) {
    exists id <- bundle.selected :: Known(candidates, id)
  }

  // ----- One bundle

  lemma {:induction false} LastIsLookedUp(candidates: seq<Candidate>, i: nat)
    requires Last(candidates, i)
    ensures candidates[i].id in ById(candidates) && ById(candidates)[candidates[i].id] == candidates[i]
  {
    var n := |candidates| - 1;
    if i < n {
      assert candidates[n].id != candidates[i].id;
      LastIsLookedUp(candidates[..n], i);
    }
  }

  lemma {:induction false} LookedUpIsLast(candidates: seq<Candidate>, id: Id) returns (i: nat)
    requires id in ById(candidates)
    ensures Last(candidates, i) && candidates[i].id == id && ById(candidates)[id] == candidates[i]
  {
    i := |candidates| - 1;
    if candidates[i].id != id {
      i := LookedUpIsLast(candidates[..i], id);
    }
  }

  /** The lookup of the code finds something to do exactly for the known ids. */
  lemma LookupIsKnown(candidates: seq<Candidate>, id: Id)
    ensures id in ById(candidates) && !ById(candidates)[id].isNoop <==> Known(candidates, id)
  {
    if id in ById(candidates) && !ById(candidates)[id].isNoop {
      var i := LookedUpIsLast(candidates, id);
      assert Acts(candidates, i, id);
    }
    if Known(candidates, id) {
      var i: nat :| Acts(candidates, i, id);
      LastIsLookedUp(candidates, i);
    }
  }

  lemma {:induction false} SelectedAreKnown(ids: seq<Id>, candidates: seq<Candidate>, id: Id)
    ensures multiset(Selected(ids, ById(candidates)))[id] == if Known(candidates, id) then multiset(ids)[id] else 0
  {
    if ids != [] {
      SelectedAreKnown(ids[1..], candidates, id);
      LookupIsKnown(candidates, ids[0]);
      assert ids == [ids[0]] + ids[1..];
    }
  }

  lemma {:induction false} ObjectsAreModified(ids: seq<Id>, byId: map<Id, Candidate>, o: Id)
    ensures o in ObjectsOf(ids, byId) <==> exists id <- ids :: id in byId && Modifies(byId[id], o)
  {
    if ids != [] {
      ObjectsAreModified(ids[1..], byId, o);
      assert ids == [ids[0]] + ids[1..];
    }
  }

  /** A bundle brings in the known ids it selects, each as often as it is selected, and the objects they modify. */
  lemma ItemContents(bundle: Bundle, candidates: seq<Candidate>)
    ensures var item := ToItem(bundle, ById(candidates));
            && item.bundle == bundle.id && Sorted(NatLeq, item.candidates)
            && (forall id :: multiset(item.candidates)[id]
                          == if Known(candidates, id) then multiset(bundle.selected)[id] else 0)
            && (forall o :: o in item.objects <==> SomeModifies(candidates, bundle.selected, o))
  {
    var byId := ById(candidates);
    var selected := Selected(bundle.selected, byId);
    SortPermutes(NatLeq, selected);
    SortSorts(NatLeq, selected);
    forall id ensures multiset(selected)[id] == if Known(candidates, id) then multiset(bundle.selected)[id] else 0 {
      SelectedAreKnown(bundle.selected, candidates, id);
    }
    forall o ensures o in ObjectsOf(selected, byId) <==> SomeModifies(candidates, bundle.selected, o) {
      ObjectsAreModified(selected, byId, o);
      if o in ObjectsOf(selected, byId) {
        var id :| id in selected && id in byId && Modifies(byId[id], o);
        SelectedIsKnown(bundle.selected, candidates, id);
        LookupIsKnown(candidates, id);
        var i := LookedUpIsLast(candidates, id);
        assert ModifiedBy(candidates, bundle.selected, o, i);
      }
      if i: nat :| ModifiedBy(candidates, bundle.selected, o, i) {
        SelectedIsKnown(bundle.selected, candidates, candidates[i].id);
        LastIsLookedUp(candidates, i);
      }
    }
  }

  lemma SelectedIsKnown(ids: seq<Id>, candidates: seq<Candidate>, id: Id)
    ensures id in Selected(ids, ById(candidates)) <==> id in ids && Known(candidates, id)
  {
    SelectedAreKnown(ids, candidates, id);
    assert id in multiset(Selected(ids, ById(candidates))) <==> id in Selected(ids, ById(candidates));
    assert id in multiset(ids) <==> id in ids;
  }

  lemma WaitsIff(bundle: Bundle, candidates: seq<Candidate>)
    ensures Selected(bundle.selected, ById(candidates)) != [] <==> Waits(bundle, candidates)
  {
    var selected := Selected(bundle.selected, ById(candidates));
    if selected != [] {
      assert selected[0] in selected;
      SelectedIsKnown(bundle.selected, candidates, selected[0]);
    }
    if Waits(bundle, candidates) {
      var id :| id in bundle.selected && Known(candidates, id);
      SelectedIsKnown(bundle.selected, candidates, id);
    }
  }

  // ----- The pending list

  ghost predicate UniqueBundles(bundles: seq<Bundle>) {
    forall i, j :: 0 <= i < j < |bundles| ==> bundles[i].id != bundles[j].id
  }

  lemma UniqueById(bundles: seq<Bundle>, a: Bundle, b: Bundle)
    requires UniqueBundles(bundles) && a in bundles && b in bundles && a.id == b.id
    ensures a == b
  {}

  ghost predicate HasItem(items: seq<Item>, id: Id) {
    exists item <- items :: item.bundle == id
  }

  ghost predicate SomeWaits(bundles: seq<Bundle>, candidates: seq<Candidate>, id: Id) {
    exists b <- bundles :: b.id == id && Waits(b, candidates)
  }

  lemma SortKeepsUnique(bundles: seq<Bundle>)
    requires UniqueBundles(bundles)
    ensures UniqueBundles(Sort(BundleOrder, bundles))
  {
    var key := (b: Bundle) => b.id;
    SortKeepsDistinct(BundleOrder, key, bundles);
    var sorted := Sort(BundleOrder, bundles);
    forall i, j | 0 <= i < j < |sorted| ensures sorted[i].id != sorted[j].id {
      assert key(sorted[i]) != key(sorted[j]);
    }
  }

  lemma {:induction false} PendingFromStrict(bundles: seq<Bundle>, byId: map<Id, Candidate>)
    requires Sorted(BundleOrder, bundles) && UniqueBundles(bundles)
    ensures forall i, j :: 0 <= i < j < |PendingFrom(bundles, byId)|
              ==> PendingFrom(bundles, byId)[i].bundle < PendingFrom(bundles, byId)[j].bundle
  {
    if bundles != [] {
      assert bundles == [bundles[0]] + bundles[1..];
      SortedCons(BundleOrder, bundles[0], bundles[1..]);
      PendingFromSorted(bundles[1..], byId);
      PendingFromStrict(bundles[1..], byId);
      var rest := PendingFrom(bundles[1..], byId);
      forall i | 0 <= i < |rest| ensures bundles[0].id < rest[i].bundle {
        assert rest[i] in rest;
        var b :| b in bundles[1..] && rest[i] == ToItem(b, byId);
        assert b.id != bundles[0].id;
      }
    }
  }

  /** The bundles that wait, each once and by id, with nothing of the lookup in the statement. */
  lemma PendingIsWaiting(bundles: seq<Bundle>, candidates: seq<Candidate>)
    requires UniqueBundles(bundles)
    ensures var items := Pending(bundles, candidates);
            && (forall i, j :: 0 <= i < j < |items| ==> items[i].bundle < items[j].bundle)
            && (forall id :: HasItem(items, id) <==> SomeWaits(bundles, candidates, id))
  {
    var items := Pending(bundles, candidates);
    SortSorts(BundleOrder, bundles);
    SortKeepsUnique(bundles);
    PendingFromStrict(Sort(BundleOrder, bundles), ById(candidates));
    forall id ensures HasItem(items, id) <==> SomeWaits(bundles, candidates, id) {
      WaitingHasItem(bundles, candidates, id);
    }
  }

  lemma WaitingHasItem(bundles: seq<Bundle>, candidates: seq<Candidate>, id: Id)
    ensures HasItem(Pending(bundles, candidates), id) <==> SomeWaits(bundles, candidates, id)
  {
    var items := Pending(bundles, candidates);
    PendingIsSorted(bundles, candidates);
    if HasItem(items, id) {
      var item :| item in items && item.bundle == id;
      var b :| b in bundles && Selected(b.selected, ById(candidates)) != [] && item == ToItem(b, ById(candidates));
      ItemContents(b, candidates);
      WaitsIff(b, candidates);
    }
    if SomeWaits(bundles, candidates, id) {
      var b :| b in bundles && b.id == id && Waits(b, candidates);
      ItemContents(b, candidates);
      WaitsIff(b, candidates);
      assert ToItem(b, ById(candidates)) in items;
    }
  }

  // ----- One batch

  lemma {:induction false} CandidatesAreThose(items: seq<Item>, id: Id)
    ensures id in Candidates(items) <==> exists item <- items :: id in item.candidates
  {
    if items != [] {
      var n := |items| - 1;
      CandidatesAreThose(items[..n], id);
      assert items == items[..n] + [items[n]];
    }
  }

  /** A bundle of the batch selects the id. */
  ghost predicate SelectedIn(bundles: seq<Bundle>, batch: Batch, id: Id) {
    exists b <- bundles :: b.id in batch.bundles && id in b.selected
  }

  /** The objects that the candidates with these ids modify. */
  ghost function ModifiedObjects(candidates: seq<Candidate>, ids: seq<Id>): (r: set<Id>)
    ensures forall o :: o in r <==> SomeModifies(candidates, ids, o)
  {
    set c <- candidates, o <- c.affected + c.targets | SomeModifies(candidates, ids, o) :: o
  }

  /** Every item of a schedule's batch is the item of the one bundle with its id. */
  lemma ItemOfBundle(bundles: seq<Bundle>, candidates: seq<Candidate>, items: seq<Item>, b: Bundle)
    requires UniqueBundles(bundles) && forall item <- items :: item in Pending(bundles, candidates)
    requires b in bundles && b.id in Bundles(items)
    ensures ToItem(b, ById(candidates)) in items
  {
    var k :| 0 <= k < |items| && items[k].bundle == b.id;
    assert items[k] in items;
    PendingIsSorted(bundles, candidates);
    var b' :| b' in bundles && items[k] == ToItem(b', ById(candidates));
    ItemContents(b', candidates);
    UniqueById(bundles, b, b');
  }

  lemma BundleOfItem(bundles: seq<Bundle>, candidates: seq<Candidate>, items: seq<Item>, item: Item)
    returns (b: Bundle)
    requires item in items && item in Pending(bundles, candidates)
    ensures b in bundles && b.id in Bundles(items) && item == ToItem(b, ById(candidates))
  {
    PendingIsSorted(bundles, candidates);
    b :| b in bundles && item == ToItem(b, ById(candidates));
    var k :| 0 <= k < |items| && items[k] == item;
    ItemContents(b, candidates);
    assert Bundles(items)[k] == b.id;
  }

  lemma SegmentCandidates(bundles: seq<Bundle>, candidates: seq<Candidate>, items: seq<Item>, id: Id)
    requires UniqueBundles(bundles) && forall item <- items :: item in Pending(bundles, candidates)
    ensures id in Candidates(items) <==> Known(candidates, id) && SelectedIn(bundles, BatchOf(items), id)
  {
    CandidatesAreThose(items, id);
    if id in Candidates(items) {
      var item :| item in items && id in item.candidates;
      var b := BundleOfItem(bundles, candidates, items, item);
      InItem(b, candidates, id);
    }
    if Known(candidates, id) && SelectedIn(bundles, BatchOf(items), id) {
      var b :| b in bundles && b.id in Bundles(items) && id in b.selected;
      ItemOfBundle(bundles, candidates, items, b);
      InItem(b, candidates, id);
    }
  }

  lemma InItem(bundle: Bundle, candidates: seq<Candidate>, id: Id)
    ensures id in ToItem(bundle, ById(candidates)).candidates <==> Known(candidates, id) && id in bundle.selected
  {
    SortPermutes(NatLeq, Selected(bundle.selected, ById(candidates)));
    SelectedIsKnown(bundle.selected, candidates, id);
  }

  lemma SegmentObjects(bundles: seq<Bundle>, candidates: seq<Candidate>, items: seq<Item>, o: Id)
    requires UniqueBundles(bundles) && forall item <- items :: item in Pending(bundles, candidates)
    ensures o in Objects(items) <==> SomeModifies(candidates, Candidates(items), o)
  {
    if o in Objects(items) {
      var item :| item in items && o in item.objects;
      var b := BundleOfItem(bundles, candidates, items, item);
      ItemContents(b, candidates);
      var i: nat :| ModifiedBy(candidates, b.selected, o, i);
      SegmentCandidates(bundles, candidates, items, candidates[i].id);
      assert ModifiedBy(candidates, Candidates(items), o, i);
    }
    if i: nat :| ModifiedBy(candidates, Candidates(items), o, i) {
      SegmentCandidates(bundles, candidates, items, candidates[i].id);
      var b :| b in bundles && b.id in Bundles(items) && candidates[i].id in b.selected;
      ItemOfBundle(bundles, candidates, items, b);
      ItemContents(b, candidates);
      assert ModifiedBy(candidates, b.selected, o, i);
      assert o in ToItem(b, ById(candidates)).objects;
    }
  }

  lemma SegmentOf(cfg: Config, items: seq<Item>, batches: seq<Batch>, batch: Batch) returns (segment: seq<Item>)
    requires IsSchedule(cfg, items, batches) && batch in batches
    ensures batch == BatchOf(segment) && forall item <- segment :: item in items
  {
    var cuts: Cuts :| GreedyCuts(cfg, items, cuts) && BatchesOf(items, cuts, batches);
    var k :| 0 <= k < |batches| && batches[k] == batch;
    segment := items[cuts[k].0..cuts[k].1];
  }

  /**
    A batch holds the known candidates that its bundles select, and counts every object that one of them modifies
    once. A repeated candidate id stands for its last candidate; bundle ids are unique.
   */
  lemma BatchHolds(bundles: seq<Bundle>, candidates: seq<Candidate>, cfg: Config, batches: seq<Batch>, batch: Batch)
    requires UniqueBundles(bundles) && IsSchedule(cfg, Pending(bundles, candidates), batches) && batch in batches
    ensures forall id :: id in batch.candidates <==> Known(candidates, id) && SelectedIn(bundles, batch, id)
    ensures batch.objectCount == |ModifiedObjects(candidates, batch.candidates)|
  {
    var segment := SegmentOf(cfg, Pending(bundles, candidates), batches, batch);
    forall id ensures id in batch.candidates <==> Known(candidates, id) && SelectedIn(bundles, batch, id) {
      SegmentCandidates(bundles, candidates, segment, id);
    }
    forall o ensures o in Objects(segment) <==> SomeModifies(candidates, batch.candidates, o) {
      SegmentObjects(bundles, candidates, segment, o);
    }
    assert Objects(segment) == ModifiedObjects(candidates, batch.candidates);
  }
}
