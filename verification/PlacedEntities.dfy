// What is stored, placed and identified in a model, read off the fields of its
// entities and definitions alone.
module PlacedEntities {
  import opened Options
  import opened SketchModel
  import opened RevisionTree
  import opened RevisionInvariant
  import opened RevisionOutcome

  ghost predicate PlacedIn(es: seq<Entity>, d: DefId) {
    exists e :: e in es && Places(e, d)
  }

  // Each definition of the chain is placed in the one before it, the first in the root.
  ghost predicate FromRoot(m: Model, p: seq<DefId>) {
    forall i :: 0 <= i < |p| ==> PlacedIn(Above(m, p, i), p[i])
  }

  ghost function Above(m: Model, p: seq<DefId>, i: nat): seq<Entity>
    requires i < |p|
  {
    if i == 0 then m.root else if p[i - 1] in m.definitions then m.definitions[p[i - 1]].entities else []
  }

  ghost predicate ClosedUnderPlacing(m: Model, s: set<DefId>) {
    && (forall d :: PlacedIn(m.root, d) ==> d in s)
    && (forall c, d :: c in s && c in m.definitions && PlacedIn(m.definitions[c].entities, d) ==> d in s)
  }

  // The definitions the root places at any depth: the least closed set.
  ghost function AllPlaced(m: Model): set<DefId> {
    set d | d in m.definitions && forall s :: ClosedUnderPlacing(m, s) ==> d in s
  }

  lemma ChildrenMeans(es: seq<Entity>, d: DefId)
    ensures d in Children(es) <==> PlacedIn(es, d)
  {
    forall e ensures ChildOf(e) == Some(d) <==> Places(e, d) {
      ChildOfMeans(e);
    }
  }

  // Every definition placed anywhere exists.
  lemma WellFormedMeans(m: Model)
    ensures WellFormed(m) <==>
              && (forall d :: PlacedIn(m.root, d) ==> d in m.definitions)
              && forall c, d :: c in m.definitions && PlacedIn(m.definitions[c].entities, d) ==> d in m.definitions
  {
    hide Children, PlacedIn;
    forall es, d ensures d in Children(es) <==> PlacedIn(es, d) {
      ChildrenMeans(es, d);
    }
  }

  lemma RootPathMeans(m: Model, p: seq<DefId>)
    ensures RootPath(m, p) <==> FromRoot(m, p)
  {
    hide Children, PlacedIn, Above, ListAt;
    if p != [] {
      var front, d := p[..|p| - 1], p[|p| - 1];
      RootPathMeans(m, front);
      RootPathStep(m, front, d);
      FromRootExtends(m, front, d);
      ChildrenMeans(ListAt(m, front), d);
      assert p == front + [d];
      hide RootPath, FromRoot;
    }
  }

  lemma RootPathStep(m: Model, p: seq<DefId>, d: DefId)
    ensures RootPath(m, p + [d]) <==> RootPath(m, p) && d in Children(ListAt(m, p))
  {
    var q := p + [d];
    assert q[..|q| - 1] == p && q[|q| - 1] == d;
    hide Children, ListAt;
  }

  lemma FromRootExtends(m: Model, p: seq<DefId>, d: DefId)
    ensures FromRoot(m, p + [d]) <==> FromRoot(m, p) && PlacedIn(ListAt(m, p), d)
  {
    var q := p + [d];
    hide Above, ListAt, PlacedIn;
    AboveExtends(m, p, d, |p|);
    forall i | 0 <= i < |p| ensures Above(m, q, i) == Above(m, p, i) {
      AboveExtends(m, p, d, i);
    }
  }

  lemma AboveExtends(m: Model, p: seq<DefId>, d: DefId, i: nat)
    requires i <= |p|
    ensures Above(m, p + [d], i) == if i < |p| then Above(m, p, i) else ListAt(m, p)
  {
  }

  lemma ReachableMeans(m: Model)
    requires WellFormed(m)
    ensures ReachableSet(m) == AllPlaced(m) && ClosedUnderPlacing(m, AllPlaced(m))
    ensures forall s :: ClosedUnderPlacing(m, s) ==> AllPlaced(m) <= s
  {
    ReachableIsClosed(m);
    assert ClosedUnderPlacing(m, ReachableSet(m)) by {
      hide Children, PlacedIn, ReachableSet;
      forall es, d ensures d in Children(es) <==> PlacedIn(es, d) {
        ChildrenMeans(es, d);
      }
    }
    forall s | ClosedUnderPlacing(m, s) ensures ReachableSet(m) <= s {
      ReachableInEvery(m, s);
    }
    hide ReachableSet, ClosedUnderPlacing;
    forall d | d in ReachableSet(m) ensures d in m.definitions {
    }
  }

  lemma ReachableInEvery(m: Model, s: set<DefId>)
    requires WellFormed(m) && ClosedUnderPlacing(m, s)
    ensures ReachableSet(m) <= s
  {
    hide Children, PlacedIn, ReachableSet;
    forall es, d ensures d in Children(es) <==> PlacedIn(es, d) {
      ChildrenMeans(es, d);
    }
    ReachableInside(m, s * m.definitions.Keys);
  }

  // A chain from the root meets a definition twice.
  ghost predicate HasCycle(m: Model) {
    exists p, i, j :: 0 <= i < j < |p| && FromRoot(m, p) && p[i] == p[j]
  }

  lemma AcyclicMeans(m: Model)
    ensures Acyclic(m) <==> !HasCycle(m)
  {
    forall p ensures RootPath(m, p) <==> FromRoot(m, p) {
      RootPathMeans(m, p);
    }
    hide RootPath, FromRoot;
  }

  // Identities -----------------------------------------------------------------

  // An entity goes by its persistent id, and by its reference where it has none.
  ghost predicate HasIdentity(f: Facts) {
    f.persistentId != "" || f.reference != ""
  }

  ghost predicate SameIdentity(f: Facts, g: Facts) {
    HasIdentity(f) && f.persistentId == g.persistentId && (f.persistentId == "" ==> f.reference == g.reference)
  }

  // The lists of the root and of everything it places.
  ghost predicate IsStored(m: Model, es: seq<Entity>) {
    es == m.root || exists d :: d in AllPlaced(m) && m.definitions[d].entities == es
  }

  ghost predicate HasUnidentified(m: Model) {
    exists es :: IsStored(m, es) && UnidentifiedIn(es)
  }

  ghost predicate UnidentifiedIn(es: seq<Entity>) {
    exists e :: e in es && Counts(e) && !HasIdentity(e.facts)
  }

  ghost predicate HasTwins(m: Model) {
    exists es :: IsStored(m, es) && TwinsIn(es)
  }

  ghost predicate TwinsIn(es: seq<Entity>) {
    exists i, j :: 0 <= i < j < |es| && AreTwins(es[i], es[j])
  }

  ghost predicate AreTwins(e: Entity, f: Entity) {
    Counts(e) && Counts(f) && SameIdentity(e.facts, f.facts)
  }

  lemma AvailableMeans(m: Model)
    requires WellFormed(m)
    ensures EverywhereAvailable(m) <==> !HasUnidentified(m)
  {
    ReachableMeans(m);
    forall es: seq<Entity> ensures AllAvailable(Selected(es)) <==> !UnidentifiedIn(es) {
      AllAvailableMeans(es);
    }
    hide ReachableSet, AllPlaced, Selected, AllAvailable, UnidentifiedIn;
  }

  lemma AllAvailableMeans(es: seq<Entity>)
    ensures AllAvailable(Selected(es)) <==> !UnidentifiedIn(es)
  {
    var chosen := Selected(es);
    forall e ensures e in chosen <==> e in es && Counts(e) {
      SelectedMembers(es, e);
    }
    forall f ensures HasIdentity(f) <==> EntityIdentity(f) != Unavailable {
    }
    hide Selected, Counts, HasIdentity, EntityIdentity;
    if e :| e in es && Counts(e) && !HasIdentity(e.facts) {
      var i :| 0 <= i < |chosen| && chosen[i] == e;
    }
  }

  lemma DistinctMeans(m: Model)
    requires WellFormed(m)
    ensures EverywhereDistinct(m) <==> !HasTwins(m)
  {
    ReachableMeans(m);
    forall es: seq<Entity> ensures NoDuplicates(Selected(es)) <==> !TwinsIn(es) {
      NoDuplicatesMeans(es);
    }
    hide ReachableSet, AllPlaced, Selected, NoDuplicates, TwinsIn;
  }

  lemma {:induction false} NoDuplicatesMeans(es: seq<Entity>)
    ensures NoDuplicates(Selected(es)) <==> !TwinsIn(es)
  {
    if es != [] {
      var x, rest := es[0], es[1..];
      NoDuplicatesMeans(rest);
      assert es == [x] + rest;
      assert Selected(es) == if Counts(x) then [x] + Selected(rest) else Selected(rest);
      DuplicatesBehind(x, Selected(rest));
      TwinsBehind(x, rest);
      TwinsOfSelected(x, rest);
      hide *;
    }
  }

  lemma TwinsOfSelected(x: Entity, es: seq<Entity>)
    ensures (exists y :: y in Selected(es) && SameIdentity(x.facts, y.facts)) <==>
            (exists y :: y in es && Counts(y) && SameIdentity(x.facts, y.facts))
  {
    forall e ensures e in Selected(es) <==> e in es && Counts(e) {
      SelectedMembers(es, e);
    }
    hide Selected, Counts, SameIdentity;
  }

  lemma TwinsBehind(x: Entity, es: seq<Entity>)
    ensures TwinsIn([x] + es) <==>
            TwinsIn(es) || (Counts(x) && exists y :: y in es && Counts(y) && SameIdentity(x.facts, y.facts))
  {
    hide Counts, SameIdentity;
    var all := [x] + es;
    if TwinsIn(es) {
      var i, j :| 0 <= i < j < |es| && AreTwins(es[i], es[j]);
      assert all[i + 1] == es[i] && all[j + 1] == es[j];
    }
    if y: Entity :| Counts(x) && y in es && Counts(y) && SameIdentity(x.facts, y.facts) {
      var j :| 0 <= j < |es| && es[j] == y;
      assert AreTwins(all[0], all[j + 1]);
    }
    if TwinsIn(all) {
      var i, j :| 0 <= i < j < |all| && AreTwins(all[i], all[j]);
      assert all[j] == es[j - 1];
      if i > 0 {
        assert AreTwins(es[i - 1], es[j - 1]);
      }
    }
  }

  lemma DuplicatesBehind(x: Entity, es: seq<Entity>)
    ensures NoDuplicates([x] + es) <==> NoDuplicates(es) && !exists y :: y in es && SameIdentity(x.facts, y.facts)
  {
    var all := [x] + es;
    assert forall i :: 0 <= i < |es| ==> all[i + 1] == es[i];
    forall f, g
      ensures SameIdentity(f, g) <==> EntityIdentity(f) == EntityIdentity(g) && EntityIdentity(f) != Unavailable
    {
    }
    hide SameIdentity, EntityIdentity;
    if NoDuplicates(all) {
      assert NoDuplicates(es) by {
        forall i, j | 0 <= i < j < |es| && EntityIdentity(es[i].facts) == EntityIdentity(es[j].facts)
          ensures EntityIdentity(es[i].facts) == Unavailable
        {
          assert all[i + 1] == es[i] && all[j + 1] == es[j];
        }
      }
      forall y | y in es ensures !SameIdentity(x.facts, y.facts) {
        var j :| 0 <= j < |es| && es[j] == y;
        assert all[0] == x && all[j + 1] == y;
      }
    }
    if NoDuplicates(es) && !exists y :: y in es && SameIdentity(x.facts, y.facts) {
      forall i, j | 0 <= i < j < |all| && EntityIdentity(all[i].facts) == EntityIdentity(all[j].facts)
        ensures EntityIdentity(all[i].facts) == Unavailable
      {
        assert all[j] == es[j - 1] && es[j - 1] in es;
        if i > 0 {
          assert all[i] == es[i - 1];
        }
      }
    }
  }

  // Definition keys --------------------------------------------------------------

  // A definition goes by its persistent id, by its reference where it has none, and
  // by the object itself where it has neither.
  ghost predicate IsKey(m: Model, d: DefId, k: DefKey)
    requires d in m.definitions
  {
    var def := m.definitions[d];
    match k
    case PersistentKey(id) => def.persistentId == Some(id) && id != ""
    case ReferenceKey(id) => !HasPersistentId(def) && def.reference == id && id != ""
    case RuntimeKey(c) => !HasPersistentId(def) && def.reference == "" && c == d
  }

  ghost predicate HasPersistentId(def: Definition) {
    def.persistentId.Some? && def.persistentId.value != ""
  }

  ghost predicate SameId(a: Definition, b: Definition) {
    || (HasPersistentId(a) && a.persistentId == b.persistentId)
    || (!HasPersistentId(a) && !HasPersistentId(b) && a.reference != "" && a.reference == b.reference)
  }

  lemma KeyMeans(m: Model, d: DefId)
    requires d in m.definitions
    ensures forall k :: IsKey(m, d, k) <==> k == KeyOf(m, d)
  {
  }

  // Two definitions share a key exactly when they go by the same id.
  lemma SameKeyMeans(m: Model, d: DefId, n: Model, e: DefId)
    requires d in m.definitions && e in n.definitions
    ensures SameId(m.definitions[d], n.definitions[e]) <==> KeyOf(m, d) == KeyOf(n, e) && !KeyOf(m, d).RuntimeKey?
  {
  }

  ghost predicate HasAmbiguousIds(m: Model) {
    exists d, e :: d in AllPlaced(m) && e in AllPlaced(m) && d != e && SameId(m.definitions[d], m.definitions[e])
  }

  ghost predicate HasUnkeyed(m: Model) {
    exists d :: d in AllPlaced(m) && !HasPersistentId(m.definitions[d]) && m.definitions[d].reference == ""
  }

  lemma KeysMean(m: Model)
    requires WellFormed(m)
    ensures KeysClash(m, ReachableSet(m)) <==> HasAmbiguousIds(m)
    ensures KeysAvailable(m, ReachableSet(m)) <==> !HasUnkeyed(m)
  {
    ReachableMeans(m);
    PlacedIsDefined(m);
    hide ReachableSet, AllPlaced, KeyOf, HasPersistentId, SameId, KeysClash, KeysAvailable;
    KeysOfMean(m, AllPlaced(m));
  }

  lemma KeysOfMean(m: Model, s: set<DefId>)
    requires s <= m.definitions.Keys
    ensures KeysClash(m, s) <==>
            exists d, e :: d in s && e in s && d != e && SameId(m.definitions[d], m.definitions[e])
    ensures KeysAvailable(m, s) <==>
            !exists d :: d in s && !HasPersistentId(m.definitions[d]) && m.definitions[d].reference == ""
  {
    forall d, e | d in s && e in s && d != e
      ensures SameId(m.definitions[d], m.definitions[e]) <==> KeyOf(m, d) == KeyOf(m, e)
    {
      SameKeyMeans(m, d, m, e);
      KeyMeans(m, d);
      KeyMeans(m, e);
    }
    forall d | d in s
      ensures KeyOf(m, d).RuntimeKey? <==> !HasPersistentId(m.definitions[d]) && m.definitions[d].reference == ""
    {
      KeyMeans(m, d);
    }
    hide KeyOf, HasPersistentId, SameId;
  }

  lemma PlacedIsDefined(m: Model)
    ensures AllPlaced(m) <= m.definitions.Keys
  {
  }

  // Stored entities ----------------------------------------------------------------

  // The places of a list that count.
  ghost function CountedPlaces(es: seq<Entity>): set<nat> {
    set i: nat | i < |es| && Counts(es[i])
  }

  ghost function CountedIn(m: Model, ds: set<DefId>): set<(DefId, nat)> {
    set d, i: nat | d in ds && d in m.definitions && i < |m.definitions[d].entities|
                    && Counts(m.definitions[d].entities[i]) :: (d, i)
  }

  lemma {:induction false} SelectedSize(es: seq<Entity>)
    ensures |Selected(es)| == |CountedPlaces(es)|
  {
    if es == [] {
      assert CountedPlaces(es) == {};
    } else {
      var front, last := es[..|es| - 1], es[|es| - 1];
      SelectedSize(front);
      SelectedAppend(front, [last]);
      assert es == front + [last];
      assert Selected([last]) == if Counts(last) then [last] else [];
      CountedBehind(front, last);
      hide Selected, CountedPlaces;
    }
  }

  lemma CountedBehind(front: seq<Entity>, last: Entity)
    ensures |CountedPlaces(front + [last])| == |CountedPlaces(front)| + if Counts(last) then 1 else 0
  {
    hide Counts;
    assert CountedPlaces(front + [last]) == CountedPlaces(front) + if Counts(last) then {|front|} else {};
  }

  lemma SelectedAppend(a: seq<Entity>, b: seq<Entity>)
    ensures Selected(a + b) == Selected(a) + Selected(b)
  {
    if a == [] {
      assert a + b == b;
    } else {
      assert (a + b)[1..] == a[1..] + b;
      SelectedAppend(a[1..], b);
    }
  }

  ghost function Paired(d: DefId, s: set<nat>): set<(DefId, nat)> {
    set i | i in s :: (d, i)
  }

  lemma PairedSize(d: DefId, s: set<nat>)
    ensures |Paired(d, s)| == |s|
  {
    if i :| i in s {
      PairedSize(d, s - {i});
      assert Paired(d, s) == Paired(d, s - {i}) + {(d, i)};
      assert |s| == |s - {i}| + 1;
    } else {
      assert Paired(d, s) == {} && s == {};
    }
  }

  lemma {:induction false} CountedAreSlots(m: Model, ds: set<DefId>)
    requires ds <= m.definitions.Keys
    ensures |CountedIn(m, ds)| == |Slots(m, ds)|
    decreases |ds|
  {
    if d :| d in ds {
      var rest := ds - {d};
      CountedAreSlots(m, rest);
      CountedOfOne(m, d);
      SlotsOfOne(m, d);
      SlotsSplit(m, d, rest);
      assert CountedIn(m, ds) == CountedIn(m, {d}) + CountedIn(m, rest);
      assert CountedIn(m, {d}) !! CountedIn(m, rest);
      assert ds == {d} + rest;
    } else {
      assert CountedIn(m, ds) == {} && Slots(m, ds) == {};
    }
  }

  lemma CountedOfOne(m: Model, d: DefId)
    requires d in m.definitions
    ensures |CountedIn(m, {d})| == |Selected(m.definitions[d].entities)|
  {
    var es := m.definitions[d].entities;
    SelectedSize(es);
    PairedSize(d, CountedPlaces(es));
    assert CountedIn(m, {d}) == Paired(d, CountedPlaces(es));
  }

  // Every counting entity of the root and of what it places, once each.
  lemma StoredMeans(m: Model)
    requires WellFormed(m)
    ensures StoredEntities(m) == |CountedPlaces(m.root)| + |CountedIn(m, AllPlaced(m))|
  {
    ReachableMeans(m);
    PlacedIsDefined(m);
    hide ReachableSet, AllPlaced, Selected, Slots, CountedPlaces, CountedIn;
    SelectedSize(m.root);
    CountedAreSlots(m, AllPlaced(m));
  }
}
