// What a finished fingerprint run says about the model it traversed.
module RevisionOutcome {
  import opened Options
  import opened SketchModel
  import opened RevisionTree
  import opened RevisionInvariant
  import opened RevisionSteps
  import opened RevisionProgress
  import opened ModelRevision

  // The conditions a caller could check on the model --------------------------

  // The entity lists a fingerprint has to cover.
  ghost predicate Covered(m: Model, es: seq<Entity>) {
    es == m.root || exists d :: d in ReachableSet(m) && m.definitions[d].entities == es
  }

  ghost predicate EverywhereAvailable(m: Model) {
    forall es :: Covered(m, es) ==> AllAvailable(Selected(es))
  }

  ghost predicate EverywhereDistinct(m: Model) {
    forall es :: Covered(m, es) ==> NoDuplicates(Selected(es))
  }

  // Every selectable entity of a reachable definition, as definition and place.
  ghost function Slots(m: Model, ds: set<DefId>): set<(DefId, nat)> {
    set d, i: nat | d in ds && d in m.definitions && i < |Selected(m.definitions[d].entities)| :: (d, i)
  }

  // How many entities are stored, each counted once however often it is placed.
  ghost function StoredEntities(m: Model): nat {
    |Selected(m.root)| + |Slots(m, ReachableSet(m))|
  }

  // How many there are when every placement is written out.
  ghost function Occurrences(m: Model): nat
    requires WellFormed(m)
  {
    ListCount(Unfold(m))
  }

  ghost predicate Fingerprintable(m: Model, limit: nat)
    requires WellFormed(m)
  {
    && EverywhereAvailable(m) && EverywhereDistinct(m)
    && !KeysClash(m, ReachableSet(m)) && KeysAvailable(m, ReachableSet(m))
    && Acyclic(m)
    && StoredEntities(m) <= limit && Occurrences(m) <= SAFE_INTEGER_MAX
  }

  ghost predicate Countable(m: Model)
    requires WellFormed(m)
  {
    forall es :: Covered(m, es) && Children(es) <= m.definitions.Keys ==> Total(m, es) <= SAFE_INTEGER_MAX
  }

  ghost function Faults(m: Model): set<Blocker>
    requires WellFormed(m)
  {
    (if EverywhereAvailable(m) then {} else {EntityIdentityUnavailable})
    + (if EverywhereDistinct(m) then {} else {DuplicateEntityIdentity})
    + (if KeysNeverRepeat(m) then {} else {RecursiveDefinitionCycle})
    + (if Countable(m) then {} else {LogicalOccurrenceCountOverflow})
  }

  ghost function ContextOf(m: Model, hash: Source -> Digest, limit: nat): Context
    requires WellFormed(m)
  {
    Context(m, hash, limit, ReachableSet(m), Faults(m))
  }

  lemma ReachableIsClosed(m: Model)
    requires WellFormed(m)
    ensures ClosedSet(m, ReachableSet(m)) && Children(m.root) <= ReachableSet(m)
  {
    forall d, e | d in ReachableSet(m) && e in Children(m.definitions[d].entities) ensures e in ReachableSet(m) {
      ReachableChild(m, d, e);
    }
    forall d | d in Children(m.root) ensures d in ReachableSet(m) {
      RootPathExtend(m, [], d);
    }
  }

  lemma ContextIsProper(m: Model, hash: Source -> Digest, limit: nat)
    requires WellFormed(m)
    ensures Proper(ContextOf(m, hash, limit)) && FaultsNoted(ContextOf(m, hash, limit), m.root)
    ensures Children(m.root) <= ReachableSet(m)
  {
    ReachableIsClosed(m);
    forall d | d in ReachableSet(m) ensures Covered(m, m.definitions[d].entities) {
    }
  }

  lemma ReachableInside(m: Model, s: set<DefId>)
    requires Children(m.root) <= s && ClosedSet(m, s)
    ensures ReachableSet(m) <= s
  {
    forall d | d in ReachableSet(m) ensures d in s {
      var p: seq<DefId> :| RootPath(m, p) && p != [] && p[|p| - 1] == d;
      PathInsideClosedSet(m, p, s);
    }
  }

  // Closing a run ---------------------------------------------------------------

  // What the traversal of the root list leaves behind.
  ghost predicate Closed(c: Context, s: RunState) {
    && Inv(c, s, {}) && Placements(c, s, {}, c.m.root) && ListOk(s, Selected(c.m.root))
    && c.reach == ReachableSet(c.m) && Children(c.m.root) <= c.m.definitions.Keys
  }

  ghost function Elements(ds: seq<DefId>): set<DefId> {
    set d | d in ds
  }

  ghost function FinishedSet(s: RunState): set<DefId> {
    Elements(s.finished)
  }

  // Without a clash of keys exactly the reachable definitions were finished.
  lemma FinishedIsReachable(c: Context, s: RunState)
    requires Closed(c, s) && DuplicateDefinitionIdentity !in s.blockers
    ensures FinishedSet(s) == ReachableSet(c.m) == s.keysByObject.Keys
  {
    hide StatusOk, CausesOk, ReportsOk, ListOk, FaultsNoted, KeyOf, Children, Selected;
    forall p | p in s.keysByObject && KeyOf(c.m, p) in s.reports ensures p in FinishedSet(s) {
      var j :| 0 <= j < |s.finished| && KeyOf(c.m, s.finished[j]) == KeyOf(c.m, p);
      assert s.finished[j] in s.keysByObject.Keys && p in s.keysByObject.Keys;
    }
    forall p | p in Children(c.m.root) ensures p in FinishedSet(s) {
      assert PlacementOk(c, s, p, {}, |s.finished|);
    }
    forall d, p | d in FinishedSet(s) && d in c.m.definitions && p in Children(c.m.definitions[d].entities)
      ensures p in FinishedSet(s)
    {
      var i :| 0 <= i < |s.finished| && s.finished[i] == d;
      assert PlacedOk(c, s, i, {});
      assert PlacementOk(c, s, p, {}, i);
    }
    ReachableInside(c.m, FinishedSet(s));
  }

  lemma ClashIsReported(c: Context, s: RunState)
    requires Closed(c, s)
    ensures DuplicateDefinitionIdentity in s.blockers <==> KeysClash(c.m, ReachableSet(c.m))
  {
    if DuplicateDefinitionIdentity !in s.blockers {
      FinishedIsReachable(c, s);
    }
  }

  // Where a definition stands in the order of finishing.
  ghost function Place(s: RunState, d: DefId): (i: nat)
    requires d in s.finished
    ensures i < |s.finished| && s.finished[i] == d
  {
    var i :| 0 <= i < |s.finished| && s.finished[i] == d; i
  }

  lemma FinishedPlacesEarlier(c: Context, s: RunState)
    requires Closed(c, s) && Sound(s)
    ensures PlacesEarlier(c.m, s.finished)
    ensures forall p :: p in Children(c.m.root) ==> p in s.finished
  {
    hide StatusOk, CausesOk, ReportsOk, ListOk, FaultsNoted, KeyOf, Selected, ReachableSet, Children;
    forall i, p | 0 <= i < |s.finished| && p in Children(c.m.definitions[s.finished[i]].entities)
      ensures p in s.finished[..i]
    {
      assert PlacedOk(c, s, i, {});
      assert PlacementOk(c, s, p, {}, i);
      PlacedIsFinished(c, s, {}, p, i);
    }
    forall p | p in Children(c.m.root) ensures p in s.finished {
      assert PlacementOk(c, s, p, {}, |s.finished|);
      PlacedIsFinished(c, s, {}, p, |s.finished|);
    }
  }

  lemma SoundRunsAreAcyclic(c: Context, s: RunState)
    requires Closed(c, s) && Sound(s)
    ensures Acyclic(c.m)
  {
    FinishedPlacesEarlier(c, s);
    OrderedIsAcyclic(c.m, s.finished);
  }

  // Without a clash of keys a repeated key is a repeated definition.
  lemma CycleIsReported(c: Context, s: RunState)
    requires Closed(c, s) && c.faults == Faults(c.m) && !KeysClash(c.m, ReachableSet(c.m))
    ensures RecursiveDefinitionCycle in s.blockers <==> !Acyclic(c.m)
  {
    ClashIsReported(c, s);
    if RecursiveDefinitionCycle !in s.blockers {
      SoundRunsAreAcyclic(c, s);
    } else {
      assert !KeysNeverRepeat(c.m);
      assert WellFormed(c.m);
      hide Closed, KeysClash, ReachableSet;
      RepeatedKeyIsACycle(c.m);
    }
  }

  // Where keys tell definitions apart, a path that meets a key twice is a cycle.
  lemma RepeatedKeyIsACycle(m: Model)
    requires WellFormed(m) && !KeysClash(m, ReachableSet(m)) && !KeysNeverRepeat(m)
    ensures !Acyclic(m)
  {
    var p: seq<DefId> :| RootPath(m, p) && Repeats(KeysAlong(m, p));
    hide KeyOf, RootPath;
    var i, j :| 0 <= i < j < |p| && KeysAlong(m, p)[i] == KeysAlong(m, p)[j];
    OnlyReachable(m, p);
    assert p[i] in ReachableSet(m) && p[j] in ReachableSet(m);
    assert Repeats(p);
  }

  lemma OnlyReachable(m: Model, p: seq<DefId>)
    requires WellFormed(m) && RootPath(m, p)
    ensures forall i :: 0 <= i < |p| ==> p[i] in ReachableSet(m)
  {
    ReachableIsClosed(m);
    hide ReachableSet, RootPath;
    PathInsideClosedSet(m, p, ReachableSet(m));
  }

  // Counting -------------------------------------------------------------------

  lemma SlotsOfOne(m: Model, d: DefId)
    requires d in m.definitions
    ensures |Slots(m, {d})| == |Selected(m.definitions[d].entities)|
  {
    SlotsBelow(d, |Selected(m.definitions[d].entities)|);
    assert Slots(m, {d}) == set i: nat | i < |Selected(m.definitions[d].entities)| :: (d, i);
  }

  lemma SlotsBelow(d: DefId, n: nat)
    ensures |set i: nat | i < n :: (d, i)| == n
  {
    if n > 0 {
      SlotsBelow(d, n - 1);
      assert (set i: nat | i < n :: (d, i)) == (set i: nat | i < n - 1 :: (d, i)) + {(d, n - 1)};
    }
  }

  lemma SlotsSplit(m: Model, d: DefId, rest: set<DefId>)
    requires d !in rest
    ensures |Slots(m, {d} + rest)| == |Slots(m, {d})| + |Slots(m, rest)|
  {
    assert Slots(m, {d} + rest) == Slots(m, {d}) + Slots(m, rest);
    assert Slots(m, {d}) !! Slots(m, rest);
  }

  // Definitions finished once each are stored once each.
  lemma {:induction false} SizesCountSlots(m: Model, ds: seq<DefId>)
    requires forall i :: 0 <= i < |ds| ==> ds[i] in m.definitions
    requires forall i, j :: 0 <= i < j < |ds| ==> ds[i] != ds[j]
    ensures Sizes(m, ds) == |Slots(m, Elements(ds))| && |ds| == |Elements(ds)|
  {
    hide Slots;
    if ds == [] {
      assert Elements(ds) == {};
      NoSlots(m);
    } else {
      var rest := Elements(ds[1..]);
      SizesCountSlots(m, ds[1..]);
      assert Elements(ds) == {ds[0]} + rest && ds[0] !in rest;
      SlotsOfOne(m, ds[0]);
      SlotsSplit(m, ds[0], rest);
    }
  }

  lemma NoSlots(m: Model)
    ensures |Slots(m, {})| == 0
  {
    assert Slots(m, {}) == {};
  }

  lemma FinishedOnce(c: Context, s: RunState)
    requires Closed(c, s)
    ensures forall i :: 0 <= i < |s.finished| ==> s.finished[i] in c.m.definitions
    ensures forall i, j :: 0 <= i < j < |s.finished| ==> s.finished[i] != s.finished[j]
  {
    forall i, j | 0 <= i < j < |s.finished| ensures s.finished[i] != s.finished[j] {
      assert KeyOf(c.m, s.finished[i]) != KeyOf(c.m, s.finished[j]);
    }
  }

  lemma StoredEntitiesAreCounted(c: Context, s: RunState)
    requires Closed(c, s) && DuplicateDefinitionIdentity !in s.blockers
    requires s.reachableDefinitions == |s.finished|
    requires s.uniqueEntities == |Selected(c.m.root)| + Sizes(c.m, s.finished)
    ensures s.uniqueEntities == StoredEntities(c.m) && s.reachableDefinitions == |ReachableSet(c.m)|
  {
    hide Closed, ReachableSet, Selected, Slots, Sizes;
    FinishedIsReachable(c, s);
    FinishedOnce(c, s);
    SizesCountSlots(c.m, s.finished);
  }

  // A list counts at least what any definition placed in it counts.
  lemma CountAtLeastPlaced(m: Model, es: seq<Entity>, d: DefId)
    requires WellFormed(m) && Children(es) <= m.definitions.Keys && d in Children(es)
    ensures TreeCount(UnfoldDefinition(m, d, {})) < CountOf(m, es, {})
  {
    assert es[0] in es;
    assert Children(es[1..]) <= Children(es);
    var ts := UnfoldList(m, es, {});
    assert ts[0] == UnfoldEntity(m, es[0], {}) && ts[1..] == UnfoldList(m, es[1..], {});
    assert CountOf(m, es, {}) == EntryCount(ts[0]) + CountOf(m, es[1..], {});
    if ChildOf(es[0]) != Some(d) {
      assert d in Children(es[1..]) by {
        assert es == [es[0]] + es[1..];
      }
      CountAtLeastPlaced(m, es[1..], d);
    }
  }

  // Below a sound run, unfolding a definition does not depend on what is open.
  lemma FinishedUnfolds(c: Context, s: RunState, d: DefId)
    requires Closed(c, s) && Sound(s) && d in s.finished
    ensures d in c.m.definitions && Children(c.m.definitions[d].entities) <= c.m.definitions.Keys
    ensures TreeCount(UnfoldDefinition(c.m, d, {})) == Total(c.m, c.m.definitions[d].entities)
  {
    hide StatusOk, CausesOk, ReportsOk, ListOk, FaultsNoted, KeyOf, Selected, ReachableSet;
    var i := Place(s, d);
    var f := Elements(s.finished[..i]);
    FinishedPlacesEarlier(c, s);
    assert forall k :: 0 <= k < i ==> s.finished[..i][k] == s.finished[k];
    forall x, p | x in f && x in c.m.definitions && p in Children(c.m.definitions[x].entities) ensures p in f {
      var k :| 0 <= k < i && s.finished[k] == x;
      assert p in s.finished[..k];
    }
    FinishedOnce(c, s);
    UnfoldAboveClosedSet(c.m, d, f);
  }

  lemma RootCountsMost(c: Context, s: RunState, p: seq<DefId>)
    requires Closed(c, s) && Sound(s) && RootPath(c.m, p)
    ensures Children(ListAt(c.m, p)) <= c.m.definitions.Keys && Total(c.m, ListAt(c.m, p)) <= Total(c.m, c.m.root)
  {
    if p != [] {
      var front, d := p[..|p| - 1], p[|p| - 1];
      RootCountsMost(c, s, front);
      FinishedPlacesEarlier(c, s);
      PathDescends(c.m, s.finished, p);
      FinishedUnfolds(c, s, d);
      var es := ListAt(c.m, front);
      SortedSelectionChildren(es);
      CountAtLeastPlaced(c.m, InSortOrder(Selected(es)), d);
    }
  }

  lemma CoveredCountsLess(c: Context, s: RunState, es: seq<Entity>)
    requires Closed(c, s) && Sound(s) && Covered(c.m, es)
    ensures Children(es) <= c.m.definitions.Keys && Total(c.m, es) <= Total(c.m, c.m.root)
  {
    hide Closed, Sound, Total, Children;
    if es == c.m.root {
      RootCountsMost(c, s, []);
    } else {
      var d :| d in ReachableSet(c.m) && c.m.definitions[d].entities == es;
      var p: seq<DefId> :| RootPath(c.m, p) && p != [] && p[|p| - 1] == d;
      RootCountsMost(c, s, p);
    }
  }

  lemma OverflowIsReported(c: Context, s: RunState, count: nat)
    requires Closed(c, s) && Sound(s) && c.faults == Faults(c.m) && CountOk(s, count, Occurrences(c.m))
    ensures LogicalOccurrenceCountOverflow in s.blockers <==> Occurrences(c.m) > SAFE_INTEGER_MAX
  {
    FaultsHaveCauses(c, s);
    hide Closed, Sound, Faults, Total, Covered;
    if LogicalOccurrenceCountOverflow in s.blockers {
      var es :| Covered(c.m, es) && Children(es) <= c.m.definitions.Keys && Total(c.m, es) > SAFE_INTEGER_MAX;
      CoveredCountsLess(c, s, es);
    }
  }

  lemma CoveredListOk(c: Context, s: RunState, es: seq<Entity>)
    requires Closed(c, s) && DuplicateDefinitionIdentity !in s.blockers && Covered(c.m, es)
    ensures ListOk(s, Selected(es))
  {
    if es != c.m.root {
      FinishedIsReachable(c, s);
      var d :| d in ReachableSet(c.m) && c.m.definitions[d].entities == es;
      assert d in FinishedSet(s);
      assert StoredOk(c, s, s.finished[Place(s, d)]);
    }
  }

  lemma ListFaultsAreReported(c: Context, s: RunState)
    requires Closed(c, s) && c.faults == Faults(c.m) && DuplicateDefinitionIdentity !in s.blockers
    ensures EntityIdentityUnavailable in s.blockers <==> !EverywhereAvailable(c.m)
    ensures DuplicateEntityIdentity in s.blockers <==> !EverywhereDistinct(c.m)
  {
    FaultsHaveCauses(c, s);
    hide Closed, Covered, Selected, AllAvailable, NoDuplicates;
    forall es | Covered(c.m, es) ensures ListOk(s, Selected(es)) {
      CoveredListOk(c, s, es);
    }
  }

  lemma FaultsHaveCauses(c: Context, s: RunState)
    requires Closed(c, s) && c.faults == Faults(c.m)
    ensures EntityIdentityUnavailable in s.blockers ==> !EverywhereAvailable(c.m)
    ensures DuplicateEntityIdentity in s.blockers ==> !EverywhereDistinct(c.m)
    ensures RecursiveDefinitionCycle in s.blockers ==> !KeysNeverRepeat(c.m)
    ensures LogicalOccurrenceCountOverflow in s.blockers && Sound(s) ==> !Countable(c.m)
  {
    hide Proper, FinishedOk, ReportsOk, RecordOk, KeysNoted, Placements, ListOk;
    hide EverywhereAvailable, EverywhereDistinct, KeysNeverRepeat, Countable;
  }
}
