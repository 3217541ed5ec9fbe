// The order in which the native model enumerates entities does not show in a
// complete report.
module FingerprintOrder {
  import opened SketchModel
  import opened Lists
  import opened RevisionTree
  import opened RevisionOutcome
  import opened PlacedEntities
  import opened ModelFingerprint

  // n stores the same entities as m, each list in any order.
  ghost predicate Rearranged(m: Model, n: Model) {
    && multiset(m.root) == multiset(n.root)
    && m.definitions.Keys == n.definitions.Keys
    && forall d :: d in m.definitions ==> RearrangedDefinition(m.definitions[d], n.definitions[d])
  }

  ghost predicate RearrangedDefinition(a: Definition, b: Definition) {
    a.(entities := []) == b.(entities := []) && multiset(a.entities) == multiset(b.entities)
  }

  lemma {:induction false} SelectedPermutes(a: seq<Entity>, b: seq<Entity>)
    requires multiset(a) == multiset(b)
    ensures multiset(Selected(a)) == multiset(Selected(b))
  {
    if a == [] {
      assert |multiset(b)| == 0;
    } else {
      var front, back := MatchHead(a, b);
      SelectedPermutes(a[1..], front + back);
      SelectedAppend(front, back);
      SelectedAppend(front + [a[0]], back);
      SelectedAppend(front, [a[0]]);
      assert Selected([a[0]]) == (if Selectable(a[0]) then [a[0]] else []);
    }
  }

  lemma SameSortOrder(a: seq<Entity>, b: seq<Entity>)
    requires multiset(a) == multiset(b)
    ensures Children(a) == Children(b) && |Selected(a)| == |Selected(b)|
    ensures AllAvailable(Selected(a)) <==> AllAvailable(Selected(b))
    ensures NoDuplicates(Selected(a)) <==> NoDuplicates(Selected(b))
    ensures Identified(Selected(a)) ==> InSortOrder(Selected(a)) == InSortOrder(Selected(b))
  {
    PermutedChildren(a, b);
    SelectedPermutes(a, b);
    assert |Selected(a)| == |multiset(Selected(a))| == |multiset(Selected(b))|;
    IdentitiesPermute(Selected(a), Selected(b));
    if Identified(Selected(a)) {
      InSortOrderSorts(Selected(a));
      InSortOrderSorts(Selected(b));
      IdentitiesPermute(Selected(a), InSortOrder(Selected(a)));
      SortedOrderIsUnique(InSortOrder(Selected(a)), InSortOrder(Selected(b)));
    }
  }

  // Rearranging changes no path and no key.
  lemma SamePaths(m: Model, n: Model, p: seq<DefId>)
    requires Rearranged(m, n)
    ensures RootPath(m, p) <==> RootPath(n, p)
  {
    if p != [] {
      var front := p[..|p| - 1];
      SamePaths(m, n, front);
      SameListAt(m, n, front);
    }
  }

  lemma SameListAt(m: Model, n: Model, p: seq<DefId>)
    requires Rearranged(m, n)
    ensures multiset(ListAt(m, p)) == multiset(ListAt(n, p)) && Children(ListAt(m, p)) == Children(ListAt(n, p))
  {
    if p != [] && p[|p| - 1] in m.definitions {
      assert RearrangedDefinition(m.definitions[p[|p| - 1]], n.definitions[p[|p| - 1]]);
    }
    PermutedChildren(ListAt(m, p), ListAt(n, p));
  }

  lemma SameReach(m: Model, n: Model)
    requires Rearranged(m, n)
    ensures ReachableSet(m) == ReachableSet(n) && (Acyclic(m) <==> Acyclic(n))
  {
    forall p: seq<DefId> ensures RootPath(m, p) <==> RootPath(n, p) {
      SamePaths(m, n, p);
    }
  }

  lemma SameKeys(m: Model, n: Model)
    requires Rearranged(m, n)
    ensures forall d :: KeyOf(m, d) == KeyOf(n, d)
  {
    forall d ensures KeyOf(m, d) == KeyOf(n, d) {
      if d in m.definitions {
        assert RearrangedDefinition(m.definitions[d], n.definitions[d]);
      }
    }
  }

  lemma SameStoredEntities(m: Model, n: Model)
    requires Rearranged(m, n)
    ensures StoredEntities(m) == StoredEntities(n)
  {
    SameReach(m, n);
    SameSortOrder(m.root, n.root);
    forall d | d in m.definitions
      ensures |Selected(m.definitions[d].entities)| == |Selected(n.definitions[d].entities)|
    {
      assert RearrangedDefinition(m.definitions[d], n.definitions[d]);
      SameSortOrder(m.definitions[d].entities, n.definitions[d].entities);
    }
    assert m.definitions.Keys == n.definitions.Keys;
    hide Selected, ReachableSet, Rearranged, Slots;
    SameSlots(m, n, ReachableSet(m));
  }

  lemma SameSlots(m: Model, n: Model, ds: set<DefId>)
    requires m.definitions.Keys == n.definitions.Keys
    requires forall d :: d in m.definitions ==>
      |Selected(m.definitions[d].entities)| == |Selected(n.definitions[d].entities)|
    ensures Slots(m, ds) == Slots(n, ds)
  {
    hide Selected;
  }

  // Below a closed set of well identified lists, both models unfold alike.
  lemma {:induction false} SameUnfolding(m: Model, n: Model, s: set<DefId>, d: DefId, open: set<DefId>)
    requires WellFormed(m) && WellFormed(n) && Rearranged(m, n) && ClosedSet(m, s) && d in s
    requires forall x :: x in s ==> Identified(Selected(m.definitions[x].entities))
    ensures UnfoldDefinition(m, d, open) == UnfoldDefinition(n, d, open)
    decreases m.definitions.Keys - open, 0
  {
    SameKeys(m, n);
    if d !in open {
      var a, b := m.definitions[d].entities, n.definitions[d].entities;
      assert RearrangedDefinition(m.definitions[d], n.definitions[d]);
      SameSortOrder(a, b);
      SortedSelectionChildren(a);
      SameUnfoldedList(m, n, s, InSortOrder(Selected(a)), open + {d});
    }
  }

  lemma {:induction false} SameUnfoldedList(m: Model, n: Model, s: set<DefId>, es: seq<Entity>, open: set<DefId>)
    requires WellFormed(m) && WellFormed(n) && Rearranged(m, n) && ClosedSet(m, s) && Children(es) <= s
    requires forall x :: x in s ==> Identified(Selected(m.definitions[x].entities))
    ensures Children(es) <= n.definitions.Keys && UnfoldList(m, es, open) == UnfoldList(n, es, open)
    decreases m.definitions.Keys - open, |es| + 1
  {
    if es != [] {
      assert es[0] in es;
      assert Children(es[1..]) <= Children(es);
      if ChildOf(es[0]).Some? {
        SameUnfolding(m, n, s, ChildOf(es[0]).value, open);
      }
      SameUnfoldedList(m, n, s, es[1..], open);
    }
  }

  lemma CoveredAreIdentified(m: Model, limit: nat)
    requires WellFormed(m) && Fingerprintable(m, limit)
    ensures Identified(Selected(m.root))
    ensures forall d :: d in ReachableSet(m) ==> Identified(Selected(m.definitions[d].entities))
  {
    assert Covered(m, m.root);
    forall d | d in ReachableSet(m) ensures Identified(Selected(m.definitions[d].entities)) {
      assert Covered(m, m.definitions[d].entities);
    }
  }

  lemma SameUnfoldings(m: Model, n: Model, limit: nat)
    requires WellFormed(m) && WellFormed(n) && Rearranged(m, n) && Fingerprintable(m, limit)
    ensures Unfold(m) == Unfold(n)
    ensures forall d :: d in ReachableSet(m) ==> UnfoldDefinition(m, d, {}) == UnfoldDefinition(n, d, {})
  {
    CoveredAreIdentified(m, limit);
    ReachableIsClosed(m);
    SameSortOrder(m.root, n.root);
    SortedSelectionChildren(m.root);
    SameUnfoldedList(m, n, ReachableSet(m), InSortOrder(Selected(m.root)), {});
    forall d | d in ReachableSet(m) ensures UnfoldDefinition(m, d, {}) == UnfoldDefinition(n, d, {}) {
      SameUnfolding(m, n, ReachableSet(m), d, {});
    }
  }

  lemma RearrangedIsFingerprintable(m: Model, n: Model, limit: nat)
    requires WellFormed(m) && WellFormed(n) && Rearranged(m, n) && Fingerprintable(m, limit)
    ensures Fingerprintable(n, limit)
  {
    SameReach(m, n);
    SameKeys(m, n);
    SameStoredEntities(m, n);
    SameUnfoldings(m, n, limit);
    CoveredAreIdentified(m, limit);
    forall es | Covered(n, es) ensures Identified(Selected(es)) {
      if es == n.root {
        SameSortOrder(m.root, n.root);
      } else {
        var d :| d in ReachableSet(n) && n.definitions[d].entities == es;
        assert RearrangedDefinition(m.definitions[d], n.definitions[d]);
        SameSortOrder(m.definitions[d].entities, es);
      }
    }
    hide Selected, Covered, ReachableSet, Unfold, StoredEntities, Acyclic;
  }

  lemma SameDefinitionReports(m: Model, n: Model, hash: Source -> Digest, r: MerkleReport, q: MerkleReport)
    requires WellFormed(m) && WellFormed(n) && Faithful(m, hash, r) && Faithful(n, hash, q)
    requires ReachableSet(m) == ReachableSet(n)
    requires forall d :: d in ReachableSet(m) ==>
             KeyOf(m, d) == KeyOf(n, d) && UnfoldDefinition(m, d, {}) == UnfoldDefinition(n, d, {})
    requires r.definitionReports.Keys == set d | d in ReachableSet(m) :: KeyOf(m, d)
    requires q.definitionReports.Keys == set d | d in ReachableSet(n) :: KeyOf(n, d)
    ensures r.definitionReports == q.definitionReports
  {
    hide ReachableSet, UnfoldDefinition, KeyOf, WellFormed, Unfold, Occurrences, ListDigest, TreeDigest, TreeCount;
    forall k | k in r.definitionReports
      ensures k in q.definitionReports && q.definitionReports[k] == r.definitionReports[k]
    {
      var d :| d in ReachableSet(m) && KeyOf(m, d) == k;
      assert d in ReachableSet(n);
    }
    forall k | k in q.definitionReports ensures k in r.definitionReports {
      var d :| d in ReachableSet(n) && KeyOf(n, d) == k;
      assert d in ReachableSet(m);
    }
  }

  // Permuting the enumeration of any lists yields the identical report.
  lemma EnumerationOrderDoesNotShow(m: Model, n: Model, hash: Source -> Digest, limit: nat, r: MerkleReport,
                                    q: MerkleReport)
    requires WellFormed(m) && WellFormed(n) && Rearranged(m, n)
    requires Delivered(m, hash, limit, r) && Delivered(n, hash, limit, q) && r.complete
    ensures q == r
  {
    RearrangedIsFingerprintable(m, n, limit);
    SameReach(m, n);
    SameKeys(m, n);
    SameStoredEntities(m, n);
    SameUnfoldings(m, n, limit);
    CompleteParts(m, hash, limit, r);
    CompleteParts(n, hash, limit, q);
    hide Acyclic, ReachableSet, Unfold, UnfoldDefinition, KeyOf, StoredEntities, Rearranged, Fingerprintable,
         Faithful, Truthful;
    SameDefinitionReports(m, n, hash, r, q);
  }

  lemma CompleteParts(m: Model, hash: Source -> Digest, limit: nat, r: MerkleReport)
    requires WellFormed(m) && Delivered(m, hash, limit, r) && r.complete
    ensures Faithful(m, hash, r) && r.blockers == [] && r.rootDigest == ListDigest(hash, Unfold(m))
    ensures r.logicalOccurrences == ListCount(Unfold(m))
    ensures r.uniqueEntities == StoredEntities(m) && r.reachableDefinitions == |ReachableSet(m)|
    ensures r.definitionReports.Keys == set d | d in ReachableSet(m) :: KeyOf(m, d)
  {
    hide ReachableSet, Unfold, UnfoldDefinition, KeyOf, StoredEntities, Acyclic;
  }
}
