// What two models with the same fingerprint have in common.
module FingerprintContents {
  import opened Options
  import opened Lists
  import opened SketchModel
  import opened RevisionTree
  import opened RevisionInvariant
  import opened RevisionOutcome
  import opened PlacedEntities
  import opened ModelFingerprint

  // An entity as a list shows it: its facts and the key of what it places.
  datatype Line = Line(facts: Facts, placed: Option<DefKey>)

  ghost function LineOf(m: Model, e: Entity): Line {
    Line(e.facts,
         if e.definition.Some? && Places(e, e.definition.value) then Some(KeyOf(m, e.definition.value)) else None)
  }

  ghost function Contents(m: Model, es: seq<Entity>): multiset<Line> {
    if es == [] then multiset{}
    else (if Counts(es[0]) then multiset{LineOf(m, es[0])} else multiset{}) + Contents(m, es[1..])
  }

  ghost predicate SameDefinition(m: Model, d: DefId, n: Model, e: DefId)
    requires d in m.definitions && e in n.definitions
  {
    var a, b := m.definitions[d], n.definitions[e];
    && a.name == b.name && a.persistentId == b.persistentId && a.classification == b.classification
    && Contents(m, a.entities) == Contents(n, b.entities)
  }

  // The root shows the same, and so does every placed definition as the one of the same
  // id. Objects, sharing and the order of enumeration are free.
  ghost predicate SameContents(m: Model, n: Model) {
    && Contents(m, m.root) == Contents(n, n.root)
    && forall d, e :: d in AllPlaced(m) && e in AllPlaced(n) && SameId(m.definitions[d], n.definitions[e])
                      ==> SameDefinition(m, d, n, e)
  }

  // Lines of lists and of unfolded lists ------------------------------------------

  ghost function Lines(m: Model, es: seq<Entity>): seq<Line> {
    seq(|es|, i requires 0 <= i < |es| => LineOf(m, es[i]))
  }

  ghost function TreeLines(ts: seq<EntityTree>): seq<Line> {
    seq(|ts|, i requires 0 <= i < |ts| =>
      match ts[i]
      case Leaf(facts) => Line(facts, None)
      case Placement(facts, child) => Line(facts, Some(child.key)))
  }

  lemma LineMeans(m: Model, e: Entity)
    ensures LineOf(m, e) == Line(e.facts, if ChildOf(e).Some? then Some(KeyOf(m, ChildOf(e).value)) else None)
  {
  }

  lemma {:induction false} UnfoldedAt(m: Model, es: seq<Entity>, open: set<DefId>, i: nat)
    requires WellFormed(m) && Children(es) <= m.definitions.Keys && i < |es|
    ensures ChildOf(es[i]).Some? ==> ChildOf(es[i]).value in m.definitions && ChildOf(es[i]).value in Children(es)
    ensures UnfoldList(m, es, open)[i] == UnfoldEntity(m, es[i], open)
    decreases i
  {
    assert es[0] in es && es[i] in es && Children(es[1..]) <= Children(es);
    if i > 0 {
      UnfoldedAt(m, es[1..], open, i - 1);
    }
  }

  lemma UnfoldedLines(m: Model, es: seq<Entity>, open: set<DefId>)
    requires WellFormed(m) && Children(es) <= m.definitions.Keys
    ensures TreeLines(UnfoldList(m, es, open)) == Lines(m, es)
  {
    forall i | 0 <= i < |es| ensures TreeLines(UnfoldList(m, es, open))[i] == LineOf(m, es[i]) {
      UnfoldedAt(m, es, open, i);
      LineMeans(m, es[i]);
      hide WellFormed, UnfoldList, LineOf, ChildOf;
    }
  }

  lemma {:induction false} ContentsOfSelected(m: Model, es: seq<Entity>)
    ensures Contents(m, es) == multiset(Lines(m, Selected(es)))
  {
    if es != [] {
      ContentsOfSelected(m, es[1..]);
      LinesBehind(m, es[0], Selected(es[1..]));
      assert Selected(es) == if Counts(es[0]) then [es[0]] + Selected(es[1..]) else Selected(es[1..]);
      hide LineOf, Lines, Counts;
    }
  }

  lemma LinesBehind(m: Model, e: Entity, es: seq<Entity>)
    ensures multiset(Lines(m, [e] + es)) == multiset{LineOf(m, e)} + multiset(Lines(m, es))
  {
    hide LineOf;
    assert Lines(m, [e] + es) == [LineOf(m, e)] + Lines(m, es);
  }

  lemma {:induction false} LinesPermute(m: Model, a: seq<Entity>, b: seq<Entity>)
    requires multiset(a) == multiset(b)
    ensures multiset(Lines(m, a)) == multiset(Lines(m, b))
  {
    hide LineOf;
    if a == [] {
      assert |multiset(b)| == 0;
    } else {
      var front, back := MatchHead(a, b);
      LinesPermute(m, a[1..], front + back);
      assert Lines(m, a) == [LineOf(m, a[0])] + Lines(m, a[1..]);
      assert Lines(m, front + back) == Lines(m, front) + Lines(m, back);
      assert Lines(m, b) == Lines(m, front) + [LineOf(m, a[0])] + Lines(m, back);
    }
  }

  // An unfolded list shows the contents of the list.
  lemma UnfoldedContents(m: Model, es: seq<Entity>, open: set<DefId>)
    requires WellFormed(m) && Children(es) <= m.definitions.Keys
    ensures multiset(TreeLines(UnfoldSorted(m, es, open))) == Contents(m, es)
    ensures TreeLines(UnfoldSorted(m, es, open)) == Lines(m, InSortOrder(Selected(es)))
  {
    var sorted := InSortOrder(Selected(es));
    SortedSelectionChildren(es);
    UnfoldedLines(m, sorted, open);
    InSortOrderSorts(Selected(es));
    LinesPermute(m, sorted, Selected(es));
    ContentsOfSelected(m, es);
  }

  // Every placed definition is unfolded somewhere ----------------------------------

  ghost predicate Inside(t: DefinitionTree, ts: seq<EntityTree>) {
    exists i :: 0 <= i < |ts| && ts[i].Placement? && Holds(ts[i].child, t)
  }

  ghost predicate Holds(u: DefinitionTree, t: DefinitionTree) {
    u == t || (u.DefinitionNode?
               && exists i :: 0 <= i < |u.entries| && u.entries[i].Placement? && Holds(u.entries[i].child, t))
  }

  lemma {:induction false} HoldsThrough(u: DefinitionTree, v: DefinitionTree, t: DefinitionTree)
    requires Holds(u, v) && Holds(v, t)
    ensures Holds(u, t)
  {
    if u != v {
      var i :| 0 <= i < |u.entries| && u.entries[i].Placement? && Holds(u.entries[i].child, v);
      HoldsThrough(u.entries[i].child, v, t);
    }
  }

  lemma InsideInside(t: DefinitionTree, u: DefinitionTree, ts: seq<EntityTree>)
    requires Inside(u, ts) && u.DefinitionNode? && Inside(t, u.entries)
    ensures Inside(t, ts)
  {
    var i :| 0 <= i < |ts| && ts[i].Placement? && Holds(ts[i].child, u);
    HoldsThrough(ts[i].child, u, t);
  }

  lemma ChildIsInside(m: Model, es: seq<Entity>, open: set<DefId>, d: DefId)
    requires WellFormed(m) && Children(es) <= m.definitions.Keys && d in Children(es)
    ensures Inside(UnfoldDefinition(m, d, open), UnfoldSorted(m, es, open))
  {
    var sorted := InSortOrder(Selected(es));
    SortedSelectionChildren(es);
    assert d in Children(sorted);
    var e :| e in sorted && ChildOf(e) == Some(d);
    var i: nat :| i < |sorted| && sorted[i] == e;
    UnfoldedAt(m, sorted, open, i);
  }

  // The unfolding of a definition below a path from the root.
  lemma UnfoldedNode(m: Model, p: seq<DefId>, d: DefId)
    requires WellFormed(m) && d in m.definitions && d !in p
    ensures Children(m.definitions[d].entities) <= m.definitions.Keys
    ensures var def := m.definitions[d];
            UnfoldDefinition(m, d, Elements(p)) ==
            DefinitionNode(KeyOf(m, d), def.name, def.persistentId, def.classification,
              UnfoldSorted(m, def.entities, Elements(p + [d])))
  {
    assert Elements(p + [d]) == Elements(p) + {d};
    SortedSelectionChildren(m.definitions[d].entities);
  }

  lemma {:induction false} PlacedIsInside(m: Model, p: seq<DefId>, d: DefId)
    requires WellFormed(m) && Acyclic(m) && RootPath(m, p) && d in Children(ListAt(m, p)) && d in m.definitions
    ensures Inside(UnfoldDefinition(m, d, Elements(p)), Unfold(m))
    decreases |p|
  {
    hide Acyclic, Inside, UnfoldDefinition, UnfoldSorted, Children, InSortOrder;
    if p == [] {
      assert Elements(p) == {};
      ChildIsInside(m, m.root, {}, d);
    } else {
      var front, c := p[..|p| - 1], p[|p| - 1];
      assert front + [c] == p;
      assert c in m.definitions by {
        hide RootPath;
        DefinedAt(m, p, d);
      }
      PlacedIsInside(m, front, c);
      NoCycleAt(m, front, c);
      UnfoldedNode(m, front, c);
      ChildIsInside(m, ListAt(m, p), Elements(p), d);
      InsideInside(UnfoldDefinition(m, d, Elements(p)), UnfoldDefinition(m, c, Elements(front)), Unfold(m));
    }
  }

  lemma DefinedAt(m: Model, p: seq<DefId>, d: DefId)
    requires p != [] && d in Children(ListAt(m, p))
    ensures p[|p| - 1] in m.definitions
  {
  }

  // Whatever is unfolded somewhere is a placed definition.
  lemma {:induction false} InsideIsPlaced(m: Model, p: seq<DefId>, es: seq<Entity>, t: DefinitionTree)
    returns (q: seq<DefId>, d: DefId)
    requires WellFormed(m) && RootPath(m, p) && es == ListAt(m, p) && Children(es) <= m.definitions.Keys
    requires Inside(t, UnfoldSorted(m, es, Elements(p)))
    ensures RootPath(m, q) && d in Children(ListAt(m, q)) && d in m.definitions
    ensures t == UnfoldDefinition(m, d, Elements(q))
    decreases m.definitions.Keys - Elements(p)
  {
    hide RootPath, ListAt;
    var sorted, ts := InSortOrder(Selected(es)), UnfoldSorted(m, es, Elements(p));
    SortedSelectionChildren(es);
    var i :| 0 <= i < |ts| && ts[i].Placement? && Holds(ts[i].child, t);
    UnfoldedAt(m, sorted, Elements(p), i);
    var c := ChildOf(sorted[i]).value;
    assert ts[i].child == UnfoldDefinition(m, c, Elements(p));
    if ts[i].child == t {
      q, d := p, c;
    } else {
      assert c !in Elements(p);
      UnfoldedNode(m, p, c);
      PathEnters(m, p, c);
      q, d := InsideIsPlaced(m, p + [c], m.definitions[c].entities, t);
    }
  }

  lemma PathEnters(m: Model, p: seq<DefId>, c: DefId)
    requires RootPath(m, p) && c in Children(ListAt(m, p)) && c in m.definitions && c !in p
    ensures RootPath(m, p + [c]) && ListAt(m, p + [c]) == m.definitions[c].entities
    ensures m.definitions.Keys - Elements(p + [c]) < m.definitions.Keys - Elements(p)
  {
    RootPathExtend(m, p, c);
    hide RootPath, Children;
    assert c in m.definitions.Keys - Elements(p) && c !in m.definitions.Keys - Elements(p + [c]);
  }

  // Equal unfoldings show equal contents.
  lemma UnfoldingShowsContents(m: Model, n: Model)
    requires WellFormed(m) && WellFormed(n) && Acyclic(m) && Unfold(m) == Unfold(n)
    requires !KeysClash(n, ReachableSet(n))
    ensures SameContents(m, n)
  {
    assert Children(m.root) <= m.definitions.Keys && Children(n.root) <= n.definitions.Keys;
    UnfoldedContents(m, m.root, {});
    UnfoldedContents(n, n.root, {});
    ReachableMeans(m);
    ReachableMeans(n);
    PlacedIsDefined(m);
    PlacedIsDefined(n);
    assert UnfoldSorted(m, m.root, {}) == UnfoldSorted(n, n.root, {});
    hide Acyclic, ReachableSet, AllPlaced, KeysClash, Contents, SameId, SameDefinition, Unfold, UnfoldSorted, TreeLines,
         InSortOrder, Selected, WellFormed, ClosedUnderPlacing;
    forall d, e | d in AllPlaced(m) && e in AllPlaced(n)
      ensures d in m.definitions && e in n.definitions
      ensures SameId(m.definitions[d], n.definitions[e]) ==> SameDefinition(m, d, n, e)
    {
      if SameId(m.definitions[d], n.definitions[e]) {
        SameKeyMeans(m, d, n, e);
        UnfoldingShowsDefinition(m, n, d, e);
      }
    }
  }

  lemma UnfoldingShowsDefinition(m: Model, n: Model, d: DefId, e: DefId)
    requires WellFormed(m) && WellFormed(n) && Acyclic(m) && Unfold(m) == Unfold(n)
    requires !KeysClash(n, ReachableSet(n)) && d in ReachableSet(m) && e in ReachableSet(n)
    requires KeyOf(m, d) == KeyOf(n, e)
    ensures SameDefinition(m, d, n, e)
  {
    var p := PathTo(m, d);
    PlacedIsInside(m, p, d);
    NoCycleAt(m, p, d);
    UnfoldedNode(m, p, d);
    var t := UnfoldDefinition(m, d, Elements(p));
    assert Elements([]) == {} && Children(n.root) <= n.definitions.Keys;
    var q, c := InsideIsPlaced(n, [], n.root, t);
    hide Acyclic, Inside, UnfoldDefinition, UnfoldSorted, Unfold, ReachableSet, Contents;
    SameNode(m, p, d, n, q, c);
    assert c in ReachableSet(n) by {
      PathReaches(n, q, c);
    }
    assert c == e;
  }

  lemma PathTo(m: Model, d: DefId) returns (p: seq<DefId>)
    requires d in ReachableSet(m)
    ensures RootPath(m, p) && d in Children(ListAt(m, p)) && d in m.definitions
  {
    var q: seq<DefId> :| RootPath(m, q) && q != [] && q[|q| - 1] == d;
    p := q[..|q| - 1];
  }

  lemma PathReaches(m: Model, p: seq<DefId>, d: DefId)
    requires RootPath(m, p) && d in Children(ListAt(m, p)) && d in m.definitions
    ensures d in ReachableSet(m)
  {
    RootPathExtend(m, p, d);
  }

  // Definitions that unfold alike, one of them not into a cycle, show the same.
  lemma SameNode(m: Model, p: seq<DefId>, d: DefId, n: Model, q: seq<DefId>, e: DefId)
    requires WellFormed(m) && WellFormed(n) && d in m.definitions && e in n.definitions && d !in p
    requires UnfoldDefinition(m, d, Elements(p)) == UnfoldDefinition(n, e, Elements(q))
    ensures KeyOf(m, d) == KeyOf(n, e) && SameDefinition(m, d, n, e)
  {
    UnfoldedNode(m, p, d);
    assert e !in Elements(q);
    UnfoldedNode(n, q, e);
    hide UnfoldDefinition, UnfoldSorted, KeyOf, Contents, WellFormed, Children;
    UnfoldedContents(m, m.definitions[d].entities, Elements(p + [d]));
    UnfoldedContents(n, n.definitions[e].entities, Elements(q + [e]));
  }

  // Equal contents unfold equally ----------------------------------------------------

  ghost function Bare(lines: seq<Line>): seq<Entity> {
    seq(|lines|, i requires 0 <= i < |lines| => Entity(lines[i].facts, [], None))
  }

  lemma {:induction false} BarePermutes(a: seq<Line>, b: seq<Line>)
    requires multiset(a) == multiset(b)
    ensures multiset(Bare(a)) == multiset(Bare(b))
  {
    if a == [] {
      assert |multiset(b)| == 0;
    } else {
      var front, back := MatchHead(a, b);
      BarePermutes(a[1..], front + back);
      var x := Entity(a[0].facts, [], None);
      assert Bare(a) == [x] + Bare(a[1..]);
      assert Bare(front + back) == Bare(front) + Bare(back);
      assert Bare(b) == Bare(front) + [x] + Bare(back);
    }
  }

  // Sorted lists of distinct identities that show the same lines show them in the same
  // places.
  lemma SortedLinesAreSame(m: Model, a: seq<Entity>, n: Model, b: seq<Entity>)
    requires Sorted(a) && Sorted(b) && Identified(a) && Identified(b)
    requires multiset(Lines(m, a)) == multiset(Lines(n, b))
    ensures Lines(m, a) == Lines(n, b)
  {
    var x, y := Lines(m, a), Lines(n, b);
    BarePermutes(x, y);
    BareIsSorted(m, a);
    BareIsSorted(n, b);
    SortedOrderIsUnique(Bare(x), Bare(y));
    assert |x| == |Bare(x)| == |Bare(y)| == |y|;
    forall i | 0 <= i < |x| ensures x[i] == y[i] {
      assert Bare(x)[i] == Bare(y)[i];
      assert x[i] in multiset(y);
      var j :| 0 <= j < |y| && y[j] == x[i];
      assert b[j].facts == b[i].facts;
    }
  }

  lemma BareIsSorted(m: Model, es: seq<Entity>)
    requires Sorted(es) && Identified(es)
    ensures Sorted(Bare(Lines(m, es))) && Identified(Bare(Lines(m, es)))
  {
    hide SortKey, EntityIdentity;
    var bare := Bare(Lines(m, es));
    forall i | 0 <= i < |es| ensures bare[i].facts == es[i].facts {
    }
  }

  // What both models are to be like.
  ghost predicate Comparable(m: Model, n: Model) {
    && WellFormed(m) && WellFormed(n) && SameContents(m, n) && IsClean(m) && IsClean(n)
  }

  ghost predicate IsClean(m: Model) {
    && Acyclic(m) && KeysAvailable(m, ReachableSet(m)) && EverywhereAvailable(m) && EverywhereDistinct(m)
  }

  lemma {:induction false} ContentsUnfold(m: Model, p: seq<DefId>, n: Model, q: seq<DefId>)
    requires Comparable(m, n) && RootPath(m, p) && RootPath(n, q)
    requires Children(ListAt(m, p)) <= m.definitions.Keys && Children(ListAt(n, q)) <= n.definitions.Keys
    requires Contents(m, ListAt(m, p)) == Contents(n, ListAt(n, q))
    ensures UnfoldSorted(m, ListAt(m, p), Elements(p)) == UnfoldSorted(n, ListAt(n, q), Elements(q))
    decreases m.definitions.Keys - Elements(p)
  {
    var es, fs := ListAt(m, p), ListAt(n, q);
    var a, b := InSortOrder(Selected(es)), InSortOrder(Selected(fs));
    SameLinesInOrder(m, p, n, q);
    SortedSelectionChildren(es);
    SortedSelectionChildren(fs);
    var ts, us := UnfoldSorted(m, es, Elements(p)), UnfoldSorted(n, fs, Elements(q));
    hide Comparable, RootPath, ListAt, WellFormed, InSortOrder, Selected, KeyOf, Contents;
    assert |a| == |Lines(m, a)| == |Lines(n, b)| == |b|;
    forall i | 0 <= i < |a| ensures ts[i] == us[i] {
      UnfoldedAt(m, a, Elements(p), i);
      UnfoldedAt(n, b, Elements(q), i);
      assert Lines(m, a)[i] == Lines(n, b)[i];
      LineMeans(m, a[i]);
      LineMeans(n, b[i]);
      if ChildOf(a[i]).Some? {
        var d, e := ChildOf(a[i]).value, ChildOf(b[i]).value;
        assert d in Children(es) && e in Children(fs);
        SameBelow(m, p, d, n, q, e);
        ContentsUnfold(m, p + [d], n, q + [e]);
        UnfoldedNode(m, p, d);
        UnfoldedNode(n, q, e);
      }
    }
  }

  lemma SameLinesInOrder(m: Model, p: seq<DefId>, n: Model, q: seq<DefId>)
    requires Comparable(m, n) && RootPath(m, p) && RootPath(n, q)
    requires Children(ListAt(m, p)) <= m.definitions.Keys && Children(ListAt(n, q)) <= n.definitions.Keys
    requires Contents(m, ListAt(m, p)) == Contents(n, ListAt(n, q))
    ensures Lines(m, InSortOrder(Selected(ListAt(m, p)))) == Lines(n, InSortOrder(Selected(ListAt(n, q))))
  {
    ListIsIdentified(m, p);
    ListIsIdentified(n, q);
    var es, fs := ListAt(m, p), ListAt(n, q);
    UnfoldedContents(m, es, {});
    UnfoldedContents(n, fs, {});
    hide Comparable, RootPath, ListAt, InSortOrder, Selected, Contents, Lines, TreeLines;
    SortedLinesAreSame(m, InSortOrder(Selected(es)), n, InSortOrder(Selected(fs)));
  }

  lemma ListIsIdentified(m: Model, p: seq<DefId>)
    requires WellFormed(m) && RootPath(m, p) && EverywhereAvailable(m) && EverywhereDistinct(m)
    ensures Sorted(InSortOrder(Selected(ListAt(m, p)))) && Identified(InSortOrder(Selected(ListAt(m, p))))
  {
    var es := ListAt(m, p);
    assert Covered(m, es) by {
      if p != [] {
        OnlyReachable(m, p);
        assert p[|p| - 1] in ReachableSet(m);
      }
    }
    InSortOrderSorts(Selected(es));
    IdentitiesPermute(Selected(es), InSortOrder(Selected(es)));
  }

  // Two definitions of the same key, entered on both sides.
  lemma SameBelow(m: Model, p: seq<DefId>, d: DefId, n: Model, q: seq<DefId>, e: DefId)
    requires Comparable(m, n) && RootPath(m, p) && RootPath(n, q) && KeyOf(m, d) == KeyOf(n, e)
    requires d in Children(ListAt(m, p)) && d in m.definitions && e in Children(ListAt(n, q)) && e in n.definitions
    ensures d !in p && e !in q && SameDefinition(m, d, n, e)
    ensures RootPath(m, p + [d]) && RootPath(n, q + [e])
    ensures ListAt(m, p + [d]) == m.definitions[d].entities && ListAt(n, q + [e]) == n.definitions[e].entities
    ensures Children(m.definitions[d].entities) <= m.definitions.Keys
    ensures Children(n.definitions[e].entities) <= n.definitions.Keys
    ensures m.definitions.Keys - Elements(p + [d]) < m.definitions.Keys - Elements(p)
  {
    NoCycleAt(m, p, d);
    NoCycleAt(n, q, e);
    PathEnters(m, p, d);
    PathEnters(n, q, e);
    PathReaches(m, p, d);
    PathReaches(n, q, e);
    ReachableMeans(m);
    ReachableMeans(n);
    SameKeyMeans(m, d, n, e);
    hide RootPath, ListAt, Acyclic, ReachableSet, AllPlaced, SameId, SameDefinition, KeyOf;
  }

  // The theorem ----------------------------------------------------------------------

  // Two complete fingerprints have equal digests exactly when the models show the same
  // contents, list by list.
  lemma EqualDigestsMean(hash: Source -> Digest, m: Model, n: Model, limit: nat, r: MerkleReport, q: MerkleReport)
    requires CollisionFree(hash) && WellFormed(m) && WellFormed(n)
    requires Delivered(m, hash, limit, r) && Delivered(n, hash, limit, q) && r.complete && q.complete
    ensures r.rootDigest == q.rootDigest <==> SameContents(m, n)
  {
    DigestsCompareModels(hash, m, n, limit, r, q);
    CompleteIsClean(m, hash, limit, r);
    CompleteIsClean(n, hash, limit, q);
    if r.rootDigest == q.rootDigest {
      UnfoldingShowsContents(m, n);
    }
    if SameContents(m, n) {
      assert Elements([]) == {};
      hide SameContents, IsClean, Delivered, Contents;
      ContentsAtRoot(m, n);
      ContentsUnfold(m, [], n, []);
    }
  }

  lemma ContentsAtRoot(m: Model, n: Model)
    requires WellFormed(m) && WellFormed(n) && SameContents(m, n)
    ensures RootPath(m, []) && RootPath(n, []) && ListAt(m, []) == m.root && ListAt(n, []) == n.root
    ensures Children(m.root) <= m.definitions.Keys && Children(n.root) <= n.definitions.Keys
    ensures Contents(m, m.root) == Contents(n, n.root)
  {
  }

  lemma CompleteIsClean(m: Model, hash: Source -> Digest, limit: nat, r: MerkleReport)
    requires WellFormed(m) && Delivered(m, hash, limit, r) && r.complete
    ensures IsClean(m) && Acyclic(m) && !KeysClash(m, ReachableSet(m))
  {
    hide Acyclic, ReachableSet, EverywhereAvailable, EverywhereDistinct, KeysClash, KeysAvailable, Faithful, Truthful,
         StoredEntities, Occurrences;
  }

  // A change of one entity -------------------------------------------------------------

  // The model in which the i-th entity of a definition reads x instead.
  ghost function Changed(m: Model, d: DefId, i: nat, x: Facts): Model
    requires d in m.definitions && i < |m.definitions[d].entities|
  {
    var def := m.definitions[d];
    m.(definitions := m.definitions[d := def.(entities := def.entities[i := def.entities[i].(facts := x)])])
  }

  lemma ChangedPlacing(m: Model, d: DefId, i: nat, x: Facts, s: set<DefId>)
    requires d in m.definitions && i < |m.definitions[d].entities| && x.kind == m.definitions[d].entities[i].facts.kind
    ensures WellFormed(m) <==> WellFormed(Changed(m, d, i, x))
    ensures ClosedUnderPlacing(m, s) <==> ClosedUnderPlacing(Changed(m, d, i, x), s)
  {
    var n := Changed(m, d, i, x);
    var es, fs := m.definitions[d].entities, n.definitions[d].entities;
    forall c ensures PlacedIn(es, c) <==> PlacedIn(fs, c) {
      if PlacedIn(es, c) {
        var j :| 0 <= j < |es| && Places(es[j], c);
        assert Places(fs[j], c);
      }
      if PlacedIn(fs, c) {
        var j :| 0 <= j < |fs| && Places(fs[j], c);
        assert Places(es[j], c);
      }
    }
    forall c ensures c in Children(es) <==> c in Children(fs) {
      ChildrenMeans(es, c);
      ChildrenMeans(fs, c);
    }
    assert Children(es) == Children(fs);
    hide Children, PlacedIn;
    assert forall c :: c in m.definitions && c != d ==> m.definitions[c] == n.definitions[c];
  }

  lemma ContentsAppend(m: Model, a: seq<Entity>, b: seq<Entity>)
    ensures Contents(m, a + b) == Contents(m, a) + Contents(m, b)
  {
    hide LineOf, Counts;
    if a == [] {
      assert a + b == b;
    } else {
      assert (a + b)[1..] == a[1..] + b;
      ContentsAppend(m, a[1..], b);
    }
  }

  lemma ContentsByKeys(m: Model, n: Model, es: seq<Entity>)
    requires forall c :: KeyOf(m, c) == KeyOf(n, c)
    ensures Contents(m, es) == Contents(n, es)
  {
    hide KeyOf, Counts;
  }

  lemma ContentsAt(m: Model, es: seq<Entity>, i: nat)
    requires i < |es| && Counts(es[i])
    ensures Contents(m, es) == Contents(m, es[..i]) + Contents(m, es[i + 1..]) + multiset{LineOf(m, es[i])}
  {
    hide LineOf;
    assert es == es[..i] + ([es[i]] + es[i + 1..]) && ([es[i]] + es[i + 1..])[1..] == es[i + 1..];
    ContentsAppend(m, es[..i], [es[i]] + es[i + 1..]);
  }

  lemma OtherLine(rest: multiset<Line>, a: Line, b: Line)
    requires a != b
    ensures rest + multiset{a} != rest + multiset{b}
  {
    assert (rest + multiset{a})[a] != (rest + multiset{b})[a];
  }

  lemma ChangedContents(m: Model, d: DefId, i: nat, x: Facts)
    requires d in m.definitions && i < |m.definitions[d].entities|
    requires var e := m.definitions[d].entities[i]; Counts(e) && x.kind == e.facts.kind && x != e.facts
    ensures var n := Changed(m, d, i, x);
            Contents(m, m.definitions[d].entities) != Contents(n, n.definitions[d].entities)
  {
    var n, es := Changed(m, d, i, x), m.definitions[d].entities;
    var fs := n.definitions[d].entities;
    forall c ensures KeyOf(m, c) == KeyOf(n, c) {
    }
    assert fs == es[i := es[i].(facts := x)] && Counts(fs[i]) && LineOf(m, es[i]) != LineOf(n, fs[i]);
    hide LineOf, KeyOf, Counts, Changed, Contents;
    assert fs[..i] == es[..i] && fs[i + 1..] == es[i + 1..];
    ContentsByKeys(m, n, es[..i]);
    ContentsByKeys(m, n, es[i + 1..]);
    ContentsAt(m, es, i);
    ContentsAt(n, fs, i);
    OtherLine(Contents(m, es[..i]) + Contents(m, es[i + 1..]), LineOf(m, es[i]), LineOf(n, fs[i]));
  }

  lemma ChangedIsPlaced(m: Model, d: DefId, i: nat, x: Facts)
    requires d in m.definitions && i < |m.definitions[d].entities| && x.kind == m.definitions[d].entities[i].facts.kind
    requires d in AllPlaced(m) && KeysAvailable(m, AllPlaced(m))
    ensures var n := Changed(m, d, i, x);
            d in n.definitions && d in AllPlaced(n) && SameId(m.definitions[d], n.definitions[d])
  {
    var n := Changed(m, d, i, x);
    forall s ensures ClosedUnderPlacing(m, s) <==> ClosedUnderPlacing(n, s) {
      ChangedPlacing(m, d, i, x, s);
    }
    hide ClosedUnderPlacing;
    SameKeyMeans(m, d, n, d);
  }

  // Changing a single entity of a definition placed at any depth, by groups or by
  // instances, changes the digest of the model.
  lemma ChangeShows(hash: Source -> Digest, m: Model, d: DefId, i: nat, x: Facts, limit: nat, r: MerkleReport,
                    q: MerkleReport)
    requires CollisionFree(hash) && WellFormed(m) && d in AllPlaced(m) && i < |m.definitions[d].entities|
    requires var e := m.definitions[d].entities[i]; Counts(e) && x.kind == e.facts.kind && x != e.facts
    requires WellFormed(Changed(m, d, i, x))
    requires Delivered(m, hash, limit, r) && Delivered(Changed(m, d, i, x), hash, limit, q) && r.complete && q.complete
    ensures r.rootDigest != q.rootDigest
  {
    hide *;
    PlacedIsDefined(m);
    ReachableMeans(m);
    CompleteIsClean(m, hash, limit, r);
    CleanHasKeys(m);
    EqualDigestsMean(hash, m, Changed(m, d, i, x), limit, r, q);
    ChangedContents(m, d, i, x);
    ChangedIsPlaced(m, d, i, x);
    ContentsTell(m, Changed(m, d, i, x), d);
  }

  lemma CleanHasKeys(m: Model)
    requires IsClean(m)
    ensures KeysAvailable(m, ReachableSet(m))
  {
  }

  lemma ContentsTell(m: Model, n: Model, d: DefId)
    requires d in AllPlaced(m) && d in AllPlaced(n) && SameId(m.definitions[d], n.definitions[d])
    requires Contents(m, m.definitions[d].entities) != Contents(n, n.definitions[d].entities)
    ensures !SameContents(m, n)
  {
  }
}
