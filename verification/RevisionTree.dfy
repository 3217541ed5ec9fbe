// What a model fingerprint is supposed to mean: the digest and the occurrence
// count of the fully unfolded model, in which every placement of a definition
// is written out and no result is ever reused.
module RevisionTree {
  import opened Options
  import opened SketchModel
  import opened TextOrder
  import opened Lists

  // Identities and ordering --------------------------------------------------

  datatype Identity = PersistentId(value: string) | Reference(value: string) | Unavailable

  function EntityIdentity(f: Facts): Identity {
    if f.persistentId != "" then PersistentId(f.persistentId)
    else if f.reference != "" then Reference(f.reference)
    else Unavailable
  }

  datatype DefKey = PersistentKey(value: string) | ReferenceKey(value: string) | RuntimeKey(object: DefId)

  function KeyOf(m: Model, d: DefId): DefKey {
    if d in m.definitions && TextOf(m.definitions[d].persistentId) != "" then
      PersistentKey(TextOf(m.definitions[d].persistentId))
    else if d in m.definitions && m.definitions[d].reference != "" then ReferenceKey(m.definitions[d].reference)
    else RuntimeKey(d)
  }

  function TypeName(k: Kind): string {
    match k
    case Group => "group"
    case ComponentInstance => "component_instance"
    case Face => "face"
    case Edge => "edge"
    case Other => "edge"
  }

  function SortKey(f: Facts): seq<string> {
    var identity := EntityIdentity(f);
    var kind := if identity.PersistentId? then "persistent_id" else if identity.Reference? then "reference"
      else "unavailable";
    [kind, if identity.Unavailable? then "" else identity.value, TypeName(f.kind), f.name]
  }

  predicate Before(a: Entity, b: Entity) {
    ListLeq(SortKey(a.facts), SortKey(b.facts))
  }

  // The order by the fields: entities with a persistent id, by it; then those with a
  // reference, by that; then the rest. Equal ones follow by kind and by name.
  ghost predicate InOrder(f: Facts, g: Facts) {
    if f.persistentId != "" || g.persistentId != "" then GoesFirst(f.persistentId, g.persistentId, f, g)
    else if f.reference != "" || g.reference != "" then GoesFirst(f.reference, g.reference, f, g)
    else TieInOrder(f, g)
  }

  ghost predicate GoesFirst(id: string, other: string, f: Facts, g: Facts) {
    id != "" && (other == "" || (if id == other then TieInOrder(f, g) else ComesFirst(id, other)))
  }

  ghost predicate TieInOrder(f: Facts, g: Facts) {
    KindRank(f.kind) < KindRank(g.kind) || (KindRank(f.kind) == KindRank(g.kind) && ComesFirst(f.name, g.name))
  }

  ghost function KindRank(k: Kind): nat {
    match k
    case ComponentInstance => 0
    case Edge => 1
    case Other => 1
    case Face => 2
    case Group => 3
  }

  lemma BeforeMeans(a: Entity, b: Entity)
    ensures Before(a, b) <==> InOrder(a.facts, b.facts)
  {
    var f, g := a.facts, b.facts;
    var s, t := SortKey(f), SortKey(g);
    assert "persistent_id"[0] == 'p' && "reference"[0] == 'r' && "unavailable"[0] == 'u';
    LeqMeans(s[1], t[1]);
    TieMeans(f, g);
    FourTexts(s, t);
    LeqReflexive(s[0]);
    hide ComesFirst, TieInOrder;
  }

  lemma TieMeans(f: Facts, g: Facts)
    ensures TieInOrder(f, g) <==>
            Leq(TypeName(f.kind), TypeName(g.kind)) && (TypeName(f.kind) == TypeName(g.kind) ==> Leq(f.name, g.name))
  {
    LeqMeans(f.name, g.name);
    LeqReflexive(TypeName(f.kind));
    assert "component_instance"[0] == 'c' && "edge"[0] == 'e' && "face"[0] == 'f' && "group"[0] == 'g';
    hide ComesFirst;
  }

  lemma FourTexts(s: seq<string>, t: seq<string>)
    requires |s| == |t| == 4
    ensures ListLeq(s, t) <==>
            Leq(s[0], t[0]) && (s[0] == t[0] ==> Leq(s[1], t[1]) && (s[1] == t[1] ==>
              Leq(s[2], t[2]) && (s[2] == t[2] ==> Leq(s[3], t[3]))))
  {
    hide Leq;
    assert ListLeq(s[1..], t[1..]) <==> Leq(s[1], t[1]) && (s[1] == t[1] ==> ListLeq(s[1..][1..], t[1..][1..]));
    assert s[1..][1..] == s[2..] && t[1..][1..] == t[2..];
    assert ListLeq(s[2..], t[2..]) <==> Leq(s[2], t[2]) && (s[2] == t[2] ==> ListLeq(s[2..][1..], t[2..][1..]));
    assert s[2..][1..] == [s[3]] && t[2..][1..] == [t[3]];
    assert ListLeq([s[3]], [t[3]]) <==> Leq(s[3], t[3]) && (s[3] == t[3] ==> ListLeq([], []));
  }

  ghost predicate Sorted(es: seq<Entity>) {
    forall i, j :: 0 <= i < j < |es| ==> Before(es[i], es[j])
  }

  lemma SortedMeans(es: seq<Entity>)
    ensures Sorted(es) <==> forall i, j :: 0 <= i < j < |es| ==> InOrder(es[i].facts, es[j].facts)
  {
    forall i, j | 0 <= i < j < |es| ensures Before(es[i], es[j]) <==> InOrder(es[i].facts, es[j].facts) {
      BeforeMeans(es[i], es[j]);
    }
    hide Before, InOrder;
  }

  ghost predicate AllAvailable(es: seq<Entity>) {
    forall i :: 0 <= i < |es| ==> EntityIdentity(es[i].facts) != Unavailable
  }

  ghost predicate NoDuplicates(es: seq<Entity>) {
    forall i, j :: 0 <= i < j < |es| && EntityIdentity(es[i].facts) == EntityIdentity(es[j].facts)
      ==> EntityIdentity(es[i].facts) == Unavailable
  }

  // Every entity has an identity and no two share one.
  ghost predicate Identified(es: seq<Entity>) {
    AllAvailable(es) && NoDuplicates(es)
  }

  function Insert(e: Entity, es: seq<Entity>): seq<Entity> {
    if es == [] || Before(e, es[0]) then [e] + es
    else [es[0]] + Insert(e, es[1..])
  }

  function InSortOrder(es: seq<Entity>): seq<Entity> {
    if es == [] then [] else Insert(es[0], InSortOrder(es[1..]))
  }

  lemma {:induction false} InsertKeeps(e: Entity, es: seq<Entity>)
    ensures multiset(Insert(e, es)) == multiset{e} + multiset(es)
  {
    if es != [] && !Before(e, es[0]) {
      InsertKeeps(e, es[1..]);
      assert es == [es[0]] + es[1..];
    }
  }

  lemma SortedBehind(e: Entity, es: seq<Entity>)
    requires Sorted(es) && forall x :: x in es ==> Before(e, x)
    ensures Sorted([e] + es)
  {
    hide Before;
  }

  lemma {:induction false} InsertSorts(e: Entity, es: seq<Entity>)
    requires Sorted(es)
    ensures Sorted(Insert(e, es))
  {
    if es == [] || Before(e, es[0]) {
      forall x | x in es ensures Before(e, x) {
        var i :| 0 <= i < |es| && es[i] == x;
        if i > 0 {
          ListLeqTransitive(SortKey(e.facts), SortKey(es[0].facts), SortKey(es[i].facts));
        }
      }
      SortedBehind(e, es);
    } else {
      var rest := Insert(e, es[1..]);
      InsertSorts(e, es[1..]);
      InsertKeeps(e, es[1..]);
      ListLeqTotal(SortKey(e.facts), SortKey(es[0].facts));
      forall x | x in rest ensures Before(es[0], x) {
        assert x in multiset(rest);
        assert x == e || x in es[1..];
      }
      hide SortKey, ListLeq;
      SortedBehind(es[0], rest);
    }
  }

  lemma {:induction false} InSortOrderSorts(es: seq<Entity>)
    ensures Sorted(InSortOrder(es)) && multiset(InSortOrder(es)) == multiset(es)
  {
    if es != [] {
      InSortOrderSorts(es[1..]);
      InsertSorts(es[0], InSortOrder(es[1..]));
      InsertKeeps(es[0], InSortOrder(es[1..]));
      assert es == [es[0]] + es[1..];
    }
  }

  // Entities with distinct identities have exactly one sorted order, so an
  // unstable sort and any enumeration order end in the same list.
  lemma {:induction false} SortedOrderIsUnique(a: seq<Entity>, b: seq<Entity>)
    requires Sorted(a) && Sorted(b) && multiset(a) == multiset(b)
    requires Identified(a)
    ensures a == b
  {
    assert |a| == |multiset(a)| == |multiset(b)| == |b|;
    if a != [] {
      SameLeastEntity(a, b);
      TailsInOrder(a);
      SortedTail(b);
      hide *;
      TakeHead(a);
      TakeHead(b);
      CancelOne(multiset(a[1..]), multiset(b[1..]), a[0]);
      SortedOrderIsUnique(a[1..], b[1..]);
      assert a == [a[0]] + a[1..] && b == [b[0]] + b[1..];
    }
  }

  lemma SortedTail(es: seq<Entity>)
    requires Sorted(es) && es != []
    ensures Sorted(es[1..])
  {
  }

  lemma TailsInOrder(es: seq<Entity>)
    requires Sorted(es) && Identified(es) && es != []
    ensures Sorted(es[1..]) && Identified(es[1..])
  {
    hide Before, EntityIdentity;
  }

  lemma SameLeastEntity(a: seq<Entity>, b: seq<Entity>)
    requires Sorted(a) && Sorted(b) && multiset(a) == multiset(b)
    requires Identified(a) && a != [] && b != []
    ensures a[0] == b[0]
  {
    assert a[0] in multiset(b) && b[0] in multiset(a);
    var i :| 0 <= i < |a| && a[i] == b[0];
    var j :| 0 <= j < |b| && b[j] == a[0];
    if i > 0 && j > 0 {
      assert Before(a[0], a[i]) && Before(b[0], b[j]);
      ListLeqAntisymmetric(SortKey(a[0].facts), SortKey(b[0].facts));
      SameKeySameIdentity(a[0].facts, a[i].facts);
    }
  }

  lemma SameKeySameIdentity(f: Facts, g: Facts)
    requires SortKey(f) == SortKey(g)
    ensures EntityIdentity(f) == EntityIdentity(g)
  {
    assert SortKey(f)[0] == SortKey(g)[0] && SortKey(f)[1] == SortKey(g)[1];
    assert "persistent_id"[0] != "reference"[0] && "persistent_id"[0] != "unavailable"[0]
      && "reference"[0] != "unavailable"[0];
  }

  // Neither property of a list depends on its order.
  lemma IdentitiesPermute(a: seq<Entity>, b: seq<Entity>)
    requires multiset(a) == multiset(b)
    ensures AllAvailable(a) <==> AllAvailable(b)
    ensures NoDuplicates(a) <==> NoDuplicates(b)
  {
    AvailablePermutes(a, b);
    AvailablePermutes(b, a);
    if NoDuplicates(a) { NoDuplicatesPermutes(a, b); }
    if NoDuplicates(b) { NoDuplicatesPermutes(b, a); }
  }

  lemma AvailablePermutes(a: seq<Entity>, b: seq<Entity>)
    requires multiset(a) == multiset(b)
    ensures AllAvailable(a) ==> AllAvailable(b)
  {
    forall i | 0 <= i < |b| ensures b[i] in a {
      assert b[i] in multiset(a);
    }
  }

  lemma NoDuplicatesPermutes(a: seq<Entity>, b: seq<Entity>)
    requires multiset(a) == multiset(b) && NoDuplicates(a)
    ensures NoDuplicates(b)
  {
    forall i, j | 0 <= i < j < |b| && EntityIdentity(b[i].facts) == EntityIdentity(b[j].facts)
      ensures EntityIdentity(b[i].facts) == Unavailable
    {
      var x, y := b[i], b[j];
      assert x in multiset(a) && y in multiset(a);
      if x == y && EntityIdentity(x.facts) != Unavailable {
        TwiceInMultiset(b, i, j);
        OnceInMultiset(a, x);
      }
    }
  }

  lemma TwiceInMultiset(b: seq<Entity>, i: nat, j: nat)
    requires i < j < |b| && b[i] == b[j]
    ensures multiset(b)[b[i]] >= 2
  {
    assert b == b[..i] + [b[i]] + b[i + 1..j] + [b[j]] + b[j + 1..];
  }

  lemma OnceInMultiset(a: seq<Entity>, x: Entity)
    requires NoDuplicates(a) && EntityIdentity(x.facts) != Unavailable
    ensures multiset(a)[x] <= 1
  {
    if a != [] {
      OnceInMultiset(a[1..], x);
      assert a == [a[0]] + a[1..];
      if a[0] == x {
        assert x !in a[1..];
      }
    }
  }

  // The unfolded model -------------------------------------------------------

  datatype EntityTree = Leaf(facts: Facts) | Placement(facts: Facts, child: DefinitionTree)

  datatype DefinitionTree =
    | DefinitionNode(key: DefKey, name: string, persistentId: Option<string>, classification: string,
      entries: seq<EntityTree>)
    | CycleNode(key: DefKey)

  // `open` holds the definitions being unfolded above this point; meeting one
  // of them again is a cycle.
  ghost function UnfoldDefinition(m: Model, d: DefId, open: set<DefId>): DefinitionTree
    requires WellFormed(m) && d in m.definitions
    decreases m.definitions.Keys - open, 0
  {
    if d in open then CycleNode(KeyOf(m, d))
    else
      var def := m.definitions[d];
      SortedSelectionChildren(def.entities);
      DefinitionNode(KeyOf(m, d), def.name, def.persistentId, def.classification,
                     UnfoldList(m, InSortOrder(Selected(def.entities)), open + {d}))
  }

  ghost function UnfoldEntity(m: Model, e: Entity, open: set<DefId>): EntityTree
    requires WellFormed(m) && (ChildOf(e).Some? ==> ChildOf(e).value in m.definitions)
    decreases m.definitions.Keys - open, 1
  {
    match ChildOf(e)
    case None => Leaf(e.facts)
    case Some(d) => Placement(e.facts, UnfoldDefinition(m, d, open))
  }

  ghost function UnfoldList(m: Model, es: seq<Entity>, open: set<DefId>): (ts: seq<EntityTree>)
    requires WellFormed(m) && Children(es) <= m.definitions.Keys
    ensures |ts| == |es|
    decreases m.definitions.Keys - open, |es| + 2
  {
    if es == [] then []
    else
      assert es[0] in es;
      assert Children(es[1..]) <= Children(es);
      [UnfoldEntity(m, es[0], open)] + UnfoldList(m, es[1..], open)
  }

  // The unfolding of a stored entity list: its selectable entities in order.
  ghost function UnfoldSorted(m: Model, es: seq<Entity>, open: set<DefId>): seq<EntityTree>
    requires WellFormed(m) && Children(es) <= m.definitions.Keys
  {
    SortedSelectionChildren(es);
    UnfoldList(m, InSortOrder(Selected(es)), open)
  }

  ghost function Unfold(m: Model): seq<EntityTree>
    requires WellFormed(m)
  {
    UnfoldSorted(m, m.root, {})
  }

  lemma PermutedChildren(a: seq<Entity>, b: seq<Entity>)
    requires multiset(a) == multiset(b)
    ensures Children(a) == Children(b)
  {
    forall e ensures e in a <==> e in b {
      assert e in multiset(a) <==> e in a;
      assert e in multiset(b) <==> e in b;
    }
  }

  lemma SortedSelectionChildren(es: seq<Entity>)
    ensures Children(InSortOrder(Selected(es))) == Children(es)
  {
    InSortOrderSorts(Selected(es));
    PermutedChildren(InSortOrder(Selected(es)), Selected(es));
    SelectedChildren(es);
  }

  // Counting occurrences -----------------------------------------------------

  const SAFE_INTEGER_MAX: nat := 9_007_199_254_740_991

  function Min(a: nat, b: nat): nat {
    if a <= b then a else b
  }

  function TreeCount(t: DefinitionTree): nat {
    match t
    case CycleNode(_) => 0
    case DefinitionNode(_, _, _, _, entries) => ListCount(entries)
  }

  function EntryCount(t: EntityTree): nat {
    match t
    case Leaf(_) => 1
    case Placement(_, child) => 1 + TreeCount(child)
  }

  function ListCount(ts: seq<EntityTree>): nat {
    if ts == [] then 0 else EntryCount(ts[0]) + ListCount(ts[1..])
  }

  // Hashing ------------------------------------------------------------------

  type Digest = string

  // What is serialised before each call of the hash.
  datatype Source =
    | EntitySource(facts: Facts, identity: Identity, childKey: Option<DefKey>, childDigest: Option<Digest>)
    | EntriesSource(entries: seq<(seq<string>, Digest)>)
    | ListSource(entriesDigest: Digest, entryCount: nat, hashedCount: nat, complete: bool)
    | DefinitionSource(key: DefKey, name: string, persistentId: Option<string>, classification: string,
                       entitiesDigest: Digest, expandedCount: nat)
    | CycleSource(key: DefKey)

  // Serialisation and SHA-256 together, taken to be collision free.
  ghost predicate CollisionFree(hash: Source -> Digest) {
    forall a, b :: hash(a) == hash(b) ==> a == b
  }

  function EntitySourceOf(hash: Source -> Digest, t: EntityTree): Source {
    match t
    case Leaf(facts) => EntitySource(facts, EntityIdentity(facts), None, None)
    case Placement(facts, child) =>
      EntitySource(facts, EntityIdentity(facts), Some(child.key), Some(TreeDigest(hash, child)))
  }

  function EntryDigests(hash: Source -> Digest, ts: seq<EntityTree>): (r: seq<(seq<string>, Digest)>)
    ensures |r| == |ts|
    decreases ts, 0
  {
    if ts == [] then []
    else [(SortKey(ts[0].facts), hash(EntitySourceOf(hash, ts[0])))] + EntryDigests(hash, ts[1..])
  }

  function ListDigest(hash: Source -> Digest, ts: seq<EntityTree>): Digest
    decreases ts, 1
  {
    hash(ListSource(hash(EntriesSource(EntryDigests(hash, ts))), |ts|, |ts|, true))
  }

  function TreeDigest(hash: Source -> Digest, t: DefinitionTree): Digest {
    match t
    case CycleNode(key) => hash(CycleSource(key))
    case DefinitionNode(key, name, persistentId, classification, entries) =>
      hash(DefinitionSource(key, name, persistentId, classification,
                            ListDigest(hash, entries), Min(ListCount(entries), SAFE_INTEGER_MAX)))
  }

  // Equal digests mean equal unfoldings: no change anywhere below is missed.
  lemma {:induction false} TreeDigestInjective(hash: Source -> Digest, a: DefinitionTree, b: DefinitionTree)
    requires CollisionFree(hash) && TreeDigest(hash, a) == TreeDigest(hash, b)
    ensures a == b
    decreases a
  {
    if a.DefinitionNode? && b.DefinitionNode? {
      ListDigestInjective(hash, a.entries, b.entries);
    }
  }

  lemma {:induction false} ListDigestInjective(hash: Source -> Digest, a: seq<EntityTree>, b: seq<EntityTree>)
    requires CollisionFree(hash) && ListDigest(hash, a) == ListDigest(hash, b)
    ensures a == b
    decreases a, 1
  {
    EntryDigestsInjective(hash, a, b);
  }

  lemma {:induction false} EntitySourceInjective(hash: Source -> Digest, a: EntityTree, b: EntityTree)
    requires CollisionFree(hash) && EntitySourceOf(hash, a) == EntitySourceOf(hash, b)
    ensures a == b
    decreases a
  {
    if a.Placement? {
      TreeDigestInjective(hash, a.child, b.child);
    }
  }

  lemma {:induction false} EntryDigestsInjective(hash: Source -> Digest, a: seq<EntityTree>, b: seq<EntityTree>)
    requires CollisionFree(hash) && EntryDigests(hash, a) == EntryDigests(hash, b)
    ensures a == b
    decreases a, 0
  {
    if a != [] {
      var x, y := EntryDigests(hash, a), EntryDigests(hash, b);
      assert x[0] == y[0] && x[1..] == y[1..];
      assert EntitySourceOf(hash, a[0]) == EntitySourceOf(hash, b[0]);
      EntitySourceInjective(hash, a[0], b[0]);
      EntryDigestsInjective(hash, a[1..], b[1..]);
      assert a == [a[0]] + a[1..] && b == [b[0]] + b[1..];
    }
  }

  // The fingerprint theorem: two models have equal root digests exactly when
  // their unfolded trees of sorted payloads are equal. How much of the tree is
  // shared never matters.
  lemma EqualDigestsExactlyForEqualUnfoldings(hash: Source -> Digest, m: Model, n: Model)
    requires CollisionFree(hash) && WellFormed(m) && WellFormed(n)
    ensures ListDigest(hash, Unfold(m)) == ListDigest(hash, Unfold(n)) <==> Unfold(m) == Unfold(n)
  {
    if ListDigest(hash, Unfold(m)) == ListDigest(hash, Unfold(n)) {
      ListDigestInjective(hash, Unfold(m), Unfold(n));
    }
  }

  // Unfolding below a closed set ----------------------------------------------

  ghost predicate ClosedSet(m: Model, s: set<DefId>) {
    s <= m.definitions.Keys && forall d :: d in s ==> Children(m.definitions[d].entities) <= s
  }

  // Open definitions outside a closed set are never met below it.
  lemma {:induction false} UnfoldBelowClosedSet(m: Model, d: DefId, s: set<DefId>, o: set<DefId>, p: set<DefId>)
    requires WellFormed(m) && ClosedSet(m, s) && d in s && o * s == p * s
    ensures UnfoldDefinition(m, d, o) == UnfoldDefinition(m, d, p)
    decreases m.definitions.Keys - o, 0
  {
    assert d in o <==> d in o * s;
    assert d in p <==> d in p * s;
    if d !in o {
      var es := m.definitions[d].entities;
      SortedSelectionChildren(es);
      assert (o + {d}) * s == o * s + {d} == p * s + {d} == (p + {d}) * s;
      UnfoldListBelowClosedSet(m, InSortOrder(Selected(es)), s, o + {d}, p + {d});
    }
  }

  lemma {:induction false} UnfoldListBelowClosedSet(m: Model, es: seq<Entity>, s: set<DefId>, o: set<DefId>,
                                                    p: set<DefId>)
    requires WellFormed(m) && ClosedSet(m, s) && Children(es) <= s && o * s == p * s
    ensures UnfoldList(m, es, o) == UnfoldList(m, es, p)
    decreases m.definitions.Keys - o, |es| + 1
  {
    if es != [] {
      assert es[0] in es;
      assert Children(es[1..]) <= Children(es);
      if ChildOf(es[0]).Some? {
        UnfoldBelowClosedSet(m, ChildOf(es[0]).value, s, o, p);
      }
      UnfoldListBelowClosedSet(m, es[1..], s, o, p);
    }
  }

  // A definition over a closed set that does not hold it unfolds like its list.
  lemma UnfoldAboveClosedSet(m: Model, d: DefId, s: set<DefId>)
    requires WellFormed(m) && ClosedSet(m, s) && d in m.definitions && d !in s
    requires Children(m.definitions[d].entities) <= s
    ensures var def := m.definitions[d];
            UnfoldDefinition(m, d, {}) ==
            DefinitionNode(KeyOf(m, d), def.name, def.persistentId, def.classification,
              UnfoldSorted(m, def.entities, {}))
  {
    var es := m.definitions[d].entities;
    SortedSelectionChildren(es);
    assert ({} + {d}) * s == {} * s;
    UnfoldListBelowClosedSet(m, InSortOrder(Selected(es)), s, {} + {d}, {});
  }

  // Sums over lists --------------------------------------------------------------

  lemma ListCountAppend(a: seq<EntityTree>, b: seq<EntityTree>)
    ensures ListCount(a + b) == ListCount(a) + ListCount(b)
  {
    if a == [] {
      assert a + b == b;
    } else {
      assert (a + b)[1..] == a[1..] + b;
      ListCountAppend(a[1..], b);
    }
  }

  lemma UnfoldListAppend(m: Model, a: seq<Entity>, b: seq<Entity>, open: set<DefId>)
    requires WellFormed(m) && Children(a) <= m.definitions.Keys && Children(b) <= m.definitions.Keys
    ensures Children(a + b) == Children(a) + Children(b)
    ensures UnfoldList(m, a + b, open) == UnfoldList(m, a, open) + UnfoldList(m, b, open)
    decreases |a|
  {
    assert Children(a + b) == Children(a) + Children(b);
    if a == [] {
      assert a + b == b;
    } else {
      assert (a + b)[1..] == a[1..] + b;
      assert Children(a[1..]) <= Children(a);
      UnfoldListAppend(m, a[1..], b, open);
    }
  }

  lemma EntryDigestsAppend(hash: Source -> Digest, a: seq<EntityTree>, b: seq<EntityTree>)
    ensures EntryDigests(hash, a + b) == EntryDigests(hash, a) + EntryDigests(hash, b)
    decreases |a|
  {
    if a == [] {
      assert a + b == b;
    } else {
      assert (a + b)[1..] == a[1..] + b;
      EntryDigestsAppend(hash, a[1..], b);
    }
  }

  ghost function CountOf(m: Model, es: seq<Entity>, open: set<DefId>): nat
    requires WellFormed(m) && Children(es) <= m.definitions.Keys
  {
    ListCount(UnfoldList(m, es, open))
  }

  lemma CountInside(m: Model, a: seq<Entity>, x: Entity, b: seq<Entity>, open: set<DefId>)
    requires WellFormed(m) && Children(a + [x] + b) <= m.definitions.Keys
    ensures Children([x]) <= m.definitions.Keys && Children(a + b) <= m.definitions.Keys
    ensures CountOf(m, a + [x] + b, open) == CountOf(m, [x], open) + CountOf(m, a + b, open)
  {
    assert Children(a) <= Children(a + [x] + b) && Children(b) <= Children(a + [x] + b)
      && Children([x]) <= Children(a + [x] + b);
    UnfoldListAppend(m, a, b, open);
    UnfoldListAppend(m, a, [x], open);
    UnfoldListAppend(m, a + [x], b, open);
    ListCountAppend(UnfoldList(m, a, open), UnfoldList(m, b, open));
    ListCountAppend(UnfoldList(m, a, open), UnfoldList(m, [x], open));
    ListCountAppend(UnfoldList(m, a + [x], open), UnfoldList(m, b, open));
  }

  // Counting does not depend on the order of enumeration.
  lemma {:induction false} CountPermutes(m: Model, a: seq<Entity>, b: seq<Entity>, open: set<DefId>)
    requires WellFormed(m) && Children(a) <= m.definitions.Keys && multiset(a) == multiset(b)
    ensures Children(b) <= m.definitions.Keys && CountOf(m, a, open) == CountOf(m, b, open)
    decreases |a|
  {
    PermutedChildren(a, b);
    if a == [] {
      assert |multiset(b)| == 0;
    } else {
      var front, back := MatchHead(a, b);
      CountInside(m, front, a[0], back, open);
      assert a == [] + [a[0]] + a[1..] && [] + a[1..] == a[1..];
      CountInside(m, [], a[0], a[1..], open);
      CountPermutes(m, a[1..], front + back, open);
    }
  }
}
