// Geometry totals charged to every placement, with one cached expansion for
// each definition and rejection of cycles.
module ResourceTotals {
  import opened Options
  import opened SketchModel
  import opened RevisionTree
  import opened RevisionOutcome
  import opened PlacedEntities
  import opened EntityOccurrences

  datatype Totals = Totals(faces: nat, edges: nat, vertices: nat) {
    function Plus(other: Totals): Totals {
      Totals(faces + other.faces, edges + other.edges, vertices + other.vertices)
    }
  }

  const NOTHING := Totals(0, 0, 0)

  datatype Failure = Cyclic | TooDeep
  datatype Outcome = Counted(totals: Totals) | Refused(why: Failure)

  const RECURSION_LIMIT := 64

  // What one entity list stores itself -----------------------------------------

  function OfKind(es: seq<Entity>, k: Kind): nat {
    if es == [] then 0 else (if es[0].facts.kind == k then 1 else 0) + OfKind(es[1..], k)
  }

  function EdgeVertices(es: seq<Entity>): set<nat> {
    set e, v | e in es && e.facts.kind == Edge && v in e.ends :: v
  }

  function Direct(es: seq<Entity>): Totals {
    Totals(OfKind(es, Face), OfKind(es, Edge), |EdgeVertices(es)|)
  }

  lemma OfKindAppend(a: seq<Entity>, e: Entity, k: Kind)
    ensures OfKind(a + [e], k) == OfKind(a, k) + if e.facts.kind == k then 1 else 0
  {
    if a != [] {
      assert (a + [e])[1..] == a[1..] + [e];
      OfKindAppend(a[1..], e, k);
    }
  }

  method DirectTotals(es: seq<Entity>) returns (t: Totals)
    ensures t == Direct(es)
  {
    var vertices: set<nat> := {};
    var faces, edges, i := 0, 0, 0;
    while i < |es|
      invariant 0 <= i <= |es|
      invariant vertices == EdgeVertices(es[..i])
      invariant faces == OfKind(es[..i], Face) && edges == OfKind(es[..i], Edge)
    {
      assert es[..i + 1] == es[..i] + [es[i]];
      OfKindAppend(es[..i], es[i], Face);
      OfKindAppend(es[..i], es[i], Edge);
      if es[i].facts.kind == Edge {
        vertices := vertices + set v | v in es[i].ends;
        edges := edges + 1;
      } else if es[i].facts.kind == Face {
        faces := faces + 1;
      }
      i := i + 1;
    }
    assert es[..i] == es;
    t := Totals(faces, edges, |vertices|);
  }

  // The naive expansion: every placement expanded on its own ------------------

  ghost function ExpandPlaced(m: Model, es: seq<Entity>, open: set<DefId>): Totals
    requires WellFormed(m) && Children(es) <= m.definitions.Keys
    decreases m.definitions.Keys - open, |es| + 1
  {
    if es == [] then NOTHING
    else
      assert es[0] in es && Children(es[1..]) <= Children(es);
      ExpandEntity(m, es[0], open).Plus(ExpandPlaced(m, es[1..], open))
  }

  ghost function ExpandEntity(m: Model, e: Entity, open: set<DefId>): Totals
    requires WellFormed(m) && (ChildOf(e).Some? ==> ChildOf(e).value in m.definitions)
    decreases m.definitions.Keys - open, 0
  {
    match ChildOf(e)
    case None => NOTHING
    case Some(d) =>
      if d in open then NOTHING
      else Direct(m.definitions[d].entities).Plus(ExpandPlaced(m, m.definitions[d].entities, open + {d}))
  }

  ghost function ExpandList(m: Model, es: seq<Entity>, open: set<DefId>): Totals
    requires WellFormed(m) && Children(es) <= m.definitions.Keys
  {
    Direct(es).Plus(ExpandPlaced(m, es, open))
  }

  lemma {:induction false} ExpandBelowClosedSet(m: Model, es: seq<Entity>, s: set<DefId>, o: set<DefId>, p: set<DefId>)
    requires WellFormed(m) && ClosedSet(m, s) && Children(es) <= s && o * s == p * s
    ensures ExpandPlaced(m, es, o) == ExpandPlaced(m, es, p)
    decreases m.definitions.Keys - o, |es|
  {
    if es != [] {
      assert es[0] in es && Children(es[1..]) <= Children(es);
      ExpandBelowClosedSet(m, es[1..], s, o, p);
      if ChildOf(es[0]).Some? {
        var d := ChildOf(es[0]).value;
        assert d in o <==> d in o * s;
        assert d in p <==> d in p * s;
        if d !in o {
          assert (o + {d}) * s == o * s + {d} == p * s + {d} == (p + {d}) * s;
          ExpandBelowClosedSet(m, m.definitions[d].entities, s, o + {d}, p + {d});
        }
      }
    }
  }

  lemma ExpandAppend(m: Model, a: seq<Entity>, e: Entity, open: set<DefId>)
    requires WellFormed(m) && Children(a + [e]) <= m.definitions.Keys
    ensures Children(a) <= Children(a + [e]) && (ChildOf(e).Some? ==> ChildOf(e).value in Children(a + [e]))
    ensures ExpandPlaced(m, a + [e], open) == ExpandPlaced(m, a, open).Plus(ExpandEntity(m, e, open))
    decreases |a|
  {
    assert e in a + [e];
    assert Children(a) <= Children(a + [e]);
    if a == [] {
      assert a + [e] == [e] && [e][1..] == [];
    } else {
      assert (a + [e])[1..] == a[1..] + [e];
      assert Children(a[1..] + [e]) <= Children(a + [e]);
      ExpandAppend(m, a[1..], e, open);
    }
  }

  // The cached expansion --------------------------------------------------------

  class Expansion {
    const model: Model
    var cache: map<DefId, Totals>
    // The definitions in the cache, in the order in which they got there.
    ghost var order: seq<DefId>

    constructor (model: Model)
      requires WellFormed(model)
      ensures this.model == model && cache == map[] && Valid()
    {
      this.model, cache, order := model, map[], [];
    }

    ghost predicate Valid()
      reads this
    {
      && WellFormed(model) && PlacesEarlier(model, order)
      && cache.Keys == Elements(order)
      && forall d :: d in cache ==>
        d in model.definitions && cache[d] == ExpandList(model, model.definitions[d].entities, {})
    }

    method Expand(entities: seq<Entity>, ancestors: seq<DefId>) returns (outcome: Outcome)
      requires Valid() && Traversing(model, ancestors, cache.Keys) && entities == ListAt(model, ancestors)
      requires Children(entities) <= model.definitions.Keys
      modifies this
      ensures Valid() && old(cache.Keys) <= cache.Keys && Traversing(model, ancestors, cache.Keys)
      ensures outcome.Counted? ==> Children(entities) <= cache.Keys && outcome.totals == ExpandList(model, entities, {})
      ensures outcome.Refused? ==> RefusalOk(model, outcome.why)
      decreases model.definitions.Keys - Elements(ancestors), 1
    {
      hide Valid, Traversing, Children, ListAt, ExpandPlaced, ExpandEntity, Direct;
      if |ancestors| > RECURSION_LIMIT {
        DepthFound(model, ancestors, cache.Keys);
        return Refused(TooDeep);
      }
      var counts := DirectTotals(entities);
      ValidIsWellFormed();
      var i := 0;
      NothingPlaced(model, entities);
      while i < |entities|
        invariant 0 <= i <= |entities| && Valid() && old(cache.Keys) <= cache.Keys
        invariant Traversing(model, ancestors, cache.Keys)
        invariant Children(entities[..i]) <= cache.Keys && Children(entities[..i]) <= model.definitions.Keys
        invariant counts == Direct(entities).Plus(ExpandPlaced(model, entities[..i], {}))
      {
        ghost var before := cache.Keys;
        OneMorePlaced(model, entities, i);
        match ChildOf(entities[i]) {
          case None =>
          case Some(definition) =>
            var nested := NestedTotals(definition, ancestors);
            if nested.Refused? {
              return nested;
            }
            counts := counts.Plus(nested.totals);
        }
        i := i + 1;
      }
      assert entities[..i] == entities;
      outcome := Counted(counts);
    }

    // The totals of one placed definition, from the cache where possible.
    method NestedTotals(definition: DefId, ancestors: seq<DefId>) returns (outcome: Outcome)
      requires Valid() && Traversing(model, ancestors, cache.Keys)
      requires definition in Children(ListAt(model, ancestors)) && definition in model.definitions
      modifies this
      ensures Valid() && old(cache.Keys) <= cache.Keys && Traversing(model, ancestors, cache.Keys)
      ensures outcome.Counted? ==>
              WellFormed(model) && definition in cache && outcome.totals == ExpandDefinition(model, definition, {})
      ensures outcome.Refused? ==> RefusalOk(model, outcome.why)
      decreases model.definitions.Keys - Elements(ancestors), 0
    {
      hide Children, ListAt, ExpandPlaced, ExpandEntity, Direct, RootPath, Repeats, PlacesEarlier;
      if definition in ancestors {
        CycleFound(model, ancestors, definition);
        return Refused(Cyclic);
      }
      if definition !in cache {
        Entering(model, ancestors, cache.Keys, definition);
        var nested := Expand(model.definitions[definition].entities, ancestors + [definition]);
        if nested.Refused? {
          assert Traversing(model, ancestors, cache.Keys);
          return nested;
        }
        cache := cache[definition := nested.totals];
        OrderExtends(model, order, definition);
        order := order + [definition];
      }
      ExpandedInCache(model, order, definition);
      outcome := Counted(cache[definition]);
    }

    lemma ValidIsWellFormed()
      requires Valid()
      ensures WellFormed(model)
    {
    }

    // A cache that holds what the root places shows that nothing is placed in itself.
    lemma CachedIsAcyclic()
      requires Valid() && Children(model.root) <= cache.Keys
      ensures Acyclic(model)
    {
      OrderedIsAcyclic(model, order);
    }
  }

  // `p` is the path being expanded; nothing on it is in the cache yet.
  ghost predicate Traversing(m: Model, p: seq<DefId>, cached: set<DefId>) {
    RootPath(m, p) && !Repeats(p) && Elements(p) !! cached
  }

  // A refusal has its reason in the model.
  ghost predicate RefusalOk(m: Model, why: Failure) {
    match why
    case Cyclic => HasCycle(m)
    case TooDeep => exists p :: FromRoot(m, p) && |p| > 64
  }

  ghost function ExpandDefinition(m: Model, d: DefId, open: set<DefId>): Totals
    requires WellFormed(m) && d in m.definitions
  {
    if d in open then NOTHING
    else Direct(m.definitions[d].entities).Plus(ExpandPlaced(m, m.definitions[d].entities, open + {d}))
  }

  lemma DepthFound(m: Model, p: seq<DefId>, cached: set<DefId>)
    requires Traversing(m, p, cached) && |p| > RECURSION_LIMIT
    ensures RefusalOk(m, TooDeep)
  {
    RootPathMeans(m, p);
  }

  lemma NothingPlaced(m: Model, es: seq<Entity>)
    requires WellFormed(m)
    ensures Children(es[..0]) == {} && ExpandPlaced(m, es[..0], {}) == NOTHING
    ensures forall t: Totals :: t.Plus(NOTHING) == t
  {
    assert es[..0] == [];
  }

  lemma OneMorePlaced(m: Model, es: seq<Entity>, i: nat)
    requires WellFormed(m) && i < |es| && Children(es) <= m.definitions.Keys
    ensures Children(es[..i]) <= m.definitions.Keys && Children(es[..i + 1]) <= m.definitions.Keys
    ensures Children(es[..i + 1]) == Children(es[..i]) + if ChildOf(es[i]).Some? then {ChildOf(es[i]).value} else {}
    ensures ChildOf(es[i]).Some? ==> ChildOf(es[i]).value in Children(es) && ChildOf(es[i]).value in m.definitions
    ensures ExpandPlaced(m, es[..i + 1], {}) == ExpandPlaced(m, es[..i], {}).Plus(
              if ChildOf(es[i]).Some? then ExpandDefinition(m, ChildOf(es[i]).value, {}) else NOTHING)
  {
    assert es[..i + 1] == es[..i] + [es[i]] && es[i] in es;
    assert Children(es[..i]) <= Children(es) && Children(es[..i + 1]) <= Children(es);
    ExpandAppend(m, es[..i], es[i], {});
  }

  // Entering one more definition keeps the path free of repeats.
  lemma Entering(m: Model, p: seq<DefId>, cached: set<DefId>, d: DefId)
    requires WellFormed(m) && Traversing(m, p, cached) && d in Children(ListAt(m, p)) && d !in p
    requires d in m.definitions && d !in cached
    ensures Traversing(m, p + [d], cached) && ListAt(m, p + [d]) == m.definitions[d].entities
    ensures Elements(p + [d]) == Elements(p) + {d}
    ensures m.definitions.Keys - Elements(p + [d]) < m.definitions.Keys - Elements(p)
    ensures Children(m.definitions[d].entities) <= m.definitions.Keys
  {
    NoRepeat(m, p, d);
  }

  lemma CycleFound(m: Model, p: seq<DefId>, d: DefId)
    requires RootPath(m, p) && d in Children(ListAt(m, p)) && d in p
    ensures RefusalOk(m, Cyclic)
  {
    RootPathExtend(m, p, d);
    var i :| 0 <= i < |p| && p[i] == d;
    assert (p + [d])[i] == (p + [d])[|p|];
    RootPathMeans(m, p + [d]);
  }

  lemma NoRepeat(m: Model, p: seq<DefId>, d: DefId)
    requires WellFormed(m) && RootPath(m, p) && d in Children(ListAt(m, p)) && d !in p && !Repeats(p)
    requires d in m.definitions
    ensures RootPath(m, p + [d]) && !Repeats(p + [d]) && ListAt(m, p + [d]) == m.definitions[d].entities
    ensures Elements(p + [d]) == Elements(p) + {d}
    ensures m.definitions.Keys - Elements(p + [d]) < m.definitions.Keys - Elements(p)
  {
    RootPathExtend(m, p, d);
    hide WellFormed, RootPath, Children;
    NoRepeatBehind(p, d);
    assert d in m.definitions.Keys - Elements(p) && d !in m.definitions.Keys - Elements(p + [d]);
  }

  lemma NoRepeatBehind(p: seq<DefId>, d: DefId)
    requires !Repeats(p) && d !in p
    ensures !Repeats(p + [d])
  {
    assert forall i, j :: 0 <= i < j < |p| ==> p[i] != p[j];
  }

  lemma OrderExtends(m: Model, order: seq<DefId>, d: DefId)
    requires PlacesEarlier(m, order) && d in m.definitions && Children(m.definitions[d].entities) <= Elements(order)
    ensures PlacesEarlier(m, order + [d]) && Elements(order + [d]) == Elements(order) + {d}
  {
    var longer := order + [d];
    forall i | 0 <= i < |longer|
      ensures longer[i] in m.definitions
      ensures forall c :: c in Children(m.definitions[longer[i]].entities) ==> c in longer[..i]
    {
      assert longer[..|order|] == order;
      if i < |order| {
        assert longer[..i] == order[..i];
      }
    }
  }

  // What the cache holds serves wherever the definition is placed.
  lemma ExpandedInCache(m: Model, order: seq<DefId>, d: DefId)
    requires WellFormed(m) && PlacesEarlier(m, order) && d in order && d in m.definitions
    ensures Children(m.definitions[d].entities) <= m.definitions.Keys
    ensures ExpandDefinition(m, d, {}) == ExpandList(m, m.definitions[d].entities, {})
  {
    var i := FirstPlace(order, d);
    var s := Elements(order[..i]);
    assert order[i] == d;
    assert forall k :: 0 <= k < i ==> order[..i][k] == order[k];
    forall x, c | x in s && x in m.definitions && c in Children(m.definitions[x].entities) ensures c in s {
      var k :| 0 <= k < i && order[k] == x;
      assert c in order[..k];
      assert order[..k] == order[..i][..k];
    }
    assert ({} + {d}) * s == {} * s;
    ExpandBelowClosedSet(m, m.definitions[d].entities, s, {} + {d}, {});
  }

  // What a placed definition brings wherever it is placed: what its list stores itself.
  ghost function Brings(m: Model, e: Entity): Totals {
    if e.definition.Some? && e.definition.value in m.definitions && Places(e, e.definition.value) then
      Direct(m.definitions[e.definition.value].entities)
    else NOTHING
  }

  ghost function SumOf(m: Model, paths: seq<seq<Entity>>): Totals {
    if paths == [] then NOTHING
    else if paths[0] == [] then SumOf(m, paths[1..])
    else Brings(m, paths[0][|paths[0]| - 1]).Plus(SumOf(m, paths[1..]))
  }

  // Charged is the root itself and, for every occurrence of a group or an instance,
  // what its definition stores.
  ghost predicate IsCharged(m: Model, totals: Totals) {
    exists qs, paths :: AreOccurrences(m, m.root, {}, qs, paths) && totals == Direct(m.root).Plus(SumOf(m, paths))
  }

  lemma SumAppend(m: Model, a: seq<seq<Entity>>, b: seq<seq<Entity>>)
    ensures SumOf(m, a + b) == SumOf(m, a).Plus(SumOf(m, b))
  {
    hide Brings;
    if a == [] {
      assert a + b == b;
    } else {
      assert (a + b)[1..] == a[1..] + b;
      SumAppend(m, a[1..], b);
    }
  }

  lemma SumBehind(m: Model, e: Entity, paths: seq<seq<Entity>>)
    requires forall i :: 0 <= i < |paths| ==> paths[i] != []
    ensures SumOf(m, Behind([e], paths)) == SumOf(m, paths)
  {
    if paths != [] {
      SumBehind(m, e, paths[1..]);
      assert Behind([e], paths)[1..] == Behind([e], paths[1..]);
      var path := [e] + paths[0];
      assert path[|path| - 1] == paths[0][|paths[0]| - 1];
    }
  }

  lemma {:induction false} PathsGoSomewhere(m: Model, es: seq<Entity>, open: set<DefId>)
    requires WellFormed(m) && Children(es) <= m.definitions.Keys
    ensures forall i :: 0 <= i < |EntityPaths(m, es, open)| ==> EntityPaths(m, es, open)[i] != []
    decreases |es|
  {
    if es != [] {
      assert es[0] in es && Children(es[1..]) <= Children(es);
      PathsGoSomewhere(m, es[1..], open);
    }
  }

  // In a model without cycles the naive expansion charges each occurrence once.
  lemma {:induction false} PlacedAreSums(m: Model, p: seq<DefId>, es: seq<Entity>)
    requires WellFormed(m) && Acyclic(m) && RootPath(m, p) && Children(es) <= m.definitions.Keys
    requires Children(es) <= Children(ListAt(m, p))
    ensures ExpandPlaced(m, es, Elements(p)) == SumOf(m, EntityPaths(m, es, Elements(p)))
    decreases m.definitions.Keys - Elements(p), |es|
  {
    hide Acyclic, RootPath, ListAt;
    if es != [] {
      assert es[0] in es && Children(es[1..]) <= Children(es);
      PlacedAreSums(m, p, es[1..]);
      EntityIsSum(m, p, es[0]);
      SumAppend(m, PathsAt(m, es[0], Elements(p)), EntityPaths(m, es[1..], Elements(p)));
      hide WellFormed, Elements, SumOf, PathsAt, ExpandEntity, Children;
    }
  }

  lemma {:induction false} EntityIsSum(m: Model, p: seq<DefId>, e: Entity)
    requires WellFormed(m) && Acyclic(m) && RootPath(m, p)
    requires ChildOf(e).Some? ==> ChildOf(e).value in Children(ListAt(m, p)) && ChildOf(e).value in m.definitions
    ensures ExpandEntity(m, e, Elements(p)) == SumOf(m, PathsAt(m, e, Elements(p)))
    decreases m.definitions.Keys - Elements(p), 0
  {
    if ChildOf(e).Some? {
      var d := ChildOf(e).value;
      var list := m.definitions[d].entities;
      NoCycleAt(m, p, d);
      NoRepeat(m, p, d);
      PlacedAreSums(m, p + [d], list);
      var below := EntityPaths(m, list, Elements(p) + {d});
      PathsGoSomewhere(m, list, Elements(p) + {d});
      SumAppend(m, [[e]], Behind([e], below));
      SumBehind(m, e, below);
      BringsMeans(m, e);
      SumOfOne(m, e);
    } else {
      BringsMeans(m, e);
      SumOfOne(m, e);
    }
  }

  lemma BringsMeans(m: Model, e: Entity)
    ensures ChildOf(e).None? ==> Brings(m, e) == NOTHING
    ensures ChildOf(e).Some? && ChildOf(e).value in m.definitions ==>
              Brings(m, e) == Direct(m.definitions[ChildOf(e).value].entities)
  {
    hide Direct;
  }

  lemma SumOfOne(m: Model, e: Entity)
    ensures SumOf(m, [[e]]) == Brings(m, e)
  {
    hide Brings;
    assert [[e]][1..] == [];
  }

  lemma StartsTraversing(m: Model)
    requires WellFormed(m)
    ensures Traversing(m, [], {}) && Children(m.root) <= m.definitions.Keys
  {
  }

  lemma ExpansionIsCharged(m: Model)
    requires WellFormed(m)
    ensures Acyclic(m) <==> !HasCycle(m)
    ensures Acyclic(m) ==> IsCharged(m, ExpandList(m, m.root, {}))
  {
    AcyclicMeans(m);
    if Acyclic(m) {
      assert Elements([]) == {};
      PlacedAreSums(m, [], m.root);
      var qs := PathsAreOccurrences(m, m.root, {});
      hide Acyclic, AreOccurrences, EntityPaths, SumOf, ExpandPlaced;
    }
  }

  // Totals are reported only for models without cycles and charge every occurrence; a
  // model without cycles, nested no deeper than the limit, is never refused.
  method NativeGeometryResourceTotals(m: Model) returns (outcome: Outcome)
    requires WellFormed(m)
    ensures outcome.Counted? ==> !HasCycle(m) && IsCharged(m, outcome.totals)
    ensures outcome.Refused? ==> RefusalOk(m, outcome.why)
    ensures !HasCycle(m) && (forall p :: FromRoot(m, p) ==> |p| <= 64) ==> outcome.Counted?
  {
    ExpansionIsCharged(m);
    StartsTraversing(m);
    hide Acyclic, HasCycle, IsCharged, ExpandList, FromRoot, WellFormed, Children, Traversing, Expansion.Valid;
    var expansion := new Expansion(m);
    outcome := expansion.Expand(m.root, []);
    if outcome.Counted? {
      expansion.CachedIsAcyclic();
    }
  }
}
