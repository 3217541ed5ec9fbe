// The native model as the plugin sees it: a root entity list and component
// definitions, whose groups and instances refer to further definitions.
// Sharing a definition makes the structure a directed graph, not a tree.
module SketchModel {
  import opened Options

  // A native definition object (its Ruby object_id).
  type DefId = nat

  datatype Kind = Group | ComponentInstance | Face | Edge | Other

  // What the plugin reads off an entity itself, its persistent id as a text. `details`
  // stands for the rest: visibility, material, tag, transformation, geometry.
  datatype Facts = Facts(kind: Kind, persistentId: string, reference: string, name: string, details: string)

  // `ends` are the vertices of an edge; `definition` is what a group or an
  // instance places.
  datatype Entity = Entity(facts: Facts, ends: seq<nat>, definition: Option<DefId>)

  // The persistent id is None for a definition that has no such method. One that
  // has it and answers nil has the empty text for an id.
  datatype Definition = Definition(
    persistentId: Option<string>,
    reference: string,
    name: string,
    classification: string,
    entities: seq<Entity>)

  // to_s of what may be nil.
  function TextOf(id: Option<string>): string {
    if id.Some? then id.value else ""
  }

  datatype Model = Model(root: seq<Entity>, definitions: map<DefId, Definition>)

  predicate Selectable(e: Entity) {
    e.facts.kind != Other
  }

  function Selected(es: seq<Entity>): seq<Entity> {
    if es == [] then [] else (if Selectable(es[0]) then [es[0]] else []) + Selected(es[1..])
  }

  function ChildOf(e: Entity): Option<DefId> {
    if e.facts.kind == Group || e.facts.kind == ComponentInstance then e.definition else None
  }

  // The same by the fields alone: a group or an instance places its definition.
  ghost predicate Places(e: Entity, d: DefId) {
    (e.facts.kind.Group? || e.facts.kind.ComponentInstance?) && e.definition == Some(d)
  }

  // What is fingerprinted and indexed.
  ghost predicate Counts(e: Entity) {
    e.facts.kind.Group? || e.facts.kind.ComponentInstance? || e.facts.kind.Face? || e.facts.kind.Edge?
  }

  lemma ChildOfMeans(e: Entity)
    ensures forall d: DefId :: ChildOf(e) == Some(d) <==> Places(e, d)
    ensures ChildOf(e).Some? <==> exists d :: Places(e, d)
    ensures Selectable(e) <==> Counts(e)
  {
  }

  function Children(es: seq<Entity>): set<DefId> {
    set e | e in es && ChildOf(e).Some? :: ChildOf(e).value
  }

  // Every placed definition exists.
  ghost predicate WellFormed(m: Model) {
    && Children(m.root) <= m.definitions.Keys
    && forall d :: d in m.definitions ==> Children(m.definitions[d].entities) <= m.definitions.Keys
  }

  // Paths of definitions from the root --------------------------------------

  // The entity list a definition path leads to: [] leads to the root list.
  ghost function ListAt(m: Model, p: seq<DefId>): seq<Entity> {
    if p == [] then m.root
    else if p[|p| - 1] in m.definitions then m.definitions[p[|p| - 1]].entities
    else []
  }

  ghost predicate RootPath(m: Model, p: seq<DefId>) {
    p == [] || (RootPath(m, p[..|p| - 1]) && p[|p| - 1] in Children(ListAt(m, p[..|p| - 1])))
  }

  ghost predicate Reachable(m: Model, d: DefId) {
    exists p: seq<DefId> :: RootPath(m, p) && p != [] && p[|p| - 1] == d
  }

  ghost function ReachableSet(m: Model): set<DefId> {
    set d | d in m.definitions && Reachable(m, d)
  }

  ghost predicate Repeats<T(!new)>(p: seq<T>) {
    exists i, j :: 0 <= i < j < |p| && p[i] == p[j]
  }

  // No path from the root meets a definition twice.
  ghost predicate Acyclic(m: Model) {
    forall p: seq<DefId> :: RootPath(m, p) ==> !Repeats(p)
  }

  lemma SelectedMembers(es: seq<Entity>, e: Entity)
    ensures e in Selected(es) <==> e in es && Selectable(e)
  {
    if es != [] {
      SelectedMembers(es[1..], e);
      assert es == [es[0]] + es[1..];
    }
  }

  lemma SelectedChildren(es: seq<Entity>)
    ensures Children(Selected(es)) == Children(es)
  {
    forall e ensures e in Selected(es) <==> e in es && Selectable(e) {
      SelectedMembers(es, e);
    }
  }

  lemma RootPathExtend(m: Model, p: seq<DefId>, d: DefId)
    requires RootPath(m, p) && d in Children(ListAt(m, p))
    ensures RootPath(m, p + [d]) && Reachable(m, d)
  {
    var q := p + [d];
    assert q[..|q| - 1] == p && q[|q| - 1] == d;
  }

  lemma ReachableChild(m: Model, d: DefId, c: DefId)
    requires d in m.definitions && Reachable(m, d) && c in Children(m.definitions[d].entities)
    ensures Reachable(m, c)
  {
    var p :| RootPath(m, p) && p != [] && p[|p| - 1] == d;
    RootPathExtend(m, p, c);
  }

  // A set that holds the root's children and is closed under placement holds
  // everything on any path from the root.
  lemma PathInsideClosedSet(m: Model, p: seq<DefId>, s: set<DefId>)
    requires RootPath(m, p) && Children(m.root) <= s <= m.definitions.Keys
    requires forall d :: d in s ==> Children(m.definitions[d].entities) <= s
    ensures forall i :: 0 <= i < |p| ==> p[i] in s
  {
    if p != [] {
      var front := p[..|p| - 1];
      PathInsideClosedSet(m, front, s);
      if front != [] {
        assert front[|front| - 1] in s;
      }
      assert p[|p| - 1] in s;
      assert forall i :: 0 <= i < |front| ==> p[i] == front[i];
    }
  }

  lemma NoCycleAt(m: Model, p: seq<DefId>, d: DefId)
    requires Acyclic(m) && RootPath(m, p) && d in Children(ListAt(m, p))
    ensures d !in p && !Repeats(p)
  {
    RootPathExtend(m, p, d);
    if i :| 0 <= i < |p| && p[i] == d {
      assert (p + [d])[i] == (p + [d])[|p|];
      assert Repeats(p + [d]);
    }
  }

  // An order of definitions in which each comes after everything it places.
  ghost predicate PlacesEarlier(m: Model, order: seq<DefId>) {
    forall i :: 0 <= i < |order| ==>
      order[i] in m.definitions
      && forall c :: c in Children(m.definitions[order[i]].entities) ==> c in order[..i]
  }

  ghost function FirstPlace(order: seq<DefId>, d: DefId): (i: nat)
    requires d in order
    ensures i < |order| && order[i] == d && forall k :: 0 <= k < i ==> order[k] != d
  {
    if order[0] == d then 0 else 1 + FirstPlace(order[1..], d)
  }

  lemma PlacedComesEarlier(m: Model, order: seq<DefId>, d: DefId, c: DefId)
    requires PlacesEarlier(m, order) && d in order && d in m.definitions && c in Children(m.definitions[d].entities)
    ensures c in order && FirstPlace(order, c) < FirstPlace(order, d)
  {
    var i := FirstPlace(order, d);
    assert order[i] == d;
    var j :| 0 <= j < i && order[j] == c;
  }

  ghost predicate Descends(order: seq<DefId>, p: seq<DefId>) {
    && (forall i :: 0 <= i < |p| ==> p[i] in order)
    && (forall i, j :: 0 <= i < j < |p| ==> FirstPlace(order, p[j]) < FirstPlace(order, p[i]))
  }

  lemma DescendsExtends(order: seq<DefId>, p: seq<DefId>, d: DefId)
    requires Descends(order, p) && d in order
    requires p == [] || FirstPlace(order, d) < FirstPlace(order, p[|p| - 1])
    ensures Descends(order, p + [d])
  {
    hide FirstPlace;
  }

  lemma PathDescends(m: Model, order: seq<DefId>, p: seq<DefId>)
    requires PlacesEarlier(m, order) && RootPath(m, p)
    requires forall c :: c in Children(m.root) ==> c in order
    ensures Descends(order, p)
  {
    hide PlacesEarlier, FirstPlace, Children;
    if p != [] {
      var front, d := p[..|p| - 1], p[|p| - 1];
      PathDescends(m, order, front);
      if front != [] {
        OrderedIsDefined(m, order, front[|front| - 1]);
        PlacedComesEarlier(m, order, front[|front| - 1], d);
      }
      DescendsExtends(order, front, d);
      assert p == front + [d];
    }
  }

  lemma OrderedIsDefined(m: Model, order: seq<DefId>, d: DefId)
    requires PlacesEarlier(m, order) && d in order
    ensures d in m.definitions
  {
    var i :| 0 <= i < |order| && order[i] == d;
  }

  lemma OrderedIsAcyclic(m: Model, order: seq<DefId>)
    requires PlacesEarlier(m, order)
    requires forall c :: c in Children(m.root) ==> c in order
    ensures Acyclic(m)
  {
    forall p: seq<DefId> | RootPath(m, p) ensures !Repeats(p) {
      PathDescends(m, order, p);
    }
  }
}
