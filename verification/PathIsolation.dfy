// Copy-on-write for one occurrence: before an edit every definition on the path
// is made unique, and each clone is found again by an unambiguous signature.
module PathIsolation {
  import opened Options

  type EntityId = nat
  type DefId = nat

  // A stored entity: what a copy shares, the definition it places if it is a
  // group or instance, and the definition (None: the model) whose list holds it.
  datatype Item = Item(payload: string, child: Option<DefId>, owner: Option<DefId>)

  datatype Graph = Graph(
    root: seq<EntityId>,
    lists: map<DefId, seq<EntityId>>,
    items: map<EntityId, Item>,
    nextEntity: EntityId,
    nextDefinition: DefId)

  predicate Exists(g: Graph, k: Option<DefId>) {
    k.Some? ==> k.value in g.lists
  }

  function ListOf(g: Graph, k: Option<DefId>): seq<EntityId>
    requires Exists(g, k)
  {
    if k.None? then g.root else g.lists[k.value]
  }

  // The native containment rules: every entity is in exactly one place, every
  // placed definition exists, identifiers are never reused.
  ghost predicate WellFormed(g: Graph) {
    && (forall d :: d in g.lists ==> d < g.nextDefinition)
    && (forall e :: e in g.items ==>
          e < g.nextEntity && Exists(g, g.items[e].owner) && e in ListOf(g, g.items[e].owner))
    && (forall e :: e in g.items && g.items[e].child.Some? ==> g.items[e].child.value in g.lists)
    && (forall k :: Exists(g, k) ==> Holds(g, k, ListOf(g, k)))
  }

  ghost predicate Holds(g: Graph, k: Option<DefId>, es: seq<EntityId>) {
    && (forall i :: 0 <= i < |es| ==> es[i] in g.items && g.items[es[i]].owner == k)
    && (forall i, j :: 0 <= i < j < |es| ==> es[i] != es[j])
  }

  // The instances of a definition, wherever they are placed.
  function Instances(g: Graph, d: DefId): set<EntityId> {
    set e | e in g.items && g.items[e].child == Some(d)
  }

  predicate Places(g: Graph, e: EntityId, d: DefId) {
    e in g.items && g.items[e].child == Some(d)
  }

  // The unfolded model ----------------------------------------------------------

  datatype Tree = Leaf(payload: string) | Node(payload: string, below: seq<Tree>)

  // The list es, with every placement written out, is ts.
  ghost predicate Unfolds(g: Graph, es: seq<EntityId>, ts: seq<Tree>)
    decreases ts
  {
    |es| == |ts| && forall i :: 0 <= i < |ts| ==> UnfoldsTo(g, es[i], ts[i])
  }

  ghost predicate UnfoldsTo(g: Graph, e: EntityId, t: Tree)
    decreases t
  {
    e in g.items &&
    match t
    case Leaf(payload) => g.items[e].payload == payload && g.items[e].child == None
    case Node(payload, below) =>
      g.items[e].payload == payload && g.items[e].child.Some?
      && g.items[e].child.value in g.lists && Unfolds(g, g.lists[g.items[e].child.value], below)
  }

  // Unfoldings are unique.
  lemma {:induction false} UnfoldingIsUnique(g: Graph, es: seq<EntityId>, a: seq<Tree>, b: seq<Tree>)
    requires Unfolds(g, es, a) && Unfolds(g, es, b)
    ensures a == b
    decreases a
  {
    forall i | 0 <= i < |a| ensures a[i] == b[i] {
      TreeIsUnique(g, es[i], a[i], b[i]);
    }
  }

  lemma {:induction false} TreeIsUnique(g: Graph, e: EntityId, a: Tree, b: Tree)
    requires UnfoldsTo(g, e, a) && UnfoldsTo(g, e, b)
    ensures a == b
    decreases a
  {
    if a.Node? {
      UnfoldingIsUnique(g, g.lists[g.items[e].child.value], a.below, b.below);
    }
  }

  // make_unique -----------------------------------------------------------------

  function Clones(g: Graph, d: DefId): seq<EntityId>
    requires d in g.lists
  {
    seq(|g.lists[d]|, i requires 0 <= i < |g.lists[d]| => g.nextEntity + i)
  }

  function Copies(g: Graph, d: DefId): map<EntityId, Item>
    requires d in g.lists && forall i :: 0 <= i < |g.lists[d]| ==> g.lists[d][i] in g.items
  {
    map c | c in Clones(g, d) :: g.items[g.lists[d][c - g.nextEntity]].(owner := Some(g.nextDefinition))
  }

  lemma CopiesFacts(g: Graph, d: DefId)
    requires d in g.lists && forall i :: 0 <= i < |g.lists[d]| ==> g.lists[d][i] in g.items
    requires forall e :: e in g.items ==> e < g.nextEntity
    ensures |Clones(g, d)| == |g.lists[d]| && Copies(g, d).Keys !! g.items.Keys
    ensures forall x :: x in Copies(g, d) <==> x in Clones(g, d)
    ensures forall i :: 0 <= i < |g.lists[d]| ==>
      Clones(g, d)[i] in Copies(g, d)
        && Copies(g, d)[Clones(g, d)[i]] == g.items[g.lists[d][i]].(owner := Some(g.nextDefinition))
  {
  }

  lemma PlacedList(g: Graph, e: EntityId)
    requires WellFormed(g) && e in g.items && g.items[e].child.Some?
    ensures g.items[e].child.value in g.lists
    ensures Holds(g, g.items[e].child, g.lists[g.items[e].child.value])
  {
    assert Exists(g, g.items[e].child) && Holds(g, g.items[e].child, ListOf(g, g.items[e].child));
  }

  // A new definition with copies of all entities, placed by e alone.
  function MadeUnique(g: Graph, e: EntityId): Graph
    requires WellFormed(g) && e in g.items && g.items[e].child.Some?
  {
    var d := g.items[e].child.value;
    var d' := g.nextDefinition;
    PlacedList(g, e);
    Graph(g.root, g.lists[d' := Clones(g, d)], g.items[e := g.items[e].(child := Some(d'))] + Copies(g, d),
          g.nextEntity + |g.lists[d]|, d' + 1)
  }

  // What make_unique changes, and nothing else.
  ghost predicate OnlyMadeUnique(g: Graph, e: EntityId, h: Graph) {
    && e in g.items && g.items[e].child.Some? && g.items[e].child.value in g.lists && g.nextDefinition !in g.lists
    && var d, d' := g.items[e].child.value, g.nextDefinition;
    && h.root == g.root && h.nextDefinition == d' + 1 && h.nextEntity >= g.nextEntity
    && h.lists.Keys == g.lists.Keys + {d'} && (forall k :: k in g.lists ==> h.lists[k] == g.lists[k])
    && (forall x :: x in h.items <==> x in g.items || x in h.lists[d'])
    && (forall x :: x in g.items && x != e ==> h.items[x] == g.items[x])
    && h.items[e] == g.items[e].(child := Some(d'))
    && ClonedList(g, g.lists[d], h, h.lists[d'], d')
  }

  // The list cs holds fresh copies of the entities of es, in the same order.
  ghost predicate ClonedList(g: Graph, es: seq<EntityId>, h: Graph, cs: seq<EntityId>, d: DefId) {
    && |cs| == |es|
    && (forall i :: 0 <= i < |es| ==> es[i] in g.items && g.nextEntity <= cs[i] < h.nextEntity && cs[i] in h.items)
    && (forall i :: 0 <= i < |es| ==> h.items[cs[i]] == g.items[es[i]].(owner := Some(d)))
    && (forall i, j :: 0 <= i < j < |cs| ==> cs[i] != cs[j])
  }

  lemma MadeUniqueFacts(g: Graph, e: EntityId)
    requires WellFormed(g) && e in g.items && g.items[e].child.Some?
    ensures OnlyMadeUnique(g, e, MadeUnique(g, e))
  {
    var d, d', h := g.items[e].child.value, g.nextDefinition, MadeUnique(g, e);
    PlacedList(g, e);
    CopiesFacts(g, d);
    assert d' !in g.lists && e !in Copies(g, d);
    assert h == Graph(g.root, g.lists[d' := Clones(g, d)], g.items[e := g.items[e].(child := Some(d'))] + Copies(g, d),
                      g.nextEntity + |g.lists[d]|, d' + 1);
    AddingCopies(g, e, d, Clones(g, d), Copies(g, d));
  }

  lemma AddingCopies(g: Graph, e: EntityId, d: DefId, cs: seq<EntityId>, copies: map<EntityId, Item>)
    requires e in g.items && g.items[e].child == Some(d) && d in g.lists && g.nextDefinition !in g.lists
    requires |cs| == |g.lists[d]| && copies.Keys !! g.items.Keys
    requires forall x :: x in copies <==> x in cs
    requires forall i :: 0 <= i < |cs| ==> cs[i] == g.nextEntity + i && g.lists[d][i] in g.items
    requires forall i :: 0 <= i < |cs| ==>
             cs[i] in copies && copies[cs[i]] == g.items[g.lists[d][i]].(owner := Some(g.nextDefinition))
    ensures OnlyMadeUnique(g, e, Graph(g.root, g.lists[g.nextDefinition := cs],
              g.items[e := g.items[e].(child := Some(g.nextDefinition))] + copies,
              g.nextEntity + |g.lists[d]|, g.nextDefinition + 1))
  {
  }

  lemma MadeUniqueWellFormed(g: Graph, e: EntityId)
    requires WellFormed(g) && e in g.items && g.items[e].child.Some?
    ensures WellFormed(MadeUnique(g, e))
  {
    MadeUniqueFacts(g, e);
    OnlyMadeUniqueWellFormed(g, e, MadeUnique(g, e));
  }

  lemma OnlyMadeUniqueWellFormed(g: Graph, e: EntityId, h: Graph)
    requires WellFormed(g) && OnlyMadeUnique(g, e, h)
    ensures WellFormed(h)
  {
    var d' := g.nextDefinition;
    forall k | Exists(h, k) ensures Holds(h, k, ListOf(h, k)) {
      if k != Some(d') {
        assert Exists(g, k) && Holds(g, k, ListOf(g, k));
      }
    }
    forall x | x in h.items
      ensures x < h.nextEntity && Exists(h, h.items[x].owner) && x in ListOf(h, h.items[x].owner)
      ensures h.items[x].child.Some? ==> h.items[x].child.value in h.lists
    {
      if x !in g.items {
        var i :| 0 <= i < |h.lists[d']| && h.lists[d'][i] == x;
      }
    }
  }

  // Making a definition unique never shows in the unfolded model.
  lemma {:induction false} MadeUniqueUnfolds(g: Graph, e: EntityId, es: seq<EntityId>, ts: seq<Tree>)
    requires WellFormed(g) && e in g.items && g.items[e].child.Some?
    requires forall i :: 0 <= i < |es| ==> es[i] in g.items
    ensures Unfolds(g, es, ts) <==> Unfolds(MadeUnique(g, e), es, ts)
    decreases ts
  {
    hide MadeUnique;
    forall i | 0 <= i < |ts| && |es| == |ts|
      ensures UnfoldsTo(g, es[i], ts[i]) <==> UnfoldsTo(MadeUnique(g, e), es[i], ts[i])
    {
      MadeUniqueUnfoldsTo(g, e, es[i], ts[i]);
    }
  }

  lemma {:induction false} MadeUniqueUnfoldsTo(g: Graph, e: EntityId, x: EntityId, t: Tree)
    requires WellFormed(g) && e in g.items && g.items[e].child.Some? && x in g.items
    ensures UnfoldsTo(g, x, t) <==> UnfoldsTo(MadeUnique(g, e), x, t)
    decreases t
  {
    hide MadeUnique;
    var h := MadeUnique(g, e);
    MadeUniqueFacts(g, e);
    if t.Node? && g.items[x].child.Some? {
      var d := g.items[x].child.value;
      PlacedList(g, x);
      if x != e {
        MadeUniqueUnfolds(g, e, g.lists[d], t.below);
      } else if |g.lists[d]| == |t.below| {
        forall i | 0 <= i < |t.below|
          ensures UnfoldsTo(g, g.lists[d][i], t.below[i]) <==> UnfoldsTo(h, h.lists[g.nextDefinition][i], t.below[i])
        {
          CloneUnfoldsTo(g, e, i, t.below[i]);
        }
      }
    }
  }

  lemma {:induction false} CloneUnfoldsTo(g: Graph, e: EntityId, i: nat, t: Tree)
    requires WellFormed(g) && e in g.items && g.items[e].child.Some? && g.items[e].child.value in g.lists
    requires i < |g.lists[g.items[e].child.value]| && g.nextDefinition in MadeUnique(g, e).lists
    requires i < |MadeUnique(g, e).lists[g.nextDefinition]|
    ensures UnfoldsTo(g, g.lists[g.items[e].child.value][i], t)
       <==> UnfoldsTo(MadeUnique(g, e), MadeUnique(g, e).lists[g.nextDefinition][i], t)
    decreases t
  {
    hide MadeUnique;
    MadeUniqueFacts(g, e);
    var x := g.lists[g.items[e].child.value][i];
    if t.Node? && g.items[x].child.Some? {
      var d := g.items[x].child.value;
      PlacedList(g, x);
      MadeUniqueUnfolds(g, e, g.lists[d], t.below);
    }
  }
}
