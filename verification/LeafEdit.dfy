// Why isolating is enough: whatever an edit does to the list an isolated path
// leads to shows at that place of the unfolded model and nowhere else. And how the
// edit finds the topology it was asked to change again in that list.
module LeafEdit {
  import opened Options
  import opened Lists
  import opened PathIsolation
  import opened IsolatedPath
  import opened PathEditing

  // e is g after arbitrary changes to the contents of one definition.
  ghost predicate EditedOnly(g: Graph, leaf: DefId, e: Graph) {
    && e.root == g.root && leaf in e.lists
    && (forall d :: d in g.lists && d != leaf ==> d in e.lists && e.lists[d] == g.lists[d])
    && (forall x :: x in g.items && g.items[x].owner != Some(leaf) ==> x in e.items && e.items[x] == g.items[x])
  }

  // The tree list with the list below one occurrence replaced.
  ghost function ReplaceAt(ts: seq<Tree>, places: seq<nat>, edited: seq<Tree>): seq<Tree> {
    if places == [] then edited
    else if places[0] < |ts| && ts[places[0]].Node? then
      ts[places[0] := Node(ts[places[0]].payload, ReplaceAt(ts[places[0]].below, places[1..], edited))]
    else ts
  }

  // places[i] is where the i-th entity of the path lies in its list.
  ghost predicate LiesAt(g: Graph, p: seq<EntityId>, places: seq<nat>) {
    |places| == |p| && forall i :: 0 <= i < |p| ==> places[i] < |Level(g, p, i)| && Level(g, p, i)[places[i]] == p[i]
  }

  ghost predicate IsLeaf(g: Graph, p: seq<EntityId>, leaf: DefId) {
    p != [] && Places(g, p[|p| - 1], leaf)
  }

  // Owners along an isolated path are pairwise different, and none is the leaf.
  lemma OwnersDiffer(g: Graph, p: seq<EntityId>, i: nat, j: nat)
    requires IsPath(g, p) && Alone(g, p) && i < |p| && j <= |p| && i != j
    ensures Above(g, p, i) != Above(g, p, j)
  {
    if i > 0 && j > 0 {
      if i < j {
        AloneIsDistinct(g, p, i - 1, j - 1);
      } else {
        AloneIsDistinct(g, p, j - 1, i - 1);
      }
    }
  }

  // Entities off the path unfold as before.
  lemma {:induction false} OffPath(g: Graph, p: seq<EntityId>, leaf: DefId, e: Graph, x: EntityId, t: Tree)
    requires WellFormed(g) && IsPath(g, p) && Alone(g, p) && IsLeaf(g, p, leaf) && EditedOnly(g, leaf, e)
    requires x in g.items && x !in p && g.items[x].owner != Some(leaf) && UnfoldsTo(g, x, t)
    ensures UnfoldsTo(e, x, t)
    decreases t
  {
    if t.Node? {
      var d := g.items[x].child.value;
      PlacedList(g, x);
      OffPathChild(g, p, leaf, x, d);
      hide WellFormed, Alone, IsLeaf;
      forall k | 0 <= k < |t.below| ensures UnfoldsTo(e, g.lists[d][k], t.below[k]) {
        OffPath(g, p, leaf, e, g.lists[d][k], t.below[k]);
      }
    }
  }

  lemma OffPathChild(g: Graph, p: seq<EntityId>, leaf: DefId, x: EntityId, d: DefId)
    requires WellFormed(g) && IsPath(g, p) && Alone(g, p) && IsLeaf(g, p, leaf)
    requires Places(g, x, d) && x !in p && d in g.lists
    ensures d != leaf
    ensures forall k :: 0 <= k < |g.lists[d]| ==>
      g.lists[d][k] in g.items && g.lists[d][k] !in p && g.items[g.lists[d][k]].owner != Some(leaf)
  {
    forall i | 0 <= i < |p| ensures g.items[p[i]].child != Some(d) {
      assert Instances(g, g.items[p[i]].child.value) == {p[i]};
      assert g.items[p[i]].child == Some(d) ==> x in Instances(g, d);
    }
    forall i | 0 <= i < |p| ensures g.items[p[i]].owner != Some(d) {
      assert g.items[p[i]].owner == Above(g, p, i);
    }
    forall k | 0 <= k < |g.lists[d]| ensures g.lists[d][k] in g.items && g.items[g.lists[d][k]].owner == Some(d) {
      OwnerOf(g, d, k);
    }
  }

  lemma LevelMembers(g: Graph, p: seq<EntityId>, leaf: DefId, places: seq<nat>, i: nat, k: nat)
    requires WellFormed(g) && IsPath(g, p) && Alone(g, p) && IsLeaf(g, p, leaf) && LiesAt(g, p, places)
    requires i < |p| && k < |Level(g, p, i)|
    ensures Level(g, p, i)[k] in g.items && g.items[Level(g, p, i)[k]].owner != Some(leaf)
    ensures k != places[i] ==> Level(g, p, i)[k] !in p
  {
    var l := LevelAt(g, p, i);
    OwnersDiffer(g, p, i, |p|);
    var x := Level(g, p, i)[k];
    assert g.items[x].owner == Above(g, p, i);
    forall j | 0 <= j < |p| && k != places[i] ensures p[j] != x {
      if j != i {
        OwnersDiffer(g, p, i, j);
        assert g.items[p[j]].owner == Above(g, p, j);
      }
    }
  }

  // The list at level i, with the edit further down.
  ghost function LevelAfter(g: Graph, p: seq<EntityId>, leaf: DefId, e: Graph, i: nat): seq<EntityId>
    requires i <= |p| && leaf in e.lists
  {
    if i < |p| then Level(g, p, i) else e.lists[leaf]
  }

  lemma {:induction false} OnPath(g: Graph, p: seq<EntityId>, leaf: DefId, e: Graph, places: seq<nat>, i: nat,
                                  ts: seq<Tree>, edited: seq<Tree>)
    requires WellFormed(g) && IsPath(g, p) && Alone(g, p) && IsLeaf(g, p, leaf) && LiesAt(g, p, places)
    requires EditedOnly(g, leaf, e)
    requires i <= |p| && Unfolds(e, e.lists[leaf], edited) && (i < |p| ==> Unfolds(g, Level(g, p, i), ts))
    ensures Unfolds(e, LevelAfter(g, p, leaf, e, i), ReplaceAt(ts, places[i..], edited))
    decreases |p| - i
  {
    hide WellFormed, Alone, IsLeaf, Level, Unfolds, UnfoldsTo, ReplaceAt;
    if i < |p| {
      EnterNode(g, p, leaf, e, i, places[i], ts);
      var below := ts[places[i]].below;
      OnPath(g, p, leaf, e, places, i + 1, below, edited);
      OneLevel(g, p, leaf, e, places, i, ts, ReplaceAt(below, places[i + 1..], edited));
      ReplaceHere(ts, places, i, edited);
    } else {
      ReplaceDone(ts, places, i, edited);
    }
  }

  lemma ReplaceDone(ts: seq<Tree>, places: seq<nat>, i: nat, edited: seq<Tree>)
    requires i == |places|
    ensures ReplaceAt(ts, places[i..], edited) == edited
  {
  }

  lemma ReplaceHere(ts: seq<Tree>, places: seq<nat>, i: nat, edited: seq<Tree>)
    requires i < |places| && places[i] < |ts| && ts[places[i]].Node?
    ensures ReplaceAt(ts, places[i..], edited)
         == ts[places[i] := Node(ts[places[i]].payload, ReplaceAt(ts[places[i]].below, places[i + 1..], edited))]
  {
    assert places[i..][1..] == places[i + 1..];
  }

  // If the node of the path at level i now holds other trees below it, the whole
  // level holds what it held, with that node replaced.
  lemma OneLevel(g: Graph, p: seq<EntityId>, leaf: DefId, e: Graph, places: seq<nat>, i: nat, ts: seq<Tree>,
                 below: seq<Tree>)
    requires WellFormed(g) && IsPath(g, p) && Alone(g, p) && IsLeaf(g, p, leaf) && LiesAt(g, p, places)
    requires EditedOnly(g, leaf, e)
    requires i < |p| && Unfolds(g, Level(g, p, i), ts)
    requires Unfolds(e, LevelAfter(g, p, leaf, e, i + 1), below) && places[i] < |ts| && ts[places[i]].Node?
    ensures Unfolds(e, Level(g, p, i), ts[places[i] := Node(ts[places[i]].payload, below)])
  {
    hide WellFormed, Alone, IsLeaf, Level, EditedOnly;
    EnterNode(g, p, leaf, e, i, places[i], ts);
    var es := Level(g, p, i);
    forall k | 0 <= k < |ts| && k != places[i] ensures UnfoldsTo(e, es[k], ts[k]) {
      LevelMembers(g, p, leaf, places, i, k);
      OffPath(g, p, leaf, e, es[k], ts[k]);
    }
  }

  // The entity of the path at level i is a node of the tree, and what it places is
  // the next level, before the edit and after it.
  lemma EnterNode(g: Graph, p: seq<EntityId>, leaf: DefId, e: Graph, i: nat, at: nat, ts: seq<Tree>)
    requires WellFormed(g) && IsPath(g, p) && Alone(g, p) && IsLeaf(g, p, leaf) && EditedOnly(g, leaf, e)
    requires i < |p| && at < |Level(g, p, i)| && Level(g, p, i)[at] == p[i] && Unfolds(g, Level(g, p, i), ts)
    ensures at < |ts| && ts[at].Node? && (i + 1 < |p| ==> Unfolds(g, Level(g, p, i + 1), ts[at].below))
    ensures p[i] in e.items && e.items[p[i]] == g.items[p[i]] && e.items[p[i]].child.Some?
    ensures e.items[p[i]].payload == ts[at].payload
    ensures e.items[p[i]].child.value in e.lists
    ensures e.lists[e.items[p[i]].child.value] == LevelAfter(g, p, leaf, e, i + 1)
  {
    LevelBelowPath(g, p, i);
    assert g.items[p[i]].owner == Above(g, p, i);
    OwnersDiffer(g, p, i, |p|);
    assert UnfoldsTo(g, p[i], ts[at]);
    if i + 1 < |p| {
      AloneIsDistinct(g, p, i, |p| - 1);
    }
  }

  // After a successful isolation, any later change to the contents of the leaf
  // definition changes the unfolded model at the requested path only.
  lemma EditShowsOnlyAtThePath(g: Graph, p: seq<EntityId>, h: Graph, iso: seq<EntityId>, entities: seq<EntityId>,
                               leaf: DefId, e: Graph, places: seq<nat>, ts: seq<Tree>, edited: seq<Tree>)
    requires WellFormed(g) && IsPath(g, p) && p != [] && LiesAt(g, p, places)
    requires WellFormed(h) && SameUnfolding(g, h) && Isolated(g, p, h, iso, entities)
    requires Places(h, iso[|iso| - 1], leaf) && EditedOnly(h, leaf, e)
    requires Unfolds(g, g.root, ts) && Unfolds(e, e.lists[leaf], edited)
    ensures Unfolds(e, e.root, ReplaceAt(ts, places, edited))
  {
    IsolatedLiesAt(g, p, h, iso, places);
    assert Unfolds(h, h.root, ts);
    hide SameUnfolding, Isolated, WellFormed, Alone, EditedOnly;
    EditBelowShowsThere(h, iso, leaf, e, places, ts, edited);
  }

  // Where every definition on a path is placed once, a change to the contents of the
  // last one shows at the end of that path only.
  lemma EditBelowShowsThere(g: Graph, p: seq<EntityId>, leaf: DefId, e: Graph, places: seq<nat>, ts: seq<Tree>,
                            edited: seq<Tree>)
    requires WellFormed(g) && IsPath(g, p) && Alone(g, p) && IsLeaf(g, p, leaf) && LiesAt(g, p, places)
    requires EditedOnly(g, leaf, e) && Unfolds(g, g.root, ts) && Unfolds(e, e.lists[leaf], edited)
    ensures Unfolds(e, e.root, ReplaceAt(ts, places, edited))
  {
    assert Level(g, p, 0) == g.root;
    hide WellFormed, Alone, EditedOnly, IsLeaf;
    OnPath(g, p, leaf, e, places, 0, ts, edited);
    assert places[0..] == places;
  }

  lemma IsolatedLiesAt(g: Graph, p: seq<EntityId>, h: Graph, iso: seq<EntityId>, places: seq<nat>)
    requires WellFormed(g) && IsPath(g, p) && LiesAt(g, p, places) && |iso| == |p| && AtSamePlaces(g, p, h, iso)
    ensures LiesAt(h, iso, places)
  {
    forall i | 0 <= i < |iso| ensures places[i] < |Level(h, iso, i)| && Level(h, iso, i)[places[i]] == iso[i] {
      assert AtSamePlace(Level(g, p, i), p[i], Level(h, iso, i), iso[i]);
      var k := LevelAt(g, p, i);
    }
  }

  // Handles ---------------------------------------------------------------------

  datatype Kind = EdgeKind | FaceKind | OtherKind

  // What is read off entities: their kind, the vertices of an edge, numbered in their
  // list, and the signatures by which entities are found again. That of a vertex
  // comes from the edges of its list.
  datatype Reader = Reader(
    kind: string -> Kind,
    ends: string -> seq<nat>,
    shape: string -> string,
    vertexShape: (nat, seq<string>) -> string)

  datatype Handle = OfEntity(id: EntityId) | OfVertex(number: nat)

  predicate IsOfKind(g: Graph, r: Reader, e: EntityId, kind: Kind) {
    e in g.items && g.items[e].child.None? && r.kind(g.items[e].payload) == kind
  }

  function OfKind(g: Graph, r: Reader, es: seq<EntityId>, kind: Kind): seq<EntityId> {
    if es == [] then [] else (if IsOfKind(g, r, es[0], kind) then [es[0]] else []) + OfKind(g, r, es[1..], kind)
  }

  function PayloadOf(g: Graph, e: EntityId): string {
    if e in g.items then g.items[e].payload else ""
  }

  function Payloads(g: Graph, es: seq<EntityId>): seq<string> {
    seq(|es|, k requires 0 <= k < |es| => PayloadOf(g, es[k]))
  }

  function AddNew(seen: seq<nat>, more: seq<nat>): seq<nat>
    decreases more
  {
    if more == [] then seen else AddNew(if more[0] in seen then seen else seen + [more[0]], more[1..])
  }

  // The vertices of edges, in the order met, each once.
  function VerticesOf(r: Reader, edges: seq<string>): seq<nat> {
    if edges == [] then []
    else AddNew(VerticesOf(r, edges[..|edges| - 1]), r.ends(edges[|edges| - 1]))
  }

  function EntityHandles(es: seq<EntityId>): seq<Handle> {
    seq(|es|, k requires 0 <= k < |es| => OfEntity(es[k]))
  }

  function VertexHandles(vs: seq<nat>): seq<Handle> {
    seq(|vs|, k requires 0 <= k < |vs| => OfVertex(vs[k]))
  }

  // The topology of a list: its edges, its faces, and the vertices of its edges.
  function Topology(g: Graph, r: Reader, es: seq<EntityId>): seq<Handle> {
    var edges := OfKind(g, r, es, EdgeKind);
    EntityHandles(edges) + EntityHandles(OfKind(g, r, es, FaceKind)) + VertexHandles(VerticesOf(r, Payloads(g, edges)))
  }

  function Signature(g: Graph, r: Reader, edges: seq<string>, handle: Handle): string {
    match handle
    case OfEntity(e) => r.shape(PayloadOf(g, e))
    case OfVertex(v) => r.vertexShape(v, edges)
  }

  function Signatures(g: Graph, r: Reader, es: seq<EntityId>): (shapes: seq<string>)
    ensures |shapes| == |Topology(g, r, es)|
  {
    var handles, edges := Topology(g, r, es), Payloads(g, OfKind(g, r, es, EdgeKind));
    seq(|handles|, k requires 0 <= k < |handles| => Signature(g, r, edges, handles[k]))
  }

  // What lies in a matching list lies at the same places.
  lemma {:induction false} KindsMatch(g: Graph, orig: seq<EntityId>, h: Graph, cur: seq<EntityId>, r: Reader,
                                      kind: Kind)
    requires |cur| == |orig|
    requires forall k :: 0 <= k < |orig| ==>
             orig[k] in g.items && cur[k] in h.items && SameBut(g.items[orig[k]], h.items[cur[k]])
    ensures Payloads(h, OfKind(h, r, cur, kind)) == Payloads(g, OfKind(g, r, orig, kind))
  {
    if orig != [] {
      KindsMatch(g, orig[1..], h, cur[1..], r, kind);
      PayloadsStep(g, r, orig, kind);
      PayloadsStep(h, r, cur, kind);
      hide OfKind, Payloads;
    }
  }

  lemma PayloadsStep(g: Graph, r: Reader, es: seq<EntityId>, kind: Kind)
    requires es != []
    ensures Payloads(g, OfKind(g, r, es, kind))
         == (if IsOfKind(g, r, es[0], kind) then [PayloadOf(g, es[0])] else [])
            + Payloads(g, OfKind(g, r, es[1..], kind))
  {
    hide IsOfKind, PayloadOf;
  }

  lemma TopologyMatches(g: Graph, orig: seq<EntityId>, h: Graph, cur: seq<EntityId>, r: Reader, copied: bool)
    requires Matching(g, orig, h, cur, copied)
    ensures Signatures(h, r, cur) == Signatures(g, r, orig)
  {
    KindsMatch(g, orig, h, cur, r, EdgeKind);
    KindsMatch(g, orig, h, cur, r, FaceKind);
    hide Matching, OfKind;
    SignatureParts(g, r, orig);
    SignatureParts(h, r, cur);
  }

  // Signatures depend on the payloads of edges and faces only.
  ghost function PartsSignatures(r: Reader, edges: seq<string>, faces: seq<string>): seq<string> {
    var vertices := VerticesOf(r, edges);
    seq(|edges|, k requires 0 <= k < |edges| => r.shape(edges[k]))
    + seq(|faces|, k requires 0 <= k < |faces| => r.shape(faces[k]))
    + seq(|vertices|, k requires 0 <= k < |vertices| => r.vertexShape(vertices[k], edges))
  }

  lemma SignatureParts(g: Graph, r: Reader, es: seq<EntityId>)
    ensures Signatures(g, r, es)
         == PartsSignatures(r, Payloads(g, OfKind(g, r, es, EdgeKind)), Payloads(g, OfKind(g, r, es, FaceKind)))
  {
    hide OfKind, VerticesOf;
  }

  // The topology by the fields alone ----------------------------------------------

  ghost predicate Reads(g: Graph, r: Reader, e: EntityId, kind: Kind) {
    e in g.items && g.items[e].child.None? && r.kind(g.items[e].payload) == kind
  }

  // Edges and faces of the list, and the ends of its edges.
  ghost predicate InTopology(g: Graph, r: Reader, es: seq<EntityId>, handle: Handle) {
    match handle
    case OfEntity(e) => e in es && (Reads(g, r, e, EdgeKind) || Reads(g, r, e, FaceKind))
    case OfVertex(v) => exists e :: e in es && Reads(g, r, e, EdgeKind) && v in r.ends(g.items[e].payload)
  }

  ghost function EdgeTexts(g: Graph, r: Reader, es: seq<EntityId>): seq<string> {
    if es == [] then []
    else (if Reads(g, r, es[0], EdgeKind) then [g.items[es[0]].payload] else []) + EdgeTexts(g, r, es[1..])
  }

  ghost function ShapeOf(g: Graph, r: Reader, es: seq<EntityId>, handle: Handle): string {
    match handle
    case OfEntity(e) => if e in g.items then r.shape(g.items[e].payload) else r.shape("")
    case OfVertex(v) => r.vertexShape(v, EdgeTexts(g, r, es))
  }

  // Two handles of the list that look the same.
  ghost predicate LooksTwice(g: Graph, r: Reader, es: seq<EntityId>) {
    exists x, y :: x != y && InTopology(g, r, es, x) && InTopology(g, r, es, y)
      && ShapeOf(g, r, es, x) == ShapeOf(g, r, es, y)
  }

  lemma {:induction false} OfKindMeans(g: Graph, r: Reader, es: seq<EntityId>, kind: Kind)
    ensures forall e :: e in OfKind(g, r, es, kind) <==> e in es && Reads(g, r, e, kind)
    ensures Distinct(es) ==> Distinct(OfKind(g, r, es, kind))
  {
    if es != [] {
      OfKindMeans(g, r, es[1..], kind);
      assert es == [es[0]] + es[1..];
      assert Distinct(es) ==> Distinct(es[1..]) && es[0] !in es[1..];
      var first, rest := if Reads(g, r, es[0], kind) then [es[0]] else [], OfKind(g, r, es[1..], kind);
      assert OfKind(g, r, es, kind) == first + rest;
      hide OfKind, Reads;
    }
  }

  lemma {:induction false} AddNewMeans(seen: seq<nat>, more: seq<nat>)
    requires Distinct(seen)
    ensures Distinct(AddNew(seen, more)) && forall v :: v in AddNew(seen, more) <==> v in seen || v in more
    decreases more
  {
    if more != [] {
      AddNewMeans(if more[0] in seen then seen else seen + [more[0]], more[1..]);
      assert more == [more[0]] + more[1..];
    }
  }

  ghost predicate IsEnd(r: Reader, edges: seq<string>, v: nat) {
    exists edge :: edge in edges && v in r.ends(edge)
  }

  lemma {:induction false} VerticesMean(r: Reader, edges: seq<string>)
    ensures Distinct(VerticesOf(r, edges))
    ensures forall v :: v in VerticesOf(r, edges) <==> IsEnd(r, edges, v)
  {
    if edges != [] {
      var front, last := edges[..|edges| - 1], edges[|edges| - 1];
      assert edges == front + [last];
      VerticesMean(r, front);
      AddNewMeans(VerticesOf(r, front), r.ends(last));
      hide AddNew;
      forall v ensures IsEnd(r, edges, v) <==> IsEnd(r, front, v) || v in r.ends(last) {
      }
      hide IsEnd;
    }
  }

  lemma {:induction false} EdgeTextsMean(g: Graph, r: Reader, es: seq<EntityId>)
    ensures Payloads(g, OfKind(g, r, es, EdgeKind)) == EdgeTexts(g, r, es)
  {
    if es != [] {
      EdgeTextsMean(g, r, es[1..]);
      PayloadsStep(g, r, es, EdgeKind);
      hide OfKind, Payloads;
    }
  }

  lemma EndsMean(g: Graph, r: Reader, es: seq<EntityId>, v: nat)
    ensures IsEnd(r, Payloads(g, OfKind(g, r, es, EdgeKind)), v) <==> InTopology(g, r, es, OfVertex(v))
  {
    var edges := OfKind(g, r, es, EdgeKind);
    OfKindMeans(g, r, es, EdgeKind);
    hide OfKind;
    if e :| e in es && Reads(g, r, e, EdgeKind) && v in r.ends(g.items[e].payload) {
      var k :| 0 <= k < |edges| && edges[k] == e;
      assert Payloads(g, edges)[k] == g.items[e].payload;
      assert g.items[e].payload in Payloads(g, edges);
    }
    if edge :| edge in Payloads(g, edges) && v in r.ends(edge) {
      var k :| 0 <= k < |edges| && Payloads(g, edges)[k] == edge;
      assert edges[k] in edges;
    }
  }

  lemma TopologyHolds(g: Graph, r: Reader, es: seq<EntityId>, x: Handle)
    ensures x in Topology(g, r, es) <==> InTopology(g, r, es, x)
  {
    var edges, faces := OfKind(g, r, es, EdgeKind), OfKind(g, r, es, FaceKind);
    var vertices := VerticesOf(r, Payloads(g, edges));
    OfKindMeans(g, r, es, EdgeKind);
    OfKindMeans(g, r, es, FaceKind);
    VerticesMean(r, Payloads(g, edges));
    if x.OfVertex? {
      EndsMean(g, r, es, x.number);
    }
    hide OfKind, VerticesOf, Payloads, Reads, IsEnd;
    HandlesHold(edges, vertices, x);
    HandlesHold(faces, vertices, x);
  }

  lemma HandlesHold(es: seq<EntityId>, vs: seq<nat>, x: Handle)
    ensures x in EntityHandles(es) <==> x.OfEntity? && x.id in es
    ensures x in VertexHandles(vs) <==> x.OfVertex? && x.number in vs
  {
    if x.OfEntity? && x.id in es {
      var k :| 0 <= k < |es| && es[k] == x.id;
      assert EntityHandles(es)[k] == x;
    }
    if x.OfVertex? && x.number in vs {
      var k :| 0 <= k < |vs| && vs[k] == x.number;
      assert VertexHandles(vs)[k] == x;
    }
  }

  lemma TopologyOnce(g: Graph, r: Reader, es: seq<EntityId>)
    requires Distinct(es)
    ensures Distinct(Topology(g, r, es))
  {
    var edges, faces := OfKind(g, r, es, EdgeKind), OfKind(g, r, es, FaceKind);
    var vertices := VerticesOf(r, Payloads(g, edges));
    OfKindMeans(g, r, es, EdgeKind);
    OfKindMeans(g, r, es, FaceKind);
    VerticesMean(r, Payloads(g, edges));
    hide OfKind, VerticesOf, Payloads;
    forall x ensures (x in EntityHandles(edges) <==> x.OfEntity? && x.id in edges)
                  && (x in EntityHandles(faces) <==> x.OfEntity? && x.id in faces)
                  && (x in VertexHandles(vertices) <==> x.OfVertex? && x.number in vertices) {
      HandlesHold(edges, vertices, x);
      HandlesHold(faces, vertices, x);
    }
    JoinedIsDistinct(EntityHandles(edges), EntityHandles(faces));
    JoinedIsDistinct(EntityHandles(edges) + EntityHandles(faces), VertexHandles(vertices));
  }

  lemma SignaturesMean(g: Graph, r: Reader, es: seq<EntityId>, k: nat)
    requires k < |Topology(g, r, es)|
    ensures Signatures(g, r, es)[k] == ShapeOf(g, r, es, Topology(g, r, es)[k])
  {
    EdgeTextsMean(g, r, es);
  }

  // The handles of a list can be told apart exactly when none looks like another.
  lemma SignaturesTell(g: Graph, r: Reader, es: seq<EntityId>)
    requires Distinct(es)
    ensures Distinct(Signatures(g, r, es)) <==> !LooksTwice(g, r, es)
  {
    hide Topology, Signatures, InTopology, ShapeOf;
    var all, shapes := Topology(g, r, es), Signatures(g, r, es);
    TopologyOnce(g, r, es);
    forall k | 0 <= k < |all| ensures shapes[k] == ShapeOf(g, r, es, all[k]) {
      SignaturesMean(g, r, es, k);
    }
    forall x ensures x in all <==> InTopology(g, r, es, x) {
      TopologyHolds(g, r, es, x);
    }
    if x, y :| x != y && InTopology(g, r, es, x) && InTopology(g, r, es, y)
               && ShapeOf(g, r, es, x) == ShapeOf(g, r, es, y) {
      var k :| 0 <= k < |all| && all[k] == x;
      var l :| 0 <= l < |all| && all[l] == y;
      assert shapes[k] == shapes[l];
    }
    if !LooksTwice(g, r, es) {
      forall k, l | 0 <= k < l < |shapes| ensures shapes[k] != shapes[l] {
        assert all[k] in all && all[l] in all && all[k] != all[l];
      }
    }
  }

  // A handle and its copy: entities at the same place of their lists, the same vertex.
  ghost predicate IsCopy(orig: seq<EntityId>, x: Handle, cur: seq<EntityId>, y: Handle) {
    match (x, y)
    case (OfEntity(e), OfEntity(f)) => AtSamePlace(orig, e, cur, f)
    case (OfVertex(v), OfVertex(w)) => v == w
    case (_, _) => false
  }

  lemma {:induction false} KindsCorrespond(g: Graph, orig: seq<EntityId>, h: Graph, cur: seq<EntityId>, r: Reader,
                                           kind: Kind, k: nat)
    requires |cur| == |orig|
    requires forall i :: 0 <= i < |orig| ==>
             orig[i] in g.items && cur[i] in h.items && SameBut(g.items[orig[i]], h.items[cur[i]])
    ensures |OfKind(h, r, cur, kind)| == |OfKind(g, r, orig, kind)|
    ensures k < |OfKind(g, r, orig, kind)| ==>
              AtSamePlace(orig, OfKind(g, r, orig, kind)[k], cur, OfKind(h, r, cur, kind)[k])
  {
    if orig != [] {
      var first := IsOfKind(g, r, orig[0], kind);
      KindsCorrespond(g, orig[1..], h, cur[1..], r, kind, if first && k > 0 then k - 1 else k);
      if (first ==> k > 0) && k < |OfKind(g, r, orig, kind)| {
        var e, f := OfKind(g, r, orig, kind)[k], OfKind(h, r, cur, kind)[k];
        var i :| 0 <= i < |orig[1..]| && orig[1..][i] == e && cur[1..][i] == f;
        assert orig[i + 1] == e && cur[i + 1] == f;
      }
    }
  }

  lemma CopiesMatch(g: Graph, orig: seq<EntityId>, h: Graph, cur: seq<EntityId>, r: Reader, copied: bool, k: nat)
    requires Matching(g, orig, h, cur, copied)
    ensures |Topology(h, r, cur)| == |Topology(g, r, orig)|
    ensures k < |Topology(g, r, orig)| ==> IsCopy(orig, Topology(g, r, orig)[k], cur, Topology(h, r, cur)[k])
  {
    KindsMatch(g, orig, h, cur, r, EdgeKind);
    var edges := |OfKind(g, r, orig, EdgeKind)|;
    KindsCorrespond(g, orig, h, cur, r, EdgeKind, k);
    KindsCorrespond(g, orig, h, cur, r, FaceKind, if k >= edges then k - edges else 0);
    hide Matching, OfKind, AtSamePlace, VerticesOf, Payloads;
  }

  // Where a text stands in a list of texts.
  function Positions(shapes: seq<string>, wanted: string): seq<nat> {
    if shapes == [] then []
    else
      var n := |shapes| - 1;
      Positions(shapes[..n], wanted) + if shapes[n] == wanted then [n] else []
  }

  lemma {:induction false} PositionsAre(shapes: seq<string>, wanted: string)
    ensures forall k: nat :: k in Positions(shapes, wanted) <==> k < |shapes| && shapes[k] == wanted
    ensures Distinct(Positions(shapes, wanted))
  {
    if shapes != [] {
      var n := |shapes| - 1;
      PositionsAre(shapes[..n], wanted);
      var fewer := Positions(shapes[..n], wanted);
      assert n !in fewer;
      hide Positions;
      assert Distinct(fewer + [n]);
      assert forall k: nat :: k in fewer + [n] <==> k in fewer || k == n;
      PositionsGrow(shapes, wanted);
    }
  }

  lemma PositionsGrow(shapes: seq<string>, wanted: string)
    requires shapes != []
    ensures var n := |shapes| - 1;
      Positions(shapes, wanted) == Positions(shapes[..n], wanted) + if shapes[n] == wanted then [n] else []
  {
  }

  // Each of the first texts stands in one place only.
  ghost predicate AloneUpTo(shapes: seq<string>, n: nat) {
    forall k, l :: 0 <= k < n && 0 <= l < |shapes| && k < |shapes| && k != l ==> shapes[k] != shapes[l]
  }

  lemma OneMoreAlone(shapes: seq<string>, i: nat)
    requires i < |shapes| && AloneUpTo(shapes, i)
    ensures if |Positions(shapes, shapes[i])| == 1 then Positions(shapes, shapes[i]) == [i] && AloneUpTo(shapes, i + 1)
            else !Distinct(shapes)
  {
    var found := Positions(shapes, shapes[i]);
    PositionsAre(shapes, shapes[i]);
    hide Positions;
    assert i in found;
    if |found| != 1 {
      assert found[0] in found && found[1] in found && found[0] != found[1];
      assert shapes[found[0]] == shapes[found[1]];
    }
  }

  lemma AllAlone(shapes: seq<string>)
    ensures AloneUpTo(shapes, 0) && (AloneUpTo(shapes, |shapes|) ==> Distinct(shapes))
  {
  }

  // The handles of equal signatures, unless some signature is not unique.
  method MatchAll(signatures: seq<string>, index: seq<string>, current: seq<Handle>)
    returns (mapped: Option<seq<Handle>>)
    requires index == signatures && |current| == |index|
    ensures mapped.Some? ==> mapped.value == current
    ensures mapped.Some? <==> Distinct(signatures)
  {
    AllAlone(signatures);
    hide *;
    var found: seq<Handle> := [];
    for i := 0 to |signatures|
      invariant found == current[..i] && AloneUpTo(signatures, i)
    {
      var matches := Positions(index, signatures[i]);
      OneMoreAlone(index, i);
      if |matches| != 1 {
        return None;
      }
      found := found + [current[matches[0]]];
    }
    mapped := Some(found);
  }

  // Every reviewed handle, of an edge, a face or a vertex, is mapped to its own copy,
  // or, when any two have the same signature, none is mapped at all.
  method RemapHandles(g: Graph, source: seq<EntityId>, h: Graph, entities: seq<EntityId>, r: Reader, ghost copied: bool)
    returns (mapped: Option<seq<Handle>>)
    requires Matching(g, source, h, entities, copied)
    ensures mapped.Some? ==> mapped.value == Topology(h, r, entities) && |mapped.value| == |Topology(g, r, source)|
    ensures mapped.Some? ==> forall k :: 0 <= k < |mapped.value| ==>
              InTopology(g, r, source, Topology(g, r, source)[k])
              && IsCopy(source, Topology(g, r, source)[k], entities, mapped.value[k])
    ensures forall x :: InTopology(g, r, source, x) ==> x in Topology(g, r, source)
    ensures mapped.Some? <==> Distinct(Signatures(g, r, source))
    ensures Distinct(source) ==> (mapped.None? <==> LooksTwice(g, r, source))
  {
    TopologyMatches(g, source, h, entities, r, copied);
    HandlesAreMapped(g, source, h, entities, r, copied);
    hide *;
    mapped := MatchAll(Signatures(g, r, source), Signatures(h, r, entities), Topology(h, r, entities));
  }

  lemma HandlesAreMapped(g: Graph, source: seq<EntityId>, h: Graph, entities: seq<EntityId>, r: Reader, copied: bool)
    requires Matching(g, source, h, entities, copied)
    ensures |Topology(h, r, entities)| == |Topology(g, r, source)|
    ensures forall k :: 0 <= k < |Topology(g, r, source)| ==>
              InTopology(g, r, source, Topology(g, r, source)[k])
              && IsCopy(source, Topology(g, r, source)[k], entities, Topology(h, r, entities)[k])
    ensures forall x :: InTopology(g, r, source, x) ==> x in Topology(g, r, source)
    ensures Distinct(source) ==> (Distinct(Signatures(g, r, source)) <==> !LooksTwice(g, r, source))
  {
    forall x ensures x in Topology(g, r, source) <==> InTopology(g, r, source, x) {
      TopologyHolds(g, r, source, x);
    }
    CopiesMatch(g, source, h, entities, r, copied, 0);
    forall k | 0 <= k < |Topology(g, r, source)|
      ensures IsCopy(source, Topology(g, r, source)[k], entities, Topology(h, r, entities)[k])
    {
      CopiesMatch(g, source, h, entities, r, copied, k);
    }
    if Distinct(source) {
      SignaturesTell(g, r, source);
    }
    hide Topology, InTopology, IsCopy, LooksTwice, Signatures;
  }
}
