// The outline of a flat patch of faces: edges used once bound it, and walking from
// corner to corner along them gives its closed loops.
module PerimeterWalk {
  import opened TextOrder
  import opened Lists

  // A corner is known by the text of its rounded coordinates.
  type Corner = string

  datatype Edge = Edge(a: Corner, b: Corner)

  datatype Outline = NoOutline | Outline(loops: seq<seq<Corner>>)

  function EdgeOf(a: Corner, b: Corner): Edge {
    if Leq(a, b) then Edge(a, b) else Edge(b, a)
  }

  ghost predicate InOrder(e: Edge) {
    Leq(e.a, e.b)
  }

  // Edge counting ---------------------------------------------------------------

  ghost function Before(n: nat, i: nat): nat
    requires i < n
  {
    if i == 0 then n - 1 else i - 1
  }

  ghost function After(n: nat, i: nat): nat
    requires i < n
  {
    if i == n - 1 then 0 else i + 1
  }

  lemma AfterWraps(n: nat, i: nat)
    requires i < n
    ensures After(n, i) == (i + 1) % n
  {
  }

  // The sides of a face loop, the last one leading back to its first corner.
  ghost function LoopSides(loop: seq<Corner>): (sides: seq<Edge>)
    ensures |sides| == |loop|
  {
    seq(|loop|, i requires 0 <= i < |loop| => EdgeOf(loop[i], loop[After(|loop|, i)]))
  }

  ghost function Sides(loops: seq<seq<Corner>>): seq<Edge> {
    if loops == [] then [] else Sides(loops[..|loops| - 1]) + LoopSides(loops[|loops| - 1])
  }

  // The edges that exactly one side of one loop runs along, in the order met.
  ghost predicate IsBoundary(loops: seq<seq<Corner>>, boundary: seq<Edge>) {
    && Distinct(boundary)
    && forall e :: e in boundary <==> multiset(Sides(loops))[e] == 1
  }

  lemma SideOf(loop: seq<Corner>, i: nat)
    requires i < |loop|
    ensures LoopSides(loop)[i] == EdgeOf(loop[i], loop[After(|loop|, i)])
  {
    hide EdgeOf;
  }

  lemma EdgesInOrder(a: Corner, b: Corner)
    ensures InOrder(EdgeOf(a, b))
  {
    LeqTotal(a, b);
  }

  lemma {:induction false} SidesInOrder(loops: seq<seq<Corner>>, e: Edge)
    requires e in Sides(loops)
    ensures InOrder(e)
  {
    if e in Sides(loops[..|loops| - 1]) {
      SidesInOrder(loops[..|loops| - 1], e);
    } else {
      var last := loops[|loops| - 1];
      hide *;
      var i: nat :| i < |last| && LoopSides(last)[i] == e;
      SideOf(last, i);
      EdgesInOrder(last[i], last[After(|last|, i)]);
    }
  }

  // Counting: the table holds for every edge how many sides run along it.
  ghost predicate Counts(keys: seq<Edge>, counts: map<Edge, nat>, sides: seq<Edge>) {
    && Distinct(keys) && counts.Keys == AsSet(keys)
    && (forall e :: e in counts ==> counts[e] == multiset(sides)[e])
    && (forall e :: e in sides ==> e in counts)
  }

  lemma NothingCounted(keys: seq<Edge>, counts: map<Edge, nat>, loops: seq<seq<Corner>>)
    requires keys == [] && counts == map[]
    ensures Counts(keys, counts, Sides(loops[..0]))
  {
  }

  lemma CountOne(keys: seq<Edge>, counts: map<Edge, nat>, sides: seq<Edge>, e: Edge)
    requires Counts(keys, counts, sides)
    ensures e in counts ==> Counts(keys, counts[e := counts[e] + 1], sides + [e])
    ensures e !in counts ==> Counts(keys + [e], counts[e := 1], sides + [e])
  {
    if e in counts {
      assert counts[e := counts[e] + 1].Keys == AsSet(keys);
    } else {
      assert e !in keys by {
        assert e !in AsSet(keys);
      }
      assert counts[e := 1].Keys == AsSet(keys + [e]);
    }
  }

  lemma NextSide(loop: seq<Corner>, i: nat)
    requires i < |loop|
    ensures LoopSides(loop)[..i + 1] == LoopSides(loop)[..i] + [EdgeOf(loop[i], loop[After(|loop|, i)])]
  {
    SideOf(loop, i);
    hide *;
  }

  method CountLoop(loop: seq<Corner>, keys0: seq<Edge>, counts0: map<Edge, nat>, ghost before: seq<Edge>)
    returns (keys: seq<Edge>, counts: map<Edge, nat>)
    requires Counts(keys0, counts0, before)
    ensures Counts(keys, counts, before + LoopSides(loop))
  {
    hide Counts, EdgeOf, LoopSides;
    keys, counts := keys0, counts0;
    ghost var sides := before;
    for i := 0 to |loop|
      invariant sides == before + LoopSides(loop)[..i] && Counts(keys, counts, sides)
    {
      var edge := EdgeOf(loop[i], loop[(i + 1) % |loop|]);
      AfterWraps(|loop|, i);
      NextSide(loop, i);
      CountOne(keys, counts, sides, edge);
      sides := sides + [edge];
      if edge in counts {
        counts := counts[edge := counts[edge] + 1];
      } else {
        keys, counts := keys + [edge], counts[edge := 1];
      }
    }
    assert LoopSides(loop)[..|loop|] == LoopSides(loop);
  }

  method CountEdges(loops: seq<seq<Corner>>) returns (keys: seq<Edge>, counts: map<Edge, nat>)
    ensures Counts(keys, counts, Sides(loops))
  {
    hide Counts, LoopSides;
    keys, counts := [], map[];
    NothingCounted(keys, counts, loops);
    for l := 0 to |loops|
      invariant Counts(keys, counts, Sides(loops[..l]))
    {
      assert loops[..l + 1][..l] == loops[..l];
      keys, counts := CountLoop(loops[l], keys, counts, Sides(loops[..l]));
    }
    assert loops[..|loops|] == loops;
  }

  lemma KeysAreCounted(keys: seq<Edge>, counts: map<Edge, nat>, sides: seq<Edge>)
    requires Counts(keys, counts, sides)
    ensures Distinct(keys) && forall e :: e in keys ==> e in counts && counts[e] == multiset(sides)[e]
    ensures forall e :: multiset(sides)[e] == 1 ==> e in keys
  {
    forall e | e in keys ensures e in counts {
      assert e in AsSet(keys);
    }
    forall e | multiset(sides)[e] == 1 ensures e in keys {
      assert e in sides && e in AsSet(keys);
    }
  }

  // Of the first keys, those that one side runs along.
  ghost predicate Selected(keys: seq<Edge>, sides: seq<Edge>, boundary: seq<Edge>) {
    Distinct(boundary) && forall e :: e in boundary <==> e in keys && multiset(sides)[e] == 1
  }

  lemma SelectOne(keys: seq<Edge>, sides: seq<Edge>, boundary: seq<Edge>, e: Edge)
    requires Selected(keys, sides, boundary) && e !in keys
    ensures Selected(keys + [e], sides, if multiset(sides)[e] == 1 then boundary + [e] else boundary)
  {
  }

  method SelectBoundary(keys: seq<Edge>, counts: map<Edge, nat>, ghost loops: seq<seq<Corner>>)
    returns (boundary: seq<Edge>)
    requires Counts(keys, counts, Sides(loops))
    ensures IsBoundary(loops, boundary)
  {
    ghost var sides := Sides(loops);
    KeysAreCounted(keys, counts, sides);
    hide Counts, Sides;
    boundary := [];
    assert Selected(keys[..0], sides, boundary);
    hide Selected;
    for i := 0 to |keys|
      invariant Selected(keys[..i], sides, boundary)
    {
      assert keys[i] !in keys[..i] && keys[..i + 1] == keys[..i] + [keys[i]];
      SelectOne(keys[..i], sides, boundary, keys[i]);
      if counts[keys[i]] == 1 {
        boundary := boundary + [keys[i]];
      }
    }
    assert keys[..|keys|] == keys;
    AllSelected(loops, keys, boundary);
  }

  lemma AllSelected(loops: seq<seq<Corner>>, keys: seq<Edge>, boundary: seq<Edge>)
    requires Selected(keys, Sides(loops), boundary) && forall e :: multiset(Sides(loops))[e] == 1 ==> e in keys
    ensures IsBoundary(loops, boundary)
  {
    hide Sides;
  }

  // Neighbors -------------------------------------------------------------------

  // The other ends of the boundary edges at a corner, in the order of the edges.
  ghost function NeighborsOf(boundary: seq<Edge>, v: Corner): seq<Corner> {
    if boundary == [] then []
    else
      var e := boundary[|boundary| - 1];
      NeighborsOf(boundary[..|boundary| - 1], v) + (if e.a == v then [e.b] else []) + (if e.b == v then [e.a] else [])
  }

  ghost function Joining(boundary: seq<Edge>, v: Corner, w: Corner): nat {
    multiset(NeighborsOf(boundary, v))[w]
  }

  // Two corners are neighbors once if an edge joins them; a corner joined to itself
  // is its own neighbor twice.
  lemma {:induction false} NeighborsCount(boundary: seq<Edge>, v: Corner, w: Corner)
    requires Distinct(boundary) && forall e :: e in boundary ==> InOrder(e)
    ensures Joining(boundary, v, w) == (if EdgeOf(v, w) in boundary then (if v == w then 2 else 1) else 0)
  {
    if boundary != [] {
      var n := |boundary| - 1;
      var before, e := boundary[..n], boundary[n];
      assert boundary == before + [e] && e !in before;
      NeighborsCount(before, v, w);
      LeqTotal(v, w);
      hide Distinct, Leq, NeighborsOf;
      NeighborsStep(boundary, v, w);
      EdgeOfEnds(e, v, w);
    }
  }

  lemma NeighborsStep(boundary: seq<Edge>, v: Corner, w: Corner)
    requires boundary != []
    ensures var n := |boundary| - 1;
      Joining(boundary, v, w) == Joining(boundary[..n], v, w)
        + (if boundary[n].a == v && boundary[n].b == w then 1 else 0)
        + (if boundary[n].b == v && boundary[n].a == w then 1 else 0)
  {
  }

  lemma EdgeOfEnds(e: Edge, v: Corner, w: Corner)
    requires InOrder(e)
    ensures EdgeOf(v, w) == e <==> (e.a == v && e.b == w) || (e.a == w && e.b == v)
  {
    if e.a == w && e.b == v && Leq(v, w) {
      LeqAntisymmetric(v, w);
    }
  }

  type Adjacency = map<Corner, seq<Corner>>

  ghost predicate IsAdjacency(boundary: seq<Edge>, neighbors: Adjacency) {
    forall v :: (v in neighbors <==> NeighborsOf(boundary, v) != [])
      && (v in neighbors ==> neighbors[v] == NeighborsOf(boundary, v))
  }

  // The list at a corner, empty where there is none yet.
  function Get(neighbors: Adjacency, v: Corner): seq<Corner> {
    if v in neighbors then neighbors[v] else []
  }

  function Join(neighbors: Adjacency, e: Edge): Adjacency {
    var half := neighbors[e.a := Get(neighbors, e.a) + [e.b]];
    half[e.b := Get(half, e.b) + [e.a]]
  }

  lemma Joined(boundary: seq<Edge>, neighbors: Adjacency, e: Edge)
    requires IsAdjacency(boundary, neighbors)
    ensures IsAdjacency(boundary + [e], Join(neighbors, e))
  {
    var joined := Join(neighbors, e);
    assert (boundary + [e])[..|boundary|] == boundary;
    forall v
      ensures (v in joined <==> NeighborsOf(boundary + [e], v) != [])
      ensures (v in joined ==> joined[v] == NeighborsOf(boundary + [e], v))
    {
      assert Get(neighbors, v) == NeighborsOf(boundary, v);
    }
  }

  // The keys in the order in which corners were met.
  function Met(keys: seq<Corner>, v: Corner): seq<Corner> {
    if v in keys then keys else keys + [v]
  }

  // Where a corner is met first, counting the ends of the edges.
  ghost function FirstMet(boundary: seq<Edge>, v: Corner): nat {
    if boundary == [] || boundary[0].a == v then 0
    else if boundary[0].b == v then 1
    else 2 + FirstMet(boundary[1..], v)
  }

  ghost predicate InOrderMet(boundary: seq<Edge>, keys: seq<Corner>) {
    forall i, j :: 0 <= i < j < |keys| ==> FirstMet(boundary, keys[i]) < FirstMet(boundary, keys[j])
  }

  // The keys so far are the corners met before the i-th edge.
  ghost predicate MetBefore(boundary: seq<Edge>, keys: seq<Corner>, i: nat) {
    InOrderMet(boundary, keys) && forall v :: v in keys <==> FirstMet(boundary, v) < 2 * i
  }

  lemma {:induction false} FirstMetMeans(boundary: seq<Edge>, v: Corner, i: nat)
    requires i < |boundary|
    ensures boundary[i].a == v ==> FirstMet(boundary, v) <= 2 * i
    ensures boundary[i].b == v ==> FirstMet(boundary, v) <= 2 * i + 1
    ensures FirstMet(boundary, v) == 2 * i ==> boundary[i].a == v
    ensures FirstMet(boundary, v) == 2 * i + 1 ==> boundary[i].b == v
  {
    if i > 0 {
      FirstMetMeans(boundary[1..], v, i - 1);
    }
  }

  lemma OneEdgeMet(boundary: seq<Edge>, keys: seq<Corner>, i: nat)
    requires i < |boundary| && MetBefore(boundary, keys, i)
    ensures MetBefore(boundary, Met(Met(keys, boundary[i].a), boundary[i].b), i + 1)
  {
    forall v
      ensures FirstMet(boundary, v) == 2 * i ==> boundary[i].a == v
      ensures FirstMet(boundary, v) == 2 * i + 1 ==> boundary[i].b == v
      ensures boundary[i].a == v ==> FirstMet(boundary, v) <= 2 * i
      ensures boundary[i].b == v ==> FirstMet(boundary, v) <= 2 * i + 1
    {
      FirstMetMeans(boundary, v, i);
    }
    hide FirstMet;
  }

  method Neighbors(boundary: seq<Edge>) returns (neighbors: Adjacency, keys: seq<Corner>)
    ensures IsAdjacency(boundary, neighbors) && Distinct(keys) && AsSet(keys) == neighbors.Keys
    ensures InOrderMet(boundary, keys)
  {
    hide IsAdjacency, NeighborsOf, MetBefore, InOrderMet;
    neighbors, keys := map[], [];
    NoneJoined(neighbors, boundary);
    NoneMet(boundary);
    for i := 0 to |boundary|
      invariant IsAdjacency(boundary[..i], neighbors) && Distinct(keys) && AsSet(keys) == neighbors.Keys
      invariant MetBefore(boundary, keys, i)
    {
      OneEdgeMet(boundary, keys, i);
      var e := boundary[i];
      assert boundary[..i + 1] == boundary[..i] + [e];
      Joined(boundary[..i], neighbors, e);
      assert Join(neighbors, e).Keys == AsSet(Met(Met(keys, e.a), e.b));
      neighbors, keys := Join(neighbors, e), Met(Met(keys, e.a), e.b);
    }
    assert boundary[..|boundary|] == boundary;
    MetInOrder(boundary, keys);
  }

  lemma MetInOrder(boundary: seq<Edge>, keys: seq<Corner>)
    requires MetBefore(boundary, keys, |boundary|)
    ensures InOrderMet(boundary, keys)
  {
  }

  lemma NoneMet(boundary: seq<Edge>)
    ensures MetBefore(boundary, [], 0)
  {
  }

  lemma NoneJoined(neighbors: Adjacency, boundary: seq<Edge>)
    requires neighbors == map[]
    ensures IsAdjacency(boundary[..0], neighbors)
  {
  }

  // The walk --------------------------------------------------------------------

  // A corner has two neighbors, which know it; they are different corners, unless
  // the corner is joined to itself, and then to nothing else.
  ghost predicate Regular(neighbors: Adjacency, v: Corner)
    requires v in neighbors
  {
    && |neighbors[v]| == 2
    && (forall k :: 0 <= k < 2 ==> neighbors[v][k] in neighbors && v in neighbors[neighbors[v][k]])
    && (v in neighbors[v] ==> neighbors[v] == [v, v])
    && (v !in neighbors[v] ==> neighbors[v][0] != neighbors[v][1])
  }

  ghost predicate TwoRegular(neighbors: Adjacency) {
    forall v {:trigger Regular(neighbors, v)} :: v in neighbors ==> Regular(neighbors, v)
  }

  lemma DegreeTwoIsRegular(boundary: seq<Edge>, neighbors: Adjacency)
    requires IsAdjacency(boundary, neighbors) && Distinct(boundary) && forall e :: e in boundary ==> InOrder(e)
    requires forall v :: v in neighbors ==> |neighbors[v]| == 2
    ensures TwoRegular(neighbors)
  {
    forall v | v in neighbors ensures Regular(neighbors, v) {
      var list := neighbors[v];
      assert list == [list[0], list[1]];
      forall k | 0 <= k < 2 ensures list[k] in neighbors && v in neighbors[list[k]] {
        KnowsBack(boundary, v, list[k]);
      }
      NeighborsCount(boundary, v, v);
      NeighborsCount(boundary, v, list[0]);
    }
  }

  lemma KnowsBack(boundary: seq<Edge>, v: Corner, w: Corner)
    requires Distinct(boundary) && forall e :: e in boundary ==> InOrder(e)
    requires w in NeighborsOf(boundary, v)
    ensures v in NeighborsOf(boundary, w)
  {
    NeighborsCount(boundary, v, w);
    NeighborsCount(boundary, w, v);
    EdgeOfSymmetric(v, w);
    assert w in multiset(NeighborsOf(boundary, v));
    assert v in multiset(NeighborsOf(boundary, w));
  }

  lemma EdgeOfSymmetric(v: Corner, w: Corner)
    ensures EdgeOf(v, w) == EdgeOf(w, v)
  {
    LeqTotal(v, w);
    if Leq(v, w) && Leq(w, v) {
      LeqAntisymmetric(v, w);
    }
  }

  ghost predicate IsPair(list: seq<Corner>, a: Corner, b: Corner) {
    list == [a, b] || list == [b, a]
  }

  // The corners of a loop are met once each, and the two neighbors of each are the
  // corners before it and after it.
  ghost predicate IsCycle(neighbors: Adjacency, points: seq<Corner>) {
    && points != [] && Distinct(points)
    && (forall i :: 0 <= i < |points| ==> points[i] in neighbors)
    && forall i :: 0 <= i < |points| ==>
      IsPair(neighbors[points[i]], points[Before(|points|, i)], points[After(|points|, i)])
  }

  // The corners so far, and where the walk is; the first corner was left for the
  // second towards its first neighbor.
  ghost predicate IsTrail(neighbors: Adjacency, all: seq<Corner>) {
    && all != [] && Distinct(all) && (forall i :: 0 <= i < |all| ==> all[i] in neighbors)
    && (|all| > 1 ==> |neighbors[all[0]]| == 2 && neighbors[all[0]][0] == all[1])
    && forall i :: 0 < i < |all| - 1 ==> IsPair(neighbors[all[i]], all[i - 1], all[i + 1])
  }

  // neighbors[current].find { |candidate| candidate != previous }
  function Following(list: seq<Corner>, all: seq<Corner>): Corner
    requires |list| == 2 && all != []
  {
    if |all| == 1 || list[0] != all[|all| - 2] then list[0] else list[1]
  }

  lemma BackToPrevious(neighbors: Adjacency, all: seq<Corner>)
    requires TwoRegular(neighbors) && IsTrail(neighbors, all) && |all| > 1
    ensures all[|all| - 2] in neighbors[all[|all| - 1]]
  {
    var v, w := all[|all| - 2], all[|all| - 1];
    assert v in neighbors && Regular(neighbors, v);
    hide TwoRegular;
    assert neighbors[v][0] == w || neighbors[v][1] == w by {
      if |all| > 2 {
        assert IsPair(neighbors[all[|all| - 2]], all[|all| - 3], all[|all| - 2 + 1]);
      }
    }
  }

  // The corner the walk goes on to from the last one.
  lemma Onward(neighbors: Adjacency, all: seq<Corner>) returns (next: Corner)
    requires TwoRegular(neighbors) && IsTrail(neighbors, all)
    ensures var current := all[|all| - 1];
      && Regular(neighbors, current) && next == Following(neighbors[current], all) && next in neighbors
        && current in neighbors[next]
      && (|all| > 1 ==> IsPair(neighbors[current], all[|all| - 2], next) && next != all[|all| - 2] && next != current)
      && (|all| == 1 ==> next == neighbors[current][0])
  {
    var current := all[|all| - 1];
    assert Regular(neighbors, current);
    next := Following(neighbors[current], all);
    if |all| > 1 {
      BackToPrevious(neighbors, all);
      assert all[|all| - 2] != current;
      hide TwoRegular, IsTrail;
      OtherOfTwo(neighbors, current, all[|all| - 2]);
    }
  }

  lemma OtherOfTwo(neighbors: Adjacency, v: Corner, w: Corner)
    requires v in neighbors && Regular(neighbors, v) && w in neighbors[v] && w != v
    ensures var list := neighbors[v];
      var other := if list[0] != w then list[0] else list[1];
      IsPair(list, w, other) && other != w && other != v
  {
    var list := neighbors[v];
    assert list == [list[0], list[1]];
  }

  // Unless it is the first corner again, it is one that the trail has not met.
  lemma NotMet(neighbors: Adjacency, all: seq<Corner>, next: Corner, i: nat)
    requires IsTrail(neighbors, all) && i < |all| && next != all[0] && next in neighbors
    requires all[|all| - 1] in neighbors[next]
    requires |all| > 1 ==> next != all[|all| - 2] && next != all[|all| - 1]
    ensures next != all[i]
  {
    if 0 < i < |all| - 1 {
      assert IsPair(neighbors[all[i]], all[i - 1], all[i + 1]);
    }
  }

  // The trail is back at its first corner.
  ghost predicate IsBack(neighbors: Adjacency, all: seq<Corner>) {
    && IsTrail(neighbors, all) && Regular(neighbors, all[0]) && all[|all| - 1] in neighbors[all[0]]
    && (|all| == 1 ==> neighbors[all[0]][0] == all[0])
    && (|all| > 1 ==> IsPair(neighbors[all[|all| - 1]], all[|all| - 2], all[0]) && all[|all| - 2] != all[0])
  }

  lemma Closes(neighbors: Adjacency, all: seq<Corner>)
    requires IsBack(neighbors, all)
    ensures IsCycle(neighbors, all)
  {
    var n := |all|;
    TrailPart(neighbors, all, 0);
    forall i | 0 <= i < n
      ensures all[i] in neighbors && IsPair(neighbors[all[i]], all[Before(n, i)], all[After(n, i)])
    {
      ClosesAt(neighbors, all, i);
    }
    hide IsBack, IsPair, Before, After;
  }

  // Every corner lies between its neighbors: the first, the last and those between.
  lemma ClosesAt(neighbors: Adjacency, all: seq<Corner>, i: nat)
    requires IsBack(neighbors, all) && i < |all|
    ensures all[i] in neighbors && IsPair(neighbors[all[i]], all[Before(|all|, i)], all[After(|all|, i)])
  {
    TrailPart(neighbors, all, i);
    if i == 0 {
      ClosesAtFirst(neighbors, all);
    } else {
      hide IsTrail, Regular, IsPair;
    }
  }

  // A trail, one corner at a time.
  lemma TrailPart(neighbors: Adjacency, all: seq<Corner>, i: nat)
    requires IsTrail(neighbors, all) && i < |all|
    ensures Distinct(all) && all[i] in neighbors
    ensures 0 < i < |all| - 1 ==> IsPair(neighbors[all[i]], all[i - 1], all[i + 1])
  {
    hide Distinct, IsPair;
  }

  lemma ClosesAtFirst(neighbors: Adjacency, all: seq<Corner>)
    requires IsBack(neighbors, all)
    ensures all[0] in neighbors && IsPair(neighbors[all[0]], all[Before(|all|, 0)], all[After(|all|, 0)])
  {
    var first := neighbors[all[0]];
    assert first == [first[0], first[1]];
    assert |all| > 1 ==> first[0] == all[1];
  }

  // The next corner closes the loop or lengthens the trail: the walk never comes
  // back to a corner it has left.
  lemma TrailGoesOn(neighbors: Adjacency, all: seq<Corner>)
    requires TwoRegular(neighbors) && IsTrail(neighbors, all)
    ensures var current := all[|all| - 1];
      && |neighbors[current]| == 2 && Following(neighbors[current], all) in neighbors
      && (Following(neighbors[current], all) == all[0] ==> IsCycle(neighbors, all))
      && (Following(neighbors[current], all) != all[0] ==>
            IsTrail(neighbors, all + [Following(neighbors[current], all)]))
  {
    var next := Onward(neighbors, all);
    assert Regular(neighbors, all[0]);
    hide TwoRegular, IsCycle;
    if next == all[0] {
      Closes(neighbors, all);
    } else {
      hide Regular, Following;
      forall i: nat | i < |all| ensures next != all[i] {
        NotMet(neighbors, all, next, i);
      }
      Longer(neighbors, all, next);
    }
  }

  lemma Longer(neighbors: Adjacency, all: seq<Corner>, next: Corner)
    requires IsTrail(neighbors, all) && next in neighbors && next !in all
    requires |all| == 1 ==> |neighbors[all[0]]| == 2 && next == neighbors[all[0]][0]
    requires |all| > 1 ==> IsPair(neighbors[all[|all| - 1]], all[|all| - 2], next)
    ensures IsTrail(neighbors, all + [next])
  {
  }

  // Corners not walked yet: whole loops of them.
  ghost predicate Unwalked(neighbors: Adjacency, remaining: seq<Corner>) {
    && Distinct(remaining)
    && forall v :: v in remaining ==> v in neighbors && forall w :: w in neighbors[v] ==> w in remaining
  }

  method WalkLoop(neighbors: Adjacency, start: Corner, unwalked: seq<Corner>, ghost boundary: seq<Edge>)
    returns (points: seq<Corner>, remaining: seq<Corner>)
    requires TwoRegular(neighbors) && Unwalked(neighbors, unwalked) && start in unwalked
    ensures IsCycle(neighbors, points) && |remaining| < |unwalked| && Distinct(remaining)
    ensures points != [] && points[0] == start
    ensures InOrderMet(boundary, unwalked) ==> InOrderMet(boundary, remaining)
    ensures forall v :: v in unwalked <==> v in remaining || v in points
    ensures forall v :: v in points ==> v !in remaining
  {
    hide TwoRegular, IsTrail, IsCycle, InOrderMet;
    points, remaining := [], unwalked;
    var current := start;
    TrailStarts(neighbors, start);
    while true
      invariant IsTrail(neighbors, points + [current]) && current in remaining && (points + [current])[0] == start
      invariant Distinct(remaining) && (points == [] ==> |remaining| == |unwalked|)
      invariant (points != [] ==> |remaining| < |unwalked|)
      invariant forall v :: v in unwalked <==> v in remaining || v in points
      invariant forall v :: v in points ==> v !in remaining
      invariant InOrderMet(boundary, unwalked) ==> InOrderMet(boundary, remaining)
      decreases |remaining|
    {
      points := points + [current];
      WithoutIsDistinct(remaining, current);
      WithoutShorter(remaining, current);
      StillInOrder(boundary, remaining, current);
      remaining := Without(remaining, current);
      TrailGoesOn(neighbors, points);
      var next := Following(neighbors[current], points);
      assert next in unwalked;
      if next == start {
        return;
      }
      // the walk would raise here if the corner had been left behind
      TrailIsDistinct(neighbors, points + [next]);
      assert next in remaining;
      current := next;
    }
  }

  lemma {:induction false} StillInOrder(boundary: seq<Edge>, s: seq<Corner>, x: Corner)
    ensures InOrderMet(boundary, s) ==> InOrderMet(boundary, Without(s, x))
  {
    hide FirstMet;
    if s != [] && InOrderMet(boundary, s) {
      StillInOrder(boundary, s[1..], x);
      var rest := Without(s[1..], x);
      forall y | y in rest ensures FirstMet(boundary, s[0]) < FirstMet(boundary, y) {
        var j :| 0 <= j < |s[1..]| && s[1..][j] == y;
        assert s[j + 1] == y;
      }
    }
  }

  lemma TrailStarts(neighbors: Adjacency, start: Corner)
    requires start in neighbors
    ensures IsTrail(neighbors, [] + [start])
  {
  }

  lemma TrailIsDistinct(neighbors: Adjacency, all: seq<Corner>)
    requires IsTrail(neighbors, all)
    ensures all[|all| - 1] !in all[..|all| - 1]
  {
  }

  // What is left once a loop has been walked is whole loops again.
  lemma RestUnwalked(neighbors: Adjacency, unwalked: seq<Corner>, points: seq<Corner>, remaining: seq<Corner>)
    requires TwoRegular(neighbors) && Unwalked(neighbors, unwalked) && IsCycle(neighbors, points) && Distinct(remaining)
    requires forall v :: v in unwalked <==> v in remaining || v in points
    requires forall v :: v in points ==> v !in remaining
    ensures Unwalked(neighbors, remaining)
  {
    forall v, w | v in remaining && w in neighbors[v] ensures w in remaining {
      assert Regular(neighbors, v) && v in neighbors[w];
      if w in points {
        CycleIsClosed(neighbors, points, w, v);
      }
    }
  }

  lemma CycleAt(neighbors: Adjacency, points: seq<Corner>, i: nat)
    requires IsCycle(neighbors, points) && i < |points|
    ensures points[i] in neighbors
    ensures IsPair(neighbors[points[i]], points[Before(|points|, i)], points[After(|points|, i)])
  {
  }

  lemma CycleIsClosed(neighbors: Adjacency, points: seq<Corner>, v: Corner, w: Corner)
    requires IsCycle(neighbors, points) && v in points && v in neighbors && w in neighbors[v]
    ensures w in points
  {
    hide IsCycle;
    var i: nat :| i < |points| && points[i] == v;
    CycleAt(neighbors, points, i);
  }

  ghost function Corners(loops: seq<seq<Corner>>): seq<Corner> {
    if loops == [] then [] else Corners(loops[..|loops| - 1]) + loops[|loops| - 1]
  }

  ghost predicate AllCycles(neighbors: Adjacency, loops: seq<seq<Corner>>) {
    forall l :: 0 <= l < |loops| ==> IsCycle(neighbors, loops[l])
  }

  // Each loop starts at the corner met first of all those not yet walked.
  ghost predicate StartEarly(boundary: seq<Edge>, loops: seq<seq<Corner>>, remaining: seq<Corner>) {
    && (forall l, k, v :: 0 <= l <= k < |loops| && v in loops[k] ==> StartsBefore(boundary, loops[l], v))
    && (forall l, v :: 0 <= l < |loops| && v in remaining ==> StartsBefore(boundary, loops[l], v))
  }

  ghost predicate StartsBefore(boundary: seq<Edge>, loop: seq<Corner>, v: Corner) {
    loop != [] && FirstMet(boundary, loop[0]) <= FirstMet(boundary, v)
  }

  lemma OneStartMore(boundary: seq<Edge>, loops: seq<seq<Corner>>, remaining: seq<Corner>, points: seq<Corner>,
                     rest: seq<Corner>)
    requires StartEarly(boundary, loops, remaining) && InOrderMet(boundary, remaining) && remaining != []
    requires points != [] && points[0] == remaining[0] && forall v :: v in remaining <==> v in rest || v in points
    ensures StartEarly(boundary, loops + [points], rest)
  {
    hide FirstMet;
    forall v | v in remaining ensures StartsBefore(boundary, points, v) {
      var i :| 0 <= i < |remaining| && remaining[i] == v;
    }
    var more := loops + [points];
    hide StartsBefore;
    forall l, k, v | 0 <= l <= k < |more| && v in more[k] ensures StartsBefore(boundary, more[l], v) {
      if k < |loops| {
        assert more[l] == loops[l] && more[k] == loops[k];
      } else {
        assert v in remaining;
      }
    }
  }

  method WalkLoops(neighbors: Adjacency, keys: seq<Corner>, ghost boundary: seq<Edge>)
    returns (loops: seq<seq<Corner>>)
    requires TwoRegular(neighbors) && Distinct(keys) && AsSet(keys) == neighbors.Keys && InOrderMet(boundary, keys)
    ensures AllCycles(neighbors, loops) && Distinct(Corners(loops)) && AsSet(Corners(loops)) == neighbors.Keys
    ensures StartEarly(boundary, loops, [])
  {
    loops := [];
    var remaining := keys;
    AllUnwalked(neighbors, keys);
    NothingWalked(keys);
    assert StartEarly(boundary, loops, remaining);
    hide TwoRegular, IsCycle, Unwalked, Split, Corners, AllCycles, StartEarly, InOrderMet;
    NoCycles(neighbors);
    while remaining != []
      invariant Unwalked(neighbors, remaining) && AllCycles(neighbors, loops) && Split(keys, Corners(loops), remaining)
      invariant InOrderMet(boundary, remaining) && StartEarly(boundary, loops, remaining)
      decreases |remaining|
    {
      assert remaining[0] in remaining;
      var points, rest := WalkLoop(neighbors, remaining[0], remaining, boundary);
      OneStartMore(boundary, loops, remaining, points, rest);
      RestUnwalked(neighbors, remaining, points, rest);
      OneLoopMore(neighbors, keys, loops, remaining, points, rest);
      OneCycleMore(neighbors, loops, points);
      loops, remaining := loops + [points], rest;
    }
    AllSplit(keys, Corners(loops));
  }

  // The keys are split into the corners walked, each once, and those remaining.
  ghost predicate Split(keys: seq<Corner>, walked: seq<Corner>, remaining: seq<Corner>) {
    && Distinct(walked) && (forall v :: v in keys <==> v in remaining || v in walked)
    && forall v :: v in walked ==> v !in remaining
  }

  lemma OneLoopMore(neighbors: Adjacency, keys: seq<Corner>, loops: seq<seq<Corner>>, remaining: seq<Corner>,
                    points: seq<Corner>, rest: seq<Corner>)
    requires Split(keys, Corners(loops), remaining) && IsCycle(neighbors, points)
    requires forall v :: v in remaining <==> v in rest || v in points
    requires forall v :: v in points ==> v !in rest
    ensures Split(keys, Corners(loops + [points]), rest)
  {
    assert (loops + [points])[..|loops|] == loops;
    CycleIsDistinct(neighbors, points);
    assert forall i :: 0 <= i < |points| ==> points[i] in remaining;
    JoinedIsDistinct(Corners(loops), points);
    hide IsCycle, Corners, Distinct;
  }

  lemma CycleIsDistinct(neighbors: Adjacency, points: seq<Corner>)
    requires IsCycle(neighbors, points)
    ensures Distinct(points)
  {
  }

  lemma NoCycles(neighbors: Adjacency)
    ensures AllCycles(neighbors, [])
  {
  }

  lemma OneCycleMore(neighbors: Adjacency, loops: seq<seq<Corner>>, points: seq<Corner>)
    requires AllCycles(neighbors, loops) && IsCycle(neighbors, points)
    ensures AllCycles(neighbors, loops + [points])
  {
  }

  lemma NothingWalked(keys: seq<Corner>)
    ensures Split(keys, Corners([]), keys)
  {
  }

  lemma AllSplit(keys: seq<Corner>, walked: seq<Corner>)
    requires Split(keys, walked, [])
    ensures Distinct(walked) && AsSet(walked) == AsSet(keys)
  {
  }

  lemma AllUnwalked(neighbors: Adjacency, keys: seq<Corner>)
    requires TwoRegular(neighbors) && Distinct(keys) && AsSet(keys) == neighbors.Keys
    ensures Unwalked(neighbors, keys)
  {
    hide Regular, AsSet;
    forall v | v in keys ensures v in neighbors && forall w :: w in neighbors[v] ==> w in keys {
      NeighborsAreKeys(neighbors, keys, v);
    }
  }

  lemma NeighborsAreKeys(neighbors: Adjacency, keys: seq<Corner>, v: Corner)
    requires AsSet(keys) == neighbors.Keys && v in keys && (v in neighbors ==> Regular(neighbors, v))
    ensures v in neighbors && forall w :: w in neighbors[v] ==> w in keys
  {
    assert v in AsSet(keys);
    var list := neighbors[v];
    assert list == [list[0], list[1]];
    assert list[0] in AsSet(keys) && list[1] in AsSet(keys);
  }

  // The sides of the walked loops ----------------------------------------------

  ghost predicate ProperBoundary(boundary: seq<Edge>, neighbors: Adjacency) {
    IsAdjacency(boundary, neighbors) && Distinct(boundary) && forall e :: e in boundary ==> InOrder(e)
  }

  lemma NeighborsAreJoined(boundary: seq<Edge>, neighbors: Adjacency, v: Corner, w: Corner)
    requires ProperBoundary(boundary, neighbors) && v in neighbors
    ensures w in neighbors[v] <==> EdgeOf(v, w) in boundary
  {
    NeighborsCount(boundary, v, w);
    assert w in neighbors[v] <==> multiset(NeighborsOf(boundary, v))[w] > 0;
  }

  // The edges along a cycle are boundary edges.
  lemma CycleSidesAreEdges(boundary: seq<Edge>, neighbors: Adjacency, points: seq<Corner>, i: nat)
    requires ProperBoundary(boundary, neighbors) && IsCycle(neighbors, points) && i < |points|
    ensures LoopSides(points)[i] in boundary
  {
    SideOf(points, i);
    CycleAt(neighbors, points, i);
    NeighborsAreJoined(boundary, neighbors, points[i], points[After(|points|, i)]);
  }

  // No edge is walked twice in one cycle.
  lemma CycleSidesDiffer(neighbors: Adjacency, points: seq<Corner>, i: nat, j: nat)
    requires TwoRegular(neighbors) && IsCycle(neighbors, points) && i < j < |points|
    ensures LoopSides(points)[i] != LoopSides(points)[j]
  {
    SideOf(points, i);
    SideOf(points, j);
    CycleAt(neighbors, points, 0);
    CycleIsDistinct(neighbors, points);
    assert Regular(neighbors, points[0]);
    hide TwoRegular, IsCycle, EdgeOf, LoopSides;
    assert |points| > 2 by {
      assert points[0] != points[1];
    }
    DifferentEnds(points[i], points[After(|points|, i)], points[j], points[After(|points|, j)]);
  }

  lemma DifferentEnds(a: Corner, b: Corner, c: Corner, d: Corner)
    requires a != c && !(a == d && b == c)
    ensures EdgeOf(a, b) != EdgeOf(c, d)
  {
  }

  lemma EndsAreNeighbors(boundary: seq<Edge>, neighbors: Adjacency, e: Edge)
    requires ProperBoundary(boundary, neighbors) && e in boundary
    ensures EdgeOf(e.a, e.b) == e == EdgeOf(e.b, e.a)
    ensures e.a in neighbors && e.b in neighbors[e.a]
  {
    EdgeOfEnds(e, e.a, e.b);
    EdgeOfSymmetric(e.a, e.b);
    NeighborsCount(boundary, e.a, e.b);
    hide NeighborsOf, Distinct;
    assert multiset(NeighborsOf(boundary, e.a))[e.b] > 0;
    assert e.b in NeighborsOf(boundary, e.a);
  }

  lemma EdgeIsWalkedAt(neighbors: Adjacency, points: seq<Corner>, i: nat, e: Edge)
    requires IsCycle(neighbors, points) && i < |points| && points[i] == e.a && e.b in neighbors[e.a]
    requires EdgeOf(e.a, e.b) == e == EdgeOf(e.b, e.a)
    ensures e in LoopSides(points)
  {
    hide EdgeOf, LoopSides, IsCycle;
    CycleAt(neighbors, points, i);
    if e.b == points[After(|points|, i)] {
      SideOf(points, i);
    } else {
      SideOf(points, Before(|points|, i));
    }
  }

  // A corner's edges are walked in the loop that the corner is in.
  lemma EdgeIsWalked(boundary: seq<Edge>, neighbors: Adjacency, points: seq<Corner>, e: Edge)
    requires ProperBoundary(boundary, neighbors) && IsCycle(neighbors, points) && e in boundary && e.a in points
    ensures e in LoopSides(points)
  {
    EndsAreNeighbors(boundary, neighbors, e);
    hide *;
    var i: nat :| i < |points| && points[i] == e.a;
    EdgeIsWalkedAt(neighbors, points, i, e);
  }

  lemma LoopSideEnds(loop: seq<Corner>, e: Edge)
    requires e in LoopSides(loop)
    ensures e.a in loop && e.b in loop
  {
    hide LoopSides;
    var i :| 0 <= i < |loop| && LoopSides(loop)[i] == e;
    SideOf(loop, i);
  }

  lemma {:induction false} SideEnds(loops: seq<seq<Corner>>, e: Edge)
    requires e in Sides(loops)
    ensures e.a in Corners(loops) && e.b in Corners(loops)
  {
    var n := |loops| - 1;
    hide LoopSides;
    if e in Sides(loops[..n]) {
      SideEnds(loops[..n], e);
    } else {
      LoopSideEnds(loops[n], e);
    }
  }

  // No edge is walked twice.
  lemma {:induction false} SidesAreDistinct(neighbors: Adjacency, loops: seq<seq<Corner>>)
    requires TwoRegular(neighbors) && AllCycles(neighbors, loops) && Distinct(Corners(loops))
    ensures Distinct(Sides(loops))
  {
    if loops != [] {
      var n := |loops| - 1;
      var before, last := loops[..n], loops[n];
      DistinctParts(Corners(before), last);
      SidesAreDistinct(neighbors, before);
      forall i: nat, j: nat | i < j < |last| ensures LoopSides(last)[i] != LoopSides(last)[j] {
        CycleSidesDiffer(neighbors, last, i, j);
      }
      hide TwoRegular, AllCycles, LoopSides;
      forall i | 0 <= i < |last| ensures LoopSides(last)[i] !in Sides(before) {
        LoopSideEnds(last, LoopSides(last)[i]);
        if LoopSides(last)[i] in Sides(before) {
          SideEnds(before, LoopSides(last)[i]);
        }
      }
      JoinedIsDistinct(Sides(before), LoopSides(last));
    }
  }

  lemma DistinctParts(a: seq<Corner>, b: seq<Corner>)
    requires Distinct(a + b)
    ensures Distinct(a) && forall v :: v in b ==> v !in a
  {
    forall i, j | 0 <= i < |a| && 0 <= j < |b| ensures a[i] != b[j] {
      assert (a + b)[i] == a[i] && (a + b)[|a| + j] == b[j];
    }
    forall i, j | 0 <= i < j < |a| ensures a[i] != a[j] {
      assert (a + b)[i] == a[i] && (a + b)[j] == a[j];
    }
  }

  // The edges walked are boundary edges, and all of them.
  lemma {:induction false} SidesAreBoundary(boundary: seq<Edge>, neighbors: Adjacency, loops: seq<seq<Corner>>, e: Edge)
    requires ProperBoundary(boundary, neighbors) && AllCycles(neighbors, loops)
    ensures e in Sides(loops) ==> e in boundary
    ensures e in boundary && e.a in Corners(loops) ==> e in Sides(loops)
  {
    hide ProperBoundary, LoopSides, IsCycle;
    if loops != [] {
      var n := |loops| - 1;
      SidesAreBoundary(boundary, neighbors, loops[..n], e);
      if e in LoopSides(loops[n]) {
        var i :| 0 <= i < |loops[n]| && LoopSides(loops[n])[i] == e;
        CycleSidesAreEdges(boundary, neighbors, loops[n], i);
      }
      if e in boundary && e.a in loops[n] {
        EdgeIsWalked(boundary, neighbors, loops[n], e);
      }
    }
  }

  ghost predicate HasDegreeTwo(boundary: seq<Edge>) {
    forall v :: NeighborsOf(boundary, v) != [] ==> |NeighborsOf(boundary, v)| == 2
  }

  // The patch has an outline: the edges used once meet two at a corner.
  ghost predicate HasOutline(loops: seq<seq<Corner>>) {
    exists boundary: seq<Edge> :: IsBoundary(loops, boundary) && boundary != [] && HasDegreeTwo(boundary)
  }

  // The outline runs along each edge that is used once, and along no other, and meets
  // every corner once.
  ghost predicate IsOutlineOf(loops: seq<seq<Corner>>, outline: seq<seq<Corner>>) {
    && Distinct(Corners(outline)) && Distinct(Sides(outline)) && [] !in outline
    && forall e :: e in Sides(outline) <==> multiset(Sides(loops))[e] == 1
  }

  // The outline of a patch: there is one exactly when the edges used once meet two
  // at a corner, and its loops run along each of these edges once, and along no
  // other, meeting every corner once.
  method PatchOutline(loops: seq<seq<Corner>>) returns (outline: Outline, ghost boundary: seq<Edge>)
    ensures IsBoundary(loops, boundary)
    ensures outline.Outline? <==> boundary != [] && HasDegreeTwo(boundary)
    ensures outline.Outline? ==> Distinct(Corners(outline.loops)) && Distinct(Sides(outline.loops))
    ensures outline.Outline? ==> forall e :: e in Sides(outline.loops) <==> e in boundary
    ensures outline.Outline? ==> [] !in outline.loops && StartEarly(boundary, outline.loops, [])
  {
    var edges, counts := CountEdges(loops);
    var bounding := SelectBoundary(edges, counts, loops);
    boundary := bounding;
    var neighbors, keys := Neighbors(bounding);
    BoundaryIsProper(loops, bounding, neighbors);
    hide IsBoundary, IsAdjacency, ProperBoundary, TwoRegular, AllCycles, Sides, Corners, NeighborsOf, StartEarly,
         InOrderMet;
    var regular := CheckDegrees(bounding, neighbors, keys);
    if !regular {
      return NoOutline, boundary;
    }
    DegreeTwoIsRegular(bounding, neighbors);
    var walked := WalkLoops(neighbors, keys, bounding);
    SidesAreDistinct(neighbors, walked);
    CyclesHaveCorners(neighbors, walked);
    forall e ensures e in Sides(walked) <==> e in bounding {
      SidesAreBoundary(bounding, neighbors, walked, e);
      if e in bounding {
        EndsAreNeighbors(bounding, neighbors, e);
        assert e.a in AsSet(Corners(walked));
      }
    }
    outline := Outline(walked);
  }

  lemma CyclesHaveCorners(neighbors: Adjacency, loops: seq<seq<Corner>>)
    requires AllCycles(neighbors, loops)
    ensures [] !in loops
  {
  }

  lemma BoundaryIsProper(loops: seq<seq<Corner>>, boundary: seq<Edge>, neighbors: Adjacency)
    requires IsBoundary(loops, boundary) && IsAdjacency(boundary, neighbors)
    ensures ProperBoundary(boundary, neighbors) && Distinct(boundary) && forall e :: e in boundary ==> InOrder(e)
  {
    forall e | e in boundary ensures InOrder(e) {
      assert e in multiset(Sides(loops));
      SidesInOrder(loops, e);
    }
  }

  // neighbors.empty? || neighbors.values.any? { |list| list.length != 2 }
  method CheckDegrees(boundary: seq<Edge>, neighbors: Adjacency, keys: seq<Corner>) returns (regular: bool)
    requires IsAdjacency(boundary, neighbors) && AsSet(keys) == neighbors.Keys && ProperBoundary(boundary, neighbors)
    ensures regular <==> boundary != [] && HasDegreeTwo(boundary)
    ensures regular ==> forall v :: v in neighbors ==> |neighbors[v]| == 2
  {
    EmptyTogether(boundary, neighbors);
    DegreesAre(boundary, neighbors);
    KeysAre(neighbors, keys);
    hide *;
    regular := keys != [];
    for i := 0 to |keys|
      invariant regular <==> keys != [] && HaveDegreeTwo(neighbors, keys, i)
    {
      OneKeyMore(neighbors, keys, i);
      regular := regular && |neighbors[keys[i]]| == 2;
    }
  }

  ghost predicate HaveDegreeTwo(neighbors: Adjacency, keys: seq<Corner>, n: nat) {
    forall k :: 0 <= k < n && k < |keys| ==> keys[k] in neighbors && |neighbors[keys[k]]| == 2
  }

  lemma OneKeyMore(neighbors: Adjacency, keys: seq<Corner>, i: nat)
    requires AsSet(keys) == neighbors.Keys && i < |keys|
    ensures keys[i] in neighbors && HaveDegreeTwo(neighbors, keys, 0)
    ensures HaveDegreeTwo(neighbors, keys, i + 1) <==> HaveDegreeTwo(neighbors, keys, i) && |neighbors[keys[i]]| == 2
  {
    assert keys[i] in AsSet(keys);
  }

  lemma KeysAre(neighbors: Adjacency, keys: seq<Corner>)
    requires AsSet(keys) == neighbors.Keys
    ensures HaveDegreeTwo(neighbors, keys, |keys|) <==> forall v :: v in neighbors ==> |neighbors[v]| == 2
    ensures (neighbors.Keys == {} <==> keys == []) && HaveDegreeTwo(neighbors, keys, 0)
  {
    forall k | 0 <= k < |keys| ensures keys[k] in neighbors {
      assert keys[k] in AsSet(keys);
    }
    forall v | v in neighbors ensures v in keys {
      assert v in AsSet(keys);
    }
    if keys != [] {
      assert keys[0] in neighbors.Keys;
    }
  }

  lemma DegreesAre(boundary: seq<Edge>, neighbors: Adjacency)
    requires IsAdjacency(boundary, neighbors)
    ensures HasDegreeTwo(boundary) <==> forall v :: v in neighbors ==> |neighbors[v]| == 2
  {
    hide NeighborsOf;
  }

  lemma EmptyTogether(boundary: seq<Edge>, neighbors: Adjacency)
    requires ProperBoundary(boundary, neighbors)
    ensures boundary == [] <==> neighbors.Keys == {}
  {
    if boundary != [] {
      EndsAreNeighbors(boundary, neighbors, boundary[0]);
      assert boundary[0].a in neighbors.Keys;
    }
  }
}
