// The meshes of tubes and lofts: rings of vertices joined ring to ring, and closed
// by two caps unless the last ring is joined to the first.
module TubeMesh {
  import opened Arithmetic
  import opened SurfaceMesh
  import opened SurfaceFans

  datatype Tube = Tube(rings: nat, segments: nat, closed: bool)

  // The triangles: two between neighboring rings for every segment, and the fans of
  // the caps.
  datatype Name = Lower(ring: nat, i: nat) | Upper(ring: nat, i: nat) | BottomCap(i: nat) | TopCap(i: nat)

  ghost predicate IsTube(t: Tube) {
    t.segments >= 3 && t.rings >= 2 && (t.closed ==> t.rings >= 3)
  }

  function Spans(t: Tube): nat
    requires IsTube(t)
  {
    if t.closed then t.rings else t.rings - 1
  }

  function At(t: Tube, ring: nat, i: nat): nat {
    ring * t.segments + i
  }

  function Following(n: nat, i: nat): nat {
    if i + 1 == n then 0 else i + 1
  }

  function Preceding(n: nat, i: nat): nat
    requires n > 0
  {
    if i == 0 then n - 1 else i - 1
  }

  predicate IsName(t: Tube, name: Name)
    requires IsTube(t)
  {
    match name
    case Lower(ring, i) => ring < Spans(t) && i < t.segments
    case Upper(ring, i) => ring < Spans(t) && i < t.segments
    case BottomCap(i) => !t.closed && 1 <= i < t.segments - 1
    case TopCap(i) => !t.closed && 1 <= i < t.segments - 1
  }

  function Shape(t: Tube, name: Name): Face {
    match name
    case Lower(ring, i) =>
      Face(At(t, ring, i), At(t, ring, Following(t.segments, i)),
        At(t, Following(t.rings, ring), Following(t.segments, i)))
    case Upper(ring, i) =>
      Face(At(t, ring, i), At(t, Following(t.rings, ring), Following(t.segments, i)),
        At(t, Following(t.rings, ring), i))
    case BottomCap(i) => Face(0, i + 1, i)
    case TopCap(i) =>
      var top := if t.rings == 0 then 0 else At(t, t.rings - 1, 0);
      Face(top, top + i, top + i + 1)
  }

  // Whose side leads from one vertex to another, told from their rings and places.
  function OwnerAt(t: Tube, r: nat, i: nat, q: nat, j: nat): (Name, nat)
    requires IsTube(t)
  {
    var n := t.segments;
    if r == q then
      if j == Following(n, i) then
        if t.closed || r < t.rings - 1 then (Lower(r, i), 0)
        else if i == 0 then (TopCap(1), 0)
        else if j == 0 then (TopCap(n - 2), 2)
        else (TopCap(i), 1)
      else if i == Following(n, j) then
        if t.closed || r > 0 then (Upper(Preceding(t.rings, r), j), 1)
        else if j == 0 then (BottomCap(1), 2)
        else if i == 0 then (BottomCap(n - 2), 0)
        else (BottomCap(j), 1)
      else if r == 0 then (if i == 0 && j > 0 then (BottomCap(j - 1), 0) else (BottomCap(i), 2))
      else (if j == 0 && i > 0 then (TopCap(i - 1), 2) else (TopCap(j), 0))
    else if q == Following(t.rings, r) && (t.closed || r < q) then
      (if i == j then (Lower(r, Preceding(n, i)), 1) else (Upper(r, i), 0))
    else (if i == j then (Upper(q, i), 2) else (Lower(q, j), 2))
  }

  function Owner(t: Tube, e: Side): (Name, nat)
    requires IsTube(t)
  {
    OwnerAt(t, e.from / t.segments, e.from % t.segments, e.to / t.segments, e.to % t.segments)
  }

  lemma Coordinates(t: Tube, r: nat, i: nat)
    requires i < t.segments
    ensures At(t, r, i) / t.segments == r && At(t, r, i) % t.segments == i
  {
    RowAndPlace(At(t, r, i), t.segments, r, i);
  }

  // The sides of a triangle, by rings and places.
  ghost function Places(t: Tube, name: Name, k: nat): (nat, nat)
    requires IsTube(t)
  {
    var n := t.segments;
    match name
    case Lower(r, i) => if k == 0 then (r, i) else if k == 1 then (r, Following(n, i))
      else (Following(t.rings, r), Following(n, i))
    case Upper(r, i) => if k == 0 then (r, i) else if k == 1 then (Following(t.rings, r), Following(n, i))
      else (Following(t.rings, r), i)
    case BottomCap(i) => (0, if k == 0 then 0 else if k == 1 then i + 1 else i)
    case TopCap(i) => (t.rings - 1, if k == 0 then 0 else if k == 1 then i else i + 1)
  }

  lemma SidePlaces(t: Tube, name: Name, k: nat)
    requires IsTube(t) && IsName(t, name) && k < 3
    ensures var p, q := Places(t, name, k), Places(t, name, Next(k));
      && p.0 < t.rings && q.0 < t.rings && p.1 < t.segments && q.1 < t.segments && p != q
      && SideOf(Shape(t, name), k) == Side(At(t, p.0, p.1), At(t, q.0, q.1))
  {
  }

  lemma OwnerOfSide(t: Tube, name: Name, k: nat)
    requires IsTube(t) && IsName(t, name) && k < 3
    ensures var p, q := Places(t, name, k), Places(t, name, Next(k));
      && Owner(t, SideOf(Shape(t, name), k)) == OwnerAt(t, p.0, p.1, q.0, q.1)
      && Owner(t, Reversed(SideOf(Shape(t, name), k))) == OwnerAt(t, q.0, q.1, p.0, p.1)
      && SideOf(Shape(t, name), k).from != SideOf(Shape(t, name), k).to
  {
    var p, q := Places(t, name, k), Places(t, name, Next(k));
    SidePlaces(t, name, k);
    hide Shape, SideOf, Places, OwnerAt, At;
    Coordinates(t, p.0, p.1);
    Coordinates(t, q.0, q.1);
  }

  lemma OwnsAt(t: Tube, name: Name, k: nat)
    requires IsTube(t) && IsName(t, name) && k < 3
    ensures var p, q := Places(t, name, k), Places(t, name, Next(k)); OwnerAt(t, p.0, p.1, q.0, q.1) == (name, k)
  {
  }

  ghost predicate MeetsAt(t: Tube, name: Name, k: nat)
    requires IsTube(t)
  {
    var p, q := Places(t, name, k), Places(t, name, Next(k));
    var o := OwnerAt(t, q.0, q.1, p.0, p.1);
    IsName(t, o.0) && o.1 < 3 && Places(t, o.0, o.1) == q && Places(t, o.0, Next(o.1)) == p
  }

  lemma LowerMeetsBelow(t: Tube, r: nat, i: nat)
    requires IsTube(t) && IsName(t, Lower(r, i))
    ensures MeetsAt(t, Lower(r, i), 0)
  {
  }

  lemma LowerMeets(t: Tube, r: nat, i: nat, k: nat)
    requires IsTube(t) && IsName(t, Lower(r, i)) && 1 <= k < 3
    ensures MeetsAt(t, Lower(r, i), k)
  {
  }

  lemma UpperMeets(t: Tube, r: nat, i: nat, k: nat)
    requires IsTube(t) && IsName(t, Upper(r, i)) && k < 3
    ensures MeetsAt(t, Upper(r, i), k)
  {
  }

  lemma TopMeets(t: Tube, i: nat, k: nat)
    requires IsTube(t) && IsName(t, TopCap(i)) && k < 3
    ensures MeetsAt(t, TopCap(i), k)
  {
  }

  lemma BottomMeets(t: Tube, i: nat, k: nat)
    requires IsTube(t) && IsName(t, BottomCap(i)) && k < 3
    ensures MeetsAt(t, BottomCap(i), k)
  {
  }

  // The mesh itself -------------------------------------------------------------

  function ShapeOf(t: Tube): Name -> Face {
    name => Shape(t, name)
  }

  function OwnerOf(t: Tube): Side -> (Name, nat)
    requires IsTube(t)
  {
    e => Owner(t, e)
  }

  // The triangles are those of the names, each once.
  ghost predicate IsMesh(t: Tube, faces: seq<Face>, names: seq<Name>)
    requires IsTube(t)
  {
    && Draws(faces, names, ShapeOf(t))
    && forall name :: name in names <==> IsName(t, name)
  }

  // However many rings and segments, the mesh is a closed oriented surface.
  lemma MeshIsClosed(t: Tube, faces: seq<Face>, names: seq<Name>)
    requires IsTube(t) && IsMesh(t, faces, names)
    ensures ClosedOriented(faces)
  {
    hide Shape, SideOf, Owner, OwnerAt, Places;
    forall name, k: nat | name in names && k < 3
      ensures Owner(t, SideOf(Shape(t, name), k)) == (name, k)
      ensures var e := SideOf(Shape(t, name), k);
        var o := Owner(t, Reversed(e));
        e.from != e.to && o.0 in names && o.1 < 3 && SideOf(Shape(t, o.0), o.1) == Reversed(e)
    {
      SideMeets(t, name, k);
    }
    assert Owns(names, ShapeOf(t), OwnerOf(t));
    assert Meets(names, ShapeOf(t), OwnerOf(t));
    BlueprintIsClosed(faces, names, ShapeOf(t), OwnerOf(t));
  }

  lemma SideMeets(t: Tube, name: Name, k: nat)
    requires IsTube(t) && IsName(t, name) && k < 3
    ensures var e := SideOf(Shape(t, name), k);
      var o := Owner(t, Reversed(e));
      Owner(t, e) == (name, k) && e.from != e.to && IsName(t, o.0) && o.1 < 3
        && SideOf(Shape(t, o.0), o.1) == Reversed(e)
  {
    OwnerOfSide(t, name, k);
    OwnsAt(t, name, k);
    match name {
      case Lower(r, i) =>
        if k == 0 {
          LowerMeetsBelow(t, r, i);
        } else {
          LowerMeets(t, r, i, k);
        }
      case Upper(r, i) => UpperMeets(t, r, i, k);
      case BottomCap(i) => BottomMeets(t, i, k);
      case TopCap(i) => TopMeets(t, i, k);
    }
    var o := Owner(t, Reversed(SideOf(Shape(t, name), k)));
    SidePlaces(t, name, k);
    hide OwnerAt, Shape, SideOf, Places, Owner;
    SidePlaces(t, o.0, o.1);
  }

  // Around the vertices --------------------------------------------------------

  // Where a neighbor comes in turning around a vertex, which begins with the vertex
  // after it in its ring. Corners of the caps that are no neighbors in the ring come
  // before the preceding vertex in the last ring, and after it in the first.
  function RankAt(t: Tube, r: nat, i: nat, q: nat, j: nat): nat
    requires IsTube(t)
  {
    var n := t.segments;
    if q == r then
      if j == Following(n, i) then 0
      else if i == Following(n, j) then n + 3
      else if r == 0 then if j <= n then 3 * n + 3 - j else 0
      else j + 3
    else if q == Following(t.rings, r) && (t.closed || r < q) then (if i == j then 2 else 1)
    else if i == j then 3 * n + 5
    else 3 * n + 4
  }

  function Rank(t: Tube): (nat, nat) -> nat
    requires IsTube(t)
  {
    (v: nat, w: nat) => RankAt(t, v / t.segments, v % t.segments, w / t.segments, w % t.segments)
  }

  function Hub(t: Tube): nat -> nat
    requires IsTube(t)
  {
    (v: nat) => At(t, v / t.segments, Following(t.segments, v % t.segments))
  }

  lemma PlacesTurnUp(t: Tube, name: Name, k: nat)
    requires IsTube(t) && IsName(t, name) && k < 3
    ensures var p, q, u := Places(t, name, k), Places(t, name, Next(k)), Places(t, name, Next(Next(k)));
      && (RankAt(t, p.0, p.1, u.0, u.1) == 0 || RankAt(t, p.0, p.1, q.0, q.1) < RankAt(t, p.0, p.1, u.0, u.1))
      && (RankAt(t, p.0, p.1, q.0, q.1) == 0 ==> q == (p.0, Following(t.segments, p.1)))
  {
  }

  lemma NameTurnsUp(t: Tube, name: Name, k: nat)
    requires IsTube(t) && IsName(t, name) && k < 3
    ensures RanksWell(ShapeOf(t), Rank(t), Hub(t), name, k)
  {
    var p, q, u := Places(t, name, k), Places(t, name, Next(k)), Places(t, name, Next(Next(k)));
    PlacesTurnUp(t, name, k);
    SidePlaces(t, name, k);
    SidePlaces(t, name, Next(k));
    hide Shape, SideOf, Places, RankAt, At;
    Coordinates(t, p.0, p.1);
    Coordinates(t, q.0, q.1);
    Coordinates(t, u.0, u.1);
  }

  lemma MeshTurnsUp(t: Tube, faces: seq<Face>, names: seq<Name>)
    requires IsTube(t) && IsMesh(t, faces, names)
    ensures RankedAround(names, ShapeOf(t), Rank(t), Hub(t))
  {
    hide Shape, SideOf, Rank, Hub, Draws;
    forall name, k: nat | name in names && k < 3 ensures RanksWell(ShapeOf(t), Rank(t), Hub(t), name, k) {
      NameTurnsUp(t, name, k);
    }
  }

  // The builders ----------------------------------------------------------------

  // A vertex is known by its ring and its place in it; where that lies in space is
  // no matter here.
  datatype Vertex = Vertex(ring: nat, place: nat)

  ghost function VertexOf(t: Tube, k: nat): Vertex {
    if t.segments == 0 then Vertex(0, 0) else Vertex(k / t.segments, k % t.segments)
  }

  ghost predicate AreVertices(t: Tube, vertices: seq<Vertex>) {
    |vertices| == t.rings * t.segments && forall k :: 0 <= k < |vertices| ==> vertices[k] == VertexOf(t, k)
  }

  // The triangles drawn by the time the builder is at a place of a ring.
  ghost predicate DrawnBefore(name: Name, ring: nat, i: nat) {
    (name.Lower? || name.Upper?) && (name.ring < ring || (name.ring == ring && name.i < i))
  }

  ghost predicate Walled(t: Tube, faces: seq<Face>, names: seq<Name>, ring: nat, i: nat) {
    && Draws(faces, names, ShapeOf(t)) && |faces| == 2 * (ring * t.segments + i)
    && forall name :: name in names <==> DrawnBefore(name, ring, i) && name.i < t.segments
  }

  lemma DrawOne(t: Tube, faces: seq<Face>, names: seq<Name>, name: Name)
    requires Draws(faces, names, ShapeOf(t)) && name !in names
    ensures Draws(faces + [Shape(t, name)], names + [name], ShapeOf(t))
  {
    hide Shape;
  }

  lemma WallGrows(t: Tube, faces: seq<Face>, names: seq<Name>, ring: nat, i: nat)
    requires Walled(t, faces, names, ring, i) && i < t.segments
    ensures Walled(t, faces + [Shape(t, Lower(ring, i))] + [Shape(t, Upper(ring, i))],
                   names + [Lower(ring, i)] + [Upper(ring, i)], ring, i + 1)
  {
    hide Shape;
    DrawOne(t, faces, names, Lower(ring, i));
    DrawOne(t, faces + [Shape(t, Lower(ring, i))], names + [Lower(ring, i)], Upper(ring, i));
    hide Draws;
  }

  lemma WallTurns(t: Tube, faces: seq<Face>, names: seq<Name>, ring: nat)
    requires Walled(t, faces, names, ring, t.segments)
    ensures Walled(t, faces, names, ring + 1, 0)
  {
    hide Draws;
    assert (ring + 1) * t.segments == ring * t.segments + t.segments;
  }

  // The two triangles of every segment between the rings that begin at base and top.
  method JoinRings(t: Tube, ring: nat, base: nat, top: nat, faces0: seq<Face>, ghost names0: seq<Name>)
    returns (faces: seq<Face>, ghost names: seq<Name>)
    requires IsTube(t) && ring < Spans(t) && base == At(t, ring, 0) && top == At(t, Following(t.rings, ring), 0)
    requires Walled(t, faces0, names0, ring, 0)
    ensures Walled(t, faces, names, ring + 1, 0)
  {
    hide Walled;
    faces, names := faces0, names0;
    for i := 0 to t.segments
      invariant Walled(t, faces, names, ring, i)
    {
      var next := (i + 1) % t.segments;
      assert next == Following(t.segments, i);
      WallGrows(t, faces, names, ring, i);
      assert Face(base + i, base + next, top + next) == Shape(t, Lower(ring, i));
      assert Face(base + i, top + next, top + i) == Shape(t, Upper(ring, i));
      faces := faces + [Face(base + i, base + next, top + next)] + [Face(base + i, top + next, top + i)];
      names := names + [Lower(ring, i)] + [Upper(ring, i)];
    }
    WallTurns(t, faces, names, ring);
  }

  // The fans of the two ends.
  method AddCaps(t: Tube, top: nat, faces0: seq<Face>, ghost names0: seq<Name>)
    returns (faces: seq<Face>, ghost names: seq<Name>)
    requires IsTube(t) && !t.closed && top == At(t, t.rings - 1, 0) && Walled(t, faces0, names0, Spans(t), 0)
    ensures IsMesh(t, faces, names) && |faces| == |faces0| + 2 * (t.segments - 2)
  {
    faces, names := faces0, names0;
    hide Shape, At;
    for i := 1 to t.segments - 1
      invariant Draws(faces, names, ShapeOf(t)) && |faces| == |faces0| + i - 1
      invariant forall name :: name in names <==> name in names0 || (name.BottomCap? && 1 <= name.i < i)
    {
      assert Face(0, i + 1, i) == Shape(t, BottomCap(i)) by {
        CapShapes(t, i);
      }
      DrawOne(t, faces, names, BottomCap(i));
      faces, names := faces + [Face(0, i + 1, i)], names + [BottomCap(i)];
    }
    for i := 1 to t.segments - 1
      invariant Draws(faces, names, ShapeOf(t)) && |faces| == |faces0| + t.segments - 2 + i - 1
      invariant forall name :: name in names <==>
        name in names0 || (name.BottomCap? && 1 <= name.i < t.segments - 1) || (name.TopCap? && 1 <= name.i < i)
    {
      assert Face(top, top + i, top + i + 1) == Shape(t, TopCap(i)) by {
        CapShapes(t, i);
      }
      DrawOne(t, faces, names, TopCap(i));
      faces, names := faces + [Face(top, top + i, top + i + 1)], names + [TopCap(i)];
    }
  }

  lemma CapShapes(t: Tube, i: nat)
    requires IsTube(t)
    ensures Shape(t, BottomCap(i)) == Face(0, i + 1, i)
    ensures var top := At(t, t.rings - 1, 0); Shape(t, TopCap(i)) == Face(top, top + i, top + i + 1)
  {
  }

  method AddVertices(t: Tube) returns (vertices: seq<Vertex>)
    ensures AreVertices(t, vertices)
  {
    hide VertexOf, At;
    vertices := [];
    for ring := 0 to t.rings
      invariant |vertices| == ring * t.segments
      invariant forall k :: 0 <= k < |vertices| ==> vertices[k] == VertexOf(t, k)
    {
      for i := 0 to t.segments
        invariant |vertices| == ring * t.segments + i
        invariant forall k :: 0 <= k < |vertices| ==> vertices[k] == VertexOf(t, k)
      {
        VertexOfPlace(t, ring, i);
        vertices := vertices + [Vertex(ring, i)];
      }
    }
  }

  lemma VertexOfPlace(t: Tube, ring: nat, i: nat)
    requires i < t.segments
    ensures VertexOf(t, ring * t.segments + i) == Vertex(ring, i)
  {
    Coordinates(t, ring, i);
  }

  // What both builders promise of the mesh of a tube: one surface, a sphere if it is
  // open and a torus if it is closed.
  ghost predicate IsSolid(t: Tube, vertices: seq<Vertex>, faces: seq<Face>) {
    && AreVertices(t, vertices) && IsSurface(faces, |vertices|)
    && EulerNumber(|vertices|, faces) == (if t.closed then 0 else 2)
  }

  // The tube around a path; a path that ends where it begins gives a closed one.
  method TubeMeshFromPath(points: nat, segments: nat, closed: bool) returns (vertices: seq<Vertex>, faces: seq<Face>)
    requires points >= 2 && segments >= 3 && (closed ==> points > 3)
    ensures IsSolid(Tube(if closed then points - 1 else points, segments, closed), vertices, faces)
  {
    hide Walled, IsMesh, IsSolid, AreVertices, Shape, At, Following;
    var total := if closed then points - 1 else points;
    var t := Tube(total, segments, closed);
    vertices := AddVertices(t);
    faces := [];
    ghost var names: seq<Name> := [];
    NothingWalled(t);
    var spans := if closed then total else total - 1;
    for ring := 0 to spans
      invariant Walled(t, faces, names, ring, 0)
    {
      var base, top := ring * segments, ((ring + 1) % total) * segments;
      NextRing(t, ring);
      faces, names := JoinRings(t, ring, base, top, faces, names);
    }
    WallCount(t, faces, names, spans);
    if !closed {
      LastRing(t);
      faces, names := AddCaps(t, (total - 1) * segments, faces, names);
    } else {
      ClosedIsMesh(t, faces, names);
    }
    MeshIsSolid(t, vertices, faces, names);
  }

  // A loft through sections of equally many points each.
  method LoftFaces(sections: nat, pointCount: nat) returns (vertices: seq<Vertex>, faces: seq<Face>)
    requires sections >= 2 && pointCount >= 3
    ensures IsSolid(Tube(sections, pointCount, false), vertices, faces)
  {
    hide Walled, IsMesh, IsSolid, AreVertices, Shape;
    var t := Tube(sections, pointCount, false);
    vertices := AddVertices(t);
    faces := [];
    ghost var names: seq<Name> := [];
    NothingWalled(t);
    for ring := 0 to sections - 1
      invariant Walled(t, faces, names, ring, 0)
    {
      faces, names := JoinRings(t, ring, ring * pointCount, (ring + 1) * pointCount, faces, names);
    }
    WallCount(t, faces, names, sections - 1);
    faces, names := AddCaps(t, (sections - 1) * pointCount, faces, names);
    MeshIsSolid(t, vertices, faces, names);
  }

  lemma NextRing(t: Tube, ring: nat)
    requires ring < t.rings
    ensures (ring + 1) % t.rings == Following(t.rings, ring) && At(t, ring, 0) == ring * t.segments
    ensures At(t, Following(t.rings, ring), 0) == ((ring + 1) % t.rings) * t.segments
  {
  }

  lemma LastRing(t: Tube)
    requires t.rings > 0
    ensures At(t, t.rings - 1, 0) == (t.rings - 1) * t.segments
  {
  }

  lemma NothingWalled(t: Tube)
    ensures Walled(t, [], [], 0, 0)
  {
  }

  lemma WallCount(t: Tube, faces: seq<Face>, names: seq<Name>, ring: nat)
    requires Walled(t, faces, names, ring, 0)
    ensures |faces| == 2 * (ring * t.segments)
  {
  }

  lemma ClosedIsMesh(t: Tube, faces: seq<Face>, names: seq<Name>)
    requires IsTube(t) && t.closed && Walled(t, faces, names, t.rings, 0)
    ensures IsMesh(t, faces, names)
  {
    hide Draws, Shape;
  }

  lemma MeshIsSolid(t: Tube, vertices: seq<Vertex>, faces: seq<Face>, names: seq<Name>)
    requires IsTube(t) && AreVertices(t, vertices) && IsMesh(t, faces, names)
    requires |faces| == 2 * (Spans(t) * t.segments) + (if t.closed then 0 else 2 * (t.segments - 2))
    ensures IsSolid(t, vertices, faces)
  {
    MeshIsClosed(t, faces, names);
    EdgesAreHalfTheSides(faces);
    CountsBalance(t, |Edges(faces)|, |faces|);
    MeshTurnsUp(t, faces, names);
    hide Edges, ClosedOriented, Sides, StepsDown, RankedAround, Rank, Hub, Draws, Shape;
    forall e | e in Sides(faces) ensures e.from < |vertices| {
      SideInRange(t, faces, names, e);
    }
    forall v: nat | v < |vertices| ensures IsUsed(faces, v) {
      var e := SideFrom(t, faces, names, v);
    }
    forall v: nat | 0 < v < |vertices| ensures StepsDown(faces, v) {
      VertexStepsDown(t, faces, names, v);
    }
    RankedIsSurface(faces, names, ShapeOf(t), Rank(t), Hub(t), |vertices|);
  }

  lemma CountsBalance(t: Tube, edges: nat, faces: nat)
    requires IsTube(t) && 2 * edges == 3 * faces
    requires faces == 2 * (Spans(t) * t.segments) + (if t.closed then 0 else 2 * (t.segments - 2))
    ensures t.rings * t.segments - edges + faces == (if t.closed then 0 else 2)
  {
    assert (t.rings - 1) * t.segments == t.rings * t.segments - t.segments;
  }

  lemma PlaceInRange(t: Tube, r: nat, i: nat)
    requires r < t.rings && i < t.segments
    ensures At(t, r, i) < t.rings * t.segments
  {
    RowsGrow(r + 1, t.rings, t.segments);
    assert (r + 1) * t.segments == r * t.segments + t.segments;
  }

  lemma NameInRange(t: Tube, name: Name, k: nat)
    requires IsTube(t) && IsName(t, name) && k < 3
    ensures SideOf(Shape(t, name), k).from < t.rings * t.segments
  {
    hide Shape, SideOf, At, Places;
    SidePlaces(t, name, k);
    var p := Places(t, name, k);
    PlaceInRange(t, p.0, p.1);
  }

  lemma SideInRange(t: Tube, faces: seq<Face>, names: seq<Name>, e: Side)
    requires IsTube(t) && IsMesh(t, faces, names) && e in Sides(faces)
    ensures e.from < t.rings * t.segments
  {
    assert |names| == |faces|;
    hide Draws, Sides, Shape, SideOf, IsTube;
    var i: nat :| i < |Sides(faces)| && Sides(faces)[i] == e;
    SideAt(faces, names, ShapeOf(t), i);
    NameInRange(t, names[i / 3], i % 3);
  }

  // Some triangle that has the vertex for a corner.
  ghost function SomeName(t: Tube, r: nat, i: nat): (Name, nat)
    requires IsTube(t)
  {
    if r < Spans(t) then (Lower(r, i), 0) else if r > 0 then (Upper(r - 1, i), 2) else (Lower(0, i), 0)
  }

  lemma SomeNameIsThere(t: Tube, r: nat, i: nat)
    requires IsTube(t) && r < t.rings && i < t.segments
    ensures var (name, k) := SomeName(t, r, i); IsName(t, name) && k < 3 && Places(t, name, k) == (r, i)
  {
  }

  lemma VertexAt(t: Tube, v: nat) returns (r: nat, i: nat)
    requires IsTube(t) && v < t.rings * t.segments
    ensures r < t.rings && i < t.segments && v == At(t, r, i)
  {
    r, i := v / t.segments, v % t.segments;
    if r >= t.rings {
      RowsGrow(t.rings, r, t.segments);
    }
  }

  lemma NamedSide(t: Tube, faces: seq<Face>, names: seq<Name>, name: Name, k: nat)
    requires IsTube(t) && IsMesh(t, faces, names) && IsName(t, name) && k < 3
    ensures var p, q := Places(t, name, k), Places(t, name, Next(k));
            Side(At(t, p.0, p.1), At(t, q.0, q.1)) in Sides(faces)
  {
    SidePlaces(t, name, k);
    hide Shape, SideOf, Places, At, Sides, IsTube;
    assert name in names;
    var l: nat :| l < |names| && names[l] == name;
    SideOfSomeFace(faces, l, k);
    assert Sides(faces)[3 * l + k] in Sides(faces);
  }

  lemma SideFrom(t: Tube, faces: seq<Face>, names: seq<Name>, v: nat) returns (e: Side)
    requires IsTube(t) && IsMesh(t, faces, names) && v < t.rings * t.segments
    ensures e in Sides(faces) && e.from == v
  {
    var r, i := VertexAt(t, v);
    SomeNameIsThere(t, r, i);
    var (name, k) := SomeName(t, r, i);
    NamedSide(t, faces, names, name, k);
    e := Side(v, At(t, Places(t, name, Next(k)).0, Places(t, name, Next(k)).1));
  }

  // A triangle with a side from the vertex before a vertex in its ring, or from the
  // first one of the ring before it.
  ghost function NameBefore(t: Tube, r: nat, i: nat): (Name, nat)
    requires IsTube(t) && (r > 0 || i > 0)
  {
    if i == 0 then (Lower(r - 1, t.segments - 1), 1)
    else if r < Spans(t) then (Lower(r, i - 1), 0)
    else (Upper(r - 1, i - 1), 1)
  }

  lemma PlaceBefore(t: Tube, r: nat, i: nat)
    requires IsTube(t) && r < t.rings && i < t.segments && (r > 0 || i > 0)
    ensures var (name, k) := NameBefore(t, r, i);
      var p, q := Places(t, name, k), Places(t, name, Next(k));
      var before := if i == 0 then (r - 1, 0) else (r, i - 1);
      IsName(t, name) && k < 3 && ((p == before && q == (r, i)) || (q == before && p == (r, i)))
  {
  }

  lemma VertexStepsDown(t: Tube, faces: seq<Face>, names: seq<Name>, v: nat)
    requires IsTube(t) && IsMesh(t, faces, names) && ClosedOriented(faces) && 0 < v < t.rings * t.segments
    ensures StepsDown(faces, v)
  {
    var r, i := VertexAt(t, v);
    assert r > 0 || i > 0;
    PlaceBefore(t, r, i);
    BeforeIsLess(t, r, i);
    var (name, k) := NameBefore(t, r, i);
    hide Sides, Places, NameBefore, At, IsMesh, IsTube, IsName, ClosedOriented;
    NamedSide(t, faces, names, name, k);
    StepsDownTo(faces, v, if i == 0 then At(t, r - 1, 0) else At(t, r, i - 1));
  }

  lemma BeforeIsLess(t: Tube, r: nat, i: nat)
    requires IsTube(t) && (r > 0 || i > 0)
    ensures (if i == 0 then At(t, r - 1, 0) else At(t, r, i - 1)) < At(t, r, i)
  {
    if i == 0 {
      assert r * t.segments == (r - 1) * t.segments + t.segments;
    }
  }
}
