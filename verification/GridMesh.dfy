// The meshes of domed surfaces and bowed panels: two sheets over a grid, and a skirt
// that joins their rims.
module GridMesh {
  import opened Arithmetic
  import opened Lists
  import opened SurfaceMesh
  import opened SurfaceFans

  datatype Grid = Grid(nx: nat, ny: nat)

  datatype Point = Point(x: nat, y: nat, upper: bool)

  // Two triangles of each sheet for every cell, and two of the skirt for every step
  // along the rim.
  datatype Name =
    | Top1(x: nat, y: nat) | Top2(x: nat, y: nat) | Bottom1(x: nat, y: nat) | Bottom2(x: nat, y: nat)
    | South1(x: nat) | South2(x: nat) | North1(x: nat) | North2(x: nat)
    | West1(y: nat) | West2(y: nat) | East1(y: nat) | East2(y: nat)

  predicate IsGrid(g: Grid) {
    g.nx >= 1 && g.ny >= 1
  }

  predicate OfSheets(name: Name) {
    name.Top1? || name.Top2? || name.Bottom1? || name.Bottom2?
  }

  predicate AlongX(name: Name) {
    name.South1? || name.South2? || name.North1? || name.North2?
  }

  predicate IsName(g: Grid, name: Name) {
    if OfSheets(name) then name.x < g.nx && name.y < g.ny
    else if AlongX(name) then name.x < g.nx
    else name.y < g.ny
  }

  predicate IsPoint(g: Grid, p: Point) {
    p.x <= g.nx && p.y <= g.ny
  }

  function Index(g: Grid, x: nat, y: nat, upper: bool): nat {
    (y * (g.nx + 1) + x) * 2 + if upper then 1 else 0
  }

  function At(g: Grid, p: Point): nat {
    Index(g, p.x, p.y, p.upper)
  }

  function PointAt(g: Grid, v: nat): Point {
    Point(v / 2 % (g.nx + 1), v / 2 / (g.nx + 1), v % 2 == 1)
  }

  lemma Coordinates(g: Grid, p: Point)
    requires IsPoint(g, p)
    ensures PointAt(g, At(g, p)) == p
  {
    var cell := p.y * (g.nx + 1) + p.x;
    RowAndPlace(cell, g.nx + 1, p.y, p.x);
    assert At(g, p) / 2 == cell;
  }

  // The corners of a triangle.
  function Corner(g: Grid, name: Name, k: nat): Point {
    match name
    case Top1(x, y) => if k == 0 then Point(x, y, true) else if k == 1 then Point(x + 1, y, true)
      else Point(x + 1, y + 1, true)
    case Top2(x, y) => if k == 0 then Point(x, y, true) else if k == 1 then Point(x + 1, y + 1, true)
      else Point(x, y + 1, true)
    case Bottom1(x, y) => if k == 0 then Point(x, y, false) else if k == 1 then Point(x + 1, y + 1, false)
      else Point(x + 1, y, false)
    case Bottom2(x, y) => if k == 0 then Point(x, y, false) else if k == 1 then Point(x, y + 1, false)
      else Point(x + 1, y + 1, false)
    case South1(x) => if k == 0 then Point(x, 0, false) else if k == 1 then Point(x + 1, 0, false)
      else Point(x + 1, 0, true)
    case South2(x) => if k == 0 then Point(x, 0, false) else if k == 1 then Point(x + 1, 0, true) else Point(x, 0, true)
    case North1(x) => if k == 0 then Point(x, g.ny, false) else if k == 1 then Point(x, g.ny, true)
      else Point(x + 1, g.ny, true)
    case North2(x) => if k == 0 then Point(x, g.ny, false) else if k == 1 then Point(x + 1, g.ny, true)
      else Point(x + 1, g.ny, false)
    case West1(y) => if k == 0 then Point(0, y, false) else if k == 1 then Point(0, y, true) else Point(0, y + 1, true)
    case West2(y) => if k == 0 then Point(0, y, false) else if k == 1 then Point(0, y + 1, true)
      else Point(0, y + 1, false)
    case East1(y) => if k == 0 then Point(g.nx, y, false) else if k == 1 then Point(g.nx, y + 1, false)
      else Point(g.nx, y + 1, true)
    case East2(y) => if k == 0 then Point(g.nx, y, false) else if k == 1 then Point(g.nx, y + 1, true)
      else Point(g.nx, y, true)
  }

  function Shape(g: Grid, name: Name): Face {
    Face(At(g, Corner(g, name, 0)), At(g, Corner(g, name, 1)), At(g, Corner(g, name, 2)))
  }

  // Whose side leads from one point to another.
  function OwnerAt(g: Grid, p: Point, q: Point): (Name, nat) {
    if p.upper && q.upper then UpperOwner(g, p, q)
    else if !p.upper && !q.upper then LowerOwner(g, p, q)
    else if q.upper then RisingOwner(g, p, q)
    else FallingOwner(g, p, q)
  }

  function UpperOwner(g: Grid, p: Point, q: Point): (Name, nat) {
    if q.x > p.x then
      if q.y > p.y then (Top2(p.x, p.y), 0) else if p.y < g.ny then (Top1(p.x, p.y), 0) else (North1(p.x), 1)
    else if q.x < p.x then
      if q.y < p.y then (Top1(q.x, q.y), 2) else if p.y > 0 then (Top2(q.x, p.y - 1), 1) else (South2(q.x), 1)
    else if q.y > p.y then
      if p.x > 0 then (Top1(p.x - 1, p.y), 1) else (West1(p.y), 1)
    else if p.x < g.nx then (Top2(p.x, q.y), 2)
    else (East2(q.y), 1)
  }

  function LowerOwner(g: Grid, p: Point, q: Point): (Name, nat) {
    if q.x > p.x then
      if q.y > p.y then (Bottom1(p.x, p.y), 0) else if p.y > 0 then (Bottom2(p.x, p.y - 1), 1) else (South1(p.x), 0)
    else if q.x < p.x then
      if q.y < p.y then (Bottom2(q.x, q.y), 2) else if p.y < g.ny then (Bottom1(q.x, p.y), 2) else (North2(q.x), 2)
    else if q.y > p.y then
      if p.x < g.nx then (Bottom2(p.x, p.y), 0) else (East1(p.y), 0)
    else if p.x > 0 then (Bottom1(p.x - 1, q.y), 1)
    else (West2(q.y), 2)
  }

  function RisingOwner(g: Grid, p: Point, q: Point): (Name, nat) {
    if q.x > p.x then (if p.y == 0 then (South2(p.x), 0) else (North2(p.x), 0))
    else if q.y > p.y then (if p.x == 0 then (West2(p.y), 0) else (East2(p.y), 0))
    else if p.y == 0 && p.x > 0 then (South1(p.x - 1), 1)
    else if p.y == g.ny && p.x < g.nx then (North1(p.x), 0)
    else if p.x == 0 || p.y == 0 then (West1(p.y), 0)
    else (East1(p.y - 1), 1)
  }

  function FallingOwner(g: Grid, p: Point, q: Point): (Name, nat) {
    if q.x < p.x then (if p.y == 0 then (South1(q.x), 2) else (North1(q.x), 2))
    else if q.y < p.y then (if p.x == 0 then (West1(q.y), 2) else (East1(q.y), 2))
    else if p.y == 0 && p.x < g.nx then (South2(p.x), 2)
    else if p.y == g.ny && p.x > 0 then (North2(p.x - 1), 1)
    else if p.x == 0 && p.y > 0 then (West2(p.y - 1), 1)
    else (East2(p.y), 2)
  }

  function Owner(g: Grid, e: Side): (Name, nat) {
    OwnerAt(g, PointAt(g, e.from), PointAt(g, e.to))
  }

  lemma CornersArePoints(g: Grid, name: Name, k: nat)
    requires IsGrid(g) && IsName(g, name) && k < 3
    ensures IsPoint(g, Corner(g, name, k)) && Corner(g, name, k) != Corner(g, name, Next(k))
  {
  }

  lemma SideCorners(g: Grid, name: Name, k: nat)
    requires IsGrid(g) && IsName(g, name) && k < 3
    ensures SideOf(Shape(g, name), k) == Side(At(g, Corner(g, name, k)), At(g, Corner(g, name, Next(k))))
  {
  }

  lemma OwnsAt(g: Grid, name: Name, k: nat)
    requires IsGrid(g) && IsName(g, name) && k < 3
    ensures OwnerAt(g, Corner(g, name, k), Corner(g, name, Next(k))) == (name, k)
  {
  }

  ghost predicate MeetsAt(g: Grid, name: Name, k: nat) {
    var p, q := Corner(g, name, k), Corner(g, name, Next(k));
    var o := OwnerAt(g, q, p);
    IsName(g, o.0) && o.1 < 3 && Corner(g, o.0, o.1) == q && Corner(g, o.0, Next(o.1)) == p
  }

  lemma TopMeets(g: Grid, name: Name, k: nat)
    requires IsGrid(g) && IsName(g, name) && (name.Top1? || name.Top2?) && k < 3
    ensures MeetsAt(g, name, k)
  {
  }

  lemma BottomMeets(g: Grid, name: Name, k: nat)
    requires IsGrid(g) && IsName(g, name) && (name.Bottom1? || name.Bottom2?) && k < 3
    ensures MeetsAt(g, name, k)
  {
  }

  lemma SkirtMeetsAlongX(g: Grid, name: Name, k: nat)
    requires IsGrid(g) && IsName(g, name) && AlongX(name) && k < 3
    ensures MeetsAt(g, name, k)
  {
  }

  lemma SkirtMeetsAlongY(g: Grid, name: Name, k: nat)
    requires IsGrid(g) && IsName(g, name) && !OfSheets(name) && !AlongX(name) && k < 3
    ensures MeetsAt(g, name, k)
  {
  }

  lemma SideMeets(g: Grid, name: Name, k: nat)
    requires IsGrid(g) && IsName(g, name) && k < 3
    ensures var e := SideOf(Shape(g, name), k);
      var o := Owner(g, Reversed(e));
      Owner(g, e) == (name, k) && e.from != e.to && IsName(g, o.0) && o.1 < 3
        && SideOf(Shape(g, o.0), o.1) == Reversed(e)
  {
    hide Shape, Corner, OwnerAt, At, PointAt, SideOf;
    var p, q := Corner(g, name, k), Corner(g, name, Next(k));
    CornersArePoints(g, name, k);
    CornersArePoints(g, name, Next(k));
    Coordinates(g, p);
    Coordinates(g, q);
    SideCorners(g, name, k);
    OwnsAt(g, name, k);
    if name.Top1? || name.Top2? {
      TopMeets(g, name, k);
    } else if name.Bottom1? || name.Bottom2? {
      BottomMeets(g, name, k);
    } else if AlongX(name) {
      SkirtMeetsAlongX(g, name, k);
    } else {
      SkirtMeetsAlongY(g, name, k);
    }
    var o := OwnerAt(g, q, p);
    SideCorners(g, o.0, o.1);
  }

  // The mesh itself -------------------------------------------------------------

  function ShapeOf(g: Grid): Name -> Face {
    name => Shape(g, name)
  }

  function OwnerOf(g: Grid): Side -> (Name, nat) {
    e => Owner(g, e)
  }

  ghost predicate IsMesh(g: Grid, faces: seq<Face>, names: seq<Name>) {
    && Draws(faces, names, ShapeOf(g))
    && forall name :: name in names <==> IsName(g, name)
  }

  // However fine the grid, and in whatever order its triangles are drawn, the mesh is
  // a closed oriented surface.
  lemma MeshIsClosed(g: Grid, faces: seq<Face>, names: seq<Name>)
    requires IsGrid(g) && IsMesh(g, faces, names)
    ensures ClosedOriented(faces)
  {
    hide Shape, SideOf, Owner;
    forall name, k: nat | name in names && k < 3
      ensures Owner(g, SideOf(Shape(g, name), k)) == (name, k)
      ensures var e := SideOf(Shape(g, name), k);
        var o := Owner(g, Reversed(e));
        e.from != e.to && o.0 in names && o.1 < 3 && SideOf(Shape(g, o.0), o.1) == Reversed(e)
    {
      SideMeets(g, name, k);
    }
    assert Owns(names, ShapeOf(g), OwnerOf(g));
    assert Meets(names, ShapeOf(g), OwnerOf(g));
    BlueprintIsClosed(faces, names, ShapeOf(g), OwnerOf(g));
  }

  // Around the points -----------------------------------------------------------

  predicate OnRim(g: Grid, p: Point) {
    p.x == 0 || p.x == g.nx || p.y == 0 || p.y == g.ny
  }

  // Where a neighbor comes in turning around a point. On the rim that begins with the
  // point above or below it, elsewhere with the one to the east.
  function RankAt(g: Grid, p: Point, q: Point): nat {
    if p.upper && q.upper then UpperRank(g, p, q)
    else if !p.upper && !q.upper then LowerRank(g, p, q)
    else if q.x == p.x && q.y == p.y then 0
    else if p.upper then (if q.x == p.x then (if p.x == g.nx then 7 else 1) else (if p.y == 0 then 5 else 1))
    else if q.x == p.x then (if p.x == 0 then 1 else 20)
    else if p.y == g.ny then 1
    else 21
  }

  function UpperRank(g: Grid, p: Point, q: Point): nat {
    if q.x > p.x then
      if q.y > p.y then (if OnRim(g, p) && p.y > 0 then 9 else 2)
      else if !OnRim(g, p) then 0
      else if p.y == 0 then 1
      else 8
    else if q.x < p.x then (if q.y < p.y then 5 else 4)
    else if q.y < p.y then 6
    else if OnRim(g, p) && p.y > 0 && p.x < g.nx then 10
    else 3
  }

  function LowerRank(g: Grid, p: Point, q: Point): nat {
    if q.x > p.x then
      if q.y > p.y then 6 else if OnRim(g, p) then 7 else 0
    else if q.x < p.x then
      if q.y < p.y then (if OnRim(g, p) && p.x < g.nx then 9 else 3)
      else if p.y == g.ny && p.x < g.nx then 10
      else 4
    else if q.y > p.y then 5
    else if OnRim(g, p) && p.x < g.nx then 8
    else 2
  }

  function HubAt(g: Grid, p: Point): Point {
    if OnRim(g, p) then Point(p.x, p.y, !p.upper) else Point(p.x + 1, p.y, p.upper)
  }

  function Rank(g: Grid): (nat, nat) -> nat {
    (v: nat, w: nat) => RankAt(g, PointAt(g, v), PointAt(g, w))
  }

  function Hub(g: Grid): nat -> nat {
    (v: nat) => At(g, HubAt(g, PointAt(g, v)))
  }

  ghost predicate CornerTurnsUp(g: Grid, name: Name, k: nat) {
    var p, q, u := Corner(g, name, k), Corner(g, name, Next(k)), Corner(g, name, Next(Next(k)));
    && (RankAt(g, p, u) == 0 || RankAt(g, p, q) < RankAt(g, p, u))
    && (RankAt(g, p, q) == 0 ==> q == HubAt(g, p))
  }

  lemma TopTurnsUp(g: Grid, name: Name, k: nat)
    requires IsGrid(g) && IsName(g, name) && (name.Top1? || name.Top2?) && k < 3
    ensures CornerTurnsUp(g, name, k)
  {
  }

  lemma BottomTurnsUp(g: Grid, name: Name, k: nat)
    requires IsGrid(g) && IsName(g, name) && (name.Bottom1? || name.Bottom2?) && k < 3
    ensures CornerTurnsUp(g, name, k)
  {
  }

  lemma SkirtTurnsUpAlongX(g: Grid, name: Name, k: nat)
    requires IsGrid(g) && IsName(g, name) && AlongX(name) && k < 3
    ensures CornerTurnsUp(g, name, k)
  {
  }

  lemma SkirtTurnsUpAlongY(g: Grid, name: Name, k: nat)
    requires IsGrid(g) && IsName(g, name) && !OfSheets(name) && !AlongX(name) && k < 3
    ensures CornerTurnsUp(g, name, k)
  {
  }

  lemma NameTurnsUp(g: Grid, name: Name, k: nat)
    requires IsGrid(g) && IsName(g, name) && k < 3
    ensures RanksWell(ShapeOf(g), Rank(g), Hub(g), name, k)
  {
    if name.Top1? || name.Top2? {
      TopTurnsUp(g, name, k);
    } else if name.Bottom1? || name.Bottom2? {
      BottomTurnsUp(g, name, k);
    } else if AlongX(name) {
      SkirtTurnsUpAlongX(g, name, k);
    } else {
      SkirtTurnsUpAlongY(g, name, k);
    }
    hide Shape, Corner, RankAt, At, PointAt, SideOf, IsName, HubAt, OnRim;
    SideCorners(g, name, k);
    SideCorners(g, name, Next(k));
    PointOfCorner(g, name, k);
    PointOfCorner(g, name, Next(k));
    PointOfCorner(g, name, Next(Next(k)));
  }

  lemma PointOfCorner(g: Grid, name: Name, k: nat)
    requires IsGrid(g) && IsName(g, name) && k < 3
    ensures PointAt(g, At(g, Corner(g, name, k))) == Corner(g, name, k)
  {
    CornersArePoints(g, name, k);
    hide Corner, At, PointAt;
    Coordinates(g, Corner(g, name, k));
  }

  lemma MeshTurnsUp(g: Grid, faces: seq<Face>, names: seq<Name>)
    requires IsGrid(g) && IsMesh(g, faces, names)
    ensures RankedAround(names, ShapeOf(g), Rank(g), Hub(g))
  {
    hide Shape, SideOf, Rank, Hub, Draws;
    forall name, k: nat | name in names && k < 3 ensures RanksWell(ShapeOf(g), Rank(g), Hub(g), name, k) {
      NameTurnsUp(g, name, k);
    }
  }

  // The builders ----------------------------------------------------------------

  ghost predicate SheetDrawn(name: Name, x: nat, y: nat) {
    OfSheets(name) && (name.y < y || (name.y == y && name.x < x))
  }

  ghost predicate Sheeted(g: Grid, faces: seq<Face>, names: seq<Name>, x: nat, y: nat) {
    && Draws(faces, names, ShapeOf(g)) && |faces| == 4 * (y * g.nx + x)
    && forall name :: name in names <==> SheetDrawn(name, x, y) && name.x < g.nx
  }

  ghost function Drawn(g: Grid, names: seq<Name>): seq<Face> {
    seq(|names|, k requires 0 <= k < |names| => Shape(g, names[k]))
  }

  lemma DrawMore(g: Grid, faces: seq<Face>, names: seq<Name>, more: seq<Name>)
    requires Draws(faces, names, ShapeOf(g)) && Distinct(more) && forall k :: 0 <= k < |more| ==> more[k] !in names
    ensures Draws(faces + Drawn(g, more), names + more, ShapeOf(g))
  {
    hide Shape;
    JoinedIsDistinct(names, more);
    hide Distinct;
  }

  lemma SheetGrows(g: Grid, faces: seq<Face>, names: seq<Name>, x: nat, y: nat, cell: seq<Name>)
    requires Sheeted(g, faces, names, x, y) && x < g.nx
    requires cell == [Top1(x, y), Top2(x, y), Bottom1(x, y), Bottom2(x, y)]
             || cell == [Bottom1(x, y), Bottom2(x, y), Top1(x, y), Top2(x, y)]
    ensures Sheeted(g, faces + Drawn(g, cell), names + cell, x + 1, y)
  {
    hide Shape;
    DrawMore(g, faces, names, cell);
    hide Draws;
    forall name ensures name in names + cell <==> SheetDrawn(name, x + 1, y) && name.x < g.nx {
      assert name in cell <==> OfSheets(name) && name.x == x && name.y == y;
    }
  }

  lemma SheetTurns(g: Grid, faces: seq<Face>, names: seq<Name>, y: nat)
    requires Sheeted(g, faces, names, g.nx, y)
    ensures Sheeted(g, faces, names, 0, y + 1)
  {
    hide Draws, Shape;
    assert (y + 1) * g.nx == y * g.nx + g.nx;
  }

  lemma NothingDrawn(g: Grid)
    ensures Sheeted(g, [], [], 0, 0)
  {
  }

  lemma CellShapes(g: Grid, x: nat, y: nat)
    ensures Shape(g, Top1(x, y)) == Face(Index(g, x, y, true), Index(g, x + 1, y, true), Index(g, x + 1, y + 1, true))
    ensures Shape(g, Top2(x, y)) == Face(Index(g, x, y, true), Index(g, x + 1, y + 1, true), Index(g, x, y + 1, true))
    ensures Shape(g, Bottom1(x, y))
            == Face(Index(g, x, y, false), Index(g, x + 1, y + 1, false), Index(g, x + 1, y, false))
    ensures Shape(g, Bottom2(x, y))
            == Face(Index(g, x, y, false), Index(g, x, y + 1, false), Index(g, x + 1, y + 1, false))
  {
    hide Index;
  }

  ghost predicate AreVertices(g: Grid, vertices: seq<Point>) {
    && |vertices| == (g.nx + 1) * (g.ny + 1) * 2
    && forall v :: 0 <= v < |vertices| ==> vertices[v] == PointAt(g, v)
  }

  method AddVertices(g: Grid) returns (vertices: seq<Point>)
    ensures AreVertices(g, vertices)
  {
    hide PointAt;
    vertices := [];
    for y := 0 to g.ny + 1
      invariant |vertices| == y * (g.nx + 1) * 2
      invariant forall v :: 0 <= v < |vertices| ==> vertices[v] == PointAt(g, v)
    {
      for x := 0 to g.nx + 1
        invariant |vertices| == (y * (g.nx + 1) + x) * 2
        invariant forall v :: 0 <= v < |vertices| ==> vertices[v] == PointAt(g, v)
      {
        Coordinates(g, Point(x, y, false));
        Coordinates(g, Point(x, y, true));
        vertices := vertices + [Point(x, y, false)] + [Point(x, y, true)];
      }
    }
  }

  // What both builders promise of their mesh: one surface, a sphere.
  ghost predicate IsSolid(g: Grid, vertices: seq<Point>, faces: seq<Face>) {
    AreVertices(g, vertices) && IsSurface(faces, |vertices|) && EulerNumber(|vertices|, faces) == 2
  }

  method AddDomedSurface(nx: nat, ny: nat) returns (vertices: seq<Point>, faces: seq<Face>)
    requires nx >= 1 && ny >= 1
    ensures IsSolid(Grid(nx, ny), vertices, faces)
  {
    var g := Grid(nx, ny);
    vertices := AddVertices(g);
    faces := [];
    ghost var names: seq<Name> := [];
    NothingDrawn(g);
    hide Sheeted, Shape, IsMesh, AreVertices, IsSolid, Index;
    for y := 0 to ny
      invariant Sheeted(g, faces, names, 0, y)
    {
      for x := 0 to nx
        invariant Sheeted(g, faces, names, x, y)
      {
        ghost var cell := [Top1(x, y), Top2(x, y), Bottom1(x, y), Bottom2(x, y)];
        SheetGrows(g, faces, names, x, y, cell);
        CellShapes(g, x, y);
        var drawn := [Face(Index(g, x, y, true), Index(g, x + 1, y, true), Index(g, x + 1, y + 1, true)),
                      Face(Index(g, x, y, true), Index(g, x + 1, y + 1, true), Index(g, x, y + 1, true)),
                      Face(Index(g, x, y, false), Index(g, x + 1, y + 1, false), Index(g, x + 1, y, false)),
                      Face(Index(g, x, y, false), Index(g, x, y + 1, false), Index(g, x + 1, y + 1, false))];
        assert drawn == Drawn(g, cell);
        faces, names := faces + drawn, names + cell;
      }
      SheetTurns(g, faces, names, y);
    }
    faces, names := AddGridSkirtFaces(g, faces, names);
    MeshIsSolid(g, vertices, faces, names);
  }

  // The panel draws the same triangles, the lower sheet of each cell first.
  method AddBowedPanel(nx: nat, nz: nat) returns (vertices: seq<Point>, faces: seq<Face>)
    requires nx >= 1 && nz >= 1
    ensures IsSolid(Grid(nx, nz), vertices, faces)
  {
    var g := Grid(nx, nz);
    vertices := AddVertices(g);
    faces := [];
    ghost var names: seq<Name> := [];
    NothingDrawn(g);
    hide Sheeted, Shape, IsMesh, AreVertices, IsSolid, Index;
    for z := 0 to nz
      invariant Sheeted(g, faces, names, 0, z)
    {
      for x := 0 to nx
        invariant Sheeted(g, faces, names, x, z)
      {
        ghost var cell := [Bottom1(x, z), Bottom2(x, z), Top1(x, z), Top2(x, z)];
        SheetGrows(g, faces, names, x, z, cell);
        CellShapes(g, x, z);
        var drawn := [Face(Index(g, x, z, false), Index(g, x + 1, z + 1, false), Index(g, x + 1, z, false)),
                      Face(Index(g, x, z, false), Index(g, x, z + 1, false), Index(g, x + 1, z + 1, false)),
                      Face(Index(g, x, z, true), Index(g, x + 1, z, true), Index(g, x + 1, z + 1, true)),
                      Face(Index(g, x, z, true), Index(g, x + 1, z + 1, true), Index(g, x, z + 1, true))];
        assert drawn == Drawn(g, cell);
        faces, names := faces + drawn, names + cell;
      }
      SheetTurns(g, faces, names, z);
    }
    faces, names := AddGridSkirtFaces(g, faces, names);
    MeshIsSolid(g, vertices, faces, names);
  }

  // The skirt -------------------------------------------------------------------

  ghost predicate Skirted(g: Grid, faces: seq<Face>, names: seq<Name>, x: nat, y: nat) {
    && Draws(faces, names, ShapeOf(g)) && |faces| == 4 * (g.ny * g.nx + x + y)
    && forall name :: name in names <==>
      if OfSheets(name) then IsName(g, name) else if AlongX(name) then name.x < x else name.y < y
  }

  lemma SkirtBegins(g: Grid, faces: seq<Face>, names: seq<Name>)
    requires Sheeted(g, faces, names, 0, g.ny)
    ensures Skirted(g, faces, names, 0, 0)
  {
    hide Draws, Shape;
  }

  lemma SkirtGrowsX(g: Grid, faces: seq<Face>, names: seq<Name>, x: nat)
    requires Skirted(g, faces, names, x, 0)
    ensures var step := [South1(x), South2(x), North1(x), North2(x)];
            Skirted(g, faces + Drawn(g, step), names + step, x + 1, 0)
  {
    hide Shape;
    var step := [South1(x), South2(x), North1(x), North2(x)];
    DrawMore(g, faces, names, step);
    hide Draws;
    forall name ensures name in step <==> AlongX(name) && name.x == x {
    }
  }

  lemma SkirtGrowsY(g: Grid, faces: seq<Face>, names: seq<Name>, y: nat)
    requires Skirted(g, faces, names, g.nx, y)
    ensures var step := [West1(y), West2(y), East1(y), East2(y)];
            Skirted(g, faces + Drawn(g, step), names + step, g.nx, y + 1)
  {
    hide Shape;
    var step := [West1(y), West2(y), East1(y), East2(y)];
    DrawMore(g, faces, names, step);
    hide Draws;
    forall name ensures name in step <==> !OfSheets(name) && !AlongX(name) && name.y == y {
    }
  }

  function StepAlongX(g: Grid, x: nat): seq<Face> {
    [Face(Index(g, x, 0, false), Index(g, x + 1, 0, false), Index(g, x + 1, 0, true)),
     Face(Index(g, x, 0, false), Index(g, x + 1, 0, true), Index(g, x, 0, true)),
     Face(Index(g, x, g.ny, false), Index(g, x, g.ny, true), Index(g, x + 1, g.ny, true)),
     Face(Index(g, x, g.ny, false), Index(g, x + 1, g.ny, true), Index(g, x + 1, g.ny, false))]
  }

  function StepAlongY(g: Grid, y: nat): seq<Face> {
    [Face(Index(g, 0, y, false), Index(g, 0, y, true), Index(g, 0, y + 1, true)),
     Face(Index(g, 0, y, false), Index(g, 0, y + 1, true), Index(g, 0, y + 1, false)),
     Face(Index(g, g.nx, y, false), Index(g, g.nx, y + 1, false), Index(g, g.nx, y + 1, true)),
     Face(Index(g, g.nx, y, false), Index(g, g.nx, y + 1, true), Index(g, g.nx, y, true))]
  }

  lemma SkirtShapes(g: Grid, i: nat)
    ensures StepAlongX(g, i) == Drawn(g, [South1(i), South2(i), North1(i), North2(i)])
    ensures StepAlongY(g, i) == Drawn(g, [West1(i), West2(i), East1(i), East2(i)])
  {
    hide Index;
  }

  method AddGridSkirtFaces(g: Grid, faces0: seq<Face>, ghost names0: seq<Name>)
    returns (faces: seq<Face>, ghost names: seq<Name>)
    requires IsGrid(g) && Sheeted(g, faces0, names0, 0, g.ny)
    ensures IsMesh(g, faces, names) && |faces| == 4 * (g.ny * g.nx + g.nx + g.ny)
  {
    faces, names := faces0, names0;
    SkirtBegins(g, faces, names);
    hide Skirted, Sheeted, Drawn, StepAlongX, StepAlongY, IsMesh;
    for x := 0 to g.nx
      invariant Skirted(g, faces, names, x, 0)
    {
      SkirtGrowsX(g, faces, names, x);
      SkirtShapes(g, x);
      faces, names := faces + StepAlongX(g, x), names + [South1(x), South2(x), North1(x), North2(x)];
    }
    for y := 0 to g.ny
      invariant Skirted(g, faces, names, g.nx, y)
    {
      SkirtGrowsY(g, faces, names, y);
      SkirtShapes(g, y);
      faces, names := faces + StepAlongY(g, y), names + [West1(y), West2(y), East1(y), East2(y)];
    }
    SkirtEnds(g, faces, names);
  }

  lemma SkirtEnds(g: Grid, faces: seq<Face>, names: seq<Name>)
    requires Skirted(g, faces, names, g.nx, g.ny)
    ensures IsMesh(g, faces, names) && |faces| == 4 * (g.ny * g.nx + g.nx + g.ny)
  {
    hide Draws, Shape;
  }

  // The counts ------------------------------------------------------------------

  lemma MeshIsSolid(g: Grid, vertices: seq<Point>, faces: seq<Face>, names: seq<Name>)
    requires IsGrid(g) && AreVertices(g, vertices) && IsMesh(g, faces, names)
    requires |faces| == 4 * (g.ny * g.nx + g.nx + g.ny)
    ensures IsSolid(g, vertices, faces)
  {
    MeshIsClosed(g, faces, names);
    EdgesAreHalfTheSides(faces);
    CountsBalance(g, |Edges(faces)|, |faces|);
    MeshTurnsUp(g, faces, names);
    hide Edges, ClosedOriented, Sides, StepsDown, RankedAround, Rank, Hub, Draws, Shape;
    forall e | e in Sides(faces) ensures e.from < |vertices| {
      SideInRange(g, faces, names, e);
    }
    forall v: nat | v < |vertices| ensures IsUsed(faces, v) {
      var e := SideFrom(g, faces, names, v);
    }
    forall v: nat | 0 < v < |vertices| ensures StepsDown(faces, v) {
      PointStepsDown(g, faces, names, v);
    }
    RankedIsSurface(faces, names, ShapeOf(g), Rank(g), Hub(g), |vertices|);
  }

  lemma CountsBalance(g: Grid, edges: nat, faces: nat)
    requires 2 * edges == 3 * faces && faces == 4 * (g.ny * g.nx + g.nx + g.ny)
    ensures (g.nx + 1) * (g.ny + 1) * 2 - edges + faces == 2
  {
    assert (g.nx + 1) * (g.ny + 1) == g.ny * g.nx + g.nx + g.ny + 1;
  }

  lemma PointInRange(g: Grid, p: Point)
    requires IsPoint(g, p)
    ensures At(g, p) < (g.nx + 1) * (g.ny + 1) * 2
  {
    RowsGrow(p.y + 1, g.ny + 1, g.nx + 1);
    assert (p.y + 1) * (g.nx + 1) == p.y * (g.nx + 1) + g.nx + 1;
  }

  lemma SideInRange(g: Grid, faces: seq<Face>, names: seq<Name>, e: Side)
    requires IsGrid(g) && IsMesh(g, faces, names) && e in Sides(faces)
    ensures e.from < (g.nx + 1) * (g.ny + 1) * 2
  {
    assert |names| == |faces|;
    hide Draws, Sides, Shape, SideOf, At, Corner;
    var i: nat :| i < |Sides(faces)| && Sides(faces)[i] == e;
    SideAt(faces, names, ShapeOf(g), i);
    SideCorners(g, names[i / 3], i % 3);
    CornersArePoints(g, names[i / 3], i % 3);
    PointInRange(g, Corner(g, names[i / 3], i % 3));
  }

  // Some triangle that has the point for a corner.
  ghost function SomeName(g: Grid, p: Point): (Name, nat) {
    if p.y < g.ny then
      if p.x < g.nx then (if p.upper then (Top1(p.x, p.y), 0) else (Bottom1(p.x, p.y), 0))
      else if p.upper then (East2(p.y), 2) else (East1(p.y), 0)
    else if p.x < g.nx then (if p.upper then (North1(p.x), 1) else (North1(p.x), 0))
    else if p.x > 0 && p.upper then (North1(p.x - 1), 2)
    else if p.x > 0 then (North2(p.x - 1), 2)
    else (North1(0), 0)
  }

  lemma NamedSide(g: Grid, faces: seq<Face>, names: seq<Name>, name: Name, k: nat)
    requires IsGrid(g) && IsMesh(g, faces, names) && IsName(g, name) && k < 3
    ensures Side(At(g, Corner(g, name, k)), At(g, Corner(g, name, Next(k)))) in Sides(faces)
  {
    SideCorners(g, name, k);
    hide Shape, SideOf, Corner, At, Sides;
    assert name in names;
    var l: nat :| l < |names| && names[l] == name;
    SideOfSomeFace(faces, l, k);
    assert Sides(faces)[3 * l + k] in Sides(faces);
  }

  lemma SideFrom(g: Grid, faces: seq<Face>, names: seq<Name>, v: nat) returns (e: Side)
    requires IsGrid(g) && IsMesh(g, faces, names) && v < (g.nx + 1) * (g.ny + 1) * 2
    ensures e in Sides(faces) && e.from == v
  {
    var p := PointAt(g, v);
    PointOf(g, v);
    var name, k := SomeName(g, p).0, SomeName(g, p).1;
    assert IsName(g, name) && k < 3 && Corner(g, name, k) == p;
    NamedSide(g, faces, names, name, k);
    e := Side(v, At(g, Corner(g, name, Next(k))));
  }

  // A point of lesser number next to a point: west of it, south of it, or below it.
  ghost function PointBefore(p: Point): Point {
    if p.x > 0 then Point(p.x - 1, p.y, p.upper)
    else if p.y > 0 then Point(0, p.y - 1, p.upper)
    else Point(0, 0, false)
  }

  // A triangle with a side between the two.
  ghost function NameBefore(g: Grid, p: Point): (Name, nat) {
    if p.x > 0 then
      if p.upper then (if p.y < g.ny then (Top1(p.x - 1, p.y), 0) else (North1(p.x - 1), 1))
      else if p.y < g.ny then (Bottom1(p.x - 1, p.y), 2)
      else (North2(p.x - 1), 2)
    else if p.y > 0 then (if p.upper then (Top2(0, p.y - 1), 2) else (Bottom2(0, p.y - 1), 0))
    else (West1(0), 0)
  }

  lemma SideBefore(g: Grid, p: Point)
    requires IsGrid(g) && IsPoint(g, p) && p != Point(0, 0, false)
    ensures var (name, k) := NameBefore(g, p);
      var a, b := Corner(g, name, k), Corner(g, name, Next(k));
      IsName(g, name) && k < 3 && ((a == p && b == PointBefore(p)) || (a == PointBefore(p) && b == p))
  {
  }

  lemma BeforeIsLess(g: Grid, p: Point)
    requires p != Point(0, 0, false)
    ensures At(g, PointBefore(p)) < At(g, p)
  {
    if p.x == 0 && p.y > 0 {
      assert p.y * (g.nx + 1) == (p.y - 1) * (g.nx + 1) + g.nx + 1;
    }
  }

  lemma PointStepsDown(g: Grid, faces: seq<Face>, names: seq<Name>, v: nat)
    requires IsGrid(g) && IsMesh(g, faces, names) && ClosedOriented(faces) && 0 < v < (g.nx + 1) * (g.ny + 1) * 2
    ensures StepsDown(faces, v)
  {
    var p := PointAt(g, v);
    PointOf(g, v);
    assert At(g, Point(0, 0, false)) == 0;
    SideBefore(g, p);
    BeforeIsLess(g, p);
    var (name, k) := NameBefore(g, p);
    hide Sides, Corner, NameBefore, PointBefore, At, PointAt, IsMesh, IsName, ClosedOriented;
    NamedSide(g, faces, names, name, k);
    StepsDownTo(faces, v, At(g, PointBefore(p)));
  }

  lemma PointOf(g: Grid, v: nat)
    requires v < (g.nx + 1) * (g.ny + 1) * 2
    ensures IsPoint(g, PointAt(g, v)) && At(g, PointAt(g, v)) == v
  {
    var cell := v / 2;
    assert cell == cell / (g.nx + 1) * (g.nx + 1) + cell % (g.nx + 1);
    if cell / (g.nx + 1) > g.ny {
      RowsGrow(g.ny + 1, cell / (g.nx + 1), g.nx + 1);
    }
  }
}
