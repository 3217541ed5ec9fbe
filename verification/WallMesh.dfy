// The mesh of a wall that is cut into cells: each kept cell adds its six quads, and
// quads that two kept cells share cancel each other.
module WallMesh {

  // A cut along the wall. The end of one segment is the start of the next one.
  datatype Station = Station(segment: nat, k: nat)

  datatype Vertex = Vertex(station: Station, side: bool, z: nat)

  datatype Quad = Quad(a: Vertex, b: Vertex, c: Vertex, d: Vertex)

  // cells[s] cells along segment s, and levels cells one above the other.
  datatype Wall = Wall(cells: seq<nat>, levels: nat)

  datatype Cell = Cell(at: Station, q: nat)

  datatype Slot = Bottom | Top | Start | Right | End | Left

  datatype CellFace = CellFace(cell: Cell, slot: Slot)

  ghost predicate IsWall(w: Wall) {
    forall s :: 0 <= s < |w.cells| ==> w.cells[s] >= 1
  }

  ghost predicate IsCell(w: Wall, c: Cell) {
    c.at.segment < |w.cells| && c.at.k < w.cells[c.at.segment] && c.q < w.levels
  }

  // The cut after the k-th one of a segment; the last one is the joint.
  function StationOf(w: Wall, segment: nat, k: nat): Station {
    if segment < |w.cells| && k == w.cells[segment] then Station(segment + 1, 0) else Station(segment, k)
  }

  function Next(w: Wall, s: Station): Station {
    StationOf(w, s.segment, s.k + 1)
  }

  // The quads of a cell, from the corners that the builder numbers 0 to 7.
  function Corner(w: Wall, c: Cell, i: nat): Vertex {
    Vertex(if i == 0 || i == 1 || i == 4 || i == 5 then c.at else Next(w, c.at),
           i == 1 || i == 2 || i == 5 || i == 6,
           if i < 4 then c.q else c.q + 1)
  }

  // cuboid_faces, each face reversed
  function FaceOf(w: Wall, f: CellFace): Quad {
    var c := f.cell;
    match f.slot
    case Bottom => Quad(Corner(w, c, 3), Corner(w, c, 2), Corner(w, c, 1), Corner(w, c, 0))
    case Top => Quad(Corner(w, c, 5), Corner(w, c, 6), Corner(w, c, 7), Corner(w, c, 4))
    case Start => Quad(Corner(w, c, 1), Corner(w, c, 5), Corner(w, c, 4), Corner(w, c, 0))
    case Right => Quad(Corner(w, c, 2), Corner(w, c, 6), Corner(w, c, 5), Corner(w, c, 1))
    case End => Quad(Corner(w, c, 3), Corner(w, c, 7), Corner(w, c, 6), Corner(w, c, 2))
    case Left => Quad(Corner(w, c, 0), Corner(w, c, 4), Corner(w, c, 7), Corner(w, c, 3))
  }

  function KeyOf(f: Quad): set<Vertex> {
    {f.a, f.b, f.c, f.d}
  }

  // Two faces lie on each other: a cell's top and the bottom of the cell above it, its
  // end and the start of the cell after it, also across a joint.
  ghost predicate Facing(w: Wall, f: CellFace, g: CellFace) {
    || (f.slot.Top? && g.slot.Bottom? && g.cell == Cell(f.cell.at, f.cell.q + 1))
    || (f.slot.End? && g.slot.Start? && g.cell == Cell(Next(w, f.cell.at), f.cell.q))
  }

  ghost predicate Shared(w: Wall, f: CellFace, g: CellFace) {
    Facing(w, f, g) || Facing(w, g, f)
  }

  // Keys ------------------------------------------------------------------------

  lemma NextIsAfter(w: Wall, s: Station, t: Station)
    requires IsWall(w) && s.segment < |w.cells| && s.k < w.cells[s.segment] && t.segment < |w.cells|
    requires t.k < w.cells[t.segment]
    ensures Next(w, s) != s && (Next(w, s) == Next(w, t) ==> s == t) && !(Next(w, s) == t && Next(w, t) == s)
  {
  }

  ghost function Zs(key: set<Vertex>): set<nat> {
    set v | v in key :: v.z
  }

  ghost function Stations(key: set<Vertex>): set<Station> {
    set v | v in key :: v.station
  }

  ghost function SidesOf(key: set<Vertex>): set<bool> {
    set v | v in key :: v.side
  }

  // Where the quad of a face lies.
  lemma KeyLies(w: Wall, f: CellFace)
    ensures var key, c := KeyOf(FaceOf(w, f)), f.cell;
      && Zs(key) == (if f.slot.Bottom? then {c.q} else if f.slot.Top? then {c.q + 1} else {c.q, c.q + 1})
      && Stations(key) == (if f.slot.Start? then {c.at} else if f.slot.End? then {Next(w, c.at)}
        else {c.at, Next(w, c.at)})
      && SidesOf(key) == (if f.slot.Right? then {true} else if f.slot.Left? then {false} else {true, false})
  {
    var face := FaceOf(w, f);
    var key := KeyOf(face);
    hide Corner, FaceOf, KeyOf;
    KeyMembers(face);
    Corners(w, f);
  }

  lemma KeyMembers(f: Quad)
    ensures Zs(KeyOf(f)) == {f.a.z, f.b.z, f.c.z, f.d.z}
    ensures Stations(KeyOf(f)) == {f.a.station, f.b.station, f.c.station, f.d.station}
    ensures SidesOf(KeyOf(f)) == {f.a.side, f.b.side, f.c.side, f.d.side}
  {
    var key := KeyOf(f);
    assert f.a in key && f.b in key && f.c in key && f.d in key;
  }

  lemma Corners(w: Wall, f: CellFace)
    ensures var q, c := FaceOf(w, f), f.cell;
      && {q.a.z, q.b.z, q.c.z, q.d.z} == (if f.slot.Bottom? then {c.q} else if f.slot.Top? then {c.q + 1}
        else {c.q, c.q + 1})
      && {q.a.station, q.b.station, q.c.station, q.d.station}
         == (if f.slot.Start? then {c.at} else if f.slot.End? then {Next(w, c.at)} else {c.at, Next(w, c.at)})
      && {q.a.side, q.b.side, q.c.side, q.d.side} == (if f.slot.Right? then {true} else if f.slot.Left? then {false}
        else {true, false})
  {
    hide StationOf;
  }

  lemma SharedHaveOneKey(w: Wall, f: CellFace, g: CellFace)
    requires Facing(w, f, g)
    ensures KeyOf(FaceOf(w, f)) == KeyOf(FaceOf(w, g))
  {
    hide StationOf;
  }

  lemma OneKeyIsShared(w: Wall, f: CellFace, g: CellFace)
    requires IsWall(w) && IsCell(w, f.cell) && IsCell(w, g.cell) && f != g
    requires KeyOf(FaceOf(w, f)) == KeyOf(FaceOf(w, g))
    ensures Shared(w, f, g)
  {
    hide KeyOf, FaceOf, Zs, Stations, SidesOf, Next;
    KeyLies(w, f);
    KeyLies(w, g);
    NextIsAfter(w, f.cell.at, g.cell.at);
    NextIsAfter(w, g.cell.at, f.cell.at);
    assert f.cell.q in Zs(KeyOf(FaceOf(w, f))) || f.cell.q + 1 in Zs(KeyOf(FaceOf(w, f)));
  }

  // Two different faces of cells have the same quad exactly when they lie on each other.
  lemma SameKey(w: Wall, f: CellFace, g: CellFace)
    requires IsWall(w) && IsCell(w, f.cell) && IsCell(w, g.cell) && f != g
    ensures KeyOf(FaceOf(w, f)) == KeyOf(FaceOf(w, g)) <==> Shared(w, f, g)
  {
    hide FaceOf, KeyOf;
    if KeyOf(FaceOf(w, f)) == KeyOf(FaceOf(w, g)) {
      OneKeyIsShared(w, f, g);
    }
    if Facing(w, f, g) {
      SharedHaveOneKey(w, f, g);
    }
    if Facing(w, g, f) {
      SharedHaveOneKey(w, g, f);
    }
  }

  // Running along edges ---------------------------------------------------------

  ghost function Step(a: Vertex, b: Vertex, u: Vertex, v: Vertex): nat {
    if a == u && b == v then 1 else 0
  }

  // How often a face runs from u to v.
  ghost function RunsOf(f: Quad, u: Vertex, v: Vertex): nat {
    Step(f.a, f.b, u, v) + Step(f.b, f.c, u, v) + Step(f.c, f.d, u, v) + Step(f.d, f.a, u, v)
  }

  ghost function Runs(faces: seq<Quad>, u: Vertex, v: Vertex): nat {
    if faces == [] then 0 else Runs(faces[..|faces| - 1], u, v) + RunsOf(faces[|faces| - 1], u, v)
  }

  // The faces in which v comes next after u.
  ghost function Passing(faces: seq<Quad>, u: Vertex, v: Vertex): set<nat> {
    set i: nat | i < |faces| && Passes(faces[i], u, v)
  }

  ghost predicate Passes(f: Quad, u: Vertex, v: Vertex) {
    (f.a == u && f.b == v) || (f.b == u && f.c == v) || (f.c == u && f.d == v) || (f.d == u && f.a == v)
  }

  ghost predicate IsProper(f: Quad) {
    f.a != f.b && f.a != f.c && f.a != f.d && f.b != f.c && f.b != f.d && f.c != f.d
  }

  lemma FacesAreProper(w: Wall, f: CellFace)
    ensures IsProper(FaceOf(w, f))
  {
    assert Next(w, f.cell.at) != f.cell.at;
  }

  lemma {:induction false} RunsCountFaces(faces: seq<Quad>, u: Vertex, v: Vertex)
    requires forall i :: 0 <= i < |faces| ==> IsProper(faces[i])
    ensures Runs(faces, u, v) == |Passing(faces, u, v)|
  {
    if faces == [] {
      assert Passing(faces, u, v) == {};
    } else {
      var n := |faces| - 1;
      RunsCountFaces(faces[..n], u, v);
      assert Passing(faces, u, v) == Passing(faces[..n], u, v) + if Passes(faces[n], u, v) then {n} else {};
      assert RunsOf(faces[n], u, v) == if Passes(faces[n], u, v) then 1 else 0;
      hide RunsOf, Passes;
    }
  }

  // Faces that lie on each other run around in opposite directions.
  lemma FacingRunsBack(w: Wall, f: CellFace, g: CellFace, u: Vertex, v: Vertex)
    requires Facing(w, f, g)
    ensures RunsOf(FaceOf(w, f), u, v) == RunsOf(FaceOf(w, g), v, u)
  {
    hide StationOf;
  }

  lemma SharedRunsBack(w: Wall, f: CellFace, g: CellFace, u: Vertex, v: Vertex)
    requires Shared(w, f, g)
    ensures RunsOf(FaceOf(w, f), u, v) == RunsOf(FaceOf(w, g), v, u)
  {
    hide FaceOf, RunsOf;
    if Facing(w, f, g) {
      FacingRunsBack(w, f, g, u, v);
    } else {
      FacingRunsBack(w, g, f, v, u);
    }
  }

  ghost function Net(w: Wall, added: seq<CellFace>, u: Vertex, v: Vertex): int {
    if added == [] then 0
    else
      var f := FaceOf(w, added[|added| - 1]);
      Net(w, added[..|added| - 1], u, v) + RunsOf(f, u, v) - RunsOf(f, v, u)
  }

  ghost function FacesOfCell(c: Cell): seq<CellFace> {
    [CellFace(c, Bottom), CellFace(c, Top), CellFace(c, Start), CellFace(c, Right), CellFace(c, End), CellFace(c, Left)]
  }

  lemma StepBack(a: Vertex, b: Vertex, u: Vertex, v: Vertex)
    ensures Step(a, b, v, u) == Step(b, a, u, v)
  {
  }

  // Around a whole cell every edge is run along once in each direction.
  lemma CellRunsEvenly(w: Wall, c: Cell, u: Vertex, v: Vertex)
    ensures RunsOf(FaceOf(w, CellFace(c, Bottom)), u, v) + RunsOf(FaceOf(w, CellFace(c, Top)), u, v)
          + RunsOf(FaceOf(w, CellFace(c, Start)), u, v) + RunsOf(FaceOf(w, CellFace(c, Right)), u, v)
          + RunsOf(FaceOf(w, CellFace(c, End)), u, v) + RunsOf(FaceOf(w, CellFace(c, Left)), u, v)
         == RunsOf(FaceOf(w, CellFace(c, Bottom)), v, u) + RunsOf(FaceOf(w, CellFace(c, Top)), v, u)
          + RunsOf(FaceOf(w, CellFace(c, Start)), v, u) + RunsOf(FaceOf(w, CellFace(c, Right)), v, u)
          + RunsOf(FaceOf(w, CellFace(c, End)), v, u) + RunsOf(FaceOf(w, CellFace(c, Left)), v, u)
  {
    hide Corner, Step;
    forall i: nat, j: nat
      ensures Step(Corner(w, c, i), Corner(w, c, j), v, u) == Step(Corner(w, c, j), Corner(w, c, i), u, v)
    {
      StepBack(Corner(w, c, i), Corner(w, c, j), u, v);
    }
  }

  lemma NetOfCell(w: Wall, added: seq<CellFace>, c: Cell, u: Vertex, v: Vertex)
    ensures Net(w, added + FacesOfCell(c), u, v) == Net(w, added, u, v)
  {
    CellRunsEvenly(w, c, u, v);
    hide FaceOf, RunsOf, Net;
    var one := added + [CellFace(c, Bottom)];
    var two := one + [CellFace(c, Top)];
    var three := two + [CellFace(c, Start)];
    var four := three + [CellFace(c, Right)];
    var five := four + [CellFace(c, End)];
    NetOfOne(w, added, CellFace(c, Bottom), u, v);
    NetOfOne(w, one, CellFace(c, Top), u, v);
    NetOfOne(w, two, CellFace(c, Start), u, v);
    NetOfOne(w, three, CellFace(c, Right), u, v);
    NetOfOne(w, four, CellFace(c, End), u, v);
    NetOfOne(w, five, CellFace(c, Left), u, v);
    assert added + FacesOfCell(c) == five + [CellFace(c, Left)];
  }

  lemma NetOfOne(w: Wall, added: seq<CellFace>, f: CellFace, u: Vertex, v: Vertex)
    ensures Net(w, added + [f], u, v) == Net(w, added, u, v) + RunsOf(FaceOf(w, f), u, v) - RunsOf(FaceOf(w, f), v, u)
  {
    assert (added + [f])[..|added|] == added;
  }

  // The table of faces ----------------------------------------------------------

  // faces_by_key: the retained faces in the order in which they were put in.
  predicate HasKey(faces: seq<Quad>, key: set<Vertex>) {
    exists i :: 0 <= i < |faces| && KeyOf(faces[i]) == key
  }

  function Drop(faces: seq<Quad>, key: set<Vertex>): seq<Quad> {
    if faces == [] then []
    else if KeyOf(faces[|faces| - 1]) == key then faces[..|faces| - 1]
    else Drop(faces[..|faces| - 1], key) + [faces[|faces| - 1]]
  }

  ghost predicate KeysDiffer(faces: seq<Quad>) {
    forall i, j :: 0 <= i < j < |faces| ==> KeyOf(faces[i]) != KeyOf(faces[j])
  }

  lemma {:induction false} Dropped(faces: seq<Quad>, i: nat)
    requires KeysDiffer(faces) && i < |faces|
    ensures Drop(faces, KeyOf(faces[i])) == faces[..i] + faces[i + 1..]
  {
    var n := |faces| - 1;
    if i < n {
      Dropped(faces[..n], i);
    }
  }

  lemma {:induction false} RunsJoined(a: seq<Quad>, b: seq<Quad>, u: Vertex, v: Vertex)
    ensures Runs(a + b, u, v) == Runs(a, u, v) + Runs(b, u, v)
  {
    if b == [] {
      assert a + b == a;
    } else {
      var n := |b| - 1;
      assert (a + b)[..|a + b| - 1] == a + b[..n];
      RunsJoined(a, b[..n], u, v);
    }
  }

  lemma RunsWithout(faces: seq<Quad>, i: nat, u: Vertex, v: Vertex)
    requires i < |faces|
    ensures Runs(faces[..i] + faces[i + 1..], u, v) == Runs(faces, u, v) - RunsOf(faces[i], u, v)
  {
    assert faces == faces[..i] + ([faces[i]] + faces[i + 1..]);
    RunsJoined(faces[..i], [faces[i]] + faces[i + 1..], u, v);
    RunsJoined([faces[i]], faces[i + 1..], u, v);
    RunsJoined(faces[..i], faces[i + 1..], u, v);
    assert Runs([faces[i]], u, v) == RunsOf(faces[i], u, v);
  }

  // Some face of those added lies on f.
  ghost predicate Covered(w: Wall, added: seq<CellFace>, f: CellFace) {
    exists g :: g in added && Shared(w, f, g)
  }

  ghost predicate IsFaceOf(w: Wall, added: seq<CellFace>, q: Quad) {
    exists f :: f in added && q == FaceOf(w, f)
  }

  // What is retained of the faces added so far: each that lies on no other of them.
  ghost predicate Retains(w: Wall, faces: seq<Quad>, added: seq<CellFace>) {
    && KeysDiffer(faces) && (forall f :: f in added ==> IsCell(w, f.cell))
    && (forall i :: 0 <= i < |faces| ==> IsFaceOf(w, added, faces[i]))
    && (forall f :: f in added ==> (HasKey(faces, KeyOf(FaceOf(w, f))) <==> !Covered(w, added, f)))
  }

  ghost predicate Balanced(w: Wall, faces: seq<Quad>, added: seq<CellFace>) {
    forall u, v :: Runs(faces, u, v) - Runs(faces, v, u) == Net(w, added, u, v)
  }

  lemma FreshIsAlone(w: Wall, faces: seq<Quad>, added: seq<CellFace>, f: CellFace, g: CellFace)
    requires IsWall(w) && Retains(w, faces, added) && IsCell(w, f.cell) && f !in added && g in added
    requires !HasKey(faces, KeyOf(FaceOf(w, f)))
    ensures !Shared(w, f, g) && !Shared(w, g, f)
  {
    hide FaceOf, KeyOf, Shared;
    SharedBothWays(w, f, g);
    if Shared(w, f, g) {
      SameKey(w, f, g);
      var h :| h in added && Shared(w, g, h);
      OnlyOneShared(w, g, f, h);
    }
  }

  lemma AddedFresh(w: Wall, faces: seq<Quad>, added: seq<CellFace>, f: CellFace)
    requires IsWall(w) && Retains(w, faces, added) && IsCell(w, f.cell) && f !in added
    requires !HasKey(faces, KeyOf(FaceOf(w, f)))
    ensures Retains(w, faces + [FaceOf(w, f)], added + [f])
  {
    var face := FaceOf(w, f);
    var longer, more := faces + [face], added + [f];
    hide FaceOf, KeyOf, Shared;
    assert longer[|faces|] == face;
    assert forall i :: 0 <= i < |faces| ==> longer[i] == faces[i];
    assert HasKey(longer, KeyOf(face));
    forall g | g in added ensures !Shared(w, f, g) && !Shared(w, g, f) {
      FreshIsAlone(w, faces, added, f, g);
    }
    NoSelf(w, f);
    forall g | g in more ensures HasKey(longer, KeyOf(FaceOf(w, g))) <==> !Covered(w, more, g) {
      if g in added {
        assert Covered(w, more, g) <==> Covered(w, added, g);
        if KeyOf(FaceOf(w, g)) == KeyOf(face) {
          SameKey(w, f, g);
        }
      }
    }
  }

  lemma SharedBothWays(w: Wall, f: CellFace, g: CellFace)
    ensures Shared(w, f, g) <==> Shared(w, g, f)
  {
  }

  lemma NoSelf(w: Wall, f: CellFace)
    ensures !Shared(w, f, f)
  {
  }

  lemma OnlyOneShared(w: Wall, f: CellFace, g: CellFace, h: CellFace)
    requires IsWall(w) && IsCell(w, f.cell) && IsCell(w, g.cell) && IsCell(w, h.cell) && Shared(w, f, g)
    requires Shared(w, f, h)
    ensures g == h
  {
    NextIsAfter(w, g.cell.at, h.cell.at);
  }

  lemma AddedAgain(w: Wall, faces: seq<Quad>, added: seq<CellFace>, f: CellFace) returns (i: nat, g: CellFace)
    requires IsWall(w) && Retains(w, faces, added) && IsCell(w, f.cell) && f !in added
    requires HasKey(faces, KeyOf(FaceOf(w, f)))
    ensures i < |faces| && g in added && faces[i] == FaceOf(w, g) && Shared(w, f, g)
    ensures KeyOf(faces[i]) == KeyOf(FaceOf(w, f))
  {
    i :| i < |faces| && KeyOf(faces[i]) == KeyOf(FaceOf(w, f));
    g :| g in added && faces[i] == FaceOf(w, g);
    SameKey(w, f, g);
  }

  lemma AddedCancels(w: Wall, faces: seq<Quad>, added: seq<CellFace>, f: CellFace, i: nat, g: CellFace)
    requires IsWall(w) && Retains(w, faces, added) && IsCell(w, f.cell) && f !in added
    requires i < |faces| && g in added && faces[i] == FaceOf(w, g) && Shared(w, f, g)
    requires KeyOf(faces[i]) == KeyOf(FaceOf(w, f))
    ensures Retains(w, faces[..i] + faces[i + 1..], added + [f])
  {
    var fewer, more := faces[..i] + faces[i + 1..], added + [f];
    hide FaceOf, KeyOf, Shared;
    SharedBothWays(w, f, g);
    NoSelf(w, f);
    forall h | h in more ensures HasKey(fewer, KeyOf(FaceOf(w, h))) <==> !Covered(w, more, h) {
      KeyLeft(faces, i, KeyOf(FaceOf(w, h)));
      if h == f || h == g {
        assert f in more && g in more;
      } else {
        SameKey(w, h, f);
        if Shared(w, h, f) {
          SharedBothWays(w, h, f);
          OnlyOneShared(w, f, g, h);
        }
        assert Covered(w, more, h) <==> Covered(w, added, h);
      }
    }
  }

  // Taking one face out takes its key out, and no other.
  lemma KeyLeft(faces: seq<Quad>, i: nat, key: set<Vertex>)
    requires KeysDiffer(faces) && i < |faces|
    ensures HasKey(faces[..i] + faces[i + 1..], key) <==> HasKey(faces, key) && key != KeyOf(faces[i])
    ensures KeysDiffer(faces[..i] + faces[i + 1..])
  {
    var fewer := faces[..i] + faces[i + 1..];
    hide KeyOf;
    if HasKey(faces, key) && key != KeyOf(faces[i]) {
      var j :| 0 <= j < |faces| && KeyOf(faces[j]) == key;
      assert fewer[if j < i then j else j - 1] == faces[j];
    }
  }

  method AddFace(w: Wall, face: Quad, faces: seq<Quad>, ghost f: CellFace, ghost added: seq<CellFace>)
    returns (toggled: seq<Quad>)
    requires IsWall(w) && IsCell(w, f.cell) && f !in added && face == FaceOf(w, f)
    requires Retains(w, faces, added) && Balanced(w, faces, added)
    ensures Retains(w, toggled, added + [f]) && Balanced(w, toggled, added + [f])
  {
    hide FaceOf, Retains, Shared, RunsOf, Net;
    var key := KeyOf(face);
    if HasKey(faces, key) {
      ghost var i, g := AddedAgain(w, faces, added, f);
      AddedCancels(w, faces, added, f, i, g);
      toggled := Drop(faces, key);
      RetainedDiffer(w, faces, added);
      Dropped(faces, i);
      forall u, v ensures Runs(toggled, u, v) - Runs(toggled, v, u) == Net(w, added + [f], u, v) {
        NetOfOne(w, added, f, u, v);
        RunsWithout(faces, i, u, v);
        RunsWithout(faces, i, v, u);
        SharedRunsBack(w, f, g, u, v);
        SharedRunsBack(w, f, g, v, u);
      }
    } else {
      AddedFresh(w, faces, added, f);
      toggled := faces + [face];
      forall u, v ensures Runs(toggled, u, v) - Runs(toggled, v, u) == Net(w, added + [f], u, v) {
        NetOfOne(w, added, f, u, v);
        assert toggled[..|toggled| - 1] == faces;
      }
    }
  }

  lemma RetainedDiffer(w: Wall, faces: seq<Quad>, added: seq<CellFace>)
    requires Retains(w, faces, added)
    ensures KeysDiffer(faces)
  {
  }

  // The builder -----------------------------------------------------------------

  // The builder goes along the segments, and up at each place.
  ghost predicate Before(c: Cell, segment: nat, k: nat, q: nat) {
    c.at.segment < segment || (c.at.segment == segment && (c.at.k < k || (c.at.k == k && c.q < q)))
  }

  ghost predicate AddedBefore(w: Wall, kept: Cell -> bool, added: seq<CellFace>, segment: nat, k: nat, q: nat) {
    forall f :: f in added <==> IsCell(w, f.cell) && kept(f.cell) && Before(f.cell, segment, k, q)
  }

  ghost predicate Even(w: Wall, added: seq<CellFace>) {
    forall u, v :: Net(w, added, u, v) == 0
  }

  ghost predicate IsKept(w: Wall, kept: Cell -> bool, f: CellFace) {
    IsCell(w, f.cell) && kept(f.cell)
  }

  // Another kept cell has the same face.
  ghost predicate SharedWithKept(w: Wall, kept: Cell -> bool, f: CellFace) {
    exists g :: IsKept(w, kept, g) && Shared(w, f, g)
  }

  ghost predicate IsFaceOfKept(w: Wall, kept: Cell -> bool, q: Quad) {
    exists f :: IsKept(w, kept, f) && q == FaceOf(w, f)
  }

  // What the mesh of a wall is made of: the faces of kept cells that no other kept
  // cell has, each once; and along every edge as many of them run in one direction as
  // in the other.
  ghost predicate IsHull(w: Wall, kept: Cell -> bool, faces: seq<Quad>) {
    && KeysDiffer(faces)
    && (forall i :: 0 <= i < |faces| ==> IsFaceOfKept(w, kept, faces[i]))
    && (forall f :: IsKept(w, kept, f) ==> (HasKey(faces, KeyOf(FaceOf(w, f))) <==> !SharedWithKept(w, kept, f)))
    && forall u, v :: |Passing(faces, u, v)| == |Passing(faces, v, u)|
  }

  // Where the faces lie ---------------------------------------------------------

  // A corner in space: how many cells lie before its cut along the whole wall, 1 on
  // the left and 0 on the right, and how many cells lie below it.
  datatype Point = Point(x: int, y: int, z: int)

  function CellsBefore(w: Wall, segment: nat): nat
    requires segment <= |w.cells|
  {
    if segment == 0 then 0 else CellsBefore(w, segment - 1) + w.cells[segment - 1]
  }

  function Along(w: Wall, s: Station): nat {
    if s.segment <= |w.cells| then CellsBefore(w, s.segment) + s.k else 0
  }

  ghost function PointOf(w: Wall, v: Vertex): Point {
    Point(Along(w, v.station), if v.side then 0 else 1, v.z)
  }

  ghost function Minus(p: Point, q: Point): Point {
    Point(p.x - q.x, p.y - q.y, p.z - q.z)
  }

  ghost function Cross(p: Point, q: Point): Point {
    Point(p.y * q.z - p.z * q.y, p.z * q.x - p.x * q.z, p.x * q.y - p.y * q.x)
  }

  // The corner of the cell with the least coordinates.
  ghost function LowCorner(w: Wall, c: Cell): Point {
    Point(Along(w, c.at), 0, c.q)
  }

  ghost predicate InUnit(p: Point, low: Point) {
    low.x <= p.x <= low.x + 1 && low.y <= p.y <= low.y + 1 && low.z <= p.z <= low.z + 1
  }

  // The steps of one unit along an axis.
  ghost predicate IsUnit(n: Point) {
    n in {Point(1, 0, 0), Point(-1, 0, 0), Point(0, 1, 0), Point(0, -1, 0), Point(0, 0, 1), Point(0, 0, -1)}
  }

  // The point lies on the side of the unit cube at low that faces in the direction n.
  ghost predicate OnSide(p: Point, low: Point, n: Point) {
    && InUnit(p, low)
    && (n.x == 1 ==> p.x == low.x + 1) && (n.x == -1 ==> p.x == low.x)
    && (n.y == 1 ==> p.y == low.y + 1) && (n.y == -1 ==> p.y == low.y)
    && (n.z == 1 ==> p.z == low.z + 1) && (n.z == -1 ==> p.z == low.z)
  }

  // The quad is the side of the cell that faces in the direction n, and runs around it
  // counterclockwise as seen from outside: its normal points away from the cell.
  ghost predicate IsSide(w: Wall, q: Quad, c: Cell, n: Point) {
    var p0, p1, p2, p3 := PointOf(w, q.a), PointOf(w, q.b), PointOf(w, q.c), PointOf(w, q.d);
    && OnSide(p0, LowCorner(w, c), n) && OnSide(p1, LowCorner(w, c), n)
    && OnSide(p2, LowCorner(w, c), n) && OnSide(p3, LowCorner(w, c), n)
    && Minus(p1, p0) == Minus(p2, p3) && Cross(Minus(p1, p0), Minus(p2, p1)) == n
  }

  // d is the cell next to c in the direction n.
  ghost predicate IsNextTo(w: Wall, c: Cell, d: Cell, n: Point) {
    LowCorner(w, d) == Point(Along(w, c.at) + n.x, n.y, c.q + n.z)
  }

  ghost predicate HasNeighbor(w: Wall, kept: Cell -> bool, c: Cell, n: Point) {
    exists d :: IsCell(w, d) && kept(d) && IsNextTo(w, c, d, n)
  }

  ghost predicate HasSide(w: Wall, faces: seq<Quad>, c: Cell, n: Point) {
    exists i :: 0 <= i < |faces| && IsSide(w, faces[i], c, n)
  }

  ghost predicate IsSideOfKept(w: Wall, kept: Cell -> bool, q: Quad) {
    exists c, n :: IsCell(w, c) && kept(c) && IsUnit(n) && IsSide(w, q, c, n)
  }

  // Every face is a side of a kept cell and faces outwards, and a side of a kept cell is
  // there, once, exactly when no kept cell lies next to it.
  ghost predicate FacesOutwards(w: Wall, kept: Cell -> bool, faces: seq<Quad>) {
    && (forall i :: 0 <= i < |faces| ==> IsSideOfKept(w, kept, faces[i]))
    && (forall c, n :: IsCell(w, c) && kept(c) && IsUnit(n) ==>
          (HasSide(w, faces, c, n) <==> !HasNeighbor(w, kept, c, n)))
    && forall i, j, c, n :: 0 <= i < j < |faces| && IsCell(w, c) && IsUnit(n) && IsSide(w, faces[i], c, n) ==>
      !IsSide(w, faces[j], c, n)
  }

  ghost function Direction(slot: Slot): (n: Point)
    ensures IsUnit(n)
  {
    match slot
    case Bottom => Point(0, 0, -1)
    case Top => Point(0, 0, 1)
    case Start => Point(-1, 0, 0)
    case End => Point(1, 0, 0)
    case Right => Point(0, -1, 0)
    case Left => Point(0, 1, 0)
  }

  lemma NextIsOneOn(w: Wall, s: Station)
    requires s.segment < |w.cells| && s.k < w.cells[s.segment]
    ensures Along(w, Next(w, s)) == Along(w, s) + 1
  {
  }

  lemma {:induction false} CellsBeforeGrow(w: Wall, a: nat, b: nat)
    requires a < b <= |w.cells|
    ensures CellsBefore(w, a) + w.cells[a] <= CellsBefore(w, b)
  {
    if a < b - 1 {
      CellsBeforeGrow(w, a, b - 1);
    }
  }

  // Cells are told apart by where they lie.
  lemma CellAtCorner(w: Wall, c: Cell, d: Cell)
    requires IsCell(w, c) && IsCell(w, d) && LowCorner(w, c) == LowCorner(w, d)
    ensures c == d
  {
    if c.at.segment < d.at.segment {
      CellsBeforeGrow(w, c.at.segment, d.at.segment);
    } else if d.at.segment < c.at.segment {
      CellsBeforeGrow(w, d.at.segment, c.at.segment);
    }
  }

  ghost function CubeCorner(low: Point, i: nat): Point {
    Point(low.x + if i == 0 || i == 1 || i == 4 || i == 5 then 0 else 1,
          low.y + if i == 1 || i == 2 || i == 5 || i == 6 then 0 else 1,
          low.z + if i < 4 then 0 else 1)
  }

  lemma CornerLies(w: Wall, c: Cell, i: nat)
    requires IsCell(w, c) && i < 8
    ensures PointOf(w, Corner(w, c, i)) == CubeCorner(LowCorner(w, c), i)
  {
    NextIsOneOn(w, c.at);
    hide Along, Next;
  }

  lemma FaceCorners(w: Wall, f: CellFace)
    ensures var (i, j, k, l) := Around(f.slot);
      FaceOf(w, f) == Quad(Corner(w, f.cell, i), Corner(w, f.cell, j), Corner(w, f.cell, k), Corner(w, f.cell, l))
    ensures var (i, j, k, l) := Around(f.slot); i < 8 && j < 8 && k < 8 && l < 8
  {
    hide Corner;
  }

  lemma FaceIsSide(w: Wall, f: CellFace)
    requires IsCell(w, f.cell)
    ensures IsSide(w, FaceOf(w, f), f.cell, Direction(f.slot))
  {
    var (i, j, k, l) := Around(f.slot);
    FaceCorners(w, f);
    CubeSide(LowCorner(w, f.cell), f.slot);
    hide FaceOf, PointOf, Corner, LowCorner, CubeCorner, OnSide, Minus, Cross, Direction, Around;
    CornerLies(w, f.cell, i);
    CornerLies(w, f.cell, j);
    CornerLies(w, f.cell, k);
    CornerLies(w, f.cell, l);
  }

  // The corners of a cube around each of its sides.
  ghost function Around(slot: Slot): (nat, nat, nat, nat) {
    match slot
    case Bottom => (3, 2, 1, 0)
    case Top => (5, 6, 7, 4)
    case Start => (1, 5, 4, 0)
    case Right => (2, 6, 5, 1)
    case End => (3, 7, 6, 2)
    case Left => (0, 4, 7, 3)
  }

  lemma CubeSide(low: Point, slot: Slot)
    ensures var (i, j, k, l) := Around(slot);
      var n, p0, p1 := Direction(slot), CubeCorner(low, i), CubeCorner(low, j);
      var p2, p3 := CubeCorner(low, k), CubeCorner(low, l);
      && OnSide(p0, low, n) && OnSide(p1, low, n) && OnSide(p2, low, n) && OnSide(p3, low, n)
      && Minus(p1, p0) == Minus(p2, p3) && Cross(Minus(p1, p0), Minus(p2, p1)) == n
  {
    var (i, j, k, l) := Around(slot);
    StepsOfCube(low, slot);
    StepsTurn(slot);
    CornersOnSide(low, slot);
    hide OnSide, CubeCorner, Cross, Minus, Direction, Around, StepsAround;
  }

  lemma CornersOnSide(low: Point, slot: Slot)
    ensures var (i, j, k, l) := Around(slot);
      && OnSide(CubeCorner(low, i), low, Direction(slot)) && OnSide(CubeCorner(low, j), low, Direction(slot))
      && OnSide(CubeCorner(low, k), low, Direction(slot)) && OnSide(CubeCorner(low, l), low, Direction(slot))
  {
  }

  // The first two steps around each side.
  ghost function StepsAround(slot: Slot): (Point, Point) {
    match slot
    case Bottom => (Point(0, -1, 0), Point(-1, 0, 0))
    case Top => (Point(1, 0, 0), Point(0, 1, 0))
    case Start => (Point(0, 0, 1), Point(0, 1, 0))
    case Right => (Point(0, 0, 1), Point(-1, 0, 0))
    case End => (Point(0, 0, 1), Point(0, -1, 0))
    case Left => (Point(0, 0, 1), Point(1, 0, 0))
  }

  lemma StepsTurn(slot: Slot)
    ensures Cross(StepsAround(slot).0, StepsAround(slot).1) == Direction(slot)
  {
    hide Cross;
    CrossOf(0, -1, 0, -1, 0, 0);
    CrossOf(1, 0, 0, 0, 1, 0);
    CrossOf(0, 0, 1, 0, 1, 0);
    CrossOf(0, 0, 1, -1, 0, 0);
    CrossOf(0, 0, 1, 0, -1, 0);
    CrossOf(0, 0, 1, 1, 0, 0);
  }

  lemma CrossOf(a: int, b: int, c: int, d: int, e: int, f: int)
    ensures Cross(Point(a, b, c), Point(d, e, f)) == Point(b * f - c * e, c * d - a * f, a * e - b * d)
  {
  }

  lemma StepsOfCube(low: Point, slot: Slot)
    ensures var (i, j, k, l) := Around(slot);
      var p0, p1, p2, p3 := CubeCorner(low, i), CubeCorner(low, j), CubeCorner(low, k), CubeCorner(low, l);
      && Minus(p1, p0) == StepsAround(slot).0 && Minus(p2, p1) == StepsAround(slot).1
      && Minus(p2, p3) == StepsAround(slot).0
  {
  }

  // A quad is a side of one cell only, in one direction.
  lemma SideOfOneCell(w: Wall, q: Quad, c: Cell, n: Point, d: Cell, m: Point)
    requires IsCell(w, c) && IsCell(w, d) && IsUnit(n) && IsUnit(m) && IsSide(w, q, c, n) && IsSide(w, q, d, m)
    ensures c == d && n == m
  {
    assert n == m;
    SameCube(PointOf(w, q.a), PointOf(w, q.b), PointOf(w, q.c), LowCorner(w, c), LowCorner(w, d), n);
    CellAtCorner(w, c, d);
  }

  lemma SameCube(p: Point, q: Point, r: Point, low: Point, other: Point, n: Point)
    requires IsUnit(n) && Cross(Minus(q, p), Minus(r, q)) == n
    requires OnSide(p, low, n) && OnSide(q, low, n) && OnSide(r, low, n)
    requires OnSide(p, other, n) && OnSide(q, other, n) && OnSide(r, other, n)
    ensures low == other
  {
    NotOneLine(p, q, r);
    hide Cross, Minus;
    if n.x == 0 {
      SameRange(p.x, q.x, r.x, low.x, other.x);
    }
    if n.y == 0 {
      SameRange(p.y, q.y, r.y, low.y, other.y);
    }
    if n.z == 0 {
      SameRange(p.z, q.z, r.z, low.z, other.z);
    }
  }

  // What two coordinates all three points agree in, the normal is free of.
  lemma NotOneLine(p: Point, q: Point, r: Point)
    ensures var n := Cross(Minus(q, p), Minus(r, q));
      && (p.x == q.x == r.x ==> n.y == 0 && n.z == 0)
      && (p.y == q.y == r.y ==> n.x == 0 && n.z == 0)
      && (p.z == q.z == r.z ==> n.x == 0 && n.y == 0)
  {
  }

  lemma SameRange(a: int, b: int, c: int, low: int, other: int)
    requires low <= a <= low + 1 && low <= b <= low + 1 && low <= c <= low + 1
    requires other <= a <= other + 1 && other <= b <= other + 1 && other <= c <= other + 1
    requires !(a == b == c)
    ensures low == other
  {
  }

  // Lying next to each other is what sharing a face is.
  lemma NextToIsFacing(w: Wall, f: CellFace, d: Cell)
    requires IsWall(w) && IsCell(w, f.cell) && IsCell(w, d) && IsNextTo(w, f.cell, d, Direction(f.slot))
    ensures exists g: CellFace :: g.cell == d && Shared(w, f, g)
  {
    var c := f.cell;
    match f.slot
    case Bottom =>
      CellAtCorner(w, Cell(d.at, d.q + 1), c);
      assert Shared(w, f, CellFace(d, Top));
    case Top =>
      CellAtCorner(w, Cell(c.at, c.q + 1), d);
      assert Shared(w, f, CellFace(d, Bottom));
    case Start =>
      NextCell(w, d, c);
      assert Shared(w, f, CellFace(d, End));
    case End =>
      NextCell(w, c, d);
      assert Shared(w, f, CellFace(d, Start));
    case Right =>
    case Left =>
  }

  lemma NextCell(w: Wall, c: Cell, d: Cell)
    requires IsWall(w) && IsCell(w, c) && IsCell(w, d) && Along(w, d.at) == Along(w, c.at) + 1 && c.q == d.q
    ensures d == Cell(Next(w, c.at), c.q)
  {
    NextIsOneOn(w, c.at);
    var next := Cell(Next(w, c.at), c.q);
    if c.at.k + 1 == w.cells[c.at.segment] && c.at.segment + 1 == |w.cells| {
      CellsBeforeGrow(w, d.at.segment, |w.cells|);
    } else {
      CellAtCorner(w, next, d);
    }
  }

  lemma SharedIsNextTo(w: Wall, f: CellFace, g: CellFace)
    requires IsCell(w, f.cell) && IsCell(w, g.cell) && Shared(w, f, g)
    ensures IsNextTo(w, f.cell, g.cell, Direction(f.slot))
  {
    NextIsOneOn(w, f.cell.at);
    NextIsOneOn(w, g.cell.at);
    hide Along, Next;
  }

  lemma HullFacesOutwards(w: Wall, kept: Cell -> bool, faces: seq<Quad>)
    requires IsWall(w) && IsHull(w, kept, faces)
    ensures FacesOutwards(w, kept, faces)
  {
    hide FaceOf, IsSide, IsUnit, IsNextTo, Shared, KeyOf;
    forall i | 0 <= i < |faces| ensures IsSideOfKept(w, kept, faces[i]) {
      assert IsFaceOfKept(w, kept, faces[i]);
      var f :| IsKept(w, kept, f) && faces[i] == FaceOf(w, f);
      FaceIsSide(w, f);
    }
    forall c, n | IsCell(w, c) && kept(c) && IsUnit(n)
      ensures HasSide(w, faces, c, n) <==> !HasNeighbor(w, kept, c, n)
    {
      SideOrNeighbor(w, kept, faces, c, n);
    }
    forall i, j, c, n | 0 <= i < j < |faces| && IsCell(w, c) && IsUnit(n) && IsSide(w, faces[i], c, n)
      ensures !IsSide(w, faces[j], c, n)
    {
      SideOnce(w, kept, faces, i, j, c, n);
    }
  }

  lemma SideOnce(w: Wall, kept: Cell -> bool, faces: seq<Quad>, i: nat, j: nat, c: Cell, n: Point)
    requires IsHull(w, kept, faces) && i < j < |faces| && IsCell(w, c) && IsUnit(n) && IsSide(w, faces[i], c, n)
    ensures !IsSide(w, faces[j], c, n)
  {
    hide FaceOf, IsSide, IsUnit, Shared, Direction, KeyOf, IsCell;
    assert IsFaceOfKept(w, kept, faces[i]) && IsFaceOfKept(w, kept, faces[j]);
    var f :| IsKept(w, kept, f) && faces[i] == FaceOf(w, f);
    var g :| IsKept(w, kept, g) && faces[j] == FaceOf(w, g);
    FaceIsSide(w, f);
    FaceIsSide(w, g);
    SideOfOneCell(w, faces[i], c, n, f.cell, Direction(f.slot));
    if IsSide(w, faces[j], c, n) {
      SideOfOneCell(w, faces[j], c, n, g.cell, Direction(g.slot));
      SlotByDirection(f.slot, g.slot);
    }
  }

  lemma SlotOf(n: Point) returns (slot: Slot)
    requires IsUnit(n)
    ensures Direction(slot) == n
  {
    slot := if n.x == 1 then End else if n.x == -1 then Start else if n.y == 1 then Left
            else if n.y == -1 then Right else if n.z == 1 then Top else Bottom;
  }

  lemma SideOrNeighbor(w: Wall, kept: Cell -> bool, faces: seq<Quad>, c: Cell, n: Point)
    requires IsWall(w) && IsHull(w, kept, faces) && IsCell(w, c) && kept(c) && IsUnit(n)
    ensures HasSide(w, faces, c, n) <==> !HasNeighbor(w, kept, c, n)
  {
    var slot := SlotOf(n);
    var f := CellFace(c, slot);
    hide FaceOf, IsSide, IsUnit, IsNextTo, Shared, Direction, IsWall, IsCell;
    SharedExactlyWithNeighbor(w, kept, f);
    SideExactlyInHull(w, kept, faces, f);
  }

  lemma SharedExactlyWithNeighbor(w: Wall, kept: Cell -> bool, f: CellFace)
    requires IsWall(w) && IsKept(w, kept, f)
    ensures SharedWithKept(w, kept, f) <==> HasNeighbor(w, kept, f.cell, Direction(f.slot))
  {
    hide IsNextTo, Shared, Direction, IsWall, IsCell;
    if SharedWithKept(w, kept, f) {
      var g :| IsKept(w, kept, g) && Shared(w, f, g);
      SharedIsNextTo(w, f, g);
    }
    if HasNeighbor(w, kept, f.cell, Direction(f.slot)) {
      var d :| IsCell(w, d) && kept(d) && IsNextTo(w, f.cell, d, Direction(f.slot));
      NextToIsFacing(w, f, d);
      var g: CellFace :| g.cell == d && Shared(w, f, g);
      assert IsKept(w, kept, g);
    }
  }

  lemma SideExactlyInHull(w: Wall, kept: Cell -> bool, faces: seq<Quad>, f: CellFace)
    requires IsWall(w) && IsHull(w, kept, faces) && IsKept(w, kept, f)
    ensures HasSide(w, faces, f.cell, Direction(f.slot)) <==> HasKey(faces, KeyOf(FaceOf(w, f)))
  {
    hide FaceOf, IsSide, IsUnit, Shared, Direction, IsWall, KeyOf, IsCell;
    if HasSide(w, faces, f.cell, Direction(f.slot)) {
      var i :| 0 <= i < |faces| && IsSide(w, faces[i], f.cell, Direction(f.slot));
      assert IsFaceOfKept(w, kept, faces[i]);
      var g :| IsKept(w, kept, g) && faces[i] == FaceOf(w, g);
      FaceIsSide(w, g);
      SideOfOneCell(w, faces[i], f.cell, Direction(f.slot), g.cell, Direction(g.slot));
      SlotByDirection(f.slot, g.slot);
    }
    if HasKey(faces, KeyOf(FaceOf(w, f))) {
      var i :| 0 <= i < |faces| && KeyOf(faces[i]) == KeyOf(FaceOf(w, f));
      assert IsFaceOfKept(w, kept, faces[i]);
      var g :| IsKept(w, kept, g) && faces[i] == FaceOf(w, g);
      if f != g {
        SameKey(w, f, g);
      }
      FaceIsSide(w, f);
    }
  }

  lemma SlotByDirection(a: Slot, b: Slot)
    ensures Direction(a) == Direction(b) ==> a == b
  {
  }

  method AddCell(w: Wall, c: Cell, faces: seq<Quad>, ghost added: seq<CellFace>) returns (toggled: seq<Quad>)
    requires IsWall(w) && IsCell(w, c) && Retains(w, faces, added) && Balanced(w, faces, added) && Even(w, added)
    requires forall f: CellFace :: f.cell == c ==> f !in added
    ensures Retains(w, toggled, added + FacesOfCell(c)) && Balanced(w, toggled, added + FacesOfCell(c))
    ensures Even(w, added + FacesOfCell(c))
  {
    hide Retains, Balanced, FaceOf, IsWall, IsCell, KeyOf;
    toggled := faces;
    ghost var six := FacesOfCell(c);
    var slots := [Bottom, Top, Start, Right, End, Left];
    assert added + six[..0] == added;
    for i := 0 to 6
      invariant Retains(w, toggled, added + six[..i]) && Balanced(w, toggled, added + six[..i])
    {
      var f := CellFace(c, slots[i]);
      assert six[i] == f && f !in six[..i];
      assert added + six[..i + 1] == added + six[..i] + [f];
      toggled := AddFace(w, FaceOf(w, f), toggled, f, added + six[..i]);
    }
    assert six[..6] == six;
    forall u, v ensures Net(w, added + six, u, v) == 0 {
      NetOfCell(w, added, c, u, v);
    }
  }

  method BuildJoinedWallMesh(w: Wall, kept: Cell -> bool) returns (faces: seq<Quad>)
    requires IsWall(w)
    ensures IsHull(w, kept, faces) && FacesOutwards(w, kept, faces)
  {
    faces := [];
    ghost var added: seq<CellFace> := [];
    hide Retains, Balanced, Even, IsHull, Net, FaceOf, FacesOfCell, FacesOutwards;
    NothingAdded(w, kept);
    for segment := 0 to |w.cells|
      invariant Retains(w, faces, added) && Balanced(w, faces, added) && Even(w, added)
      invariant AddedBefore(w, kept, added, segment, 0, 0)
    {
      for k := 0 to w.cells[segment]
        invariant Retains(w, faces, added) && Balanced(w, faces, added) && Even(w, added)
        invariant AddedBefore(w, kept, added, segment, k, 0)
      {
        for q := 0 to w.levels
          invariant Retains(w, faces, added) && Balanced(w, faces, added) && Even(w, added)
          invariant AddedBefore(w, kept, added, segment, k, q)
        {
          var c := Cell(Station(segment, k), q);
          if kept(c) {
            faces := AddCell(w, c, faces, added);
            CellAdded(w, kept, added, segment, k, q);
            added := added + FacesOfCell(c);
          }
        }
      }
    }
    HullAtLast(w, kept, faces, added);
    HullFacesOutwards(w, kept, faces);
  }

  lemma NothingAdded(w: Wall, kept: Cell -> bool)
    ensures Retains(w, [], []) && Balanced(w, [], []) && Even(w, []) && AddedBefore(w, kept, [], 0, 0, 0)
  {
  }

  lemma CellAdded(w: Wall, kept: Cell -> bool, added: seq<CellFace>, segment: nat, k: nat, q: nat)
    requires var c := Cell(Station(segment, k), q);
      AddedBefore(w, kept, added, segment, k, q) && IsCell(w, c) && kept(c)
    ensures AddedBefore(w, kept, added + FacesOfCell(Cell(Station(segment, k), q)), segment, k, q + 1)
  {
    var c := Cell(Station(segment, k), q);
    forall f ensures f in FacesOfCell(c) <==> f.cell == c {
      if f.cell == c {
        assert f == FacesOfCell(c)[match f.slot
          case Bottom => 0
          case Top => 1
          case Start => 2
          case Right => 3
          case End => 4
          case Left => 5];
      }
    }
  }

  lemma HullAtLast(w: Wall, kept: Cell -> bool, faces: seq<Quad>, added: seq<CellFace>)
    requires Retains(w, faces, added) && Balanced(w, faces, added) && Even(w, added)
    requires AddedBefore(w, kept, added, |w.cells|, 0, 0)
    ensures IsHull(w, kept, faces)
  {
    hide FaceOf, Shared, KeyOf, Net, Runs;
    AllAdded(w, kept, added);
    forall f | IsKept(w, kept, f) ensures Covered(w, added, f) <==> SharedWithKept(w, kept, f) {
    }
    forall i | 0 <= i < |faces| ensures IsFaceOfKept(w, kept, faces[i]) {
      RetainedIsKept(w, kept, faces, added, i);
    }
    hide IsProper, Passing;
    forall i | 0 <= i < |faces| ensures IsProper(faces[i]) {
      assert IsFaceOfKept(w, kept, faces[i]);
      var f :| IsKept(w, kept, f) && faces[i] == FaceOf(w, f);
      FacesAreProper(w, f);
    }
    forall u, v ensures |Passing(faces, u, v)| == |Passing(faces, v, u)| {
      assert Runs(faces, u, v) - Runs(faces, v, u) == Net(w, added, u, v);
      RunsCountFaces(faces, u, v);
      RunsCountFaces(faces, v, u);
    }
  }

  lemma RetainedIsKept(w: Wall, kept: Cell -> bool, faces: seq<Quad>, added: seq<CellFace>, i: nat)
    requires Retains(w, faces, added) && i < |faces| && forall f :: f in added <==> IsKept(w, kept, f)
    ensures IsFaceOfKept(w, kept, faces[i])
  {
    assert IsFaceOf(w, added, faces[i]);
    var f :| f in added && faces[i] == FaceOf(w, f);
    assert IsKept(w, kept, f);
  }

  lemma AllAdded(w: Wall, kept: Cell -> bool, added: seq<CellFace>)
    requires AddedBefore(w, kept, added, |w.cells|, 0, 0)
    ensures forall f :: f in added <==> IsKept(w, kept, f)
  {
  }
}
