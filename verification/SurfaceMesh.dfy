// Closed oriented surfaces made of triangles, and what it takes to see that a list
// of triangles is one.
module SurfaceMesh {
  import opened Lists

  datatype Face = Face(a: nat, b: nat, c: nat)

  // One side of a triangle, in the direction in which the triangle runs.
  datatype Side = Side(from: nat, to: nat)

  ghost function SideOf(f: Face, s: nat): Side {
    if s == 0 then Side(f.a, f.b) else if s == 1 then Side(f.b, f.c) else Side(f.c, f.a)
  }

  // The side after the k-th around a triangle.
  ghost function Next(k: nat): nat {
    if k == 2 then 0 else k + 1
  }

  ghost function Reversed(e: Side): Side {
    Side(e.to, e.from)
  }

  ghost function Sides(faces: seq<Face>): (sides: seq<Side>)
    ensures |sides| == 3 * |faces|
  {
    if faces == [] then []
    else
      var f := faces[|faces| - 1];
      Sides(faces[..|faces| - 1]) + [SideOf(f, 0), SideOf(f, 1), SideOf(f, 2)]
  }

  // Every side occurs once, and once reversed.
  ghost predicate ClosedOriented(faces: seq<Face>) {
    && Distinct(Sides(faces))
    && forall e :: e in Sides(faces) ==> Reversed(e) in Sides(faces) && e.from != e.to
  }

  ghost predicate IsUsed(faces: seq<Face>, v: nat) {
    exists e :: e in Sides(faces) && e.from == v
  }

  // The edge of a side, whichever way it runs.
  ghost function EdgeOf(e: Side): Side {
    if e.from < e.to then e else Reversed(e)
  }

  ghost function Edges(faces: seq<Face>): set<Side> {
    set e | e in Sides(faces) :: EdgeOf(e)
  }

  // Vertices less edges plus faces.
  ghost function EulerNumber(vertices: nat, faces: seq<Face>): int {
    vertices - |Edges(faces)| + |faces|
  }

  lemma {:induction false} DistinctCount<T>(s: seq<T>)
    requires Distinct(s)
    ensures |AsSet(s)| == |s|
  {
    if s != [] {
      var n := |s| - 1;
      DistinctCount(s[..n]);
      assert s == s[..n] + [s[n]] && s[n] !in s[..n];
      assert AsSet(s) == AsSet(s[..n]) + {s[n]};
    }
  }

  lemma {:induction false} ReversedCount(sides: set<Side>)
    ensures |set e | e in sides :: Reversed(e)| == |sides|
  {
    if sides != {} {
      var e :| e in sides;
      ReversedCount(sides - {e});
      var rest := set d | d in sides - {e} :: Reversed(d);
      assert Reversed(e) !in rest;
      assert (set d | d in sides :: Reversed(d)) == rest + {Reversed(e)};
    }
  }

  // The sides that run up, one of each edge.
  ghost function Upward(sides: seq<Side>): set<Side> {
    set e | e in sides && e.from < e.to
  }

  lemma EdgesAreUpward(faces: seq<Face>)
    requires ClosedOriented(faces)
    ensures Edges(faces) == Upward(Sides(faces))
  {
    hide Sides, Distinct;
    var up := Upward(Sides(faces));
    forall e | e in Edges(faces) ensures e in up {
      var d :| d in Sides(faces) && EdgeOf(d) == e;
    }
    forall e | e in up ensures e in Edges(faces) {
      assert EdgeOf(e) == e;
    }
  }

  lemma SidesUpAndDown(faces: seq<Face>)
    requires ClosedOriented(faces)
    ensures var up := Upward(Sides(faces));
      var down := set e | e in up :: Reversed(e);
      AsSet(Sides(faces)) == up + down && up !! down
  {
    hide Sides, Distinct;
    var sides := Sides(faces);
    var up := Upward(sides);
    var down := set e | e in up :: Reversed(e);
    forall e | e in AsSet(sides) ensures e in up + down {
      if e.from > e.to {
        assert Reversed(e) in up && Reversed(Reversed(e)) == e;
      }
    }
  }

  // A closed oriented surface has three edges for every two faces.
  lemma EdgesAreHalfTheSides(faces: seq<Face>)
    requires ClosedOriented(faces)
    ensures 2 * |Edges(faces)| == 3 * |faces|
  {
    DistinctCount(Sides(faces));
    EdgesAreUpward(faces);
    SidesUpAndDown(faces);
    ReversedCount(Upward(Sides(faces)));
    hide Sides, Edges, Upward, ClosedOriented;
  }

  lemma {:induction false} SideOfSomeFace(faces: seq<Face>, k: nat, s: nat)
    requires k < |faces| && s < 3
    ensures Sides(faces)[3 * k + s] == SideOf(faces[k], s)
  {
    if k < |faces| - 1 {
      SideOfSomeFace(faces[..|faces| - 1], k, s);
    }
  }

  // Blueprints: a list of triangles whose every triangle has a name. It is enough to
  // tell, for every side and for every side reversed, which name it belongs to.
  ghost predicate Draws<N(!new)>(faces: seq<Face>, names: seq<N>, shape: N -> Face) {
    |names| == |faces| && Distinct(names) && forall k :: 0 <= k < |faces| ==> faces[k] == shape(names[k])
  }

  ghost predicate Owns<N(!new)>(names: seq<N>, shape: N -> Face, owner: Side -> (N, nat)) {
    forall n, s: nat :: n in names && s < 3 ==> owner(SideOf(shape(n), s)) == (n, s)
  }

  ghost predicate Meets<N(!new)>(names: seq<N>, shape: N -> Face, owner: Side -> (N, nat)) {
    forall n, s: nat :: n in names && s < 3 ==>
      var e := SideOf(shape(n), s);
      var o := owner(Reversed(e));
      e.from != e.to && o.0 in names && o.1 < 3 && SideOf(shape(o.0), o.1) == Reversed(e)
  }

  lemma SideAt<N(!new)>(faces: seq<Face>, names: seq<N>, shape: N -> Face, i: nat)
    requires Draws(faces, names, shape) && i < 3 * |faces|
    ensures names[i / 3] in names && Sides(faces)[i] == SideOf(shape(names[i / 3]), i % 3)
  {
    SideOfSomeFace(faces, i / 3, i % 3);
  }

  lemma SidesDiffer<N(!new)>(faces: seq<Face>, names: seq<N>, shape: N -> Face, owner: Side -> (N, nat), i: nat, j: nat)
    requires Draws(faces, names, shape) && Owns(names, shape, owner) && i < j < 3 * |faces|
    ensures Sides(faces)[i] != Sides(faces)[j]
  {
    SideAt(faces, names, shape, i);
    SideAt(faces, names, shape, j);
    hide SideOf, Sides;
    assert owner(Sides(faces)[i]) == (names[i / 3], i % 3) && owner(Sides(faces)[j]) == (names[j / 3], j % 3);
  }

  lemma SideIsMet<N(!new)>(faces: seq<Face>, names: seq<N>, shape: N -> Face, owner: Side -> (N, nat), i: nat)
    requires Draws(faces, names, shape) && Meets(names, shape, owner) && i < 3 * |faces|
    ensures var e := Sides(faces)[i]; Reversed(e) in Sides(faces) && e.from != e.to
  {
    SideAt(faces, names, shape, i);
    hide SideOf, Sides;
    var e := Sides(faces)[i];
    var o := owner(Reversed(e));
    assert e == SideOf(shape(names[i / 3]), i % 3);
    assert o.0 in names;
    var k :| 0 <= k < |names| && names[k] == o.0;
    SideOfSomeFace(faces, k, o.1);
  }

  lemma BlueprintIsClosed<N(!new)>(faces: seq<Face>, names: seq<N>, shape: N -> Face, owner: Side -> (N, nat))
    requires Draws(faces, names, shape) && Owns(names, shape, owner) && Meets(names, shape, owner)
    ensures ClosedOriented(faces)
  {
    hide Draws, Owns, Meets, Sides;
    forall i: nat, j: nat | i < j < 3 * |faces| ensures Sides(faces)[i] != Sides(faces)[j] {
      SidesDiffer(faces, names, shape, owner, i, j);
    }
    forall e | e in Sides(faces) ensures Reversed(e) in Sides(faces) && e.from != e.to {
      var i: nat :| i < |Sides(faces)| && Sides(faces)[i] == e;
      SideIsMet(faces, names, shape, owner, i);
    }
  }
}
