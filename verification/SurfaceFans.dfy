// Surfaces without pinched vertices and in one piece: around every vertex the triangles
// form one fan, and every vertex can be reached from every other along the edges.
module SurfaceFans {
  import opened SurfaceMesh

  // Around v the triangle that runs from v to w leads on from w to u.
  ghost predicate Turns(faces: seq<Face>, v: nat, w: nat, u: nat) {
    exists k: nat, s: nat :: k < |faces| && s < 3 && SideOf(faces[k], s) == Side(v, w)
      && SideOf(faces[k], Next(s)) == Side(w, u)
  }

  // Neighbors of v, each the next one around v.
  ghost predicate IsFan(faces: seq<Face>, v: nat, p: seq<nat>) {
    && p != [] && Side(v, p[0]) in Sides(faces)
    && forall i :: 0 <= i < |p| - 1 ==> Turns(faces, v, p[i], p[i + 1])
  }

  ghost predicate Fanned(faces: seq<Face>, v: nat, w: nat, x: nat) {
    exists p: seq<nat> :: IsFan(faces, v, p) && p[0] == w && p[|p| - 1] == x
  }

  ghost predicate FanFrom(faces: seq<Face>, v: nat, w: nat) {
    forall x :: Side(v, x) in Sides(faces) ==> Fanned(faces, v, w, x)
  }

  // All neighbors of v are met by turning around v from one of them.
  ghost predicate OneFan(faces: seq<Face>, v: nat) {
    exists w :: FanFrom(faces, v, w)
  }

  ghost predicate IsWalk(faces: seq<Face>, p: seq<nat>) {
    p != [] && forall i :: 0 <= i < |p| - 1 ==> Side(p[i], p[i + 1]) in Sides(faces)
  }

  ghost predicate Linked(faces: seq<Face>, v: nat, w: nat) {
    exists p: seq<nat> :: IsWalk(faces, p) && p[0] == v && p[|p| - 1] == w
  }

  // A closed oriented surface of so many vertices, all of them used, in one piece and
  // nowhere pinched. Its Euler number tells what surface it is.
  ghost predicate IsSurface(faces: seq<Face>, vertices: nat) {
    && ClosedOriented(faces)
    && (forall e :: e in Sides(faces) ==> e.from < vertices)
    && (forall v: nat :: v < vertices ==> IsUsed(faces, v) && OneFan(faces, v))
    && forall v: nat, w: nat :: v < vertices && w < vertices ==> Linked(faces, v, w)
  }

  // Fans ------------------------------------------------------------------------

  // A rank of the neighbors of every vertex that grows from neighbor to neighbor
  // around it, but for the step back to the one of rank 0, the hub.
  ghost predicate RankedAround<N(!new)>(names: seq<N>, shape: N -> Face, rank: (nat, nat) -> nat, hub: nat -> nat) {
    forall n, k: nat :: n in names && k < 3 ==> RanksWell(shape, rank, hub, n, k)
  }

  ghost predicate RanksWell<N(!new)>(shape: N -> Face, rank: (nat, nat) -> nat, hub: nat -> nat, n: N, k: nat) {
    var e := SideOf(shape(n), k);
    var u := SideOf(shape(n), Next(k)).to;
    && (rank(e.from, u) == 0 || rank(e.from, e.to) < rank(e.from, u))
    && (rank(e.from, e.to) == 0 ==> e.to == hub(e.from))
  }

  lemma NameOfSide<N(!new)>(faces: seq<Face>, names: seq<N>, shape: N -> Face, e: Side) returns (l: nat, k: nat)
    requires Draws(faces, names, shape) && e in Sides(faces)
    ensures k < 3 && l < |faces| == |names| && names[l] in names && faces[l] == shape(names[l])
            && SideOf(faces[l], k) == e
  {
    assert |names| == |faces|;
    hide SideOf, Sides;
    var i: nat :| i < |Sides(faces)| && Sides(faces)[i] == e;
    l, k := i / 3, i % 3;
    SideAt(faces, names, shape, i);
  }

  lemma SidesFollow(f: Face, k: nat)
    requires k < 3
    ensures SideOf(f, Next(k)).from == SideOf(f, k).to
    ensures SideOf(f, Next(Next(k))).to == SideOf(f, k).from
  {
  }

  lemma FanGrows(faces: seq<Face>, v: nat, w: nat, x: nat, y: nat)
    requires Fanned(faces, v, w, x) && Turns(faces, v, x, y)
    ensures Fanned(faces, v, w, y)
  {
    var p: seq<nat> :| IsFan(faces, v, p) && p[0] == w && p[|p| - 1] == x;
    hide Turns, Sides;
    assert IsFan(faces, v, p + [y]);
  }

  // Going down in rank from any neighbor ends at the hub.
  lemma {:induction false} FannedByRank<N(!new)>(faces: seq<Face>, names: seq<N>, shape: N -> Face,
                                                 rank: (nat, nat) -> nat, hub: nat -> nat, v: nat, x: nat)
    requires Draws(faces, names, shape) && ClosedOriented(faces) && RankedAround(names, shape, rank, hub)
    requires Side(v, x) in Sides(faces)
    ensures Fanned(faces, v, hub(v), x)
    decreases rank(v, x)
  {
    if rank(v, x) == 0 {
      var l, k := NameOfSide(faces, names, shape, Side(v, x));
      assert RanksWell(shape, rank, hub, names[l], k);
      assert IsFan(faces, v, [x]);
    } else {
      var w := TurnedFrom(faces, names, shape, rank, hub, v, x);
      FannedByRank(faces, names, shape, rank, hub, v, w);
      FanGrows(faces, v, hub(v), w, x);
    }
  }

  lemma TurnedFrom<N(!new)>(faces: seq<Face>, names: seq<N>, shape: N -> Face, rank: (nat, nat) -> nat,
                            hub: nat -> nat, v: nat, x: nat) returns (w: nat)
    requires Draws(faces, names, shape) && ClosedOriented(faces) && RankedAround(names, shape, rank, hub)
    requires Side(v, x) in Sides(faces) && rank(v, x) > 0
    ensures Side(v, w) in Sides(faces) && Turns(faces, v, w, x) && rank(v, w) < rank(v, x)
  {
    assert Reversed(Side(v, x)) in Sides(faces);
    var l, s := NameOfSide(faces, names, shape, Side(x, v));
    var k := Next(s);
    w := SideOf(faces[l], k).to;
    SidesFollow(faces[l], s);
    SidesFollow(faces[l], k);
    SideOfSomeFace(faces, l, k);
    hide SideOf, Sides, Draws, ClosedOriented;
    assert RanksWell(shape, rank, hub, names[l], k);
    assert SideOf(faces[l], k) == Side(v, w) && SideOf(faces[l], Next(k)) == Side(w, x);
  }

  lemma RankedIsOneFan<N(!new)>(faces: seq<Face>, names: seq<N>, shape: N -> Face, rank: (nat, nat) -> nat,
                                hub: nat -> nat, v: nat)
    requires Draws(faces, names, shape) && ClosedOriented(faces) && RankedAround(names, shape, rank, hub)
    ensures OneFan(faces, v)
  {
    hide Draws, ClosedOriented, RankedAround, Fanned, Sides;
    forall x | Side(v, x) in Sides(faces) ensures Fanned(faces, v, hub(v), x) {
      FannedByRank(faces, names, shape, rank, hub, v, x);
    }
    assert FanFrom(faces, v, hub(v));
  }

  // Walks -----------------------------------------------------------------------

  // A side leads from the vertex to one of a lesser number.
  ghost predicate StepsDown(faces: seq<Face>, v: nat) {
    exists w: nat :: w < v && Side(v, w) in Sides(faces)
  }

  // In a closed surface a side between the two, in either direction, is enough.
  lemma StepsDownTo(faces: seq<Face>, v: nat, w: nat)
    requires ClosedOriented(faces) && w < v && (Side(v, w) in Sides(faces) || Side(w, v) in Sides(faces))
    ensures StepsDown(faces, v)
  {
    hide Sides;
    if Side(w, v) in Sides(faces) {
      assert Reversed(Side(w, v)) == Side(v, w);
    }
  }

  lemma {:induction false} LinkedWithFirst(faces: seq<Face>, v: nat)
    requires ClosedOriented(faces) && forall u: nat :: 0 < u <= v ==> StepsDown(faces, u)
    ensures Linked(faces, v, 0) && Linked(faces, 0, v)
  {
    hide Sides;
    if v == 0 {
      assert IsWalk(faces, [0]);
    } else {
      assert StepsDown(faces, v);
      var w: nat :| w < v && Side(v, w) in Sides(faces);
      LinkedWithFirst(faces, w);
      assert Reversed(Side(v, w)) in Sides(faces);
      OneStepLinks(faces, v, w);
      OneStepLinks(faces, w, v);
      hide ClosedOriented, Linked;
      LinkedOn(faces, v, w, 0);
      LinkedOn(faces, 0, w, v);
    }
  }

  lemma OneStepLinks(faces: seq<Face>, v: nat, w: nat)
    requires Side(v, w) in Sides(faces)
    ensures Linked(faces, v, w)
  {
    hide Sides;
    assert IsWalk(faces, [v, w]);
  }

  lemma LinkedOn(faces: seq<Face>, v: nat, w: nat, x: nat)
    requires Linked(faces, v, w) && Linked(faces, w, x)
    ensures Linked(faces, v, x)
  {
    hide Sides;
    var p: seq<nat> :| IsWalk(faces, p) && p[0] == v && p[|p| - 1] == w;
    var q: seq<nat> :| IsWalk(faces, q) && q[0] == w && q[|q| - 1] == x;
    var joined := p + q[1..];
    forall i | 0 <= i < |joined| - 1 ensures Side(joined[i], joined[i + 1]) in Sides(faces) {
      if i >= |p| - 1 {
        assert joined[i] == q[i - (|p| - 1)] && joined[i + 1] == q[i - (|p| - 1) + 1];
      }
    }
    assert IsWalk(faces, joined);
  }

  lemma SteppingDownLinks(faces: seq<Face>, vertices: nat, v: nat, w: nat)
    requires ClosedOriented(faces) && (forall u: nat :: 0 < u < vertices ==> StepsDown(faces, u))
    requires v < vertices && w < vertices
    ensures Linked(faces, v, w)
  {
    LinkedWithFirst(faces, v);
    LinkedWithFirst(faces, w);
    hide Linked, ClosedOriented;
    LinkedOn(faces, v, 0, w);
  }

  // What it takes to see that a drawn mesh is a surface.
  lemma RankedIsSurface<N(!new)>(faces: seq<Face>, names: seq<N>, shape: N -> Face, rank: (nat, nat) -> nat,
                                 hub: nat -> nat, vertices: nat)
    requires Draws(faces, names, shape) && ClosedOriented(faces) && RankedAround(names, shape, rank, hub)
    requires forall e :: e in Sides(faces) ==> e.from < vertices
    requires forall v: nat :: v < vertices ==> IsUsed(faces, v)
    requires forall v: nat :: 0 < v < vertices ==> StepsDown(faces, v)
    ensures IsSurface(faces, vertices)
  {
    hide Draws, ClosedOriented, RankedAround, OneFan, Linked, StepsDown, IsUsed, Sides;
    forall v: nat | v < vertices ensures OneFan(faces, v) {
      RankedIsOneFan(faces, names, shape, rank, hub, v);
    }
    forall v: nat, w: nat | v < vertices && w < vertices ensures Linked(faces, v, w) {
      SteppingDownLinks(faces, vertices, v, w);
    }
  }
}
