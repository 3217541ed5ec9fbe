// A wall with openings from its measures to its mesh: the cuts give the cells, the
// openings take some of them out, and what is left is the hull of the rest.
module WallBuilding {
  import opened WallMesh
  import opened WallArea

  function OfSegment(openings: seq<Opening>, segment: nat): seq<Opening> {
    if openings == [] then []
    else
      var last := openings[|openings| - 1];
      OfSegment(openings[..|openings| - 1], segment) + (if last.segment == segment then [last] else [])
  }

  // Where the openings of a segment stand in the list of all of them.
  lemma {:induction false} OfSegmentAt(openings: seq<Opening>, segment: nat, k: nat) returns (i: nat)
    requires k < |OfSegment(openings, segment)|
    ensures i < |openings| && openings[i] == OfSegment(openings, segment)[k] && openings[i].segment == segment
  {
    var n := |openings| - 1;
    if k < |OfSegment(openings[..n], segment)| {
      i := OfSegmentAt(openings[..n], segment, k);
    } else {
      i := n;
    }
  }

  lemma {:induction false} SegmentApart(openings: seq<Opening>, lengths: seq<real>, height: real, segment: nat,
                                        k: nat, l: nat, x: real, z: real)
    requires Accepted(openings, lengths, height) && k < l < |OfSegment(openings, segment)|
    ensures !(Contains(OfSegment(openings, segment)[k], x, z) && Contains(OfSegment(openings, segment)[l], x, z))
  {
    var n := |openings| - 1;
    hide Overlap, Contains, Fits;
    if l < |OfSegment(openings[..n], segment)| {
      SegmentApart(openings[..n], lengths, height, segment, k, l, x, z);
    } else {
      var i := OfSegmentAt(openings[..n], segment, k);
      assert openings[..n][i] == openings[i];
      AcceptedAreApart(openings, lengths, height, i, n, x, z);
    }
  }

  // The cuts of one segment suit its openings.
  lemma SegmentCuts(openings: seq<Opening>, lengths: seq<real>, height: real, segment: nat, xs: seq<real>,
                    zs: seq<real>)
    requires Accepted(openings, lengths, height) && Increasing(xs) && Increasing(zs) && |xs| > 0 && |zs| > 0
    requires forall k :: 0 <= k < |openings| && openings[k].segment == segment ==> EdgesAlong(openings[k], xs)
    requires forall k :: 0 <= k < |openings| ==> EdgesUp(openings[k], zs)
    ensures Cuts(xs, zs, OfSegment(openings, segment))
  {
    var mine := OfSegment(openings, segment);
    hide Overlap, Contains, EdgesAlong, EdgesUp, Increasing, OfSegment;
    forall k: nat | k < |mine|
      ensures mine[k].width > 0.0 && mine[k].height > 0.0 && EdgesAlong(mine[k], xs) && EdgesUp(mine[k], zs)
    {
      var i := OfSegmentAt(openings, segment, k);
      assert Fits(openings[i], lengths, height);
    }
    forall k: nat, l: nat, x, z | k < l < |mine| ensures !(Contains(mine[k], x, z) && Contains(mine[l], x, z)) {
      SegmentApart(openings, lengths, height, segment, k, l, x, z);
    }
  }

  // The outermost cuts are the ends.
  lemma OuterCuts(cuts: seq<real>, end: real)
    requires Increasing(cuts) && 0.0 in cuts && end in cuts && forall x :: x in cuts ==> 0.0 <= x <= end
    ensures |cuts| > 0 && cuts[0] == 0.0 && cuts[|cuts| - 1] == end
  {
    assert cuts[0] in cuts && cuts[|cuts| - 1] in cuts;
    var a :| 0 <= a < |cuts| && cuts[a] == 0.0;
    var b :| 0 <= b < |cuts| && cuts[b] == end;
    InOrder(cuts, 0, a);
    InOrder(cuts, b, |cuts| - 1);
  }

  function CellsAlong(xss: seq<seq<real>>): seq<nat> {
    seq(|xss|, s requires 0 <= s < |xss| => if xss[s] == [] then 0 else |xss[s]| - 1)
  }

  // A cell is kept unless its middle lies in an opening of its segment.
  predicate KeptCell(xss: seq<seq<real>>, zs: seq<real>, openings: seq<Opening>, c: Cell) {
    && c.at.segment < |xss| && c.at.k + 1 < |xss[c.at.segment]| && c.q + 1 < |zs|
    && Kept(xss[c.at.segment], zs, OfSegment(openings, c.at.segment), c.at.k, c.q)
  }

  datatype Built = Refused | Built(xss: seq<seq<real>>, zs: seq<real>, faces: seq<Quad>)

  function WallOf(xss: seq<seq<real>>, zs: seq<real>): Wall {
    Wall(CellsAlong(xss), if zs == [] then 0 else |zs| - 1)
  }

  ghost predicate SegmentsAreRight(xss: seq<seq<real>>, zs: seq<real>, openings: seq<Opening>, lengths: seq<real>,
                                   height: real) {
    && |xss| == |lengths| && |zs| > 1
    && forall s :: 0 <= s < |xss| ==> SegmentIsRight(xss[s], zs, OfSegment(openings, s), lengths[s], height)
  }

  // A segment is cut from end to end and from foot to top, along the edges of its
  // openings, so that no cell lies partly in one of them. Of the segment there is left
  // its length by the height of the wall, less its openings.
  ghost predicate SegmentIsRight(xs: seq<real>, zs: seq<real>, openings: seq<Opening>, length: real, height: real) {
    && |xs| > 1 && |zs| > 1 && Cuts(xs, zs, openings)
    && xs[0] == 0.0 && xs[|xs| - 1] == length && zs[0] == 0.0 && zs[|zs| - 1] == height
    && (forall i, j :: 0 <= i < |xs| - 1 && 0 <= j < |zs| - 1 ==> CellIsWhole(xs, zs, openings, i, j))
    && AreaKept(xs, zs, openings, |xs| - 1) == length * height - OpeningArea(openings)
  }

  // All inner points of the cell lie in the opening, or none does.
  ghost predicate CellIsWhole(xs: seq<real>, zs: seq<real>, openings: seq<Opening>, i: nat, j: nat)
    requires i + 1 < |xs| && j + 1 < |zs|
  {
    forall k, x, z :: 0 <= k < |openings| && xs[i] < x < xs[i + 1] && zs[j] < z < zs[j + 1] ==>
      (Contains(openings[k], x, z) <==> Contains(openings[k], Middle(xs, i), Middle(zs, j)))
  }

  lemma CutCellIsWhole(xs: seq<real>, zs: seq<real>, openings: seq<Opening>, i: nat, j: nat)
    requires Cuts(xs, zs, openings) && i + 1 < |xs| && j + 1 < |zs|
    ensures CellIsWhole(xs, zs, openings, i, j)
  {
    forall k, x, z | 0 <= k < |openings| && xs[i] < x < xs[i + 1] && zs[j] < z < zs[j + 1]
      ensures Contains(openings[k], x, z) <==> Contains(openings[k], Middle(xs, i), Middle(zs, j))
    {
      assert EdgesAlong(openings[k], xs) && EdgesUp(openings[k], zs);
      hide Contains, Middle;
      CellInOrOut(xs, zs, openings[k], i, j, x, z);
    }
  }

  lemma SegmentArea(openings: seq<Opening>, lengths: seq<real>, height: real, segment: nat, xs: seq<real>,
                    zs: seq<real>)
    requires Cuts(xs, zs, OfSegment(openings, segment)) && segment < |lengths|
    requires |xs| > 1 && xs[0] == 0.0 && xs[|xs| - 1] == lengths[segment] && |zs| > 1 && zs[0] == 0.0
    requires zs[|zs| - 1] == height
    ensures SegmentIsRight(xs, zs, OfSegment(openings, segment), lengths[segment], height)
  {
    hide Cuts, AreaKept, OpeningArea, OfSegment, CellIsWhole;
    AreaIsConserved(xs, zs, OfSegment(openings, segment));
    forall i, j | 0 <= i < |xs| - 1 && 0 <= j < |zs| - 1
      ensures CellIsWhole(xs, zs, OfSegment(openings, segment), i, j)
    {
      CutCellIsWhole(xs, zs, OfSegment(openings, segment), i, j);
    }
  }

  lemma CutsInRange(openings: seq<Opening>, lengths: seq<real>, height: real, segment: nat, xs: seq<real>)
    requires Accepted(openings, lengths, height) && segment < |lengths| && lengths[segment] > 0.0
    requires forall x :: x in xs ==> x == 0.0 || x == lengths[segment] || IsEdgeAlong(openings, segment, x)
    ensures forall x :: x in xs ==> 0.0 <= x <= lengths[segment]
  {
    hide Overlap;
    forall x | x in xs ensures 0.0 <= x <= lengths[segment] {
      if IsEdgeAlong(openings, segment, x) {
        var k :| 0 <= k < |openings| && openings[k].segment == segment
          && (x == openings[k].offset || x == openings[k].offset + openings[k].width);
        assert Fits(openings[k], lengths, height);
      }
    }
  }

  lemma LevelsInRange(openings: seq<Opening>, lengths: seq<real>, height: real, zs: seq<real>)
    requires Accepted(openings, lengths, height) && height > 0.0
    requires forall z :: z in zs ==> z == 0.0 || z == height || IsEdgeUp(openings, z)
    ensures forall z :: z in zs ==> 0.0 <= z <= height
  {
    hide Overlap;
    forall z | z in zs ensures 0.0 <= z <= height {
      if IsEdgeUp(openings, z) {
        var k :| 0 <= k < |openings| && (z == openings[k].sill || z == openings[k].sill + openings[k].height);
        assert Fits(openings[k], lengths, height);
      }
    }
  }

  ghost predicate GoodLevels(openings: seq<Opening>, zs: seq<real>, height: real) {
    && Increasing(zs) && |zs| > 1 && zs[0] == 0.0 && zs[|zs| - 1] == height
    && forall k :: 0 <= k < |openings| ==> EdgesUp(openings[k], zs)
  }

  method Levels(openings: seq<Opening>, lengths: seq<real>, height: real) returns (zs: seq<real>)
    requires height > 0.0 && Accepted(openings, lengths, height)
    ensures GoodLevels(openings, zs, height) && |zs| > 1
  {
    hide Accepted, EdgesUp;
    zs := CutsUp(openings, height);
    LevelsInRange(openings, lengths, height, zs);
    OuterCuts(zs, height);
  }

  method SegmentStations(openings: seq<Opening>, lengths: seq<real>, height: real, segment: nat, zs: seq<real>)
    returns (xs: seq<real>)
    requires segment < |lengths| && lengths[segment] > 0.0 && Accepted(openings, lengths, height)
    requires GoodLevels(openings, zs, height)
    ensures SegmentIsRight(xs, zs, OfSegment(openings, segment), lengths[segment], height)
  {
    hide Accepted, EdgesAlong, EdgesUp, SegmentIsRight, Cuts;
    xs := CutsAlong(openings, segment, lengths[segment]);
    CutsInRange(openings, lengths, height, segment, xs);
    OuterCuts(xs, lengths[segment]);
    SegmentCuts(openings, lengths, height, segment, xs, zs);
    SegmentArea(openings, lengths, height, segment, xs, zs);
  }

  // The mesh of a wall with openings. The openings it refuses are those that do not
  // fit or overlap. Of the others nothing is lost and nothing is left: the cells that
  // the mesh is the hull of are those that lie in no opening, and no cell does in part.
  method BuildWall(lengths: seq<real>, height: real, openings: seq<Opening>) returns (built: Built)
    requires height > 0.0 && forall s :: 0 <= s < |lengths| ==> lengths[s] > 0.0
    ensures built.Refused? <==> !Accepted(openings, lengths, height)
    ensures built.Refused? <==> !AreApartInside(openings, lengths, height)
    ensures built.Built? ==> SegmentsAreRight(built.xss, built.zs, openings, lengths, height)
    ensures built.Built? ==>
              FacesOutwards(WallOf(built.xss, built.zs), c => KeptCell(built.xss, built.zs, openings, c), built.faces)
    ensures built.Built? ==> forall c :: IsCell(WallOf(built.xss, built.zs), c) ==>
              (KeptCell(built.xss, built.zs, openings, c) <==> IsFree(built.xss, built.zs, openings, c))
    ensures built.Built? ==>
            IsHull(WallOf(built.xss, built.zs), c => KeptCell(built.xss, built.zs, openings, c), built.faces)
  {
    hide Accepted, AreApartInside, IsHull, FacesOutwards, SegmentIsRight, GoodLevels, KeptCell, IsFree;
    var accepted := NormalizeWallOpenings(openings, lengths, height);
    if !accepted {
      return Refused;
    }
    var zs := Levels(openings, lengths, height);
    var xss: seq<seq<real>> := [];
    for s := 0 to |lengths|
      invariant |xss| == s
      invariant forall r :: 0 <= r < s ==> SegmentIsRight(xss[r], zs, OfSegment(openings, r), lengths[r], height)
    {
      var xs := SegmentStations(openings, lengths, height, s, zs);
      xss := xss + [xs];
    }
    EnoughCuts(xss, zs, openings, lengths, height);
    var kept: Cell -> bool := c => KeptCell(xss, zs, openings, c);
    var faces := BuildJoinedWallMesh(WallOf(xss, zs), kept);
    forall c | IsCell(WallOf(xss, zs), c) ensures KeptCell(xss, zs, openings, c) <==> IsFree(xss, zs, openings, c) {
      KeptIsFree(xss, zs, openings, lengths, height, c);
    }
    built := Built(xss, zs, faces);
  }

  // No point inside the cell lies in an opening of its segment.
  ghost predicate IsFree(xss: seq<seq<real>>, zs: seq<real>, openings: seq<Opening>, c: Cell) {
    && c.at.segment < |xss| && c.at.k + 1 < |xss[c.at.segment]| && c.q + 1 < |zs|
    && forall k, x, z :: 0 <= k < |openings| && openings[k].segment == c.at.segment
                         && IsInside(xss[c.at.segment], zs, c, x, z) ==>
         !(openings[k].offset < x < openings[k].offset + openings[k].width
           && openings[k].sill < z < openings[k].sill + openings[k].height)
  }

  ghost predicate IsInside(xs: seq<real>, zs: seq<real>, c: Cell, x: real, z: real)
    requires c.at.k + 1 < |xs| && c.q + 1 < |zs|
  {
    xs[c.at.k] < x < xs[c.at.k + 1] && zs[c.q] < z < zs[c.q + 1]
  }

  lemma {:induction false} InOfSegment(openings: seq<Opening>, segment: nat, k: nat)
    requires k < |openings| && openings[k].segment == segment
    ensures openings[k] in OfSegment(openings, segment)
  {
    if k < |openings| - 1 {
      InOfSegment(openings[..|openings| - 1], segment, k);
    }
  }

  lemma MiddleIsInside(xs: seq<real>, zs: seq<real>, c: Cell)
    requires Increasing(xs) && Increasing(zs) && c.at.k + 1 < |xs| && c.q + 1 < |zs|
    ensures IsInside(xs, zs, c, Middle(xs, c.at.k), Middle(zs, c.q))
  {
    assert xs[c.at.k] < xs[c.at.k + 1] && zs[c.q] < zs[c.q + 1];
  }

  lemma KeptIsFree(xss: seq<seq<real>>, zs: seq<real>, openings: seq<Opening>, lengths: seq<real>, height: real,
                   c: Cell)
    requires SegmentsAreRight(xss, zs, openings, lengths, height) && IsCell(WallOf(xss, zs), c)
    ensures KeptCell(xss, zs, openings, c) <==> IsFree(xss, zs, openings, c)
  {
    var s := c.at.segment;
    var xs, mine := xss[s], OfSegment(openings, s);
    assert SegmentIsRight(xs, zs, mine, lengths[s], height) && CellIsWhole(xs, zs, mine, c.at.k, c.q);
    MiddleIsInside(xs, zs, c);
    hide OfSegment, AreaKept, OpeningArea, Cuts, Middle, IsInside;
    if KeptCell(xss, zs, openings, c) {
      FreeIfKept(xss, zs, openings, c);
    }
    if IsFree(xss, zs, openings, c) {
      forall k: nat | k < |mine| ensures !Contains(mine[k], Middle(xs, c.at.k), Middle(zs, c.q)) {
        var i := OfSegmentAt(openings, s, k);
      }
    }
  }

  lemma FreeIfKept(xss: seq<seq<real>>, zs: seq<real>, openings: seq<Opening>, c: Cell)
    requires KeptCell(xss, zs, openings, c)
    requires CellIsWhole(xss[c.at.segment], zs, OfSegment(openings, c.at.segment), c.at.k, c.q)
    ensures IsFree(xss, zs, openings, c)
  {
    var s := c.at.segment;
    hide OfSegment, Middle;
    forall k, x, z | 0 <= k < |openings| && openings[k].segment == s && IsInside(xss[s], zs, c, x, z)
      ensures !Contains(openings[k], x, z)
    {
      InOfSegment(openings, s, k);
      var l :| 0 <= l < |OfSegment(openings, s)| && OfSegment(openings, s)[l] == openings[k];
    }
  }

  lemma EnoughCuts(xss: seq<seq<real>>, zs: seq<real>, openings: seq<Opening>, lengths: seq<real>, height: real)
    requires |xss| == |lengths|
    requires forall r :: 0 <= r < |xss| ==> SegmentIsRight(xss[r], zs, OfSegment(openings, r), lengths[r], height)
    ensures IsWall(WallOf(xss, zs)) && (|lengths| > 0 ==> |zs| > 1)
  {
    hide AreaKept, OpeningArea, OfSegment, Cuts, CellIsWhole;
    if |lengths| > 0 {
      assert SegmentIsRight(xss[0], zs, OfSegment(openings, 0), lengths[0], height);
    }
  }
}
