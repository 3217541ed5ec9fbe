// Cutting a wall around its openings: where the cuts go, which cells are kept, and
// how much wall is left.
module WallArea {

  // A rectangle on one segment of a wall.
  datatype Opening = Opening(segment: nat, offset: real, sill: real, width: real, height: real)

  // Accepted openings -----------------------------------------------------------

  predicate Fits(o: Opening, lengths: seq<real>, height: real) {
    && o.segment < |lengths| && o.offset >= 0.0 && o.sill >= 0.0 && o.width > 0.0 && o.height > 0.0
    && o.offset + o.width <= lengths[o.segment] && o.sill + o.height <= height
  }

  function Max(a: real, b: real): real {
    if a < b then b else a
  }

  function Min(a: real, b: real): real {
    if a < b then a else b
  }

  predicate Overlap(a: Opening, b: Opening) {
    && a.segment == b.segment
    && Max(a.offset, b.offset) < Min(a.offset + a.width, b.offset + b.width)
    && Max(a.sill, b.sill) < Min(a.sill + a.height, b.sill + b.height)
  }

  ghost predicate Accepted(openings: seq<Opening>, lengths: seq<real>, height: real) {
    && (forall i :: 0 <= i < |openings| ==> Fits(openings[i], lengths, height))
    && forall i, j :: 0 <= i < j < |openings| ==> !Overlap(openings[i], openings[j])
  }

  // A point lies in the opening, off its edges.
  predicate Contains(o: Opening, x: real, z: real) {
    o.offset < x < o.offset + o.width && o.sill < z < o.sill + o.height
  }

  // All inner points of the opening are inner points of its segment.
  ghost predicate LiesInside(o: Opening, lengths: seq<real>, height: real) {
    && o.segment < |lengths| && o.width > 0.0 && o.height > 0.0
    && forall x, z :: Contains(o, x, z) ==> 0.0 < x < lengths[o.segment] && 0.0 < z < height
  }

  ghost predicate HaveCommonPoint(a: Opening, b: Opening) {
    a.segment == b.segment && exists x, z :: Contains(a, x, z) && Contains(b, x, z)
  }

  lemma FittingIsLyingInside(o: Opening, lengths: seq<real>, height: real)
    ensures Fits(o, lengths, height) <==> LiesInside(o, lengths, height)
  {
    if LiesInside(o, lengths, height) {
      var x, z := o.offset + o.width / 2.0, o.sill + o.height / 2.0;
      assert Contains(o, x, z);
      if o.offset < 0.0 {
        assert Contains(o, o.offset + Min(o.width, -o.offset) / 2.0, z);
      }
      if o.sill < 0.0 {
        assert Contains(o, x, o.sill + Min(o.height, -o.sill) / 2.0);
      }
      var right, top := o.offset + o.width, o.sill + o.height;
      if right > lengths[o.segment] {
        assert Contains(o, right - Min(o.width, right - lengths[o.segment]) / 2.0, z);
      }
      if top > height {
        assert Contains(o, x, top - Min(o.height, top - height) / 2.0);
      }
    }
  }

  lemma OverlappingIsMeeting(a: Opening, b: Opening)
    requires a.width > 0.0 && a.height > 0.0 && b.width > 0.0 && b.height > 0.0
    ensures Overlap(a, b) <==> HaveCommonPoint(a, b)
  {
    if Overlap(a, b) {
      var x := (Max(a.offset, b.offset) + Min(a.offset + a.width, b.offset + b.width)) / 2.0;
      var z := (Max(a.sill, b.sill) + Min(a.sill + a.height, b.sill + b.height)) / 2.0;
      assert Contains(a, x, z) && Contains(b, x, z);
    }
  }

  // What openings are accepted: those that lie on their segments and meet in no point.
  ghost predicate AreApartInside(openings: seq<Opening>, lengths: seq<real>, height: real) {
    && (forall i :: 0 <= i < |openings| ==> LiesInside(openings[i], lengths, height))
    && forall i, j :: 0 <= i < j < |openings| ==> !HaveCommonPoint(openings[i], openings[j])
  }

  lemma AcceptedMeans(openings: seq<Opening>, lengths: seq<real>, height: real)
    ensures Accepted(openings, lengths, height) <==> AreApartInside(openings, lengths, height)
  {
    forall i | 0 <= i < |openings|
      ensures Fits(openings[i], lengths, height) <==> LiesInside(openings[i], lengths, height)
    {
      FittingIsLyingInside(openings[i], lengths, height);
    }
    if forall i :: 0 <= i < |openings| ==> Fits(openings[i], lengths, height) {
      forall i, j | 0 <= i < j < |openings|
        ensures Overlap(openings[i], openings[j]) <==> HaveCommonPoint(openings[i], openings[j])
      {
        assert Fits(openings[i], lengths, height) && Fits(openings[j], lengths, height);
        OverlappingIsMeeting(openings[i], openings[j]);
      }
    }
    hide Fits, LiesInside, Overlap, HaveCommonPoint;
  }

  // Accepted openings have no point in common.
  lemma AcceptedAreApart(openings: seq<Opening>, lengths: seq<real>, height: real, i: nat, j: nat, x: real, z: real)
    requires Accepted(openings, lengths, height) && i < j < |openings| && openings[i].segment == openings[j].segment
    ensures !(Contains(openings[i], x, z) && Contains(openings[j], x, z))
  {
    assert !Overlap(openings[i], openings[j]);
  }

  method NormalizeWallOpenings(openings: seq<Opening>, lengths: seq<real>, height: real) returns (accepted: bool)
    ensures accepted <==> Accepted(openings, lengths, height)
    ensures accepted <==> AreApartInside(openings, lengths, height)
  {
    AcceptedMeans(openings, lengths, height);
    hide AreApartInside;
    for i := 0 to |openings|
      invariant forall k :: 0 <= k < i ==> Fits(openings[k], lengths, height)
    {
      if !Fits(openings[i], lengths, height) {
        return false;
      }
    }
    for i := 0 to |openings|
      invariant forall k, l :: 0 <= k < i && k < l < |openings| ==> !Overlap(openings[k], openings[l])
    {
      for j := i + 1 to |openings|
        invariant forall l :: i < l < j ==> !Overlap(openings[i], openings[l])
      {
        if Overlap(openings[i], openings[j]) {
          return false;
        }
      }
    }
    accepted := true;
  }

  // Cuts ------------------------------------------------------------------------

  ghost predicate Increasing(cuts: seq<real>) {
    forall i, j :: 0 <= i < j < |cuts| ==> cuts[i] < cuts[j]
  }

  // uniq.sort, by insertion
  method InsertCut(cuts: seq<real>, x: real) returns (more: seq<real>)
    requires Increasing(cuts)
    ensures Increasing(more) && forall y :: y in more <==> y in cuts || y == x
  {
    var i := 0;
    while i < |cuts| && cuts[i] < x
      invariant 0 <= i <= |cuts| && forall k :: 0 <= k < i ==> cuts[k] < x
    {
      i := i + 1;
    }
    if i < |cuts| && cuts[i] == x {
      return cuts;
    }
    more := cuts[..i] + [x] + cuts[i..];
    assert cuts == cuts[..i] + cuts[i..];
  }

  ghost predicate EdgesAlong(o: Opening, cuts: seq<real>) {
    o.offset in cuts && o.offset + o.width in cuts
  }

  ghost predicate EdgesUp(o: Opening, cuts: seq<real>) {
    o.sill in cuts && o.sill + o.height in cuts
  }

  method InsertCuts(cuts: seq<real>, x: real, y: real) returns (more: seq<real>)
    requires Increasing(cuts)
    ensures Increasing(more) && Adds(cuts, x, y, more)
  {
    hide Increasing;
    more := InsertCut(cuts, x);
    more := InsertCut(more, y);
  }

  ghost predicate IsEdgeAlong(openings: seq<Opening>, segment: nat, x: real) {
    exists k :: 0 <= k < |openings| && openings[k].segment == segment
      && (x == openings[k].offset || x == openings[k].offset + openings[k].width)
  }

  // The cuts along a segment, as far as the first n openings make them.
  ghost predicate AreCutsAlong(openings: seq<Opening>, segment: nat, length: real, n: nat, cuts: seq<real>) {
    && Increasing(cuts) && 0.0 in cuts && length in cuts
    && (forall k :: 0 <= k < n && k < |openings| && openings[k].segment == segment ==> EdgesAlong(openings[k], cuts))
    && forall x :: x in cuts ==> x == 0.0 || x == length || IsEdgeAlong(openings, segment, x)
  }

  // The first cuts and two more.
  ghost predicate Adds(cuts: seq<real>, x: real, y: real, more: seq<real>) {
    forall z :: z in more <==> z in cuts || z == x || z == y
  }

  lemma CutsAlongGrow(openings: seq<Opening>, segment: nat, length: real, n: nat, cuts: seq<real>, more: seq<real>)
    requires AreCutsAlong(openings, segment, length, n, cuts) && n < |openings| && Increasing(more)
    requires openings[n].segment == segment
    requires Adds(cuts, openings[n].offset, openings[n].offset + openings[n].width, more)
    ensures AreCutsAlong(openings, segment, length, n + 1, more)
  {
    var o := openings[n];
    assert IsEdgeAlong(openings, segment, o.offset) && IsEdgeAlong(openings, segment, o.offset + o.width);
    hide Increasing, IsEdgeAlong, EdgesAlong;
    assert 0.0 in more && length in more;
    forall k | 0 <= k <= n && openings[k].segment == segment ensures EdgesAlong(openings[k], more) {
      MoreEdgesAlong(openings[k], cuts, o.offset, o.offset + o.width, more);
    }
  }

  lemma MoreEdgesAlong(o: Opening, cuts: seq<real>, x: real, y: real, more: seq<real>)
    requires Adds(cuts, x, y, more)
    requires EdgesAlong(o, cuts) || (x == o.offset && y == o.offset + o.width)
    ensures EdgesAlong(o, more)
  {
  }

  // The cuts along a segment: its ends, and the edges of its openings.
  method CutsAlong(openings: seq<Opening>, segment: nat, length: real) returns (cuts: seq<real>)
    requires length > 0.0
    ensures AreCutsAlong(openings, segment, length, |openings|, cuts)
  {
    cuts := FirstCuts(length);
    assert AreCutsAlong(openings, segment, length, 0, cuts);
    for i := 0 to |openings|
      invariant AreCutsAlong(openings, segment, length, i, cuts)
    {
      var o := openings[i];
      hide EdgesAlong, IsEdgeAlong, Increasing, Adds;
      if o.segment == segment {
        ghost var before := cuts;
        cuts := InsertCuts(cuts, o.offset, o.offset + o.width);
        hide AreCutsAlong;
        CutsAlongGrow(openings, segment, length, i, before, cuts);
      }
    }
  }

  ghost predicate IsEdgeUp(openings: seq<Opening>, z: real) {
    exists k :: 0 <= k < |openings| && (z == openings[k].sill || z == openings[k].sill + openings[k].height)
  }

  // The cuts up a wall, as far as the first n openings make them.
  ghost predicate AreCutsUp(openings: seq<Opening>, height: real, n: nat, cuts: seq<real>) {
    && Increasing(cuts) && 0.0 in cuts && height in cuts
    && (forall k :: 0 <= k < n && k < |openings| ==> EdgesUp(openings[k], cuts))
    && forall z :: z in cuts ==> z == 0.0 || z == height || IsEdgeUp(openings, z)
  }

  lemma CutsUpGrow(openings: seq<Opening>, height: real, n: nat, cuts: seq<real>, more: seq<real>)
    requires AreCutsUp(openings, height, n, cuts) && n < |openings| && Increasing(more)
    requires Adds(cuts, openings[n].sill, openings[n].sill + openings[n].height, more)
    ensures AreCutsUp(openings, height, n + 1, more)
  {
    var o := openings[n];
    assert IsEdgeUp(openings, o.sill) && IsEdgeUp(openings, o.sill + o.height);
    hide Increasing, IsEdgeUp, EdgesUp;
    assert 0.0 in more && height in more;
    forall k | 0 <= k <= n ensures EdgesUp(openings[k], more) {
      MoreEdgesUp(openings[k], cuts, o.sill, o.sill + o.height, more);
    }
  }

  lemma MoreEdgesUp(o: Opening, cuts: seq<real>, x: real, y: real, more: seq<real>)
    requires Adds(cuts, x, y, more)
    requires EdgesUp(o, cuts) || (x == o.sill && y == o.sill + o.height)
    ensures EdgesUp(o, more)
  {
  }

  // The cuts up the wall: its foot and its top, and the edges of all openings.
  method CutsUp(openings: seq<Opening>, height: real) returns (cuts: seq<real>)
    requires height > 0.0
    ensures AreCutsUp(openings, height, |openings|, cuts)
  {
    cuts := FirstCuts(height);
    assert AreCutsUp(openings, height, 0, cuts);
    for i := 0 to |openings|
      invariant AreCutsUp(openings, height, i, cuts)
    {
      var o := openings[i];
      hide EdgesUp, IsEdgeUp, Increasing, Adds;
      ghost var before := cuts;
      cuts := InsertCuts(cuts, o.sill, o.sill + o.height);
      hide AreCutsUp;
      CutsUpGrow(openings, height, i, before, cuts);
    }
  }

  function FirstCuts(end: real): (cuts: seq<real>)
    requires end > 0.0
    ensures Increasing(cuts) && forall x :: x in cuts <==> x == 0.0 || x == end
  {
    [0.0, end]
  }

  // One dimension ---------------------------------------------------------------

  function Middle(cuts: seq<real>, i: nat): real
    requires i + 1 < |cuts|
  {
    (cuts[i] + cuts[i + 1]) / 2.0
  }

  // An interval between cuts takes in the pieces between them, and no part of others.
  lemma PieceInOrOut(cuts: seq<real>, a: nat, b: nat, i: nat)
    requires Increasing(cuts) && a < b < |cuts| && i + 1 < |cuts|
    ensures cuts[a] < Middle(cuts, i) < cuts[b] <==> a <= i < b
    ensures a <= i < b ==> cuts[a] <= cuts[i] && cuts[i + 1] <= cuts[b]
    ensures !(a <= i < b) ==> cuts[i + 1] <= cuts[a] || cuts[b] <= cuts[i]
  {
    assert cuts[i] < cuts[i + 1];
  }

  // The length of the pieces whose middle lies between lo and hi, of the first n.
  ghost function Length(cuts: seq<real>, lo: real, hi: real, n: nat): real
    requires n < |cuts|
  {
    if n == 0 then 0.0
    else Length(cuts, lo, hi, n - 1) + if lo < Middle(cuts, n - 1) < hi then cuts[n] - cuts[n - 1] else 0.0
  }

  lemma {:induction false} LengthUpTo(cuts: seq<real>, a: nat, b: nat, n: nat)
    requires Increasing(cuts) && a < b < |cuts| && n < |cuts|
    ensures Length(cuts, cuts[a], cuts[b], n)
         == (if n <= a then 0.0 else if n <= b then cuts[n] - cuts[a] else cuts[b] - cuts[a])
  {
    if n > 0 {
      LengthUpTo(cuts, a, b, n - 1);
      PieceInOrOut(cuts, a, b, n - 1);
    }
  }

  lemma InOrder(cuts: seq<real>, a: nat, b: nat)
    requires Increasing(cuts) && a < |cuts| && b < |cuts|
    ensures cuts[a] < cuts[b] <==> a < b
  {
  }

  lemma LengthBetween(cuts: seq<real>, lo: real, hi: real)
    requires Increasing(cuts) && lo in cuts && hi in cuts && lo < hi
    ensures Length(cuts, lo, hi, |cuts| - 1) == hi - lo
  {
    var a :| 0 <= a < |cuts| && cuts[a] == lo;
    var b :| 0 <= b < |cuts| && cuts[b] == hi;
    InOrder(cuts, a, b);
    LengthUpTo(cuts, a, b, |cuts| - 1);
  }

  // Cells -----------------------------------------------------------------------

  // No opening of the list takes in the middle of the cell.
  predicate Kept(xs: seq<real>, zs: seq<real>, openings: seq<Opening>, i: nat, j: nat)
    requires i + 1 < |xs| && j + 1 < |zs|
  {
    forall k :: 0 <= k < |openings| ==> !Contains(openings[k], Middle(xs, i), Middle(zs, j))
  }

  // A cell between cuts lies wholly in an opening or wholly outside it.
  lemma CellInOrOut(xs: seq<real>, zs: seq<real>, o: Opening, i: nat, j: nat, x: real, z: real)
    requires Increasing(xs) && Increasing(zs) && i + 1 < |xs| && j + 1 < |zs| && o.width > 0.0 && o.height > 0.0
    requires o.offset in xs && o.offset + o.width in xs && o.sill in zs && o.sill + o.height in zs
    requires xs[i] < x < xs[i + 1] && zs[j] < z < zs[j + 1]
    ensures Contains(o, x, z) <==> Contains(o, Middle(xs, i), Middle(zs, j))
  {
    PointInOrOut(xs, o.offset, o.offset + o.width, i, x);
    PointInOrOut(zs, o.sill, o.sill + o.height, j, z);
  }

  lemma PointInOrOut(cuts: seq<real>, lo: real, hi: real, i: nat, x: real)
    requires Increasing(cuts) && lo in cuts && hi in cuts && lo < hi && i + 1 < |cuts| && cuts[i] < x < cuts[i + 1]
    ensures lo < x < hi <==> lo < Middle(cuts, i) < hi
  {
    var a :| 0 <= a < |cuts| && cuts[a] == lo;
    var b :| 0 <= b < |cuts| && cuts[b] == hi;
    assert cuts[i] < cuts[i + 1];
  }

  ghost function Area(width: real, height: real): real {
    width * height
  }

  lemma WiderArea(a: real, b: real, height: real)
    ensures Area(a + b, height) == Area(a, height) + Area(b, height)
  {
  }

  lemma HigherArea(width: real, a: real, b: real)
    ensures Area(width, a + b) == Area(width, a) + Area(width, b)
  {
  }

  ghost function CellArea(xs: seq<real>, zs: seq<real>, i: nat, j: nat): real
    requires i + 1 < |xs| && j + 1 < |zs|
  {
    Area(xs[i + 1] - xs[i], zs[j + 1] - zs[j])
  }

  // The area of the cells that are kept: in the first n cells of a column, and in the
  // first m columns.
  ghost function ColumnKept(xs: seq<real>, zs: seq<real>, openings: seq<Opening>, i: nat, n: nat): real
    requires i + 1 < |xs| && n < |zs|
  {
    if n == 0 then 0.0
    else
      ColumnKept(xs, zs, openings, i, n - 1)
      + if Kept(xs, zs, openings, i, n - 1) then CellArea(xs, zs, i, n - 1) else 0.0
  }

  ghost function AreaKept(xs: seq<real>, zs: seq<real>, openings: seq<Opening>, m: nat): real
    requires m < |xs| && 0 < |zs|
  {
    if m == 0 then 0.0 else AreaKept(xs, zs, openings, m - 1) + ColumnKept(xs, zs, openings, m - 1, |zs| - 1)
  }

  ghost function OpeningArea(openings: seq<Opening>): real {
    if openings == [] then 0.0
    else
      var o := openings[|openings| - 1];
      OpeningArea(openings[..|openings| - 1]) + Area(o.width, o.height)
  }

  // The openings of one segment are apart, and the cuts go along their edges.
  ghost predicate Cuts(xs: seq<real>, zs: seq<real>, openings: seq<Opening>) {
    && Increasing(xs) && Increasing(zs) && |xs| > 0 && |zs| > 0
    && (forall k :: 0 <= k < |openings| ==>
          && openings[k].width > 0.0 && openings[k].height > 0.0
          && EdgesAlong(openings[k], xs) && EdgesUp(openings[k], zs))
    && forall k, l, x, z :: 0 <= k < l < |openings| ==> !(Contains(openings[k], x, z) && Contains(openings[l], x, z))
  }

  ghost function Within(cuts: seq<real>, lo: real, hi: real, i: nat): real
    requires i + 1 < |cuts|
  {
    if lo < Middle(cuts, i) < hi then cuts[i + 1] - cuts[i] else 0.0
  }

  lemma LengthGrows(cuts: seq<real>, lo: real, hi: real, n: nat)
    requires n + 1 < |cuts|
    ensures Length(cuts, lo, hi, n + 1) == Length(cuts, lo, hi, n) + Within(cuts, lo, hi, n)
  {
  }

  lemma {:induction false} ColumnLessOne(xs: seq<real>, zs: seq<real>, openings: seq<Opening>, i: nat, n: nat)
    requires Cuts(xs, zs, openings) && openings != [] && i + 1 < |xs| && n < |zs|
    ensures var o := openings[|openings| - 1];
      ColumnKept(xs, zs, openings, i, n) == ColumnKept(xs, zs, openings[..|openings| - 1], i, n)
        - Area(Within(xs, o.offset, o.offset + o.width, i), Length(zs, o.sill, o.sill + o.height, n))
  {
    hide Cuts, Kept, Within, Contains, Increasing, Area;
    NoArea(Within(xs, openings[|openings| - 1].offset,
                  openings[|openings| - 1].offset + openings[|openings| - 1].width, i));
    if n > 0 {
      var o, fewer := openings[|openings| - 1], openings[..|openings| - 1];
      ColumnLessOne(xs, zs, openings, i, n - 1);
      CellLessOne(xs, zs, openings, i, n - 1);
      LengthGrows(zs, o.sill, o.sill + o.height, n - 1);
      ColumnGrows(xs, zs, openings, i, n - 1);
      ColumnGrows(xs, zs, fewer, i, n - 1);
      hide Length, ColumnKept, CellKept;
      HigherArea(Within(xs, o.offset, o.offset + o.width, i), Length(zs, o.sill, o.sill + o.height, n - 1),
        Within(zs, o.sill, o.sill + o.height, n - 1));
    }
  }

  ghost function CellKept(xs: seq<real>, zs: seq<real>, openings: seq<Opening>, i: nat, j: nat): real
    requires i + 1 < |xs| && j + 1 < |zs|
  {
    if Kept(xs, zs, openings, i, j) then CellArea(xs, zs, i, j) else 0.0
  }

  lemma ColumnGrows(xs: seq<real>, zs: seq<real>, openings: seq<Opening>, i: nat, n: nat)
    requires i + 1 < |xs| && n + 1 < |zs|
    ensures ColumnKept(xs, zs, openings, i, n + 1) == ColumnKept(xs, zs, openings, i, n)
            + CellKept(xs, zs, openings, i, n)
  {
    hide Kept, CellArea;
  }

  lemma CellLessOne(xs: seq<real>, zs: seq<real>, openings: seq<Opening>, i: nat, j: nat)
    requires Cuts(xs, zs, openings) && openings != [] && i + 1 < |xs| && j + 1 < |zs|
    ensures var o := openings[|openings| - 1];
      CellKept(xs, zs, openings, i, j) == CellKept(xs, zs, openings[..|openings| - 1], i, j)
        - Area(Within(xs, o.offset, o.offset + o.width, i), Within(zs, o.sill, o.sill + o.height, j))
  {
    KeptLessOne(xs, zs, openings, i, j);
    hide Cuts, Kept, Middle;
  }

  lemma KeptLessOne(xs: seq<real>, zs: seq<real>, openings: seq<Opening>, i: nat, j: nat)
    requires Cuts(xs, zs, openings) && openings != [] && i + 1 < |xs| && j + 1 < |zs|
    ensures var o, fewer := openings[|openings| - 1], openings[..|openings| - 1];
      var within := Contains(o, Middle(xs, i), Middle(zs, j));
      && (within ==> Kept(xs, zs, fewer, i, j) && !Kept(xs, zs, openings, i, j))
      && (!within ==> (Kept(xs, zs, fewer, i, j) <==> Kept(xs, zs, openings, i, j)))
  {
    var n := |openings| - 1;
    var x, z := Middle(xs, i), Middle(zs, j);
    hide Contains;
    assert forall k :: 0 <= k < n ==> openings[..n][k] == openings[k];
    if Contains(openings[n], x, z) {
      forall k | 0 <= k < n ensures !Contains(openings[k], x, z) {
      }
    }
  }

  // The part of the first m columns that lies in an opening.
  ghost function AreaWithin(xs: seq<real>, zs: seq<real>, o: Opening, m: nat): real
    requires m < |xs| && 0 < |zs|
  {
    Area(Length(xs, o.offset, o.offset + o.width, m), Length(zs, o.sill, o.sill + o.height, |zs| - 1))
  }

  lemma {:induction false} AreaLessOne(xs: seq<real>, zs: seq<real>, openings: seq<Opening>, m: nat)
    requires Cuts(xs, zs, openings) && openings != [] && m < |xs| && |zs| > 0
    ensures AreaKept(xs, zs, openings, m)
         == AreaKept(xs, zs, openings[..|openings| - 1], m) - AreaWithin(xs, zs, openings[|openings| - 1], m)
  {
    hide Cuts, ColumnKept, AreaWithin, Area, Length, Within, Kept;
    var o, fewer := openings[|openings| - 1], openings[..|openings| - 1];
    if m == 0 {
      NothingWithin(xs, zs, o);
    } else {
      hide AreaKept;
      AreaLessOne(xs, zs, openings, m - 1);
      ColumnLessOne(xs, zs, openings, m - 1, |zs| - 1);
      AreaGrows(xs, zs, openings, m - 1);
      AreaGrows(xs, zs, fewer, m - 1);
      WithinGrows(xs, zs, o, m - 1);
    }
  }

  lemma NothingWithin(xs: seq<real>, zs: seq<real>, o: Opening)
    requires |xs| > 0 && |zs| > 0
    ensures AreaWithin(xs, zs, o, 0) == 0.0
  {
    NoArea(Length(zs, o.sill, o.sill + o.height, |zs| - 1));
  }

  lemma WithinGrows(xs: seq<real>, zs: seq<real>, o: Opening, m: nat)
    requires m + 1 < |xs| && |zs| > 0
    ensures AreaWithin(xs, zs, o, m + 1) == AreaWithin(xs, zs, o, m)
      + Area(Within(xs, o.offset, o.offset + o.width, m), Length(zs, o.sill, o.sill + o.height, |zs| - 1))
  {
    LengthGrows(xs, o.offset, o.offset + o.width, m);
    hide Area, Within, Length;
    WiderArea(Length(xs, o.offset, o.offset + o.width, m), Within(xs, o.offset, o.offset + o.width, m),
              Length(zs, o.sill, o.sill + o.height, |zs| - 1));
  }

  lemma AreaGrows(xs: seq<real>, zs: seq<real>, openings: seq<Opening>, m: nat)
    requires m + 1 < |xs| && |zs| > 0
    ensures AreaKept(xs, zs, openings, m + 1) == AreaKept(xs, zs, openings, m)
            + ColumnKept(xs, zs, openings, m, |zs| - 1)
  {
  }

  lemma NoArea(x: real)
    ensures Area(x, 0.0) == 0.0 && Area(0.0, x) == 0.0
  {
  }

  lemma {:induction false} ColumnWhole(xs: seq<real>, zs: seq<real>, i: nat, n: nat)
    requires i + 1 < |xs| && n < |zs|
    ensures ColumnKept(xs, zs, [], i, n) == Area(xs[i + 1] - xs[i], zs[n] - zs[0])
  {
    NoArea(xs[i + 1] - xs[i]);
    hide Area;
    if n > 0 {
      ColumnWhole(xs, zs, i, n - 1);
      HigherArea(xs[i + 1] - xs[i], zs[n - 1] - zs[0], zs[n] - zs[n - 1]);
    }
  }

  lemma {:induction false} AreaWhole(xs: seq<real>, zs: seq<real>, m: nat)
    requires m < |xs| && 0 < |zs|
    ensures AreaKept(xs, zs, [], m) == Area(xs[m] - xs[0], zs[|zs| - 1] - zs[0])
  {
    NoArea(zs[|zs| - 1] - zs[0]);
    hide Area, ColumnKept;
    if m > 0 {
      AreaWhole(xs, zs, m - 1);
      ColumnWhole(xs, zs, m - 1, |zs| - 1);
      WiderArea(xs[m - 1] - xs[0], xs[m] - xs[m - 1], zs[|zs| - 1] - zs[0]);
    }
  }

  // What is kept is the wall less its openings.
  lemma {:induction false} AreaIsConserved(xs: seq<real>, zs: seq<real>, openings: seq<Opening>)
    requires Cuts(xs, zs, openings) && |xs| > 0 && |zs| > 0
    ensures AreaKept(xs, zs, openings, |xs| - 1) == Area(xs[|xs| - 1] - xs[0], zs[|zs| - 1] - zs[0])
            - OpeningArea(openings)
  {
    hide Area, Cuts, AreaKept, AreaWithin;
    if openings == [] {
      AreaWhole(xs, zs, |xs| - 1);
    } else {
      var n := |openings| - 1;
      FewerCuts(xs, zs, openings);
      AreaLessOne(xs, zs, openings, |xs| - 1);
      AreaIsConserved(xs, zs, openings[..n]);
      OpeningWithin(xs, zs, openings, n);
    }
  }

  lemma OpeningWithin(xs: seq<real>, zs: seq<real>, openings: seq<Opening>, k: nat)
    requires Cuts(xs, zs, openings) && k < |openings|
    ensures AreaWithin(xs, zs, openings[k], |xs| - 1) == Area(openings[k].width, openings[k].height)
  {
    var o := openings[k];
    assert o.width > 0.0 && o.height > 0.0 && EdgesAlong(o, xs) && EdgesUp(o, zs);
    LengthBetween(xs, o.offset, o.offset + o.width);
    LengthBetween(zs, o.sill, o.sill + o.height);
  }

  lemma FewerCuts(xs: seq<real>, zs: seq<real>, openings: seq<Opening>)
    requires Cuts(xs, zs, openings) && openings != []
    ensures Cuts(xs, zs, openings[..|openings| - 1])
  {
    var fewer := openings[..|openings| - 1];
    assert forall k :: 0 <= k < |fewer| ==> fewer[k] == openings[k];
    hide Contains;
  }
}
