// The outer profiles of a list of faces: faces in one plane make a patch, and of the
// loops around a patch the one of the largest area is its profile.
module PatchProfiles {
  import opened Options
  import opened Lists
  import opened PerimeterWalk

  // A plane is known by the text of its rounded coefficients; a face without three
  // corners that span one lies in none.
  type Plane = string

  datatype PlaneFace = PlaneFace(plane: Option<Plane>, loops: seq<seq<Corner>>)

  // The planes of the faces, each once, in the order met.
  ghost function Planes(faces: seq<PlaneFace>): seq<Plane> {
    if faces == [] then []
    else
      var before, last := Planes(faces[..|faces| - 1]), faces[|faces| - 1];
      if last.plane.None? || last.plane.value in before then before else before + [last.plane.value]
  }

  // All loops of the faces in a plane.
  ghost function LoopsIn(faces: seq<PlaneFace>, plane: Plane): seq<seq<Corner>> {
    if faces == [] then []
    else
      var last := faces[|faces| - 1];
      LoopsIn(faces[..|faces| - 1], plane) + if last.plane == Some(plane) then last.loops else []
  }

  type Patches = map<Plane, seq<seq<Corner>>>

  ghost predicate ArePatches(faces: seq<PlaneFace>, planes: seq<Plane>, patches: Patches) {
    && planes == Planes(faces) && Distinct(planes) && patches.Keys == AsSet(planes)
    && forall p :: p in patches ==> patches[p] == LoopsIn(faces, p)
  }

  lemma {:induction false} OnlyInPlanes(faces: seq<PlaneFace>, plane: Plane)
    requires plane !in Planes(faces)
    ensures LoopsIn(faces, plane) == []
  {
    if faces != [] {
      OnlyInPlanes(faces[..|faces| - 1], plane);
    }
  }

  lemma OneFaceMore(faces: seq<PlaneFace>, planes: seq<Plane>, patches: Patches, face: PlaneFace)
    requires ArePatches(faces, planes, patches)
    ensures face.plane.None? ==> ArePatches(faces + [face], planes, patches)
    ensures face.plane.Some? && face.plane.value in patches ==>
      ArePatches(faces + [face], planes, patches[face.plane.value := patches[face.plane.value] + face.loops])
    ensures face.plane.Some? && face.plane.value !in patches ==>
      ArePatches(faces + [face], planes + [face.plane.value], patches[face.plane.value := face.loops])
  {
    assert (faces + [face])[..|faces|] == faces;
    if face.plane.Some? {
      var p := face.plane.value;
      assert p in patches <==> p in AsSet(planes);
      if p in patches {
        assert patches[p := patches[p] + face.loops].Keys == AsSet(planes);
      } else {
        OnlyInPlanes(faces, p);
        assert patches[p := face.loops].Keys == AsSet(planes + [p]);
      }
    }
  }

  method GroupFaces(faces: seq<PlaneFace>) returns (planes: seq<Plane>, patches: Patches)
    ensures ArePatches(faces, planes, patches)
  {
    planes, patches := [], map[];
    assert ArePatches(faces[..0], planes, patches);
    hide ArePatches;
    for i := 0 to |faces|
      invariant ArePatches(faces[..i], planes, patches)
    {
      var face := faces[i];
      assert faces[..i + 1] == faces[..i] + [face];
      OneFaceMore(faces[..i], planes, patches, face);
      if face.plane.Some? {
        var p := face.plane.value;
        if p in patches {
          patches := patches[p := patches[p] + face.loops];
        } else {
          planes, patches := planes + [p], patches[p := face.loops];
        }
      }
    }
    assert faces[..|faces|] == faces;
  }

  // The loop bounds the patch, and none that does encloses more, nor one before it as much.
  ghost predicate IsProfile(loops: seq<seq<Corner>>, area: seq<Corner> -> real, profile: seq<Corner>) {
    exists outline :: IsOutlineOf(loops, outline) && profile in outline && IsLargest(outline, area, profile)
  }

  ghost predicate IsLargest(outline: seq<seq<Corner>>, area: seq<Corner> -> real, profile: seq<Corner>) {
    exists k :: 0 <= k < |outline| && outline[k] == profile && IsFirstLargest(outline, area, k)
  }

  ghost predicate IsFirstLargest(outline: seq<seq<Corner>>, area: seq<Corner> -> real, k: int)
    requires 0 <= k < |outline|
  {
    forall j :: 0 <= j < |outline| ==>
      area(outline[j]) <= area(outline[k]) && (j < k ==> area(outline[j]) < area(outline[k]))
  }

  method LargestLoop(outline: seq<seq<Corner>>, area: seq<Corner> -> real) returns (profile: seq<Corner>)
    requires outline != []
    ensures profile in outline && IsLargest(outline, area, profile)
  {
    profile := outline[0];
    ghost var k := 0;
    for i := 1 to |outline|
      invariant 0 <= k < i <= |outline| && profile == outline[k] && IsFirstLargest(outline[..i], area, k)
    {
      if area(outline[i]) > area(profile) {
        profile, k := outline[i], i;
      }
    }
    assert outline[..|outline|] == outline;
  }

  // The profile of one patch, unless it has no outline.
  method OuterProfile(loops: seq<seq<Corner>>, area: seq<Corner> -> real) returns (profile: Option<seq<Corner>>)
    ensures profile.Some? <==> HasOutline(loops)
    ensures profile.Some? ==> IsProfile(loops, area, profile.value)
  {
    var outline, boundary := PatchOutline(loops);
    OutlinesAgree(loops, outline, boundary);
    hide IsBoundary, HasDegreeTwo, HasOutline, IsOutlineOf, Corners, Sides, IsLargest, IsProfile;
    if outline.NoOutline? {
      return None;
    }
    var largest := LargestLoop(outline.loops, area);
    assert IsProfile(loops, area, largest) by {
      ProfileOf(loops, area, outline.loops, largest);
    }
    profile := Some(largest);
  }

  lemma ProfileOf(loops: seq<seq<Corner>>, area: seq<Corner> -> real, outline: seq<seq<Corner>>, profile: seq<Corner>)
    requires IsOutlineOf(loops, outline) && profile in outline && IsLargest(outline, area, profile)
    ensures IsProfile(loops, area, profile)
  {
  }

  lemma OutlinesAgree(loops: seq<seq<Corner>>, outline: Outline, boundary: seq<Edge>)
    requires IsBoundary(loops, boundary) && (outline.Outline? <==> boundary != [] && HasDegreeTwo(boundary))
    requires outline.Outline? ==>
               Distinct(Corners(outline.loops)) && Distinct(Sides(outline.loops)) && [] !in outline.loops
    requires outline.Outline? ==> forall e :: e in Sides(outline.loops) <==> e in boundary
    ensures outline.Outline? <==> HasOutline(loops)
    ensures outline.Outline? ==> outline.loops != [] && IsOutlineOf(loops, outline.loops)
  {
    if HasOutline(loops) {
      var other: seq<Edge> :| IsBoundary(loops, other) && other != [] && HasDegreeTwo(other);
      SameDegrees(loops, other, boundary);
    }
    if outline.Outline? {
      assert boundary[0] in Sides(outline.loops);
    }
  }

  // In whatever order the edges used once are listed, as many meet at a corner.
  lemma SameDegrees(loops: seq<seq<Corner>>, a: seq<Edge>, b: seq<Edge>)
    requires IsBoundary(loops, a) && IsBoundary(loops, b)
    ensures (a == [] <==> b == []) && (HasDegreeTwo(a) <==> HasDegreeTwo(b))
  {
    assert forall e :: e in a <==> e in b;
    SameEdgesSameLength(a, b);
    forall v ensures |NeighborsOf(a, v)| == |NeighborsOf(b, v)| {
      DegreeOfSameEdges(a, b, v);
    }
  }

  lemma SameEdgesSameLength(a: seq<Edge>, b: seq<Edge>)
    requires forall e :: e in a <==> e in b
    ensures a == [] <==> b == []
  {
    if a != [] {
      assert a[0] in b;
    }
    if b != [] {
      assert b[0] in a;
    }
  }

  lemma {:induction false} DegreeOfSameEdges(a: seq<Edge>, b: seq<Edge>, v: Corner)
    requires Distinct(a) && Distinct(b) && forall e :: e in a <==> e in b
    ensures |NeighborsOf(a, v)| == |NeighborsOf(b, v)|
  {
    SameEdgesSameLength(a, b);
    if a != [] {
      var n := |a| - 1;
      assert a[n] in b;
      var i :| 0 <= i < |b| && b[i] == a[n];
      var fewer := b[..i] + b[i + 1..];
      DegreeWithout(b, i, v);
      DegreeWithout(a, n, v);
      assert a[..n] + a[n + 1..] == a[..n];
      OthersIn(a, n);
      OthersIn(b, i);
      hide NeighborsOf, Ends;
      DegreeOfSameEdges(a[..n], fewer, v);
    }
  }

  lemma OthersIn(edges: seq<Edge>, i: nat)
    requires Distinct(edges) && i < |edges|
    ensures var fewer := edges[..i] + edges[i + 1..];
      Distinct(fewer) && forall e :: e in fewer <==> e in edges && e != edges[i]
  {
    var fewer := edges[..i] + edges[i + 1..];
    forall e | e in edges && e != edges[i] ensures e in fewer {
      var j :| 0 <= j < |edges| && edges[j] == e;
      assert fewer[if j < i then j else j - 1] == e;
    }
  }

  // How often an edge ends at a corner.
  ghost function Ends(e: Edge, v: Corner): nat {
    (if e.a == v then 1 else 0) + if e.b == v then 1 else 0
  }

  lemma LastEdge(edges: seq<Edge>, e: Edge, v: Corner)
    ensures |NeighborsOf(edges + [e], v)| == |NeighborsOf(edges, v)| + Ends(e, v)
  {
    assert (edges + [e])[..|edges|] == edges;
  }

  lemma {:induction false} DegreeWithout(edges: seq<Edge>, i: nat, v: Corner)
    requires i < |edges|
    ensures |NeighborsOf(edges, v)| == |NeighborsOf(edges[..i] + edges[i + 1..], v)| + Ends(edges[i], v)
  {
    hide NeighborsOf, Ends;
    var n := |edges| - 1;
    assert edges == edges[..n] + [edges[n]];
    LastEdge(edges[..n], edges[n], v);
    if i < n {
      DegreeWithout(edges[..n], i, v);
      LastEdge(edges[..n][..i] + edges[..n][i + 1..], edges[n], v);
      assert edges[..i] + edges[i + 1..] == edges[..n][..i] + edges[..n][i + 1..] + [edges[n]];
    } else {
      assert edges[..i] + edges[i + 1..] == edges[..n];
    }
  }

  // The planes whose patches have an outline, of the first n planes.
  ghost predicate AreOutlined(faces: seq<PlaneFace>, planes: seq<Plane>, outlined: seq<Plane>) {
    Distinct(outlined) && forall p :: p in outlined <==> p in planes && HasOutline(LoopsIn(faces, p))
  }

  lemma OnePlaneMore(faces: seq<PlaneFace>, planes: seq<Plane>, outlined: seq<Plane>, p: Plane)
    requires AreOutlined(faces, planes, outlined) && p !in planes
    ensures AreOutlined(faces, planes + [p], if HasOutline(LoopsIn(faces, p)) then outlined + [p] else outlined)
  {
    hide HasOutline;
  }

  ghost predicate IsProfileOf(faces: seq<PlaneFace>, area: (Plane, seq<Corner>) -> real, p: Plane,
                              profile: seq<Corner>) {
    IsProfile(LoopsIn(faces, p), c => area(p, c), profile)
  }

  // For every patch of the faces that has an outline its profile, and no others.
  method CoplanarOuterProfiles(faces: seq<PlaneFace>, area: (Plane, seq<Corner>) -> real)
    returns (profiles: seq<seq<Corner>>, ghost outlined: seq<Plane>)
    ensures |outlined| == |profiles| && AreOutlined(faces, Planes(faces), outlined)
    ensures forall k :: 0 <= k < |profiles| ==> IsProfileOf(faces, area, outlined[k], profiles[k])
  {
    var planes, patches := GroupFaces(faces);
    profiles, outlined := [], [];
    assert AreOutlined(faces, planes[..0], outlined);
    hide AreOutlined, HasOutline, IsProfile, LoopsIn, Planes, ArePatches, IsProfileOf;
    for i := 0 to |planes|
      invariant |outlined| == |profiles| && AreOutlined(faces, planes[..i], outlined)
      invariant forall k :: 0 <= k < |profiles| ==> IsProfileOf(faces, area, outlined[k], profiles[k])
    {
      var p := planes[i];
      PatchAt(faces, planes, patches, i);
      OnePlaneMore(faces, planes[..i], outlined, p);
      var profile := OuterProfile(patches[p], c => area(p, c));
      if profile.Some? {
        assert IsProfileOf(faces, area, p, profile.value) by {
          ProfileIsOf(faces, area, p, profile.value);
        }
        profiles, outlined := profiles + [profile.value], outlined + [p];
      }
    }
    assert planes[..|planes|] == planes;
    PlanesAre(faces, planes, patches);
  }

  lemma PatchAt(faces: seq<PlaneFace>, planes: seq<Plane>, patches: Patches, i: nat)
    requires ArePatches(faces, planes, patches) && i < |planes|
    ensures planes[i] !in planes[..i] && planes[..i + 1] == planes[..i] + [planes[i]]
    ensures planes[i] in patches && patches[planes[i]] == LoopsIn(faces, planes[i])
  {
    assert planes[i] in AsSet(planes);
  }

  lemma PlanesAre(faces: seq<PlaneFace>, planes: seq<Plane>, patches: Patches)
    requires ArePatches(faces, planes, patches)
    ensures planes == Planes(faces)
  {
  }

  lemma ProfileIsOf(faces: seq<PlaneFace>, area: (Plane, seq<Corner>) -> real, p: Plane, profile: seq<Corner>)
    requires IsProfile(LoopsIn(faces, p), c => area(p, c), profile)
    ensures IsProfileOf(faces, area, p, profile)
  {
  }
}
