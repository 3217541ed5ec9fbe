# What the SketchUp bridge promises

A Dafny model of the parts of the SketchUp plugin that are algorithms over shared
structure, with proofs of what they promise for every input, run and outcome of the
host. SketchUp itself appears as data (entity lists, definitions, instances) and as
replies that may be anything the host can answer.

- **Fingerprint of a model** (`SketchModel`, `Revision*`, `ModelRevision`,
  `ModelFingerprint`, `FingerprintOrder`, `FingerprintContents`): definitions are shared,
  so a model is a graph whose written-out tree can be exponentially larger. The memoised
  traversal is a class with the plugin's own counters and tables; its report is compared
  with a plain recursion over the unfolded tree, and both with what can be read off the
  fields of the stored entities (`PlacedEntities`, `EntityOccurrences`).
- **Canonical rings** (`CanonicalRing`): the least text among all rotations and
  reversals of a loop of points, found by a pruned search.
- **Two more traversals of the same graph** (`OccurrenceWalk`, `ResourceTotals`).
- **Copy on write** (`PathIsolation`, `IsolatedPath`, `PathEditing`, `LeafEdit`): making
  every definition on a path unique before one occurrence is edited.
- **Meshes** (`SurfaceMesh`, `SurfaceFans`, `TubeMesh`, `GridMesh`, `WallMesh`,
  `WallArea`, `WallBuilding`): tubes, lofts, domes, panels, and walls cut into cells
  around their openings. Vertices are known by their place in the construction, not by
  coordinates.
- **The file queue** (`QueueProtocol`, `QueueProcessing`): a state machine over single
  renames, writes and deletions, in which the process may stop between any two of them;
  the callback is proved to take only its steps. A request is known by the position at
  which it arrived, so one file name may be used again.
- **Transaction and sidecar state** (`Transaction`, `DocumentState`): the wrapper around
  every change of the model, and a build that runs in it. The host may have done what
  it was asked whatever it replies, except that what it confirms it has done.
- **Perimeters, shells, posts, scopes and paths** (`PerimeterWalk`, `PatchProfiles`,
  `ShellCount`, `PolylinePosts`, `CreationScope`, `EntityPathToken`).

`Options`, `TextOrder`, `Lists` and `Arithmetic` hold what several of these share. All files are
verified together by `dafny verify dfyconfig.toml`.

Assumptions the statements rest on: serialisation with SHA-256 is collision free where a
statement says so (`CollisionFree`); points are written as bracketed texts with one
closing bracket; different corners of a construction round to different coordinates;
one bridge at a time, which alone moves claimed files; the host's copy of a definition
has the same contents in the same order; nobody else changes the sidecar attribute
while it is cached (undoing an edit in the host would leave a stale cache entry);
every definition has a name; vertices of a list are numbered, and copies of the list
number theirs alike.

## Model

| member | source | states |
|---|---|---|
| ModelFingerprint.MerkleGraph | sketchup_plugin/alma_sketchup_mcp/model_revision.rb:48-76 | for every model and positive limit (a limit that is not positive is refused), read off the fields of the stored entities: the definitions reported are exactly the least set that holds what groups and instances of the root place and what theirs place in turn; each blocker stands exactly for its fault (a missing or repeated identity in some list, two definitions of one id or one without, a chain of placements that meets a definition twice, too many stored entities, more than 2^53-1 occurrences) as long as no two definitions share an id; the counters are the numbers of stored entities, definitions and occurrences, each occurrence a path of places counted once; a complete report, of a model without faults and of no other, holds the digest, count and definition reports of the unfolded, un-memoised model |
| ModelFingerprint.RunOutcome | sketchup_plugin/alma_sketchup_mcp/model_revision.rb:65-75 | all of that follows from what the traversal of the root list leaves in the shared state |
| ModelFingerprint.DeliveredIsTold | sketchup_plugin/alma_sketchup_mcp/model_revision.rb:48-76 | what a report says in terms of the traversal it says in terms of the stored fields |
| ModelFingerprint.DigestsCompareModels | sketchup_plugin/alma_sketchup_mcp/model_revision.rb:78-162 | two complete reports have equal root digests exactly when the models unfold to equal trees of sorted payloads: no nested change is missed, and how much is shared never matters |
| FingerprintContents.EqualDigestsMean | sketchup_plugin/alma_sketchup_mcp/model_revision.rb:78-162 | two complete reports have equal root digests exactly when the two roots hold the same facts over the same placed keys, and so do any two placed definitions of the same id, name and classification included: objects, sharing and order of enumeration are all that may differ |
| FingerprintContents.ChangeShows | sketchup_plugin/alma_sketchup_mcp/model_revision.rb:96-127 | changing what is read off a single entity of a definition placed at any depth, by groups or by component instances, changes the root digest |
| FingerprintContents.PlacedIsInside | sketchup_plugin/alma_sketchup_mcp/model_revision.rb:122-127 | every definition reached along any chain of placements is unfolded somewhere inside the unfolded model |
| FingerprintContents.ContentsUnfold | sketchup_plugin/alma_sketchup_mcp/model_revision.rb:78-162 | lists of the same contents unfold to equal trees, by descent through definitions matched by id |
| PlacedEntities.ReachableMeans | sketchup_plugin/alma_sketchup_mcp/model_revision.rb:122-127 | what is reached from the root is the least set closed under placing by a group or a component instance |
| PlacedEntities.WellFormedMeans | sketchup_plugin/alma_sketchup_mcp/model_revision.rb:122-127 | a model is well formed exactly when every definition that the root or a definition places exists |
| PlacedEntities.AcyclicMeans | sketchup_plugin/alma_sketchup_mcp/model_revision.rb:134-141 | the traversal calls a model acyclic exactly when no chain of placements from the root meets a definition twice |
| PlacedEntities.DistinctMeans | sketchup_plugin/alma_sketchup_mcp/model_revision.rb:86-92 | identities repeat exactly when some list holds two counted entities of one persistent id, or of one reference and no persistent id |
| PlacedEntities.SameKeyMeans | sketchup_plugin/alma_sketchup_mcp/model_revision.rb:164-185 | two definitions share a key exactly when they go by one persistent id, or by one reference and no persistent id |
| PlacedEntities.StoredMeans | sketchup_plugin/alma_sketchup_mcp/model_revision.rb:96 | the number of stored entities is that of the counted places in the root and in every placed definition |
| EntityOccurrences.PathsAreOccurrences | sketchup_plugin/alma_sketchup_mcp/model_revision.rb:94-95 | the paths of the walk are exactly the paths of counted entities through the definitions they place, none entered inside itself, each once and in walk order |
| EntityOccurrences.OccurrencesMean | sketchup_plugin/alma_sketchup_mcp/model_revision.rb:94-95 | the count of the unfolded model is the number of these paths |
| RevisionTree.EqualDigestsExactlyForEqualUnfoldings | sketchup_plugin/alma_sketchup_mcp/model_revision.rb:110-119 | the digest of the unfolded model, for a collision-free hash, is equal exactly for equal unfoldings |
| RevisionTree.TreeDigestInjective | sketchup_plugin/alma_sketchup_mcp/model_revision.rb:147-159 | equal definition digests mean equal definition trees, at any depth |
| FingerprintOrder.EnumerationOrderDoesNotShow | sketchup_plugin/alma_sketchup_mcp/model_revision.rb:78-93 | enumerating any entity lists in another order gives the identical report whenever one of the two runs is complete |
| RevisionTree.SortedOrderIsUnique | sketchup_plugin/alma_sketchup_mcp/model_revision.rb:80 | a list whose identities are known and distinct has one sorted order, although the sort promises nothing for equal keys |
| RevisionProgress.EqualIdentitiesAreAdjacent | sketchup_plugin/alma_sketchup_mcp/model_revision.rb:86-92 | sorting by the sort key brings equal identities next to each other, so comparing neighbors finds every duplicate |
| ModelRevision.SortEntries | sketchup_plugin/alma_sketchup_mcp/model_revision.rb:80 | a rearrangement of the entries in which those with a persistent id come first, in the order of its characters, then those with a reference, in the order of that, then the rest, and equal ones by kind and name; nothing more is relied on |
| RevisionTree.BeforeMeans | sketchup_plugin/alma_sketchup_mcp/model_revision.rb:80 | the sort key orders entities by their fields in exactly this way |
| ModelRevision.RevisionRun.EntitiesReport | sketchup_plugin/alma_sketchup_mcp/model_revision.rb:78-120 | one list, with cycles, duplicates, budget and overflow: keeps the invariant of the run, terminates on cyclic graphs, and while the run is complete returns the digest and the saturated count of the unfolded list |
| ModelRevision.RevisionRun.ChildReport | sketchup_plugin/alma_sketchup_mcp/model_revision.rb:122-127 | a report exactly for a group or a component instance that places a definition: the one of what it places |
| ModelRevision.RevisionRun.DefinitionReport | sketchup_plugin/alma_sketchup_mcp/model_revision.rb:129-162 | stored report, cycle mark or one traversal; the measure is the set of keys neither stored nor open, so each key is traversed once |
| ModelRevision.RevisionRun.DefinitionKey | sketchup_plugin/alma_sketchup_mcp/model_revision.rb:164-185 | the key by persistent id, reference or runtime identity; a missing identity and a clash are marked when the definition is first met |
| ModelRevision.RevisionRun.SafeCountAdd | sketchup_plugin/alma_sketchup_mcp/model_revision.rb:342-348 | addition that stays at 2^53-1 and marks the overflow exactly when it would be passed |
| ModelRevision.RevisionRun.CheckIdentity | sketchup_plugin/alma_sketchup_mcp/model_revision.rb:86-92 | marks an unavailable identity, and an available one that equals its predecessor |
| ModelRevision.RevisionRun.CountEntity | sketchup_plugin/alma_sketchup_mcp/model_revision.rb:96-100 | counts a stored entity and marks the budget as exceeded exactly when it is |
| ModelRevision.RevisionRun.Mark | sketchup_plugin/alma_sketchup_mcp/model_revision.rb:350-353 | a run that was marked once is not complete any more |
| RevisionOutcome.FinishedIsReachable | sketchup_plugin/alma_sketchup_mcp/model_revision.rb:129-162 | without clashing keys exactly the reachable definitions have been traversed |
| RevisionOutcome.SoundRunsAreAcyclic | sketchup_plugin/alma_sketchup_mcp/model_revision.rb:134-141 | a run without cycle mark proves the reachable graph acyclic |
| RevisionOutcome.CycleIsReported | sketchup_plugin/alma_sketchup_mcp/model_revision.rb:134-141 | the cycle blocker stands exactly for a reachable cycle |
| RevisionOutcome.OverflowIsReported | sketchup_plugin/alma_sketchup_mcp/model_revision.rb:94-95 | on an acyclic graph the overflow blocker stands exactly for more than 2^53-1 occurrences |
| RevisionOutcome.StoredEntitiesAreCounted | sketchup_plugin/alma_sketchup_mcp/model_revision.rb:96 | the entity counter is the number of stored entities below the reachable definitions and the root |
| RevisionOutcome.ListFaultsAreReported | sketchup_plugin/alma_sketchup_mcp/model_revision.rb:88-91 | the two identity blockers stand exactly for a missing and for a repeated identity in some covered list |
| RevisionSteps.StoredKeepsInv | sketchup_plugin/alma_sketchup_mcp/model_revision.rb:143-161 | storing the report of a traversed definition keeps every stored report equal to the un-memoised one |
| CanonicalRing.RevisionCanonicalRing | sketchup_plugin/alma_sketchup_mcp/model_revision.rb:272-288 | the result is a turn of the ring (a rotation of it or of its reversal), and its text is the start of the text of every turn or has the lesser character where the two first differ, whichever point a turn starts at and whichever way it is read |
| CanonicalRing.CanonicalIsLeast | sketchup_plugin/alma_sketchup_mcp/model_revision.rb:272-288 | the same by places: every way to read the ring from one of its points, onward or backward, gives a text that does not come before that of the result |
| CanonicalRing.PrunedSearchIsFull | sketchup_plugin/alma_sketchup_mcp/model_revision.rb:278-287 | trying only the turns that start at the least point key gives a least text over all turns |
| CanonicalRing.LesserStart | sketchup_plugin/alma_sketchup_mcp/model_revision.rb:276-279 | because no point text is the start of another, the first point decides the order of two ring texts |
| CanonicalRing.CompleteInvariant | sketchup_plugin/alma_sketchup_mcp/model_revision.rb:269-288 | two rings have the same form exactly when one is a rotation of the other or of its reversal |
| CanonicalRing.Idempotent | sketchup_plugin/alma_sketchup_mcp/model_revision.rb:272-288 | the form of a form is itself |
| CanonicalRing.SameLoopTransitive | sketchup_plugin/alma_sketchup_mcp/model_revision.rb:281-286 | being a turn of each other is transitive (with symmetry, an equivalence) |
| CanonicalRing.TextInjective | sketchup_plugin/alma_sketchup_mcp/model_revision.rb:290-292 | different rings have different texts |
| CanonicalRing.TextOfJoined | sketchup_plugin/alma_sketchup_mcp/model_revision.rb:290-292 | the text of a ring is that of its points with commas between them, in brackets: of two parts, theirs joined by a comma |
| CanonicalRing.TextOfOne | sketchup_plugin/alma_sketchup_mcp/model_revision.rb:290-292 | the text of no point is a pair of brackets, that of one the point in brackets |
| TextOrder.LeqMeans | sketchup_plugin/alma_sketchup_mcp/model_revision.rb:80 | one text is at most another exactly when it is the start of the other or has the lesser character where the two first differ |
| TextOrder.ListLeqMeans | sketchup_plugin/alma_sketchup_mcp/model_revision.rb:80 | the same of lists of texts: where they first differ their texts decide |
| OccurrenceWalk.RecursiveEntityIndex | sketchup_plugin/alma_sketchup_mcp.rb:1601-1642 | everything listed is an occurrence; the walk counts at most as many as there are, and counts and lists them all in walk order, up to its limit, exactly when nothing hides: no chain of definitions from the root that all look different ends at one that looks like an earlier one, is none of them, and stores something. Two definitions look alike by the persistent id, which is empty for one that answers nil, and by the name only of one that has no such method. Truncation is reported exactly when there were more than the limit |
| OccurrenceWalk.IndexState.Walk | sketchup_plugin/alma_sketchup_mcp.rb:1620-1642 | one list of the walk, with its counter and its limited list of entries; ends for cyclic graphs too |
| OccurrenceWalk.WalkedIsPart | sketchup_plugin/alma_sketchup_mcp.rb:1636-1640 | what the walk lists below any list is what there is exactly when it skips nothing, and shorter otherwise |
| OccurrenceWalk.MissesMeans | sketchup_plugin/alma_sketchup_mcp.rb:1636-1640 | what the walk skips because of a key it has met is nothing exactly when nothing hides in that sense, as it is where no two different definitions along a chain look alike |
| OccurrenceWalk.SharedKeyHidesEntities | sketchup_plugin/alma_sketchup_mcp.rb:1637-1638 | two definitions of different names that answer nil for a persistent id, one inside the other: one hides, and the walk sees two of three entities, although the fingerprint of the same model is complete and counts three |
| OccurrenceWalk.FingerprintCountsTheWalk | sketchup_plugin/alma_sketchup_mcp/model_revision.rb:94-95 | on acyclic models the memoised count is the number of occurrences, cut off at 2^53-1, and it is that of the walk wherever nothing hides |
| ResourceTotals.NativeGeometryResourceTotals | sketchup_plugin/alma_sketchup_mcp/snapshot.rb:133-153 | totals are reported only for models without a chain that meets a definition twice, and add up what the root stores itself and, for every occurrence of a group or an instance, what its definition stores; a refusal has its cause, a cycle is always refused, a model without one and of chains of at most 64 definitions never |
| ResourceTotals.ExpansionIsCharged | sketchup_plugin/alma_sketchup_mcp/snapshot.rb:133-153 | the naive expansion of an acyclic model charges every occurrence exactly once |
| ResourceTotals.Expansion.Expand | sketchup_plugin/alma_sketchup_mcp/snapshot.rb:135-146 | the cached expansion of one list: every cached value is the naive one, whatever ancestors it was computed under |
| ResourceTotals.Expansion.NestedTotals | sketchup_plugin/alma_sketchup_mcp/snapshot.rb:141-142 | refuses exactly where a definition lies among its own ancestors, else serves or fills the cache |
| ResourceTotals.ExpandBelowClosedSet | sketchup_plugin/alma_sketchup_mcp/snapshot.rb:135-146 | what is expanded below does not depend on which unrelated definitions are open above |
| PathEditing.Host.IsolatePath | sketchup_plugin/alma_sketchup_mcp/model_geometry.rb:127-143 | isolating never changes the unfolded model, whether it succeeds or not; if it succeeds, every entity of the path was found at its own place and no definition on the path is placed twice; for a path without repeats it fails exactly when, below an entity whose definition another instance places too, some entity of the path lies beside another instance for which the signature of payload and definition is the same |
| PathEditing.OnlyTwinsConfuse | sketchup_plugin/alma_sketchup_mcp/model_geometry.rb:122-137 | where signatures tell payloads and definitions apart, isolation fails only for a sibling of the same payload that places the same definition |
| PathEditing.UnambiguousMeans | sketchup_plugin/alma_sketchup_mcp/model_geometry.rb:135-137 | the candidates are unambiguous exactly when no sibling below a shared definition looks like the entity of the path |
| PathEditing.Host.MakeUniqueInstance | sketchup_plugin/alma_sketchup_mcp/model_geometry.rb:138 | the native primitive: the instance gets a definition of its own with copies of all entities in their order; nothing else changes, nothing else places the new definition, the containment rules hold, and the unfolded model is the one before |
| IsolatedPath.ChosenIsOwnClone | sketchup_plugin/alma_sketchup_mcp/model_geometry.rb:135-137 | the chosen candidate is the copy at the entity's own place, never a look-alike; none is chosen exactly when the list is a copy and a sibling has the same signature |
| PathIsolation.MadeUniqueUnfolds | sketchup_plugin/alma_sketchup_mcp/model_geometry.rb:138 | copying a definition for one instance leaves every unfolding as it was |
| PathIsolation.MadeUniqueWellFormed | sketchup_plugin/alma_sketchup_mcp/model_geometry.rb:138 | the copy obeys the containment rules of the host |
| PathIsolation.UnfoldingIsUnique | sketchup_plugin/alma_sketchup_mcp/model_geometry.rb:127-143 | a list unfolds to at most one tree |
| LeafEdit.EditShowsOnlyAtThePath | sketchup_plugin/alma_sketchup_mcp/model_geometry.rb:127-143 | after a successful isolation any change of the contents of the leaf definition replaces the subtree at the requested path, and nothing else of the unfolded model |
| LeafEdit.EditBelowShowsThere | sketchup_plugin/alma_sketchup_mcp/model_geometry.rb:138-142 | where every definition on a path is placed once, a change of what the last one holds shows at the end of the path and nowhere else |
| LeafEdit.RemapHandles | sketchup_plugin/alma_sketchup_mcp/model_geometry.rb:162-172 | the reviewed handles are exactly the edges and faces of the list and the ends of its edges; each is mapped to its own copy, the entity at the same place or the vertex of the same number, and the mapping fails exactly when two of them look the same |
| LeafEdit.SignaturesTell | sketchup_plugin/alma_sketchup_mcp/model_geometry.rb:162-172 | the signatures of a list without repeats are distinct exactly when no two of its edges, faces and vertices look the same |
| TubeMesh.TubeMeshFromPath | sketchup_plugin/alma_sketchup_mcp/surface_operations.rb:326-352 | for every number of path points and at least three segments: each directed edge occurs once and its reverse once, the triangles around every vertex form one fan, the mesh is in one piece, every vertex is used and no index is out of range, and V-E+F is 2 for an open tube and 0 for a closed one: a sphere and a torus |
| TubeMesh.LoftFaces | sketchup_plugin/alma_sketchup_mcp/surface_operations.rb:18-31 | the same of lofts through any number of sections |
| TubeMesh.MeshIsClosed | sketchup_plugin/alma_sketchup_mcp/surface_operations.rb:174-186 | any list of the named triangles, each once, is a closed oriented surface |
| TubeMesh.SideMeets | sketchup_plugin/alma_sketchup_mcp/surface_operations.rb:338-350 | which triangle and side runs along the reverse of a given side, across rings, joints and caps |
| TubeMesh.NameTurnsUp | sketchup_plugin/alma_sketchup_mcp/surface_operations.rb:338-350 | turning around any vertex goes through its neighbors in the ring, in the next ring, over the caps and in the ring before, and comes back only at the first: one fan |
| TubeMesh.VertexStepsDown | sketchup_plugin/alma_sketchup_mcp/surface_operations.rb:338-344 | every vertex but the first is joined to one of lesser number, so that the mesh is in one piece |
| TubeMesh.JoinRings | sketchup_plugin/alma_sketchup_mcp/surface_operations.rb:341-344 | the two triangles of every segment between two rings |
| TubeMesh.AddCaps | sketchup_plugin/alma_sketchup_mcp/surface_operations.rb:346-350 | the two fans that close an open tube |
| GridMesh.AddDomedSurface | sketchup_plugin/alma_sketchup_mcp/surface_operations.rb:379-404 | for every grid of at least one cell: each directed edge once and its reverse once, one fan around every vertex, in one piece, with V-E+F = 2, and every vertex used: a sphere |
| GridMesh.AddBowedPanel | sketchup_plugin/alma_sketchup_mcp/surface_operations.rb:420-446 | the same of the panel, which draws its sheets in the other order |
| GridMesh.AddGridSkirtFaces | sketchup_plugin/alma_sketchup_mcp/surface_operations.rb:450-463 | the skirt closes the rims of the two sheets |
| GridMesh.SideMeets | sketchup_plugin/alma_sketchup_mcp/surface_operations.rb:396-463 | which triangle and side runs along the reverse of a given side, inside the sheets, along the skirt and at its corners |
| GridMesh.NameTurnsUp | sketchup_plugin/alma_sketchup_mcp/surface_operations.rb:396-463 | the same of the grid: inside the sheets, along the rims, where the skirt comes in between, and at the corners |
| GridMesh.PointStepsDown | sketchup_plugin/alma_sketchup_mcp/surface_operations.rb:396-463 | every point but the first is joined to one of lesser number |
| SurfaceFans.RankedIsSurface | sketchup_plugin/alma_sketchup_mcp/surface_operations.rb:338-350 | a closed oriented mesh is a surface in one piece without pinched vertices if its neighbors can be ranked around every vertex and every vertex steps down |
| SurfaceMesh.BlueprintIsClosed | sketchup_plugin/alma_sketchup_mcp/surface_operations.rb:338-350 | a mesh is a closed oriented surface if the owner of every side and of every reversed side can be told |
| SurfaceMesh.EdgesAreHalfTheSides | sketchup_plugin/alma_sketchup_mcp/surface_operations.rb:338-350 | a closed oriented surface has three edges for every two triangles |
| WallMesh.BuildJoinedWallMesh | sketchup_plugin/alma_sketchup_mcp/architecture_operations.rb:594-636 | for every wall and every choice of kept cells: the retained quads are exactly those that belong to one kept cell, also across joints, each once; on each side of each kept cell there is one exactly when no kept cell lies next to it there, and it runs around that side so that its normal points out of the cell; and for any two vertices as many retained faces run one way as the other |
| WallMesh.HullFacesOutwards | sketchup_plugin/alma_sketchup_mcp/architecture_operations.rb:620-634 | in coordinates along the wall, across it and up: every retained quad covers a whole side of one kept cell, its first two steps turn around the direction that leads out of the cell, and every side without a kept neighbor has one such quad |
| WallMesh.AddFace | sketchup_plugin/alma_sketchup_mcp/architecture_operations.rb:603-606 | toggling a quad keeps both, because a quad that is met again runs the other way |
| WallMesh.SameKey | sketchup_plugin/alma_sketchup_mcp/architecture_operations.rb:603-606 | two faces of cells have the same key exactly when they lie on each other: top and bottom, or end and start, also across a joint |
| WallMesh.SharedRunsBack | sketchup_plugin/alma_sketchup_mcp/architecture_operations.rb:535-544 | faces that lie on each other run around in opposite directions |
| WallMesh.CellRunsEvenly | sketchup_plugin/alma_sketchup_mcp/architecture_operations.rb:535-544 | a whole cell runs along each of its edges once in each direction |
| WallArea.NormalizeWallOpenings | sketchup_plugin/alma_sketchup_mcp/architecture_operations.rb:546-568 | accepts exactly the openings that are not empty, lie inside their segment and the wall, and pairwise have no point inside both of them |
| WallArea.AcceptedMeans | sketchup_plugin/alma_sketchup_mcp/architecture_operations.rb:546-568 | fitting is lying inside, and overlapping is having a point inside both, in the same segment |
| WallArea.AcceptedAreApart | sketchup_plugin/alma_sketchup_mcp/architecture_operations.rb:561-566 | accepted openings of a segment have no inner point in common |
| WallArea.CutsAlong | sketchup_plugin/alma_sketchup_mcp/architecture_operations.rb:615 | the cuts along a segment: its ends and the edges of its openings, increasing, no others |
| WallArea.CutsUp | sketchup_plugin/alma_sketchup_mcp/architecture_operations.rb:594 | the same of the cuts up the wall, for all openings |
| WallArea.CellInOrOut | sketchup_plugin/alma_sketchup_mcp/architecture_operations.rb:627-630 | every cell lies wholly inside or wholly outside each opening |
| WallArea.AreaIsConserved | sketchup_plugin/alma_sketchup_mcp/architecture_operations.rb:594-634 | the areas of the kept cells of a segment sum to its area less that of its openings |
| WallBuilding.BuildWall | sketchup_plugin/alma_sketchup_mcp/architecture_operations.rb:570-636 | openings are refused exactly when one is empty or sticks out, or two of a segment have a point inside both; otherwise every segment is cut from end to end and foot to top along the edges of its openings, every cell lies wholly in or wholly out of each opening, a cell is kept exactly when no point inside it lies in an opening, the mesh is the hull of these cells with every face outwards, and the kept area of every segment is length by height less its openings |
| WallBuilding.KeptIsFree | sketchup_plugin/alma_sketchup_mcp/architecture_operations.rb:627-630 | a cell whose middle lies in no opening has no point inside it that does |
| PolylinePosts.PointsAlongPolyline | sketchup_plugin/alma_sketchup_mcp/architecture_operations.rb:348-364 | for all segment lengths: neighboring posts are at least the spacing apart, and more by less than 1e-6 and the total of the segments shorter than 1e-6 that lie between them; the same bounds what is left over at the end, and every parameter lies in [0, 1). Without such segments the posts are even to 1e-6; a path of nothing but such segments has only the first post |
| PolylinePosts.PostsOfSegment | sketchup_plugin/alma_sketchup_mcp/architecture_operations.rb:351-361 | one segment: as many posts as still fit, and what is neglected after them; the inner loop ends |
| PolylinePosts.ShortPathPassesAnyBound | sketchup_plugin/alma_sketchup_mcp/architecture_operations.rb:360-361 | paths of nothing but negligible segments pass any length, so that these cannot be left out of the bound |
| QueueProtocol.RunKeepsInv | sketchup_plugin/alma_sketchup_mcp.rb:168-233 | the invariant of the queue holds after every step of every run, with stops and restarts between any two steps |
| QueueProtocol.ExactlyOneFate | sketchup_plugin/alma_sketchup_mcp.rb:168-233 | every request that ever arrived is in exactly one of these places: in the queue under its name, claimed under its name, released, withdrawn or discarded |
| QueueProtocol.DispatchedAtMostOnce | sketchup_plugin/alma_sketchup_mcp.rb:224-233 | no request is dispatched twice |
| QueueProtocol.AtMostOneClaim | sketchup_plugin/alma_sketchup_mcp.rb:168-171 | there is never more than one claim |
| QueueProtocol.ClaimOutlastsTheResponse | sketchup_plugin/alma_sketchup_mcp.rb:199-215 | the claim of a request goes away only when a response stands under its id, or under its file name where it cannot be read or gives no id, or by the operator |
| QueueProtocol.DispatchIsOfTheOnlyClaim | sketchup_plugin/alma_sketchup_mcp.rb:171-187 | what is dispatched is the only claim there is, and has not been dispatched before |
| QueueProtocol.RetainedClaimStopsTheQueue | sketchup_plugin/alma_sketchup_mcp.rb:168-171 | while a claim nobody works on is retained nothing is dispatched and nothing answered |
| QueueProtocol.ReleasedIsAnswered | sketchup_plugin/alma_sketchup_mcp.rb:183-200 | with distinct ids a released request that names an id has its own outcome under that id, and one that cannot be read or names none has it under its file name; what was read was dispatched once, what was not never |
| QueueProtocol.TokenMeans | sketchup_plugin/alma_sketchup_mcp.rb:419-426 | a response is filed only under a token: a letter or digit and at most two hundred more characters, each a letter, a digit, a dot, a hyphen or an underscore, so that no response leaves its directory |
| QueueProtocol.ReplayIsNeverMet | sketchup_plugin/alma_sketchup_mcp.rb:227 | the claim never meets a claimed file of its own name: what refuses a replay is not reached |
| QueueProtocol.NestedTickDoesNothing | sketchup_plugin/alma_sketchup_mcp.rb:168-171 | a timer that fires during a dispatch does nothing |
| QueueProtocol.StoppingIsARun | sketchup_plugin/alma_sketchup_mcp.rb:132-149 | the bridge may stop after any step and be started again, and a claim that stood is then retained, so that nothing is dispatched until it is inspected |
| QueueProcessing.Bridge.ProcessPendingRequests | sketchup_plugin/alma_sketchup_mcp.rb:168-222 | the callback takes steps of the protocol and no others and dispatches in the order of file names, character by character; unless a claim stands or a rename raises, every request there was when it began is released when it ends, or was taken back; it raises only where a file operation failed, and a claim stands at its end only if one stood before, a file operation failed, or the id of its request cannot name a file |
| QueueProcessing.Bridge.ProcessOne | sketchup_plugin/alma_sketchup_mcp.rb:173-221 | one request: claimed, answered, written, released; the callback goes on only when nothing of it is left to do |
| QueueProcessing.Bridge.ClaimRequest | sketchup_plugin/alma_sketchup_mcp.rb:224-233 | the claiming rename: a missing file is skipped, and it raises exactly when the rename of a file that is there fails |
| QueueProcessing.Bridge.Answer | sketchup_plugin/alma_sketchup_mcp.rb:181-187 | the outcome of the dispatch, or of the failure to read the request, in which case nothing is dispatched |
| QueueProcessing.Bridge.WriteResponse | sketchup_plugin/alma_sketchup_mcp.rb:395-426 | the response appears whole or not at all, under the id the request names, or under the name of its file where it cannot be read or names none; it appears exactly when that is a token and no file operation fails |
| QueueProcessing.Bridge.ReleaseClaim | sketchup_plugin/alma_sketchup_mcp.rb:205-214 | the claim is deleted after its response, or stays exactly when that fails |
| Transaction.Bridge.WithAtomicModelTransaction | sketchup_plugin/alma_sketchup_mcp.rb:452-546 | for every combination of replies of the host, true or not to what it did, and endings of the block: committed exactly when the block gives a value that can be sent, aborted exactly when it fails before that, never aborted once a commit was attempted; what a failure says of the commit is true, but that a declined start is reported as not started exactly truly when the host had begun nothing, and an error the block raised in the bridge's own form exactly when the block did not claim a commit or that nothing was started; a failure names the phase in which it arose, and empties the cache |
| Transaction.Bridge.Conclude | sketchup_plugin/alma_sketchup_mcp.rb:465-546 | the same from the reply to the start on, for a block that has run |
| DocumentState.RoundTrip | sketchup_plugin/alma_sketchup_mcp/document_state.rb:151-161 | writing a state and loading it gives it back exactly when its lists are lists and its hashes hashes or nothing |
| DocumentState.LoadIsWellTyped | sketchup_plugin/alma_sketchup_mcp/document_state.rb:235-264 | whatever the attribute holds, what is loaded is well typed |
| DocumentState.LoadTells | sketchup_plugin/alma_sketchup_mcp/document_state.rb:235-264 | an absent or empty attribute loads to empty fields; one that is longer than a million bytes or holds no hash of version 1 to these and the warning that it is invalid; any other to the fields it holds, of which those of the wrong type are emptied |
| DocumentState.ToldOnce | sketchup_plugin/alma_sketchup_mcp/document_state.rb:235-264 | what an attribute tells settles every field of what is loaded |
| DocumentState.EditsTell | sketchup_plugin/alma_sketchup_mcp/document_state.rb:163-176 | edits append to lists in turn and leave the last value set in the other fields |
| DocumentState.Bridge.DocumentState | sketchup_plugin/alma_sketchup_mcp/document_state.rb:117-129 | cached or not, the state is what loading the attribute gives |
| DocumentState.Bridge.TouchDocumentStateCache | sketchup_plugin/alma_sketchup_mcp/document_state.rb:266-274 | the order becomes the newest 16 keys with this one last, each once, and the cache holds exactly these |
| DocumentState.NewestMeans | sketchup_plugin/alma_sketchup_mcp/document_state.rb:266-274 | the newest keys are all of them, or the last 16 |
| DocumentState.Bridge.ResetDocumentState | sketchup_plugin/alma_sketchup_mcp/document_state.rb:131-141 | an empty state in the cache, its key the newest; the oldest beyond 16 are dropped, others keep theirs |
| DocumentState.Bridge.DiscardDocumentStateCache | sketchup_plugin/alma_sketchup_mcp/document_state.rb:143-149 | removes the document from the cache and from its order |
| DocumentState.Bridge.PersistDocumentState | sketchup_plugin/alma_sketchup_mcp/document_state.rb:151-161 | writes exactly the cached fields and the version unless the text is longer than a million bytes, and then loading gives the cached state back |
| DocumentState.Bridge.BuildModel | sketchup_plugin/alma_sketchup_mcp.rb:690-716 | a build in that same wrapper: at its end every cached state is what loading its attribute gives, unless the block was left by what the wrapper does not rescue, and then exactly when stopping there leaves no trace (nothing was edited yet, the state was written, or the edits come to nothing); success means the attribute loads to the edited state; what a build leaves does not depend on what was cached; no other document is touched |
| PerimeterWalk.PatchOutline | sketchup_plugin/alma_sketchup_mcp/geometry_evidence.rb:140-157 | of one patch: there is an outline exactly when there are edges used once and these meet two at every corner; then its loops run along each such edge once and along no other, and meet every corner once; every loop starts at the corner that the edges met first of all those not yet walked |
| PerimeterWalk.CountEdges | sketchup_plugin/alma_sketchup_mcp/geometry_evidence.rb:130-138 | how many sides run along every edge, whichever way they run |
| PerimeterWalk.SelectBoundary | sketchup_plugin/alma_sketchup_mcp/geometry_evidence.rb:141 | the edges that exactly one side runs along |
| PerimeterWalk.Neighbors | sketchup_plugin/alma_sketchup_mcp/geometry_evidence.rb:142-143 | the neighbors of every corner, in the order of the edges |
| PerimeterWalk.WalkLoop | sketchup_plugin/alma_sketchup_mcp/geometry_evidence.rb:148-156 | the walk ends, gives a closed cycle of boundary edges, and never reaches the raise |
| PerimeterWalk.WalkLoops | sketchup_plugin/alma_sketchup_mcp/geometry_evidence.rb:145-157 | the cycles split the corners |
| PerimeterWalk.TrailGoesOn | sketchup_plugin/alma_sketchup_mcp/geometry_evidence.rb:151-154 | the next corner is the first one again or one the trail has not met |
| PatchProfiles.CoplanarOuterProfiles | sketchup_plugin/alma_sketchup_mcp/geometry_evidence.rb:111-164 | faces in one plane make one patch; exactly the patches with an outline have a profile, which is the loop of that outline that encloses the most, and the first of these |
| PatchProfiles.GroupFaces | sketchup_plugin/alma_sketchup_mcp/geometry_evidence.rb:112-139 | the planes of the faces in the order met, each with all loops of its faces |
| PatchProfiles.SameDegrees | sketchup_plugin/alma_sketchup_mcp/geometry_evidence.rb:144 | whether a patch has an outline does not depend on the order in which its boundary edges are listed |
| ShellCount.DetailFaceShellCount | sketchup_plugin/alma_sketchup_mcp/geometry_regions.rb:159-174 | the number of connected parts of the given faces under sharing an edge |
| ShellCount.FloodShell | sketchup_plugin/alma_sketchup_mcp/geometry_regions.rb:166-171 | one flood takes exactly the part of the face it began with |
| ShellCount.SameShell | sketchup_plugin/alma_sketchup_mcp/geometry_regions.rb:159-174 | every face of a part has the same part |
| CreationScope.ValidateCreationScope | sketchup_plugin/alma_sketchup_mcp/creation_scope.rb:9-114 | accepts exactly the documents whose definitions are new, at the top and in order, whose instances are of definitions declared before or reused, and which use all they declare |
| CreationScope.Validator.Visit | sketchup_plugin/alma_sketchup_mcp/creation_scope.rb:59-103 | one list of operations, nested lists included, against the same rules |
| CreationScope.Model.Build | sketchup_plugin/alma_sketchup_mcp/component_operations.rb:6-29 | carrying out an accepted document: every instance finds its definition, every definition there was keeps its contents, and the graph of definitions stays without cycles |
| CreationScope.Model.AddComponentDefinition | sketchup_plugin/alma_sketchup_mcp/component_operations.rb:6-29 | a definition filled by its operations; fails exactly on geometry that cannot be made there |
| CreationScope.Model.AddComponentInstance | sketchup_plugin/alma_sketchup_mcp/component_operations.rb:157-160 | an instance in the model or in a definition; fails exactly when its definition is not there |
| CreationScope.NewDefinition | sketchup_plugin/alma_sketchup_mcp/creation_scope.rb:75-81 | a new definition that refers only to definitions there were closes no cycle |
| CreationScope.ContentRefers | sketchup_plugin/alma_sketchup_mcp/creation_scope.rb:94-97 | what is accepted inside a definition refers only to what was declared before it or reused |
| EntityPathToken.DecodeOfEncode | sketchup_plugin/alma_sketchup_mcp.rb:1869-1876 | decoding a token gives back the bytes; a token has no slash and is empty only for the empty name |
| EntityPathToken.PaddingRestored | sketchup_plugin/alma_sketchup_mcp.rb:1873-1876 | the padding put back is the padding taken away, for every length |
| EntityPathToken.EncodeOfDecode | sketchup_plugin/alma_sketchup_mcp.rb:1869-1876 | a token of the url alphabet that decodes is the encoding of what it decodes to |
| EntityPathToken.ParseOfPrint | sketchup_plugin/alma_sketchup_mcp.rb:2346-2351 | parsing undoes printing exactly for groups and instances with nonempty names and references |
| EntityPathToken.ParsedIsPathText | sketchup_plugin/alma_sketchup_mcp.rb:2346-2351 | what is parsed names a group or an instance by two texts that are not empty and have no slash, and gives their decoded bytes |
| EntityPathToken.PathTextIsParsed | sketchup_plugin/alma_sketchup_mcp.rb:2346-2351 | and every text of that form is parsed whose two tokens decode |

## Left out

- Entity payloads: materials, textures, classification, transformations and geometry summaries of an entity are one uninterpreted text; of these only the canonical ring is modelled.
- A group or instance whose definition the host does not give is taken to place nothing.
- The blocker list of the report is kept in the order of first marking; removing repeats and sorting it when the report is made is not modelled.
- Ruby's unstable sort: only that the result is a sorted rearrangement is used.
- `recursive_roots` and `assembly_projection` of the occurrence walk, and the stored (unexpanded) resource totals.
- Reference locks, deleted paths and other checks before a path is isolated, and the edits themselves: an edit is any change of what the leaf definition holds.
- `make_unique_persistent_path`, a weaker variant that falls back to names and ordinals.
- Coordinates: trigonometry, frame transport, rounding and tolerances. GEOMETRY_EPSILON is taken as 0 in the walls, so openings that touch or overlap by less than it are not modelled.
- WallMesh.BuildJoinedWallMesh: edges of the retained faces are balanced but need not have exactly two faces; openings that touch at a corner give four.
- Miter checks, elevation checks and the simplicity of the outline of a wall, and the numbering of its vertices in the order met.
- Shells from front and side profiles, rounded boxes and footprint extrusions: their caps run the same way as their sides, so they are closed but not oriented.
- The end point that `points_along_polyline` appends when the last post is not on it.
- Dispatching itself (the operations, guards and their error texts and codes), timing, audit files and the temporary file that a failed write may leave behind.
- Requests that share an id: a later response replaces an earlier one, so the statement about responses asks for distinct ids.
- Transaction.Bridge.WithAtomicModelTransaction: exceptions that are no StandardError are modelled where the block raises them, not where the host does.
- The cache signature of a document, which is its object id again and so never differs; the cache is by order of storing, not of use.
- PatchProfiles.CoplanarOuterProfiles: the plane of a face and the area inside a loop are given, not computed from coordinates.
- CreationScope.ValidateCreationScope: materials, cuts, tags and host metadata, uniqueness against root objects that exist, and geometry operations one by one, because they do not touch the definition graph.
- CreationScope.Validator.Visit: the same operations are left out of the lists it goes through.
- Text encodings of names: tokens are over bytes.
