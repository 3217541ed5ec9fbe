// The fingerprint of a whole model, and what its report can be relied on for.
module ModelFingerprint {
  import opened Options
  import opened SketchModel
  import opened RevisionTree
  import opened RevisionInvariant
  import opened RevisionSteps
  import opened ModelRevision
  import opened RevisionOutcome
  import opened PlacedEntities
  import opened EntityOccurrences

  datatype MerkleReport = MerkleReport(
    rootDigest: Digest,
    logicalOccurrences: nat,
    definitionReports: map<DefKey, Report>,
    uniqueEntities: nat,
    reachableDefinitions: nat,
    complete: bool,
    blockers: seq<Blocker>)

  // Each blocker stands exactly for its fault, and the counters are the numbers
  // they are named after, whether or not the run is complete.
  ghost predicate Truthful(m: Model, limit: nat, r: MerkleReport)
    requires WellFormed(m)
  {
    && (EntityIdentityUnavailable in r.blockers <==> !EverywhereAvailable(m))
    && (DuplicateEntityIdentity in r.blockers <==> !EverywhereDistinct(m))
    && (DefinitionIdentityUnavailable in r.blockers <==> !KeysAvailable(m, ReachableSet(m)))
    && (RecursiveDefinitionCycle in r.blockers <==> !Acyclic(m))
    && (UniqueEntityLimitExceeded in r.blockers <==> StoredEntities(m) > limit)
    && (Acyclic(m) ==> (LogicalOccurrenceCountOverflow in r.blockers <==> Occurrences(m) > SAFE_INTEGER_MAX))
    && (Acyclic(m) ==> r.logicalOccurrences == Min(Occurrences(m), SAFE_INTEGER_MAX))
    && r.uniqueEntities == StoredEntities(m)
    && r.reachableDefinitions == |ReachableSet(m)|
    && r.definitionReports.Keys == set d | d in ReachableSet(m) :: KeyOf(m, d)
  }

  // The digest and the report of every definition are those of the unfolded,
  // un-memoised model.
  ghost predicate Faithful(m: Model, hash: Source -> Digest, r: MerkleReport)
    requires WellFormed(m)
  {
    && r.rootDigest == ListDigest(hash, Unfold(m))
    && r.logicalOccurrences == Occurrences(m)
    && (forall d :: d in ReachableSet(m) ==>
          var t := UnfoldDefinition(m, d, {});
          && KeyOf(m, d) in r.definitionReports
          && r.definitionReports[KeyOf(m, d)] == Report(KeyOf(m, d), TreeDigest(hash, t), TreeCount(t)))
  }

  // What a caller gets, for any model and any limit.
  ghost predicate Delivered(m: Model, hash: Source -> Digest, limit: nat, r: MerkleReport)
    requires WellFormed(m)
  {
    && (r.complete <==> r.blockers == [])
    && (r.complete <==> Fingerprintable(m, limit))
    && (r.complete ==> Faithful(m, hash, r))
    && (DuplicateDefinitionIdentity in r.blockers <==> KeysClash(m, ReachableSet(m)))
    && (!KeysClash(m, ReachableSet(m)) ==> Truthful(m, limit, r))
  }

  // The same read off the fields of what is stored: what each blocker and each counter
  // of a report stands for.
  ghost predicate Told(m: Model, limit: nat, r: MerkleReport) {
    && (r.complete <==> r.blockers == [])
    && (DuplicateDefinitionIdentity in r.blockers <==> HasAmbiguousIds(m))
    && (!HasAmbiguousIds(m) ==> ToldApart(m, limit, r))
  }

  ghost predicate ToldApart(m: Model, limit: nat, r: MerkleReport) {
    && (EntityIdentityUnavailable in r.blockers <==> HasUnidentified(m))
    && (DuplicateEntityIdentity in r.blockers <==> HasTwins(m))
    && (DefinitionIdentityUnavailable in r.blockers <==> HasUnkeyed(m))
    && (RecursiveDefinitionCycle in r.blockers <==> HasCycle(m))
    && (UniqueEntityLimitExceeded in r.blockers <==> r.uniqueEntities > limit)
    && r.uniqueEntities == |CountedPlaces(m.root)| + |CountedIn(m, AllPlaced(m))|
    && r.reachableDefinitions == |AllPlaced(m)|
    && HasReports(m, r)
    && (!HasCycle(m) ==> CountsOccurrences(m, r))
  }

  // A report for every placed definition, under its key, and no other.
  ghost predicate HasReports(m: Model, r: MerkleReport) {
    && (forall d, k :: d in AllPlaced(m) && IsKey(m, d, k) ==> k in r.definitionReports)
    && (forall k :: k in r.definitionReports ==> exists d :: d in AllPlaced(m) && IsKey(m, d, k))
  }

  // The count is the number of occurrences, up to the greatest safe integer.
  ghost predicate CountsOccurrences(m: Model, r: MerkleReport) {
    exists qs, paths :: AreOccurrences(m, m.root, {}, qs, paths)
      && r.logicalOccurrences == (if |qs| <= 0x1F_FFFF_FFFF_FFFF then |qs| else 0x1F_FFFF_FFFF_FFFF)
      && (LogicalOccurrenceCountOverflow in r.blockers <==> |qs| > 0x1F_FFFF_FFFF_FFFF)
  }

  lemma DeliveredIsTold(m: Model, hash: Source -> Digest, limit: nat, r: MerkleReport)
    requires WellFormed(m) && Delivered(m, hash, limit, r)
    ensures Told(m, limit, r)
  {
    KeysMean(m);
    if !HasAmbiguousIds(m) {
      TruthfulIsTold(m, limit, r);
    }
    hide Fingerprintable, Faithful, Truthful, ToldApart, ReachableSet, KeysClash, HasAmbiguousIds;
  }

  lemma TruthfulIsTold(m: Model, limit: nat, r: MerkleReport)
    requires WellFormed(m) && Truthful(m, limit, r)
    ensures ToldApart(m, limit, r)
  {
    AvailableMeans(m);
    DistinctMeans(m);
    KeysMean(m);
    AcyclicMeans(m);
    StoredMeans(m);
    ReachableMeans(m);
    hide ReachableSet, AllPlaced, EverywhereAvailable, EverywhereDistinct, KeysClash, KeysAvailable, Acyclic,
         StoredEntities, Occurrences, HasUnidentified, HasTwins, HasUnkeyed, HasCycle, CountedPlaces, CountedIn;
    TellsKeys(m, r);
    if !HasCycle(m) {
      TellsOccurrences(m, r);
    }
    hide HasReports, CountsOccurrences, KeyOf, WellFormed;
  }

  lemma TellsKeys(m: Model, r: MerkleReport)
    requires WellFormed(m) && r.definitionReports.Keys == set d | d in ReachableSet(m) :: KeyOf(m, d)
    ensures HasReports(m, r)
  {
    ReachableMeans(m);
    PlacedIsDefined(m);
    hide ReachableSet, AllPlaced, KeyOf, IsKey;
    forall d | d in AllPlaced(m) ensures forall k :: IsKey(m, d, k) <==> k == KeyOf(m, d) {
      KeyMeans(m, d);
    }
  }

  lemma TellsOccurrences(m: Model, r: MerkleReport)
    requires WellFormed(m) && r.logicalOccurrences == Min(Occurrences(m), SAFE_INTEGER_MAX)
    requires LogicalOccurrenceCountOverflow in r.blockers <==> Occurrences(m) > SAFE_INTEGER_MAX
    ensures CountsOccurrences(m, r)
  {
    OccurrencesMean(m);
    hide Occurrences, AreOccurrences, EntityPaths;
    var paths := EntityPaths(m, m.root, {});
    var qs :| AreOccurrences(m, m.root, {}, qs, paths);
    OccurrencesPaired(m, qs, paths);
  }

  lemma OccurrencesPaired(m: Model, qs: seq<seq<nat>>, paths: seq<seq<Entity>>)
    requires AreOccurrences(m, m.root, {}, qs, paths)
    ensures |qs| == |paths|
  {
  }

  lemma StoredReportIsFaithful(c: Context, s: RunState, d: DefId)
    requires Closed(c, s) && s.complete && d in ReachableSet(c.m)
    ensures var t := UnfoldDefinition(c.m, d, {});
            KeyOf(c.m, d) in s.reports
              && s.reports[KeyOf(c.m, d)] == Report(KeyOf(c.m, d), TreeDigest(c.hash, t), TreeCount(t))
  {
    FinishedIsReachable(c, s);
    assert d in FinishedSet(s);
    assert StoredOk(c, s, s.finished[Place(s, d)]);
  }

  lemma ReportedKeys(c: Context, s: RunState)
    requires Closed(c, s) && DuplicateDefinitionIdentity !in s.blockers
    ensures s.reports.Keys == set d | d in ReachableSet(c.m) :: KeyOf(c.m, d)
  {
    FinishedIsReachable(c, s);
    FinishedHasKeys(c, s);
    hide Closed, ReachableSet, KeyOf, FinishedSet;
  }

  lemma FinishedHasKeys(c: Context, s: RunState)
    requires Closed(c, s)
    ensures forall d :: d in FinishedSet(s) ==> KeyOf(c.m, d) in s.reports
    ensures forall k :: k in s.reports ==> exists d :: d in FinishedSet(s) && KeyOf(c.m, d) == k
  {
    hide Proper, WellFormed, StatusOk, RecordOk, KeysNoted, CausesOk, ReportsOk, PlacedOk, Placements, ListOk,
         ReachableSet, KeyOf, Children;
    forall k | k in s.reports ensures exists d :: d in FinishedSet(s) && KeyOf(c.m, d) == k {
      var i :| 0 <= i < |s.finished| && KeyOf(c.m, s.finished[i]) == k;
      assert s.finished[i] in FinishedSet(s);
    }
  }

  ghost function ReportOf(s: RunState, digest: Digest, count: nat): MerkleReport {
    MerkleReport(digest, count, s.reports, s.uniqueEntities, s.reachableDefinitions, s.complete, s.blockers)
  }

  lemma RunIsTruthful(c: Context, s: RunState, digest: Digest, count: nat)
    requires Closed(c, s) && c.faults == Faults(c.m) && !KeysClash(c.m, ReachableSet(c.m))
    requires s.reachableDefinitions == |s.finished|
    requires s.uniqueEntities == |Selected(c.m.root)| + Sizes(c.m, s.finished)
    requires Sound(s) ==> CountOk(s, count, Occurrences(c.m))
    ensures Truthful(c.m, c.limit, ReportOf(s, digest, count))
  {
    KeysAndLimitAreReported(c, s);
    hide Closed, ReachableSet, Acyclic, EverywhereAvailable, EverywhereDistinct, StoredEntities, Occurrences,
         KeysClash, KeysAvailable;
    ClashIsReported(c, s);
    CycleIsReported(c, s);
    ListFaultsAreReported(c, s);
    StoredEntitiesAreCounted(c, s);
    ReportedKeys(c, s);
    if Sound(s) {
      OverflowIsReported(c, s, count);
    }
  }

  lemma KeysAndLimitAreReported(c: Context, s: RunState)
    requires Closed(c, s) && !KeysClash(c.m, ReachableSet(c.m))
    ensures DefinitionIdentityUnavailable in s.blockers <==> !KeysAvailable(c.m, ReachableSet(c.m))
    ensures UniqueEntityLimitExceeded in s.blockers <==> s.uniqueEntities > c.limit
  {
    ClashIsReported(c, s);
    FinishedIsReachable(c, s);
  }

  lemma NoBlockersExactlyWhenFingerprintable(m: Model, limit: nat, r: MerkleReport)
    requires WellFormed(m)
    requires DuplicateDefinitionIdentity in r.blockers <==> KeysClash(m, ReachableSet(m))
    requires !KeysClash(m, ReachableSet(m)) ==> Truthful(m, limit, r)
    ensures r.blockers == [] <==> Fingerprintable(m, limit)
  {
    hide ReachableSet, Acyclic, EverywhereAvailable, EverywhereDistinct, StoredEntities, Occurrences, KeysClash,
         KeysAvailable;
    if Fingerprintable(m, limit) {
      forall b ensures b !in r.blockers {
        match b
        case EntityIdentityUnavailable =>
        case DuplicateEntityIdentity =>
        case UniqueEntityLimitExceeded =>
        case RecursiveDefinitionCycle =>
        case DefinitionIdentityUnavailable =>
        case DuplicateDefinitionIdentity =>
        case LogicalOccurrenceCountOverflow =>
      }
      HasMember(r.blockers);
    }
  }

  lemma HasMember(blockers: seq<Blocker>)
    ensures blockers != [] ==> exists b :: b in blockers
  {
    if blockers != [] {
      assert blockers[0] in blockers;
    }
  }

  // `limit` must be positive; the report is complete exactly for a model that
  // can be fingerprinted, and then it is the one of the unfolded model.
  method MerkleGraph(m: Model, hash: Source -> Digest, limit: int) returns (result: Option<MerkleReport>)
    requires WellFormed(m)
    ensures result.None? <==> limit <= 0
    ensures result.Some? ==> Delivered(m, hash, limit, result.value) && Told(m, limit, result.value)
  {
    if limit <= 0 {
      return None;
    }
    hide Inv, Proper, WellFormed, FaultsNoted, Grows, Placements, ListOk, CountOk, Sound, StatusOk, Children,
         Selected, ListAt;
    hide ReachableSet, Faults, KeysClash, Closed, Fingerprintable, Truthful, Faithful, Delivered, Occurrences,
         Unfold, UnfoldSorted, ListDigest, Total, Told;
    ghost var c := ContextOf(m, hash, limit);
    ContextIsProper(m, hash, limit);
    var run := new RevisionRun(m, hash, limit, c.reach, c.faults);
    FreshRun(c, run.State());
    var digest, count := run.EntitiesReport(m.root, [], []);
    RunOutcome(c, run.State(), digest, count);
    DeliveredIsTold(m, hash, limit, ReportOf(run.State(), digest, count));
    result := Some(MerkleReport(digest, count, run.definitionReports, run.uniqueEntities, run.reachableDefinitions,
                                run.complete, run.blockers));
  }

  // Everything claimed of a report follows from what the traversal of the root
  // list promises.
  lemma RunOutcome(c: Context, s: RunState, digest: Digest, count: nat)
    requires WellFormed(c.m) && c == ContextOf(c.m, c.hash, c.limit)
    requires Inv(c, s, OpenKeys([])) && Placements(c, s, OpenKeys([]), c.m.root) && ListOk(s, Selected(c.m.root))
    requires Children(c.m.root) <= c.m.definitions.Keys
    requires Grows(c.m, RunState(0, 0, map[], map[], map[], true, [], []), s, |Selected(c.m.root)|)
    requires s.complete ==> digest == ListDigest(c.hash, UnfoldSorted(c.m, c.m.root, {}))
    requires Sound(s) ==> CountOk(s, count, Total(c.m, c.m.root))
    ensures Delivered(c.m, c.hash, c.limit, ReportOf(s, digest, count))
  {
    var r := ReportOf(s, digest, count);
    assert OpenKeys([]) == {};
    InvBasics(c, s, {});
    FromScratch(c.m, s, |Selected(c.m.root)|);
    hide Inv, Proper, Placements, ListOk, Children, Selected, ReachableSet, Faults, KeysClash, Fingerprintable,
         Truthful, Grows;
    assert Closed(c, s);
    ClashIsReported(c, s);
    if !KeysClash(c.m, ReachableSet(c.m)) {
      RunIsTruthful(c, s, digest, count);
    }
    NoBlockersExactlyWhenFingerprintable(c.m, c.limit, r);
    if s.complete {
      CompleteIsFaithful(c, s, digest, count);
    }
  }

  lemma FromScratch(m: Model, s: RunState, extra: nat)
    requires Grows(m, RunState(0, 0, map[], map[], map[], true, [], []), s, extra)
    ensures s.reachableDefinitions == |s.finished| && s.uniqueEntities == extra + Sizes(m, s.finished)
  {
    assert s.finished[0..] == s.finished;
  }

  lemma CompleteIsFaithful(c: Context, s: RunState, digest: Digest, count: nat)
    requires Closed(c, s) && s.complete && s.blockers == []
    requires digest == ListDigest(c.hash, Unfold(c.m)) && CountOk(s, count, Occurrences(c.m))
    ensures Faithful(c.m, c.hash, ReportOf(s, digest, count))
  {
    assert WellFormed(c.m);
    hide Closed, ReachableSet;
    forall d | d in ReachableSet(c.m)
      ensures d in c.m.definitions && KeyOf(c.m, d) in s.reports
      ensures var t := UnfoldDefinition(c.m, d, {});
              s.reports[KeyOf(c.m, d)] == Report(KeyOf(c.m, d), TreeDigest(c.hash, t), TreeCount(t))
    {
      ReachableIsDefined(c.m, d);
      StoredReportIsFaithful(c, s, d);
    }
  }

  lemma ReachableIsDefined(m: Model, d: DefId)
    requires d in ReachableSet(m)
    ensures d in m.definitions
  {
  }

  lemma FreshRun(c: Context, s: RunState)
    requires Proper(c) && s == RunState(0, 0, map[], map[], map[], true, [], [])
    ensures Inv(c, s, OpenKeys([]))
  {
  }

  // Two complete fingerprints have equal digests exactly when the models unfold
  // to the same tree of sorted payloads.
  lemma DigestsCompareModels(hash: Source -> Digest, m: Model, n: Model, limit: nat, r: MerkleReport, q: MerkleReport)
    requires CollisionFree(hash) && WellFormed(m) && WellFormed(n)
    requires Delivered(m, hash, limit, r) && Delivered(n, hash, limit, q) && r.complete && q.complete
    ensures r.rootDigest == q.rootDigest <==> Unfold(m) == Unfold(n)
  {
    hide Fingerprintable, Truthful, CollisionFree, Unfold, ReachableSet, KeysClash;
    EqualDigestsExactlyForEqualUnfoldings(hash, m, n);
  }
}
