// What a fingerprint run keeps true between any two of its steps, stated on a
// snapshot of the run's shared state.
module RevisionInvariant {
  import opened SketchModel
  import opened RevisionTree

  datatype Blocker =
    | EntityIdentityUnavailable
    | DuplicateEntityIdentity
    | UniqueEntityLimitExceeded
    | RecursiveDefinitionCycle
    | DefinitionIdentityUnavailable
    | DuplicateDefinitionIdentity
    | LogicalOccurrenceCountOverflow

  datatype Report = Report(key: DefKey, digest: Digest, expandedCount: nat)

  // The state hash, and in `finished` the definitions whose reports have been
  // stored, in the order in which that happened.
  datatype RunState = RunState(
    uniqueEntities: nat,
    reachableDefinitions: nat,
    reports: map<DefKey, Report>,
    keysByObject: map<DefId, DefKey>,
    objectsByKey: map<DefKey, DefId>,
    complete: bool,
    blockers: seq<Blocker>,
    finished: seq<DefId>)

  // The model being fingerprinted, what of it the root reaches, and which
  // blockers it gives cause for.
  datatype Context = Context(
    m: Model, hash: Source -> Digest, limit: nat, reach: set<DefId>, faults: set<Blocker>)

  ghost function Total(m: Model, es: seq<Entity>): nat
    requires WellFormed(m) && Children(es) <= m.definitions.Keys
  {
    ListCount(UnfoldSorted(m, es, {}))
  }

  ghost predicate Proper(c: Context) {
    && WellFormed(c.m) && ClosedSet(c.m, c.reach)
    && (forall d :: d in c.reach ==> FaultsNoted(c, c.m.definitions[d].entities))
  }

  // Whatever is wrong with one reachable entity list is among the faults.
  ghost predicate FaultsNoted(c: Context, es: seq<Entity>)
    requires WellFormed(c.m)
  {
    && Children(es) <= c.m.definitions.Keys
    && (AllAvailable(Selected(es)) || EntityIdentityUnavailable in c.faults)
    && (NoDuplicates(Selected(es)) || DuplicateEntityIdentity in c.faults)
    && (Total(c.m, es) <= SAFE_INTEGER_MAX || LogicalOccurrenceCountOverflow in c.faults)
  }

  ghost predicate KeysClash(m: Model, s: set<DefId>) {
    exists d, e :: d in s && e in s && d != e && KeyOf(m, d) == KeyOf(m, e)
  }

  ghost predicate KeysAvailable(m: Model, s: set<DefId>) {
    forall d :: d in s ==> !KeyOf(m, d).RuntimeKey?
  }

  ghost function Sizes(m: Model, ds: seq<DefId>): nat {
    if ds == [] then 0
    else (if ds[0] in m.definitions then |Selected(m.definitions[ds[0]].entities)| else 0) + Sizes(m, ds[1..])
  }

  // The invariant --------------------------------------------------------------

  ghost predicate StatusOk(s: RunState) {
    s.complete <==> s.blockers == []
  }

  // Keys are recorded once per definition object, in both directions.
  ghost predicate RecordOk(c: Context, s: RunState) {
    && s.keysByObject.Keys <= c.reach
    && (forall d :: d in s.keysByObject ==> s.keysByObject[d] == KeyOf(c.m, d) && KeyOf(c.m, d) in s.objectsByKey)
    && (forall k :: k in s.objectsByKey ==> s.objectsByKey[k] in s.keysByObject && KeyOf(c.m, s.objectsByKey[k]) == k)
  }

  // Unusable keys are noticed.
  ghost predicate KeysNoted(c: Context, s: RunState) {
    && (DuplicateDefinitionIdentity in s.blockers <==> KeysClash(c.m, s.keysByObject.Keys))
    && (DefinitionIdentityUnavailable in s.blockers <==> !KeysAvailable(c.m, s.keysByObject.Keys))
  }

  // Stored reports belong to distinct definitions, none of them open, and what
  // they place is stored too or still open.
  ghost predicate FinishedOk(c: Context, s: RunState, open: set<DefKey>) {
    && (forall i :: 0 <= i < |s.finished| ==> s.finished[i] in s.keysByObject && KeyOf(c.m, s.finished[i]) in s.reports)
    && (forall i, j :: 0 <= i < j < |s.finished| ==> KeyOf(c.m, s.finished[i]) != KeyOf(c.m, s.finished[j]))
    && (forall k :: k in s.reports ==> exists i :: 0 <= i < |s.finished| && KeyOf(c.m, s.finished[i]) == k)
    && (forall k :: k in open ==> k !in s.reports)
    && (forall i :: 0 <= i < |s.finished| ==> s.finished[i] in c.m.definitions && PlacedOk(c, s, i, open))
  }

  ghost predicate PlacedOk(c: Context, s: RunState, i: nat, open: set<DefKey>)
    requires i < |s.finished| && s.finished[i] in c.m.definitions
  {
    forall d :: d in Children(c.m.definitions[s.finished[i]].entities) ==> PlacementOk(c, s, d, open, i)
  }

  // The placed definition d has its report already, at a place before `bound`,
  // or is open.
  ghost predicate PlacementOk(c: Context, s: RunState, d: DefId, open: set<DefKey>, bound: nat)
    requires bound <= |s.finished|
  {
    && d in s.keysByObject
    && (KeyOf(c.m, d) in s.reports || KeyOf(c.m, d) in open)
    && (RecursiveDefinitionCycle !in s.blockers ==>
          exists j :: 0 <= j < bound && KeyOf(c.m, s.finished[j]) == KeyOf(c.m, d))
  }

  // A blocker has a cause.
  ghost predicate CausesOk(c: Context, s: RunState) {
    && (EntityIdentityUnavailable in s.blockers ==> EntityIdentityUnavailable in c.faults)
    && (DuplicateEntityIdentity in s.blockers ==> DuplicateEntityIdentity in c.faults)
    && (RecursiveDefinitionCycle in s.blockers ==> RecursiveDefinitionCycle in c.faults)
    && (UniqueEntityLimitExceeded in s.blockers <==> s.uniqueEntities > c.limit)
    && (LogicalOccurrenceCountOverflow in s.blockers && Sound(s) ==> LogicalOccurrenceCountOverflow in c.faults)
  }

  // No cycle and no clash of keys so far: stored counts can be relied on.
  ghost predicate Sound(s: RunState) {
    RecursiveDefinitionCycle !in s.blockers && DuplicateDefinitionIdentity !in s.blockers
  }

  // What was finished without a blocker is in order, and its report is the one
  // of the unfolded definition.
  ghost predicate ReportsOk(c: Context, s: RunState)
    requires WellFormed(c.m)
  {
    forall i :: 0 <= i < |s.finished| ==> s.finished[i] in c.m.definitions && StoredOk(c, s, s.finished[i])
  }

  ghost predicate StoredOk(c: Context, s: RunState, d: DefId)
    requires WellFormed(c.m) && d in c.m.definitions
  {
    && KeyOf(c.m, d) in s.reports
    && ListOk(s, Selected(c.m.definitions[d].entities))
    && ReportOk(c, s, d, s.reports[KeyOf(c.m, d)])
  }

  ghost predicate ListOk(s: RunState, es: seq<Entity>) {
    && (EntityIdentityUnavailable !in s.blockers ==> AllAvailable(es))
    && (DuplicateEntityIdentity !in s.blockers ==> NoDuplicates(es))
  }

  ghost predicate ReportOk(c: Context, s: RunState, d: DefId, r: Report)
    requires WellFormed(c.m) && d in c.m.definitions
  {
    && r.key == KeyOf(c.m, d)
    && (s.complete ==> r.digest == TreeDigest(c.hash, UnfoldDefinition(c.m, d, {})))
    && (Sound(s) ==> CountOk(s, r.expandedCount, TreeCount(UnfoldDefinition(c.m, d, {}))))
  }

  // A counter holds the exact count, capped, and an uncapped run never needed
  // the cap.
  ghost predicate CountOk(s: RunState, counted: nat, exact: nat) {
    && counted == Min(exact, SAFE_INTEGER_MAX)
    && (LogicalOccurrenceCountOverflow !in s.blockers ==> exact <= SAFE_INTEGER_MAX)
  }

  ghost predicate Inv(c: Context, s: RunState, open: set<DefKey>) {
    && Proper(c)
    && StatusOk(s) && RecordOk(c, s) && KeysNoted(c, s) && FinishedOk(c, s, open) && CausesOk(c, s) && ReportsOk(c, s)
  }

  lemma InvBasics(c: Context, s: RunState, open: set<DefKey>)
    requires Inv(c, s, open)
    ensures Proper(c) && WellFormed(c.m) && StatusOk(s) && RecordOk(c, s) && c.reach <= c.m.definitions.Keys
    ensures Grows(c.m, s, s, 0)
    ensures forall d :: d in c.reach ==>
      FaultsNoted(c, c.m.definitions[d].entities) && Children(c.m.definitions[d].entities) <= c.reach
  {
    assert s.finished[|s.finished|..] == [];
  }

  // How one state may follow another: nothing already known is lost, `extra`
  // entities were counted outside the definitions finished in between.
  ghost predicate Grows(m: Model, s: RunState, t: RunState, extra: nat) {
    && (forall d :: d in s.keysByObject ==> d in t.keysByObject)
    && (forall k :: k in s.reports ==> k in t.reports)
    && (forall b :: b in s.blockers ==> b in t.blockers)
    && |s.finished| <= |t.finished| && t.finished[..|s.finished|] == s.finished
    && t.reachableDefinitions - s.reachableDefinitions == |t.finished| - |s.finished|
    && t.uniqueEntities == s.uniqueEntities + extra + Sizes(m, t.finished[|s.finished|..])
  }

  lemma SizesAppend(m: Model, a: seq<DefId>, b: seq<DefId>)
    ensures Sizes(m, a + b) == Sizes(m, a) + Sizes(m, b)
  {
    if a == [] {
      assert a + b == b;
    } else {
      assert (a + b)[1..] == a[1..] + b;
      SizesAppend(m, a[1..], b);
    }
  }

  lemma GrowsTransitive(m: Model, s: RunState, t: RunState, u: RunState, x: nat, y: nat)
    requires Grows(m, s, t, x) && Grows(m, t, u, y)
    ensures Grows(m, s, u, x + y)
  {
    assert u.finished[..|s.finished|] == u.finished[..|t.finished|][..|s.finished|];
    assert u.finished[|s.finished|..] == t.finished[|s.finished|..] + u.finished[|t.finished|..];
    SizesAppend(m, t.finished[|s.finished|..], u.finished[|t.finished|..]);
  }

  lemma GrowsKeepsKeys(m: Model, s: RunState, t: RunState, extra: nat, d: DefId)
    requires Grows(m, s, t, extra) && d in s.keysByObject
    ensures d in t.keysByObject
  {
  }
}
