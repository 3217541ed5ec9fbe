// The memoised fingerprint traversal over shared definitions.
module ModelRevision {
  import opened Options
  import opened SketchModel
  import opened RevisionTree
  import opened RevisionInvariant
  import opened RevisionSteps
  import opened RevisionProgress

  // sort_by! promises a sorted rearrangement and nothing about equal keys.
  method SortEntries(entries: seq<Entity>) returns (sorted: seq<Entity>)
    ensures Sorted(sorted) && multiset(sorted) == multiset(entries)
    ensures forall i, j :: 0 <= i < j < |sorted| ==> InOrder(sorted[i].facts, sorted[j].facts)
  {
    InSortOrderSorts(entries);
    sorted := InSortOrder(entries);
    SortedMeans(sorted);
  }

  class RevisionRun {
    const model: Model
    const hash: Source -> Digest
    const limit: nat
    ghost const reach: set<DefId>
    ghost const faults: set<Blocker>

    var uniqueEntities: nat
    var reachableDefinitions: nat
    var definitionReports: map<DefKey, Report>
    var keysByObject: map<DefId, DefKey>
    var objectsByKey: map<DefKey, DefId>
    var complete: bool
    var blockers: seq<Blocker>
    ghost var finished: seq<DefId>

    constructor (model: Model, hash: Source -> Digest, limit: nat, ghost reach: set<DefId>, ghost faults: set<Blocker>)
      ensures this.model == model && this.hash == hash && this.limit == limit && this.reach == reach
      ensures this.faults == faults
      ensures State() == RunState(0, 0, map[], map[], map[], true, [], [])
    {
      this.model, this.hash, this.limit, this.reach, this.faults := model, hash, limit, reach, faults;
      uniqueEntities, reachableDefinitions, definitionReports, keysByObject, objectsByKey := 0, 0, map[], map[], map[];
      complete, blockers, finished := true, [], [];
    }

    ghost function State(): RunState
      reads this
    {
      RunState(uniqueEntities, reachableDefinitions, definitionReports, keysByObject, objectsByKey, complete,
        blockers, finished)
    }

    ghost function Ctx(): Context {
      Context(model, hash, limit, reach, faults)
    }

    method Mark(blocker: Blocker)
      modifies this
      ensures State() == Marked(old(State()), blocker) && uniqueEntities == old(uniqueEntities)
    {
      complete := false;
      if blocker !in blockers {
        blockers := blockers + [blocker];
      }
    }

    method SafeCountAdd(left: nat, right: nat) returns (value: nat)
      modifies this
      ensures value == Min(left + right, SAFE_INTEGER_MAX)
      ensures State() == if left + right <= SAFE_INTEGER_MAX then old(State())
                         else Marked(old(State()), LogicalOccurrenceCountOverflow)
    {
      value := left + right;
      if value > SAFE_INTEGER_MAX {
        Mark(LogicalOccurrenceCountOverflow);
        value := SAFE_INTEGER_MAX;
      }
    }

    method CheckIdentity(identity: Identity, previous: Option<Identity>)
      modifies this
      ensures State() == IdentityMarked(old(State()), identity, previous)
    {
      if identity == Unavailable {
        Mark(EntityIdentityUnavailable);
      }
      if identity != Unavailable && previous == Some(identity) {
        Mark(DuplicateEntityIdentity);
      }
    }

    // An entity occurs once itself and brings the occurrences it places.
    method AddOccurrences(count: nat, child: Option<Report>) returns (total: nat)
      modifies this
      ensures total == Min(Min(count + 1, SAFE_INTEGER_MAX) + CountFrom(child), SAFE_INTEGER_MAX)
      ensures State() == OccurrencesAdded(old(State()), count, child)
    {
      AddedInTwoSteps(State(), count, child);
      total := SafeCountAdd(count, 1);
      total := SafeCountAdd(total, if child.Some? then child.value.expandedCount else 0);
    }

    method CountEntity() returns (withinBudget: bool)
      modifies this
      ensures State() == Counted(old(State()), limit)
      ensures withinBudget <==> State().uniqueEntities <= limit
    {
      uniqueEntities := uniqueEntities + 1;
      withinBudget := uniqueEntities <= limit;
      if !withinBudget {
        Mark(UniqueEntityLimitExceeded);
      }
    }

    method DefinitionKey(definition: DefId) returns (key: DefKey)
      requires RecordOk(Ctx(), State()) && StatusOk(State())
      modifies this
      ensures key == KeyOf(model, definition)
      ensures if definition in old(keysByObject) then State() == old(State())
              else KeyStep(model, old(State()), State(), definition)
    {
      if definition in keysByObject {
        return keysByObject[definition];
      }
      key := KeyOf(model, definition);
      assert key in objectsByKey ==> objectsByKey[key] != definition;
      if key.RuntimeKey? {
        Mark(DefinitionIdentityUnavailable);
      }
      if key in objectsByKey && objectsByKey[key] != definition {
        Mark(DuplicateDefinitionIdentity);
      } else {
        objectsByKey := objectsByKey[key := definition];
      }
      keysByObject := keysByObject[definition := key];
    }

    // Fingerprints one entity list. `stack` holds the keys of the definitions
    // being traversed, `path` the definitions themselves.
    method EntitiesReport(entities: seq<Entity>, stack: seq<DefKey>, ghost path: seq<DefId>)
      returns (digest: Digest, expandedCount: nat)
      requires Inv(Ctx(), State(), OpenKeys(stack)) && FaultsNoted(Ctx(), entities) && Children(entities) <= reach
      requires PathNoted(Ctx(), path, stack) && entities == ListAt(model, path)
      modifies this
      ensures Inv(Ctx(), State(), OpenKeys(stack))
      ensures Grows(model, old(State()), State(), |Selected(entities)|)
      ensures Placements(Ctx(), State(), OpenKeys(stack), entities)
      ensures ListOk(State(), Selected(entities))
      ensures complete ==> digest == ListDigest(hash, UnfoldSorted(model, entities, {}))
      ensures Sound(State()) ==> CountOk(State(), expandedCount, Total(model, entities))
      decreases Unvisited(Ctx(), State(), OpenKeys(stack)), 2
    {
      hide Inv, Proper, FaultsNoted, PathNoted, RecordOk, KeysNoted, FinishedOk, CausesOk, ReportsOk, StatusOk,
           Grows, Progress;
      hide Placements, PlacementOk, ListOk, CountOk, ChildOk, Sound, Sorted, AllAvailable, NoDuplicates, WellFormed,
           ClosedSet;
      hide Total, UnfoldSorted, UnfoldList, UnfoldEntity, UnfoldDefinition, TreeDigest, EntryDigests, ListCount,
           InSortOrder;
      hide Selected, Children, ChildOf, SortKey, EntityIdentity, KeyOf, RootPath, ListAt, KeysAlong, Sizes,
           Unvisited, OpenKeys;
      hide IdentityMarked, OccurrencesAdded, Counted, Marked, EntitySourceFrom, CountFrom, Min;
      ghost var start, open := State(), OpenKeys(stack);
      InvBasics(Ctx(), State(), open);
      var entries := SortEntries(Selected(entities));
      ListsAgree(entities, entries);
      var hashed: seq<(seq<string>, Digest)> := [];
      var hashedEntries := 0;
      expandedCount := 0;
      var previous: Option<Identity> := None;
      var i := 0;
      StartProgress(Ctx(), State(), open, entries);
      while i < |entries|
        invariant 0 <= i <= |entries|
        invariant Inv(Ctx(), State(), open) && Grows(model, start, State(), i)
        invariant Children(entries[..i]) <= model.definitions.Keys
        invariant Progress(Ctx(), State(), open, entries[..i], hashed, expandedCount)
        invariant complete ==> hashedEntries == i
        invariant previous == PreviousIdentity(entries, i)
      {
        ghost var s := State();
        var entity := entries[i];
        var identity := EntityIdentity(entity.facts);
        CheckIdentity(identity, previous);
        previous := Some(identity);
        ghost var t := State();
        IdentityMarkedKeepsInv(Ctx(), s, open, entities, entries, i);

        GrowsTransitive(model, start, s, t, i, 0);
        UnvisitedNeverGrows(Ctx(), start, t, open, i);
        var child := ChildReport(entity, stack, path);

        ghost var u := State();
        ghost var hashed', count' := hashed, expandedCount;
        expandedCount := AddOccurrences(expandedCount, child);
        var withinBudget := CountEntity();
        if withinBudget {
          hashed := hashed + [(SortKey(entity.facts), hash(EntitySourceFrom(entity, child)))];
          hashedEntries := hashedEntries + 1;
        }
        EntityStep(Ctx(), start, s, u, State(), open, entities, entries, i, child, hashed', count', hashed,
          expandedCount);
        i := i + 1;
      }
      assert entries[..i] == entries;
      InvBasics(Ctx(), State(), open);
      ListFinished(Ctx(), State(), open, entities, entries, hashed, expandedCount);
      digest := hash(ListSource(hash(EntriesSource(hashed)), |entries|, hashedEntries, complete));
    }

    method ChildReport(entity: Entity, stack: seq<DefKey>, ghost path: seq<DefId>) returns (child: Option<Report>)
      requires Inv(Ctx(), State(), OpenKeys(stack)) && PathNoted(Ctx(), path, stack)
      requires ChildOf(entity).Some? ==>
                 ChildOf(entity).value in Children(ListAt(model, path)) && ChildOf(entity).value in reach
      modifies this
      ensures Inv(Ctx(), State(), OpenKeys(stack)) && Grows(model, old(State()), State(), 0)
      ensures ChildOk(Ctx(), State(), OpenKeys(stack), entity, child)
      ensures child.Some? <==> exists d :: Places(entity, d)
      decreases Unvisited(Ctx(), State(), OpenKeys(stack)), 1
    {
      assert ChildOf(entity).Some? <==> exists d :: Places(entity, d) by {
        ChildOfMeans(entity);
      }
      hide Places;
      match ChildOf(entity)
      case None =>
        assert finished[|finished|..] == [];
        child := None;
      case Some(definition) =>
        var report := DefinitionReport(definition, stack, path);
        child := Some(report);
    }

    method DefinitionReport(definition: DefId, stack: seq<DefKey>, ghost path: seq<DefId>) returns (report: Report)
      requires Inv(Ctx(), State(), OpenKeys(stack)) && PathNoted(Ctx(), path, stack)
      requires definition in Children(ListAt(model, path)) && definition in reach
      modifies this
      ensures Inv(Ctx(), State(), OpenKeys(stack)) && Grows(model, old(State()), State(), 0)
      ensures definition in model.definitions
      ensures PlacementOk(Ctx(), State(), definition, OpenKeys(stack), |finished|)
      ensures ReportOk(Ctx(), State(), definition, report)
      decreases Unvisited(Ctx(), State(), OpenKeys(stack)), 0
    {
      hide Inv, Proper, FaultsNoted, PathNoted, RecordOk, KeysNoted, FinishedOk, CausesOk, ReportsOk, StatusOk,
           Grows, KeyStep;
      hide Placements, PlacementOk, ListOk, CountOk, ReportOk, Sorted, AllAvailable, NoDuplicates, WellFormed,
           ClosedSet;
      hide Total, UnfoldSorted, UnfoldList, UnfoldEntity, UnfoldDefinition, TreeDigest, ListDigest, EntryDigests,
           ListCount, InSortOrder;
      hide Selected, Children, ChildOf, SortKey, EntityIdentity, KeyOf, RootPath, ListAt, KeysAlong, Sizes,
           Unvisited, Marked, Min;
      ghost var start, open := State(), OpenKeys(stack);
      InvBasics(Ctx(), start, open);
      var key := DefinitionKey(definition);
      ghost var s := State();
      if definition !in start.keysByObject {
        KeyStepKeepsInv(Ctx(), start, s, open, definition);
      }
      if key in definitionReports {
        StoredReportServes(Ctx(), s, open, definition);
        return definitionReports[key];
      }
      if key in stack {
        CycleIsAFault(Ctx(), path, stack, definition);
        MarkedKeepsInv(Ctx(), s, open, RecursiveDefinitionCycle);
        Mark(RecursiveDefinitionCycle);
        GrowsTransitive(model, start, s, State(), 0, 0);
        report := Report(key, hash(CycleSource(key)), 0);
        CycleReportServes(Ctx(), s, open, definition, report);
        return;
      }

      reachableDefinitions := reachableDefinitions + 1;
      OpenedKeepsInv(Ctx(), s, open, key);
      PathExtends(Ctx(), path, stack, definition);
      UnvisitedShrinks(Ctx(), start, State(), open, definition);
      var def := model.definitions[definition];
      var digest, expandedCount := EntitiesReport(def.entities, stack + [key], path + [definition]);
      ghost var after := State();
      report := Report(key,
        hash(DefinitionSource(key, def.name, def.persistentId, def.classification, digest, expandedCount)),
        expandedCount);
      definitionReports := definitionReports[key := report];
      finished := finished + [definition];
      assert report == DefinitionReportOf(Ctx(), definition, digest, expandedCount);
      assert State() == Stored(after, key, definition, report);
      DefinitionStep(Ctx(), start, s, after, State(), open, definition, digest, expandedCount);
    }
  }

  ghost function OpenKeys(stack: seq<DefKey>): set<DefKey> {
    set k | k in stack
  }

  // The keys still to be traversed.
  ghost function Unvisited(c: Context, s: RunState, open: set<DefKey>): set<DefKey> {
    (set d | d in c.m.definitions.Keys :: KeyOf(c.m, d)) - s.reports.Keys - open
  }

  lemma UnvisitedNeverGrows(c: Context, s: RunState, t: RunState, open: set<DefKey>, extra: nat)
    requires Grows(c.m, s, t, extra)
    ensures Unvisited(c, t, open) <= Unvisited(c, s, open)
  {
  }

  lemma UnvisitedShrinks(c: Context, s: RunState, t: RunState, open: set<DefKey>, d: DefId)
    requires d in c.m.definitions && KeyOf(c.m, d) !in s.reports && KeyOf(c.m, d) !in open && t.reports == s.reports
    ensures Unvisited(c, t, open + {KeyOf(c.m, d)}) < Unvisited(c, s, open)
  {
    assert KeyOf(c.m, d) in Unvisited(c, s, open);
    assert KeyOf(c.m, d) !in Unvisited(c, t, open + {KeyOf(c.m, d)});
  }

  ghost function KeysAlong(m: Model, p: seq<DefId>): seq<DefKey> {
    seq(|p|, i requires 0 <= i < |p| => KeyOf(m, p[i]))
  }

  // No definition key comes twice on a path from the root.
  ghost predicate KeysNeverRepeat(m: Model) {
    forall p: seq<DefId> :: RootPath(m, p) ==> !Repeats(KeysAlong(m, p))
  }

  ghost predicate PathNoted(c: Context, path: seq<DefId>, stack: seq<DefKey>) {
    && RootPath(c.m, path) && stack == KeysAlong(c.m, path)
    && (KeysNeverRepeat(c.m) || RecursiveDefinitionCycle in c.faults)
  }

  lemma CycleIsAFault(c: Context, path: seq<DefId>, stack: seq<DefKey>, d: DefId)
    requires PathNoted(c, path, stack) && d in Children(ListAt(c.m, path)) && KeyOf(c.m, d) in stack
    ensures RecursiveDefinitionCycle in c.faults
  {
    RootPathExtend(c.m, path, d);
    var i :| 0 <= i < |stack| && stack[i] == KeyOf(c.m, d);
    var keys := KeysAlong(c.m, path + [d]);
    assert keys[i] == keys[|path|];
    assert Repeats(keys);
  }

  lemma PathExtends(c: Context, path: seq<DefId>, stack: seq<DefKey>, d: DefId)
    requires PathNoted(c, path, stack) && d in Children(ListAt(c.m, path))
    ensures PathNoted(c, path + [d], stack + [KeyOf(c.m, d)])
    ensures OpenKeys(stack + [KeyOf(c.m, d)]) == OpenKeys(stack) + {KeyOf(c.m, d)}
    ensures d in c.m.definitions ==> ListAt(c.m, path + [d]) == c.m.definitions[d].entities
  {
    RootPathExtend(c.m, path, d);
    assert stack + [KeyOf(c.m, d)] == KeysAlong(c.m, path + [d]);
  }
}
