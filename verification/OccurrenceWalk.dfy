// The naive walk over every placement, as the recursive entity index does it.
module OccurrenceWalk {
  import opened Options
  import opened Lists
  import opened SketchModel
  import opened RevisionTree
  import opened RevisionInvariant
  import opened RevisionOutcome
  import opened PlacedEntities
  import opened EntityOccurrences
  import opened ModelFingerprint

  // How the walk tells definitions apart: by the persistent id, even an empty one, and
  // by the name where the definition has no such method.
  function WalkKey(m: Model, d: DefId): string {
    if d !in m.definitions then ""
    else
      match m.definitions[d].persistentId
      case Some(id) => id
      case None => m.definitions[d].name
  }

  ghost function WalkKeys(m: Model, p: seq<DefId>): seq<string> {
    seq(|p|, i requires 0 <= i < |p| => WalkKey(m, p[i]))
  }

  // The same by the fields alone.
  ghost predicate GoesBy(def: Definition, text: string) {
    def.persistentId == Some(text) || (def.persistentId.None? && def.name == text)
  }

  ghost predicate LooksAlike(m: Model, c: DefId, d: DefId) {
    && c in m.definitions && d in m.definitions
    && exists text :: GoesBy(m.definitions[c], text) && GoesBy(m.definitions[d], text)
  }

  ghost predicate AllLookDifferent(m: Model, p: seq<DefId>) {
    forall i, j :: 0 <= i < j < |p| ==> !LooksAlike(m, p[i], p[j])
  }

  // At the end of a chain of definitions that all look different stands one that looks
  // like an earlier one, is none of them, and stores something to list.
  ghost predicate HidesAt(m: Model, p: seq<DefId>, d: DefId) {
    && FromRoot(m, p + [d]) && AllLookDifferent(m, p) && d !in p && d in m.definitions
    && (exists c :: c in p && LooksAlike(m, c, d)) && exists e :: e in m.definitions[d].entities && Counts(e)
  }

  ghost predicate HidesSomething(m: Model) {
    exists p, d :: HidesAt(m, p, d)
  }

  // On no chain from the root do two different definitions look alike.
  ghost predicate LooksTellApart(m: Model) {
    forall p, i, j :: FromRoot(m, p) && 0 <= i < j < |p| && LooksAlike(m, p[i], p[j]) ==> p[i] == p[j]
  }

  // Every occurrence in walk order, as the entities leading to it.
  ghost function OccurrencePaths(m: Model, es: seq<Entity>, ancestors: seq<Facts>, open: set<DefId>): seq<seq<Facts>>
    requires WellFormed(m) && Children(es) <= m.definitions.Keys
    decreases m.definitions.Keys - open, |es|
  {
    if es == [] then []
    else
      assert es[0] in es && Children(es[1..]) <= Children(es);
      PathsBelow(m, es[0], ancestors, open) + OccurrencePaths(m, es[1..], ancestors, open)
  }

  ghost function PathsBelow(m: Model, e: Entity, ancestors: seq<Facts>, open: set<DefId>): seq<seq<Facts>>
    requires WellFormed(m) && (ChildOf(e).Some? ==> ChildOf(e).value in m.definitions)
    decreases m.definitions.Keys - open, 0
  {
    var path := ancestors + [e.facts];
    if !Selectable(e) then []
    else
      match ChildOf(e)
      case None => [path]
      case Some(d) =>
        if d in open then [path]
        else [path] + OccurrencePaths(m, m.definitions[d].entities, path, open + {d})
  }

  ghost function AllWalkKeys(m: Model): set<string> {
    set d | d in m.definitions.Keys :: WalkKey(m, d)
  }

  ghost function Keyset(stack: seq<string>): set<string> {
    set k | k in stack
  }

  lemma StackGrows(m: Model, stack: seq<string>, d: DefId)
    requires d in m.definitions && WalkKey(m, d) !in stack
    ensures AllWalkKeys(m) - Keyset(stack + [WalkKey(m, d)]) < AllWalkKeys(m) - Keyset(stack)
  {
    assert WalkKey(m, d) in AllWalkKeys(m) - Keyset(stack);
    assert WalkKey(m, d) !in AllWalkKeys(m) - Keyset(stack + [WalkKey(m, d)]);
  }

  // What the walk lists, by the keys of the definitions it has entered.
  ghost function WalkedPaths(m: Model, es: seq<Entity>, ancestors: seq<Facts>, stack: seq<string>): seq<seq<Facts>>
    requires WellFormed(m) && Children(es) <= m.definitions.Keys
    decreases AllWalkKeys(m) - Keyset(stack), |es|
  {
    if es == [] then []
    else
      assert es[0] in es && Children(es[1..]) <= Children(es);
      WalkedBelow(m, es[0], ancestors, stack) + WalkedPaths(m, es[1..], ancestors, stack)
  }

  ghost function WalkedBelow(m: Model, e: Entity, ancestors: seq<Facts>, stack: seq<string>): seq<seq<Facts>>
    requires WellFormed(m) && (ChildOf(e).Some? ==> ChildOf(e).value in m.definitions)
    decreases AllWalkKeys(m) - Keyset(stack), 0
  {
    var path := ancestors + [e.facts];
    if !Selectable(e) then []
    else
      match ChildOf(e)
      case None => [path]
      case Some(d) =>
        if WalkKey(m, d) in stack then [path]
        else
          StackGrows(m, stack, d);
          [path] + WalkedPaths(m, m.definitions[d].entities, path, stack + [WalkKey(m, d)])
  }

  // What is listed for the paths of an occurrence: the facts along it.
  ghost function FactsAlong(path: seq<Entity>): seq<Facts> {
    seq(|path|, i requires 0 <= i < |path| => path[i].facts)
  }

  ghost function Listed(ancestors: seq<Facts>, paths: seq<seq<Entity>>): seq<seq<Facts>> {
    seq(|paths|, i requires 0 <= i < |paths| => ancestors + FactsAlong(paths[i]))
  }

  lemma {:induction false} PathsAreListed(m: Model, es: seq<Entity>, ancestors: seq<Facts>, open: set<DefId>)
    requires WellFormed(m) && Children(es) <= m.definitions.Keys
    ensures OccurrencePaths(m, es, ancestors, open) == Listed(ancestors, EntityPaths(m, es, open))
    decreases m.definitions.Keys - open, |es|
  {
    if es != [] {
      assert es[0] in es && Children(es[1..]) <= Children(es);
      PathsAreListed(m, es[1..], ancestors, open);
      PathsAtAreListed(m, es[0], ancestors, open);
      ListedJoined(ancestors, PathsAt(m, es[0], open), EntityPaths(m, es[1..], open));
    }
  }

  lemma {:induction false} PathsAtAreListed(m: Model, e: Entity, ancestors: seq<Facts>, open: set<DefId>)
    requires WellFormed(m) && (ChildOf(e).Some? ==> ChildOf(e).value in m.definitions)
    ensures PathsBelow(m, e, ancestors, open) == Listed(ancestors, PathsAt(m, e, open))
    decreases m.definitions.Keys - open, 0
  {
    var path := ancestors + [e.facts];
    assert FactsAlong([e]) == [e.facts];
    if ChildOf(e).Some? && ChildOf(e).value !in open {
      var d := ChildOf(e).value;
      var below := EntityPaths(m, m.definitions[d].entities, open + {d});
      PathsAreListed(m, m.definitions[d].entities, path, open + {d});
      ListedBehind(ancestors, e, below);
      ListedJoined(ancestors, [[e]], Behind([e], below));
    }
  }

  lemma ListedJoined(ancestors: seq<Facts>, a: seq<seq<Entity>>, b: seq<seq<Entity>>)
    ensures Listed(ancestors, a + b) == Listed(ancestors, a) + Listed(ancestors, b)
  {
  }

  lemma ListedBehind(ancestors: seq<Facts>, e: Entity, paths: seq<seq<Entity>>)
    ensures Listed(ancestors, Behind([e], paths)) == Listed(ancestors + [e.facts], paths)
  {
    forall i | 0 <= i < |paths|
      ensures Listed(ancestors, Behind([e], paths))[i] == Listed(ancestors + [e.facts], paths)[i]
    {
      assert FactsAlong([e] + paths[i]) == [e.facts] + FactsAlong(paths[i]);
    }
  }

  ghost function Truncated<T>(s: seq<T>, limit: nat): seq<T> {
    if |s| <= limit then s else s[..limit]
  }

  class IndexState {
    const model: Model
    const limit: nat
    var totalSeen: nat
    var entries: seq<seq<Facts>>
    // Every occurrence visited so far.
    ghost var seen: seq<seq<Facts>>

    constructor (model: Model, limit: nat)
      ensures this.model == model && this.limit == limit && seen == [] && Valid()
    {
      this.model, this.limit := model, limit;
      totalSeen, entries, seen := 0, [], [];
    }

    ghost predicate Valid()
      reads this
    {
      totalSeen == |seen| && entries == Truncated(seen, limit)
    }

    method See(path: seq<Facts>)
      requires Valid()
      modifies this
      ensures Valid() && seen == old(seen) + [path]
    {
      totalSeen := totalSeen + 1;
      if |entries| < limit {
        entries := entries + [path];
      }
      seen := seen + [path];
    }

    // `stack` holds the keys of the definitions that were entered.
    method Walk(entities: seq<Entity>, ancestors: seq<Facts>, stack: seq<string>)
      requires Valid() && WellFormed(model) && Children(entities) <= model.definitions.Keys
      modifies this
      ensures Valid() && seen == old(seen) + WalkedPaths(model, entities, ancestors, stack)
      decreases AllWalkKeys(model) - Keyset(stack), 1
    {
      hide WellFormed, AllWalkKeys, Keyset, WalkKey, Truncated, WalkedBelow;
      var i := 0;
      while i < |entities|
        invariant 0 <= i <= |entities| && Valid() && Children(entities[i..]) <= Children(entities)
        invariant seen + WalkedPaths(model, entities[i..], ancestors, stack)
                  == old(seen) + WalkedPaths(model, entities, ancestors, stack)
      {
        var entity := entities[i];
        assert entities[i..][0] == entity && entities[i..][1..] == entities[i + 1..];
        assert entity in entities[i..] && Children(entities[i + 1..]) <= Children(entities[i..]);
        VisitEntity(entity, ancestors, stack);
        i := i + 1;
      }
    }

    // One entity: it is seen, and what it places is entered unless its key is on the stack.
    method VisitEntity(entity: Entity, ancestors: seq<Facts>, stack: seq<string>)
      requires Valid() && WellFormed(model) && (ChildOf(entity).Some? ==> ChildOf(entity).value in model.definitions)
      modifies this
      ensures Valid() && seen == old(seen) + WalkedBelow(model, entity, ancestors, stack)
      decreases AllWalkKeys(model) - Keyset(stack), 0
    {
      hide AllWalkKeys, Keyset, WalkKey, Truncated, Children;
      if Selectable(entity) {
        See(ancestors + [entity.facts]);
        match ChildOf(entity) {
          case None =>
          case Some(definition) =>
            var key := WalkKey(model, definition);
            if key !in stack {
              StackGrows(model, stack, definition);
              Walk(model.definitions[definition].entities, ancestors + [entity.facts], stack + [key]);
            }
        }
      }
    }
  }

  // The index and the unfolded model ------------------------------------------

  // What the walk skips because of a key it has met is nothing: the definition was
  // entered itself, or it is another one of the same key, with nothing to list.
  ghost predicate MissesNothing(m: Model, es: seq<Entity>, stack: seq<string>, open: set<DefId>)
    requires WellFormed(m) && Children(es) <= m.definitions.Keys
    decreases AllWalkKeys(m) - Keyset(stack)
  {
    forall e :: e in es && ChildOf(e).Some? ==>
      assert ChildOf(e).value in Children(es);
      SkipsNothing(m, ChildOf(e).value, stack, open)
  }

  ghost predicate SkipsNothing(m: Model, d: DefId, stack: seq<string>, open: set<DefId>)
    requires WellFormed(m) && d in m.definitions
    decreases AllWalkKeys(m) - Keyset(stack), 0
  {
    if WalkKey(m, d) in stack then d in open || Selected(m.definitions[d].entities) == []
    else
      StackGrows(m, stack, d);
      MissesNothing(m, m.definitions[d].entities, stack + [WalkKey(m, d)], open + {d})
  }

  // Every definition entered has its key on the stack.
  ghost predicate Stacked(m: Model, stack: seq<string>, open: set<DefId>) {
    forall d :: d in open ==> WalkKey(m, d) in stack
  }

  lemma {:induction false} OccurrencesAreMany(m: Model, es: seq<Entity>, ancestors: seq<Facts>, open: set<DefId>)
    requires WellFormed(m) && Children(es) <= m.definitions.Keys
    ensures |OccurrencePaths(m, es, ancestors, open)| >= |Selected(es)|
    ensures Selected(es) == [] ==> OccurrencePaths(m, es, ancestors, open) == []
  {
    if es != [] {
      assert es[0] in es && Children(es[1..]) <= Children(es);
      OccurrencesAreMany(m, es[1..], ancestors, open);
    }
  }

  // What the walk lists is what there is, or less of it.
  lemma {:induction false} WalkedIsPart(m: Model, es: seq<Entity>, ancestors: seq<Facts>, stack: seq<string>,
                                        open: set<DefId>)
    requires WellFormed(m) && Children(es) <= m.definitions.Keys && Stacked(m, stack, open)
    ensures |WalkedPaths(m, es, ancestors, stack)| <= |OccurrencePaths(m, es, ancestors, open)|
    ensures |WalkedPaths(m, es, ancestors, stack)| == |OccurrencePaths(m, es, ancestors, open)| <==>
            MissesNothing(m, es, stack, open)
    ensures MissesNothing(m, es, stack, open) ==>
            WalkedPaths(m, es, ancestors, stack) == OccurrencePaths(m, es, ancestors, open)
    decreases AllWalkKeys(m) - Keyset(stack), |es|
  {
    if es != [] {
      assert es[0] in es && Children(es[1..]) <= Children(es);
      assert ChildOf(es[0]).Some? ==> ChildOf(es[0]).value in Children(es);
      MissesNothingSplit(m, es, stack, open);
      WalkedIsPart(m, es[1..], ancestors, stack, open);
      WalkedBelowIsPart(m, es[0], ancestors, stack, open);
      hide MissesNothing, SkipsNothing, WalkedBelow, PathsBelow, Stacked, AllWalkKeys, Keyset, WellFormed;
    }
  }

  lemma MissesNothingSplit(m: Model, es: seq<Entity>, stack: seq<string>, open: set<DefId>)
    requires WellFormed(m) && Children(es) <= m.definitions.Keys && es != []
    ensures Children(es[1..]) <= m.definitions.Keys
    ensures ChildOf(es[0]).Some? ==> ChildOf(es[0]).value in m.definitions
    ensures MissesNothing(m, es, stack, open) <==>
            (ChildOf(es[0]).Some? ==> SkipsNothing(m, ChildOf(es[0]).value, stack, open))
              && MissesNothing(m, es[1..], stack, open)
  {
    assert es[0] in es && Children(es[1..]) <= Children(es);
    assert ChildOf(es[0]).Some? ==> ChildOf(es[0]).value in Children(es);
    assert forall e :: e in es <==> e == es[0] || e in es[1..];
    hide SkipsNothing;
  }

  lemma {:induction false} WalkedBelowIsPart(m: Model, e: Entity, ancestors: seq<Facts>, stack: seq<string>,
                                             open: set<DefId>)
    requires WellFormed(m) && (ChildOf(e).Some? ==> ChildOf(e).value in m.definitions) && Stacked(m, stack, open)
    ensures var walked, paths := WalkedBelow(m, e, ancestors, stack), PathsBelow(m, e, ancestors, open);
      var whole := ChildOf(e).Some? ==> SkipsNothing(m, ChildOf(e).value, stack, open);
      |walked| <= |paths| && (|walked| == |paths| <==> whole) && (whole ==> walked == paths)
    decreases AllWalkKeys(m) - Keyset(stack), 0
  {
    if ChildOf(e).Some? {
      var d := ChildOf(e).value;
      var es := m.definitions[d].entities;
      if WalkKey(m, d) !in stack {
        StackGrows(m, stack, d);
        WalkedIsPart(m, es, ancestors + [e.facts], stack + [WalkKey(m, d)], open + {d});
      } else if d !in open {
        OccurrencesAreMany(m, es, ancestors + [e.facts], open + {d});
      }
    }
  }

  // What the walk lists are occurrences.
  lemma {:induction false} WalkedAreOccurrences(m: Model, es: seq<Entity>, ancestors: seq<Facts>, stack: seq<string>,
                                                open: set<DefId>)
    requires WellFormed(m) && Children(es) <= m.definitions.Keys && Stacked(m, stack, open)
    ensures forall x :: x in WalkedPaths(m, es, ancestors, stack) ==> x in OccurrencePaths(m, es, ancestors, open)
    decreases AllWalkKeys(m) - Keyset(stack), |es|
  {
    if es != [] {
      assert es[0] in es && Children(es[1..]) <= Children(es);
      WalkedAreOccurrences(m, es[1..], ancestors, stack, open);
      WalkedBelowAreOccurrences(m, es[0], ancestors, stack, open);
      hide WalkedBelow, PathsBelow, Stacked, AllWalkKeys, Keyset, WellFormed;
    }
  }

  lemma {:induction false} WalkedBelowAreOccurrences(m: Model, e: Entity, ancestors: seq<Facts>, stack: seq<string>,
                                                     open: set<DefId>)
    requires WellFormed(m) && (ChildOf(e).Some? ==> ChildOf(e).value in m.definitions) && Stacked(m, stack, open)
    ensures forall x :: x in WalkedBelow(m, e, ancestors, stack) ==> x in PathsBelow(m, e, ancestors, open)
    decreases AllWalkKeys(m) - Keyset(stack), 0
  {
    if ChildOf(e).Some? && WalkKey(m, ChildOf(e).value) !in stack {
      var d := ChildOf(e).value;
      StackGrows(m, stack, d);
      WalkedAreOccurrences(m, m.definitions[d].entities, ancestors + [e.facts], stack + [WalkKey(m, d)], open + {d});
    }
  }

  // The walk misses nothing below a chain it has entered exactly when nothing hides below.
  lemma {:induction false} MissesNothingMeans(m: Model, path: seq<DefId>, stack: seq<string>)
    requires WellFormed(m) && RootPath(m, path) && stack == WalkKeys(m, path) && Distinct(stack)
    requires Children(ListAt(m, path)) <= m.definitions.Keys
    ensures MissesNothing(m, ListAt(m, path), stack, Elements(path)) <==>
            !exists p, d :: path <= p && SkippedAt(m, p, d)
    decreases AllWalkKeys(m) - Keyset(stack)
  {
    hide RootPath, ListAt, AllWalkKeys, Keyset, SkippedAt, MissesNothing;
    forall d | d in Children(ListAt(m, path))
      ensures SkipsNothing(m, d, stack, Elements(path)) <==> !SkipsBelow(m, path, d)
    {
      SkipsNothingMeans(m, path, stack, d);
      if WalkKey(m, d) !in stack {
        StackGrows(m, stack, d);
        PathGrows(m, path, stack, d);
        MissesNothingMeans(m, path + [d], stack + [WalkKey(m, d)]);
      }
    }
    MissesByChild(m, path, stack);
    SkippedByChild(m, path);
  }

  // Something is skipped at d behind the path, or behind d.
  ghost predicate SkipsBelow(m: Model, path: seq<DefId>, d: DefId) {
    SkippedAt(m, path, d) || exists p, c :: path + [d] <= p && SkippedAt(m, p, c)
  }

  // The same in terms of walk keys.
  ghost predicate SkippedAt(m: Model, p: seq<DefId>, d: DefId) {
    && RootPath(m, p) && d in Children(ListAt(m, p)) && Distinct(WalkKeys(m, p)) && d !in p && d in m.definitions
    && WalkKey(m, d) in WalkKeys(m, p) && Selected(m.definitions[d].entities) != []
  }

  lemma SkipsNothingMeans(m: Model, path: seq<DefId>, stack: seq<string>, d: DefId)
    requires WellFormed(m) && RootPath(m, path) && stack == WalkKeys(m, path) && Distinct(stack)
    requires d in Children(ListAt(m, path)) && d in m.definitions
    ensures WalkKey(m, d) in stack ==> (SkipsNothing(m, d, stack, Elements(path)) <==> !SkipsBelow(m, path, d))
    ensures WalkKey(m, d) !in stack ==>
              (SkipsBelow(m, path, d) <==> exists p, c :: path + [d] <= p && SkippedAt(m, p, c))
  {
    if WalkKey(m, d) in stack {
      forall p, c | path + [d] <= p ensures !SkippedAt(m, p, c) {
        var i :| 0 <= i < |stack| && stack[i] == WalkKey(m, d);
        assert p[i] == (path + [d])[i] && p[|path|] == (path + [d])[|path|];
        assert WalkKeys(m, p)[i] == WalkKeys(m, p)[|path|];
      }
    }
    hide RootPath, ListAt, Children;
  }

  lemma MissesByChild(m: Model, path: seq<DefId>, stack: seq<string>)
    requires WellFormed(m) && Children(ListAt(m, path)) <= m.definitions.Keys
    ensures MissesNothing(m, ListAt(m, path), stack, Elements(path)) <==>
            forall d :: d in Children(ListAt(m, path)) ==> SkipsNothing(m, d, stack, Elements(path))
  {
    hide ListAt, SkipsNothing;
    var es := ListAt(m, path);
    forall d | d in Children(es) && MissesNothing(m, es, stack, Elements(path))
      ensures SkipsNothing(m, d, stack, Elements(path))
    {
      var e :| e in es && ChildOf(e) == Some(d);
    }
    forall e | e in es && ChildOf(e).Some? ensures ChildOf(e).value in Children(es) {
    }
  }

  lemma SkippedByChild(m: Model, path: seq<DefId>)
    ensures (exists p, d :: path <= p && SkippedAt(m, p, d)) <==>
            exists d :: d in Children(ListAt(m, path)) && SkipsBelow(m, path, d)
  {
    if p, d :| path <= p && SkippedAt(m, p, d) {
      SkippedPlace(m, p, d);
      if p == path {
        assert SkipsBelow(m, path, d);
      } else {
        RootPathThrough(m, p, |path|);
        assert p[..|path|] == path && path + [p[|path|]] <= p;
        assert SkipsBelow(m, path, p[|path|]);
      }
    }
    hide SkippedAt;
    if d :| d in Children(ListAt(m, path)) && SkipsBelow(m, path, d) && !SkippedAt(m, path, d) {
      var p, c :| path + [d] <= p && SkippedAt(m, p, c);
      assert path <= path + [d] <= p;
    }
  }

  lemma SkippedPlace(m: Model, p: seq<DefId>, d: DefId)
    requires SkippedAt(m, p, d)
    ensures RootPath(m, p) && d in Children(ListAt(m, p))
  {
  }

  lemma RootPathThrough(m: Model, p: seq<DefId>, i: nat)
    requires RootPath(m, p) && i < |p|
    ensures p[i] in Children(ListAt(m, p[..i]))
  {
    hide Children, ListAt;
    if i < |p| - 1 {
      RootPathThrough(m, p[..|p| - 1], i);
      assert p[..|p| - 1][..i] == p[..i];
    }
  }

  lemma SkippedMeans(m: Model, p: seq<DefId>, d: DefId)
    requires WellFormed(m)
    ensures SkippedAt(m, p, d) <==> HidesAt(m, p, d)
  {
    RootPathMeans(m, p + [d]);
    RootPathStep(m, p, d);
    if RootPath(m, p) && d in m.definitions {
      PathIsDefined(m, p);
      hide RootPath, FromRoot, ListAt, Children;
      forall c, e | c in m.definitions && e in m.definitions
        ensures LooksAlike(m, c, e) <==> WalkKey(m, c) == WalkKey(m, e)
      {
        LooksAlikeMeans(m, c, e);
      }
      var es := m.definitions[d].entities;
      forall e ensures e in Selected(es) <==> e in es && Counts(e) {
        SelectedMembers(es, e);
      }
      assert Selected(es) != [] ==> Selected(es)[0] in Selected(es);
      hide Selected, Counts, LooksAlike, WalkKey;
      AllDifferMeans(m, p);
      KeyOnStack(m, p, d);
    }
  }

  lemma AllDifferMeans(m: Model, p: seq<DefId>)
    requires forall i :: 0 <= i < |p| ==> p[i] in m.definitions
    ensures Distinct(WalkKeys(m, p)) <==> AllLookDifferent(m, p)
  {
    forall i, j | 0 <= i < j < |p| ensures LooksAlike(m, p[i], p[j]) <==> WalkKeys(m, p)[i] == WalkKeys(m, p)[j] {
      LooksAlikeMeans(m, p[i], p[j]);
    }
    hide LooksAlike, WalkKey;
  }

  lemma KeyOnStack(m: Model, p: seq<DefId>, d: DefId)
    requires d in m.definitions && forall i :: 0 <= i < |p| ==> p[i] in m.definitions
    ensures WalkKey(m, d) in WalkKeys(m, p) <==> exists c :: c in p && LooksAlike(m, c, d)
  {
    forall c | c in p ensures LooksAlike(m, c, d) <==> WalkKey(m, c) == WalkKey(m, d) {
      LooksAlikeMeans(m, c, d);
    }
    hide LooksAlike, WalkKey;
    forall c | c in p ensures WalkKey(m, c) in WalkKeys(m, p) {
      var i :| 0 <= i < |p| && p[i] == c;
      assert WalkKeys(m, p)[i] == WalkKey(m, c);
    }
    if WalkKey(m, d) in WalkKeys(m, p) {
      var i :| 0 <= i < |p| && WalkKeys(m, p)[i] == WalkKey(m, d);
      assert p[i] in p;
    }
  }

  lemma LooksAlikeMeans(m: Model, c: DefId, d: DefId)
    requires c in m.definitions && d in m.definitions
    ensures LooksAlike(m, c, d) <==> WalkKey(m, c) == WalkKey(m, d)
  {
    forall x, text | x in m.definitions ensures GoesBy(m.definitions[x], text) <==> text == WalkKey(m, x) {
    }
    hide GoesBy, WalkKey;
    assert GoesBy(m.definitions[c], WalkKey(m, c)) && GoesBy(m.definitions[d], WalkKey(m, d));
  }

  lemma PathIsDefined(m: Model, p: seq<DefId>)
    requires WellFormed(m) && RootPath(m, p)
    ensures forall i :: 0 <= i < |p| ==> p[i] in m.definitions
  {
    if p != [] {
      PathIsDefined(m, p[..|p| - 1]);
    }
  }

  lemma MissesMeans(m: Model)
    requires WellFormed(m)
    ensures MissesNothing(m, m.root, [], {}) <==> !HidesSomething(m)
    ensures LooksTellApart(m) ==> !HidesSomething(m)
  {
    assert Elements([]) == {};
    MissesNothingMeans(m, [], []);
    hide MissesNothing, SkippedAt, HidesAt, LooksTellApart;
    forall p, d ensures SkippedAt(m, p, d) <==> HidesAt(m, p, d) {
      SkippedMeans(m, p, d);
    }
    forall p, d | SkippedAt(m, p, d) ensures [] <= p {
    }
    if p, d :| HidesAt(m, p, d) {
      HidingLooksAlike(m, p, d);
    }
  }

  lemma HidingLooksAlike(m: Model, p: seq<DefId>, d: DefId)
    requires HidesAt(m, p, d)
    ensures !LooksTellApart(m)
  {
    hide FromRoot, LooksAlike, AllLookDifferent;
    var c :| c in p && LooksAlike(m, c, d);
    var i :| 0 <= i < |p| && p[i] == c;
    var q := p + [d];
    assert q[i] == c && q[|p|] == d;
  }

  lemma PathGrows(m: Model, path: seq<DefId>, stack: seq<string>, d: DefId)
    requires WellFormed(m) && RootPath(m, path) && d in Children(ListAt(m, path)) && d in m.definitions
    requires stack == WalkKeys(m, path)
    ensures RootPath(m, path + [d]) && stack + [WalkKey(m, d)] == WalkKeys(m, path + [d])
    ensures ListAt(m, path + [d]) == m.definitions[d].entities && Elements(path + [d]) == Elements(path) + {d}
    ensures Children(ListAt(m, path + [d])) <= m.definitions.Keys
  {
    RootPathExtend(m, path, d);
  }

  // Everything listed is an occurrence. Each occurrence is listed, once and in walk
  // order up to the limit, exactly when no definition hides behind another's looks.
  method RecursiveEntityIndex(m: Model, limit: nat) returns (entries: seq<seq<Facts>>, totalSeen: nat, truncated: bool)
    requires WellFormed(m)
    ensures |entries| == (if totalSeen <= limit then totalSeen else limit) && (truncated <==> totalSeen > limit)
    ensures IsIndex(m, limit, entries, totalSeen)
    ensures LooksTellApart(m) ==> !HidesSomething(m)
  {
    var state := new IndexState(m, limit);
    state.Walk(m.root, [], []);
    WalkIndexes(m, limit);
    MissesMeans(m);
    hide HidesSomething, LooksTellApart, IsIndex, WalkedPaths, WellFormed, Children;
    assert state.seen == WalkedPaths(m, m.root, [], []);
    entries, totalSeen, truncated := state.entries, state.totalSeen, state.totalSeen > limit;
  }

  ghost predicate IsIndex(m: Model, limit: nat, entries: seq<seq<Facts>>, totalSeen: nat) {
    exists qs, paths :: AreOccurrences(m, m.root, {}, qs, paths) && Indexes(m, limit, paths, entries, totalSeen)
  }

  ghost predicate Indexes(m: Model, limit: nat, paths: seq<seq<Entity>>, entries: seq<seq<Facts>>, totalSeen: nat) {
    && totalSeen <= |paths| && (totalSeen == |paths| <==> !HidesSomething(m))
    && (!HidesSomething(m) ==> entries == Truncated(Listed([], paths), limit))
    && forall x :: x in entries ==> x in Listed([], paths)
  }

  lemma WalkIndexes(m: Model, limit: nat)
    requires WellFormed(m)
    ensures var walked := WalkedPaths(m, m.root, [], []);
            IsIndex(m, limit, Truncated(walked, limit), |walked|)
  {
    var paths := EntityPaths(m, m.root, {});
    var qs := PathsAreOccurrences(m, m.root, {});
    PathsAreListed(m, m.root, [], {});
    WalkedIsPart(m, m.root, [], [], {});
    WalkedAreOccurrences(m, m.root, [], [], {});
    MissesMeans(m);
    hide WalkedPaths, OccurrencePaths, EntityPaths, HidesSomething, MissesNothing, FactsAlong, AreOccurrences;
    assert Indexes(m, limit, paths, Truncated(WalkedPaths(m, m.root, [], []), limit), |WalkedPaths(m, m.root, [], [])|);
  }

  // A group of "A", which holds a group of "B", which holds a face. Both definitions
  // answer nil for a persistent id; they are told apart by their references.
  const FACE := Entity(Facts(Face, "1", "", "", ""), [], None)
  const INNER_GROUP := Entity(Facts(Group, "2", "", "", ""), [], Some(1))
  const OUTER_GROUP := Entity(Facts(Group, "3", "", "", ""), [], Some(0))
  const INNER := Definition(Some(""), "r2", "B", "", [FACE])
  const OUTER := Definition(Some(""), "r1", "A", "", [INNER_GROUP])
  const NESTED := Model([OUTER_GROUP], map[0 := OUTER, 1 := INNER])

  // The walk takes the inner definition for the outer one and does not see the face,
  // although the fingerprint of the model is complete and counts three occurrences.
  lemma SharedKeyHidesEntities()
    ensures WellFormed(NESTED) && Fingerprintable(NESTED, 3) && Occurrences(NESTED) == 3
    ensures |WalkedPaths(NESTED, NESTED.root, [], [])| == 2 && HidesSomething(NESTED)
  {
    NestedPaths();
    NestedIsFingerprintable();
    WalkTotal(NESTED);
    WalkedIsPart(NESTED, NESTED.root, [], [], {});
    MissesMeans(NESTED);
  }

  lemma NestedChildren()
    ensures WellFormed(NESTED)
    ensures Children([FACE]) == {} && Children([INNER_GROUP]) == {1} && Children([OUTER_GROUP]) == {0}
  {
    assert Children([FACE]) == {};
    assert ChildOf(INNER_GROUP) == Some(1) && Children([INNER_GROUP]) == {1};
    assert ChildOf(OUTER_GROUP) == Some(0) && Children([OUTER_GROUP]) == {0};
  }

  lemma NestedPaths()
    ensures WellFormed(NESTED)
    ensures |WalkedPaths(NESTED, NESTED.root, [], [])| == 2 && |OccurrencePaths(NESTED, NESTED.root, [], {})| == 3
  {
    NestedChildren();
    NestedWalk();
    var m, top, below := NESTED, [OUTER_GROUP.facts], [OUTER_GROUP.facts, INNER_GROUP.facts];
    hide WellFormed, Children, WalkedPaths;
    assert [] + [OUTER_GROUP.facts] == top && top + [INNER_GROUP.facts] == below;
    assert {} + {0} == {0} && {0} + {1} == {0, 1};
    assert OccurrencePaths(m, [FACE], below, {0, 1}) == [below + [FACE.facts]];
    assert OccurrencePaths(m, [INNER_GROUP], top, {0}) == [below] + [below + [FACE.facts]];
    assert OccurrencePaths(m, [OUTER_GROUP], [], {}) == [top] + ([below] + [below + [FACE.facts]]);
  }

  lemma NestedWalk()
    ensures WellFormed(NESTED) && |WalkedPaths(NESTED, NESTED.root, [], [])| == 2
  {
    NestedChildren();
    var m, top, below := NESTED, [OUTER_GROUP.facts], [OUTER_GROUP.facts, INNER_GROUP.facts];
    hide WellFormed, Children;
    assert [] + [OUTER_GROUP.facts] == top && top + [INNER_GROUP.facts] == below;
    assert WalkKey(m, 0) == "" && WalkKey(m, 1) == "" && [] + [""] == [""];
    assert WalkedPaths(m, [INNER_GROUP], top, [""]) == [below];
    assert WalkedPaths(m, [OUTER_GROUP], [], []) == [top] + [below];
  }

  lemma NestedIsAcyclic()
    ensures Acyclic(NESTED)
  {
    NestedChildren();
    var order: seq<DefId> := [1, 0];
    assert order[..0] == [] && order[..1] == [1];
    assert PlacesEarlier(NESTED, order);
    OrderedIsAcyclic(NESTED, order);
  }

  lemma OneSelected(e: Entity)
    requires Selectable(e)
    ensures Selected([e]) == [e]
  {
    assert [e][1..] == [];
  }

  lemma NestedLists()
    ensures EverywhereAvailable(NESTED) && EverywhereDistinct(NESTED)
  {
    forall es | Covered(NESTED, es) ensures AllAvailable(Selected(es)) && NoDuplicates(Selected(es)) {
      hide Reachable, Selected;
      assert es == [FACE] || es == [INNER_GROUP] || es == [OUTER_GROUP];
      OneSelected(es[0]);
    }
  }

  lemma FewSlots(m: Model, ds: set<DefId>)
    requires forall d :: d in ds && d in m.definitions ==> d < 2 && |Selected(m.definitions[d].entities)| == 1
    ensures |Slots(m, ds)| <= 2
  {
    hide Selected;
    forall x | x in Slots(m, ds) ensures x == (0, 0) || x == (1, 0) {
    }
    hide Slots;
    PartOfTwo(Slots(m, ds), (0, 0), (1, 0));
  }

  lemma PartOfTwo<T>(s: set<T>, a: T, b: T)
    requires forall x :: x in s ==> x == a || x == b
    ensures |s| <= 2
  {
    assert s <= {a, b};
    assert {a, b} == s + ({a, b} - s) && |{a, b}| == |s| + |{a, b} - s|;
  }

  lemma NestedSize()
    ensures StoredEntities(NESTED) <= 3
  {
    OneSelected(FACE);
    OneSelected(INNER_GROUP);
    OneSelected(OUTER_GROUP);
    hide ReachableSet, Selected, Slots;
    FewSlots(NESTED, ReachableSet(NESTED));
  }

  lemma NestedKeys()
    ensures !KeysClash(NESTED, ReachableSet(NESTED)) && KeysAvailable(NESTED, ReachableSet(NESTED))
  {
    hide Reachable;
    assert KeyOf(NESTED, 0) == ReferenceKey("r1") && KeyOf(NESTED, 1) == ReferenceKey("r2");
    assert "r1"[1] != "r2"[1];
    hide KeyOf;
  }

  lemma NestedIsFingerprintable()
    ensures WellFormed(NESTED) && Fingerprintable(NESTED, 3)
  {
    NestedPaths();
    WalkTotal(NESTED);
    NestedIsAcyclic();
    NestedLists();
    NestedKeys();
    NestedSize();
    hide Acyclic, WalkedPaths, OccurrencePaths, Occurrences, StoredEntities, EverywhereAvailable, EverywhereDistinct;
    hide ReachableSet, KeysClash, KeysAvailable, WellFormed;
  }

  lemma WalkTotal(m: Model)
    requires WellFormed(m)
    ensures |OccurrencePaths(m, m.root, [], {})| == Occurrences(m)
  {
    OccurrencesMean(m);
    PathsAreListed(m, m.root, [], {});
  }

  // The memoised fingerprint and the naive walk count the same occurrences.
  lemma FingerprintCountsTheWalk(m: Model, hash: Source -> Digest, limit: nat, r: MerkleReport)
    requires WellFormed(m) && Acyclic(m) && !KeysClash(m, ReachableSet(m)) && Delivered(m, hash, limit, r)
    ensures r.logicalOccurrences == Min(|OccurrencePaths(m, m.root, [], {})|, SAFE_INTEGER_MAX)
    ensures r.complete ==> r.logicalOccurrences == |OccurrencePaths(m, m.root, [], {})|
    ensures !HidesSomething(m) ==>
            r.logicalOccurrences == Min(|WalkedPaths(m, m.root, [], [])|, SAFE_INTEGER_MAX)
  {
    WalkTotal(m);
    WalkedIsPart(m, m.root, [], [], {});
    MissesMeans(m);
    hide HidesSomething, WalkedPaths;
    hide ReachableSet, Acyclic, KeysClash, KeysAvailable, StoredEntities, EverywhereAvailable, EverywhereDistinct,
         OccurrencePaths;
  }
}
