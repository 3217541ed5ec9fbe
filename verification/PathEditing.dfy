// The host model during a geometry edit: isolating the edited occurrence and
// finding the edited topology again.
module PathEditing {
  import opened Options
  import opened Lists
  import opened PathIsolation
  import opened IsolatedPath

  // What a successful isolation guarantees: the returned instances form a path
  // through the very places of the original ones, `entities` is the list they
  // lead to, and no definition on the way is placed anywhere else.
  ghost predicate Isolated(g: Graph, p: seq<EntityId>, h: Graph, iso: seq<EntityId>, entities: seq<EntityId>) {
    && |iso| == |p| && IsPath(h, iso) && Alone(h, iso) && AtSamePlaces(g, p, h, iso)
    && entities == Level(h, iso, |iso|)
    && (Matching(g, Level(g, p, |p|), h, entities, false) || Matching(g, Level(g, p, |p|), h, entities, true))
  }

  class Host {
    var graph: Graph

    // The native primitive: the instance gets a definition of its own, filled with
    // copies in the same order. The unfolded model stays as it is, and nothing else
    // places the new definition.
    method MakeUniqueInstance(target: EntityId)
      requires WellFormed(graph) && target in graph.items && graph.items[target].child.Some?
      modifies this
      ensures graph == MadeUnique(old(graph), target) && OnlyMadeUnique(old(graph), target, graph)
      ensures WellFormed(graph) && SameUnfolding(old(graph), graph)
      ensures graph.items[target].child.Some? && Instances(graph, graph.items[target].child.value) == {target}
    {
      MadeUniqueKeeps(graph, target);
      hide WellFormed, MadeUnique, OnlyMadeUnique, SameUnfolding, Instances;
      graph := MadeUnique(graph, target);
    }

    // Isolating never shows in the unfolded model, whether or not it succeeds; a
    // path without repeats is isolated exactly when every entity below the first
    // shared definition looks unique among its siblings.
    method IsolatePath(ancestors: seq<EntityId>, signature: (string, DefId) -> string)
      returns (result: Option<(seq<EntityId>, seq<EntityId>)>)
      requires WellFormed(graph) && IsPath(graph, ancestors)
      modifies this
      ensures WellFormed(graph) && SameUnfolding(old(graph), graph)
      ensures result.Some? ==> Isolated(old(graph), ancestors, graph, result.value.0, result.value.1)
      ensures Distinct(ancestors) ==> (result.Some? <==> Unambiguous(old(graph), signature, ancestors))
      ensures Distinct(ancestors) ==> (result.None? <==> Confuses(old(graph), signature, ancestors))
    {
      hide WellFormed, IsPath, SameUnfolding, Progressed, Tracked, Level, Alone, AtSamePlaces, Distinct, Shared, Step;
      hide LooksUnique, SharedAbove, Confuses;
      UnambiguousMeans(graph, signature, ancestors);
      hide Choose, Candidates, SignatureOf, Places, Instances, MadeUnique, Isolated;
      var start := graph;
      var signatures :=
        seq(|ancestors|, i requires 0 <= i < |ancestors| => SignatureOf(start, signature, ancestors[i]));
      var entities := graph.root;
      var isolated: seq<EntityId> := [];
      ghost var copied := false;
      StartsProgressed(graph, ancestors);
      StartsTracked(graph, ancestors);
      var index := 0;
      while index < |ancestors|
        invariant 0 <= index <= |ancestors| && index == |isolated|
        invariant Progressed(start, ancestors, graph, isolated, entities, copied)
        invariant Distinct(ancestors) ==> Tracked(start, ancestors, graph, isolated, copied)
        invariant Distinct(ancestors) ==> forall i :: 0 <= i < index && SharedAbove(start, ancestors, i) ==>
                  LooksUnique(start, signature, ancestors, i)
      {
        var source := ancestors[index];
        var chosen := Choose(Candidates(graph, signature, entities, signatures[index]), source);
        ghost var k := ChosenAtItsPlace(start, ancestors, graph, isolated, entities, copied, signature);
        if chosen.None? {
          ProgressedParts(start, ancestors, graph, isolated, entities, copied);
          NotUnambiguous(start, ancestors, graph, isolated, copied, signature);
          return None;
        }
        var target := chosen.value;
        ghost var d := IsolateOne(start, ancestors, graph, isolated, entities, copied, signature, k);
        copied := Shared(graph, d);
        isolated := isolated + [target];
        index := index + 1;
        EnterTarget(target, d);
        entities := graph.lists[graph.items[target].child.value];
      }
      FinallyIsolated(start, ancestors, graph, isolated, entities, copied);
      result := Some((isolated, entities));
    }

    // make_unique, where the definition has other instances.
    method EnterTarget(target: EntityId, ghost d: DefId)
      requires WellFormed(graph) && Places(graph, target, d)
      modifies this
      ensures graph == Step(old(graph), target, d)
    {
      if |Instances(graph, graph.items[target].child.value)| > 1 {
        MakeUniqueInstance(target);
      }
    }
  }

  lemma MadeUniqueKeeps(g: Graph, target: EntityId)
    requires WellFormed(g) && target in g.items && g.items[target].child.Some?
    ensures var h := MadeUnique(g, target);
      && OnlyMadeUnique(g, target, h) && WellFormed(h) && SameUnfolding(g, h)
      && target in h.items && h.items[target].child.Some? && Instances(h, h.items[target].child.value) == {target}
  {
    MadeUniqueFacts(g, target);
    MadeUniqueWellFormed(g, target);
    MadeUniqueShowsNothing(g, target);
    hide MadeUnique, SameUnfolding, WellFormed, Instances;
    OnlyTargetChanges(g, target, MadeUnique(g, target));
    CopyHasOneInstance(g, target, MadeUnique(g, target));
  }

  // Below an entity whose definition another instance places as well, some entity of the
  // path lies beside another instance of the same signature.
  ghost predicate Confuses(g: Graph, signature: (string, DefId) -> string, p: seq<EntityId>) {
    exists i, e :: 0 <= i < |p| && e in g.items && IsBelowShared(g, p, i) && LooksLike(g, signature, e, p[i])
  }

  ghost predicate IsBelowShared(g: Graph, p: seq<EntityId>, i: int) {
    exists j, x :: 0 <= j < i && j < |p| && x in g.items && p[j] in g.items && x != p[j] && g.items[p[j]].child.Some?
                   && g.items[x].child == g.items[p[j]].child
  }

  ghost predicate LooksLike(g: Graph, signature: (string, DefId) -> string, e: EntityId, f: EntityId) {
    && e != f && e in g.items && f in g.items && g.items[e].owner == g.items[f].owner
    && g.items[e].child.Some? && g.items[f].child.Some?
    && signature(g.items[e].payload, g.items[e].child.value) == signature(g.items[f].payload, g.items[f].child.value)
  }

  lemma SharedMeans(g: Graph, e: EntityId)
    requires e in g.items && g.items[e].child.Some?
    ensures Shared(g, g.items[e].child.value) <==>
            exists x :: x in g.items && x != e && g.items[x].child == g.items[e].child
  {
    var all := Instances(g, g.items[e].child.value);
    assert e in all;
    if |all| > 1 {
      assert |all - {e}| == |all| - 1;
      var x :| x in all - {e};
    } else {
      SingletonOf(all, e);
      forall x | x in g.items && g.items[x].child == g.items[e].child ensures x == e {
        assert x in all;
      }
    }
  }

  lemma BelowSharedMeans(g: Graph, p: seq<EntityId>, i: nat)
    requires i <= |p| && IsPath(g, p)
    ensures SharedAbove(g, p, i) <==> IsBelowShared(g, p, i)
  {
    forall j | 0 <= j < i
      ensures Shared(g, g.items[p[j]].child.value)
         <==> exists x :: x in g.items && x != p[j] && g.items[x].child == g.items[p[j]].child
    {
      SharedMeans(g, p[j]);
    }
    hide Shared, IsPath;
  }

  lemma LooksUniqueMeans(g: Graph, signature: (string, DefId) -> string, p: seq<EntityId>, i: nat)
    requires WellFormed(g) && IsPath(g, p) && i < |p|
    ensures LooksUnique(g, signature, p, i) <==> !exists e :: e in g.items && LooksLike(g, signature, e, p[i])
  {
    var k := LevelAt(g, p, i);
    forall e ensures e in Level(g, p, i) <==> e in g.items && g.items[e].owner == g.items[p[i]].owner {
    }
    hide WellFormed, IsPath, Level;
  }

  lemma UnambiguousMeans(g: Graph, signature: (string, DefId) -> string, p: seq<EntityId>)
    requires WellFormed(g) && IsPath(g, p)
    ensures Unambiguous(g, signature, p) <==> !Confuses(g, signature, p)
  {
    hide WellFormed, IsPath, SharedAbove, IsBelowShared, LooksUnique, LooksLike;
    forall i | 0 <= i < |p|
      ensures SharedAbove(g, p, i) <==> IsBelowShared(g, p, i)
      ensures LooksUnique(g, signature, p, i) <==> !exists e :: e in g.items && LooksLike(g, signature, e, p[i])
    {
      BelowSharedMeans(g, p, i);
      LooksUniqueMeans(g, signature, p, i);
    }
  }

  // Where signatures tell payloads and definitions apart, isolation fails only for a
  // sibling of the same payload that places the same definition.
  lemma OnlyTwinsConfuse(g: Graph, signature: (string, DefId) -> string, p: seq<EntityId>)
    requires forall a, c, b, d :: signature(a, c) == signature(b, d) ==> a == b && c == d
    ensures Confuses(g, signature, p) ==>
              exists i, e :: 0 <= i < |p| && e in g.items && p[i] in g.items && e != p[i] && IsBelowShared(g, p, i)
                && g.items[e] == g.items[p[i]]
  {
    hide IsBelowShared;
    if Confuses(g, signature, p) {
      var i, e :| 0 <= i < |p| && e in g.items && IsBelowShared(g, p, i) && LooksLike(g, signature, e, p[i]);
      assert g.items[e] == g.items[p[i]];
    }
  }

  lemma StartsTracked(g: Graph, p: seq<EntityId>)
    ensures Tracked(g, p, g, [], false)
  {
  }

  lemma ChosenAtItsPlace(g0: Graph, p: seq<EntityId>, g: Graph, iso: seq<EntityId>, entities: seq<EntityId>,
                         copied: bool, signature: (string, DefId) -> string) returns (k: nat)
    requires Progressed(g0, p, g, iso, entities, copied) && |iso| < |p|
    ensures k < |entities| == |Level(g0, p, |iso|)| && Level(g0, p, |iso|)[k] == p[|iso|]
    ensures var chosen := Choose(Candidates(g, signature, entities, SignatureOf(g0, signature, p[|iso|])), p[|iso|]);
      && (chosen.Some? ==> chosen.value == entities[k])
      && (chosen.Some? <==> !copied || LooksUnique(g0, signature, p, |iso|))
  {
    hide SameUnfolding, AtSamePlaces, Frame, Alone, Level, Matching, Candidates, Choose;
    k := LevelAt(g0, p, |iso|);
    MatchingLengths(g0, Level(g0, p, |iso|), g, entities, copied);
    ChosenIsOwnClone(g0, Level(g0, p, |iso|), g, entities, copied, signature, p[|iso|], k);
  }

  // Everything one turn of the loop establishes, once its target is the entity at
  // the source's place.
  lemma IsolateOne(g0: Graph, p: seq<EntityId>, g: Graph, iso: seq<EntityId>, entities: seq<EntityId>, copied: bool,
                   signature: (string, DefId) -> string, k: nat) returns (d: DefId)
    requires Progressed(g0, p, g, iso, entities, copied) && |iso| < |p|
    requires k < |entities| == |Level(g0, p, |iso|)| && Level(g0, p, |iso|)[k] == p[|iso|]
    requires !copied || LooksUnique(g0, signature, p, |iso|)
    requires Distinct(p) ==> Tracked(g0, p, g, iso, copied)
    ensures WellFormed(g) && Places(g, entities[k], d)
    ensures var h := Step(g, entities[k], d);
      && entities[k] in h.items && h.items[entities[k]].child.Some? && h.items[entities[k]].child.value in h.lists
      && Progressed(g0, p, h, iso + [entities[k]], h.lists[h.items[entities[k]].child.value], Shared(g, d))
      && (Distinct(p) ==> Tracked(g0, p, h, iso + [entities[k]], Shared(g, d)))
    ensures Distinct(p) && SharedAbove(g0, p, |iso|) ==> LooksUnique(g0, signature, p, |iso|)
  {
    hide WellFormed, IsPath, SameUnfolding, Progressed, Level, Alone, AtSamePlaces, Distinct, Shared, Step,
         LooksUnique, SharedAbove, Frame;
    ProgressedParts(g0, p, g, iso, entities, copied);
    TargetExtendsPath(g0, p, g, iso, entities, copied, k);
    d := g0.items[p[|iso|]].child.value;
    StepProgresses(g0, p, g, iso, entities, copied, k, d);
    if Distinct(p) {
      TargetIsFreshOrOwn(g0, p, g, iso, entities, copied, k);
      StepTracks(g0, p, g, iso, entities[k], copied, d);
    }
  }

  lemma MatchingLengths(g: Graph, orig: seq<EntityId>, h: Graph, cur: seq<EntityId>, copied: bool)
    requires Matching(g, orig, h, cur, copied)
    ensures |cur| == |orig|
  {
  }

  lemma NotUnambiguous(g0: Graph, p: seq<EntityId>, g: Graph, iso: seq<EntityId>, copied: bool,
                       signature: (string, DefId) -> string)
    requires |iso| < |p| && copied && !LooksUnique(g0, signature, p, |iso|)
    ensures Distinct(p) && Tracked(g0, p, g, iso, copied) ==> !Unambiguous(g0, signature, p)
  {
    hide SharedAbove, LooksUnique, Distinct;
  }

  lemma FinallyIsolated(g0: Graph, p: seq<EntityId>, g: Graph, iso: seq<EntityId>, entities: seq<EntityId>,
                        copied: bool)
    requires Progressed(g0, p, g, iso, entities, copied) && |iso| == |p|
    ensures WellFormed(g) && SameUnfolding(g0, g) && Isolated(g0, p, g, iso, entities)
  {
    hide SameUnfolding, AtSamePlaces, Frame, Alone, Level, Matching, WellFormed, IsPath;
  }
}
