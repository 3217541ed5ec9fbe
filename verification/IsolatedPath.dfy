// Isolating one path of instances, and what that guarantees to a later edit.
module IsolatedPath {
  import opened Options
  import opened Lists
  import opened PathIsolation

  // A path of instances: each lies in the list the one before it places.
  ghost predicate IsPath(g: Graph, p: seq<EntityId>) {
    && (forall i :: 0 <= i < |p| ==> p[i] in g.items && g.items[p[i]].child.Some?)
    && (forall i {:trigger Above(g, p, i)} :: 0 <= i < |p| ==> g.items[p[i]].owner == Above(g, p, i))
  }

  // The definition whose list holds the i-th entity of a path.
  ghost function Above(g: Graph, p: seq<EntityId>, i: nat): Option<DefId>
    requires i <= |p|
  {
    if i > 0 && p[i - 1] in g.items then g.items[p[i - 1]].child else None
  }

  // No definition on the path is placed anywhere else.
  ghost predicate Alone(g: Graph, p: seq<EntityId>) {
    forall i :: 0 <= i < |p| && p[i] in g.items && g.items[p[i]].child.Some? ==>
      Instances(g, g.items[p[i]].child.value) == {p[i]}
  }

  lemma {:induction false} AloneIsDistinct(g: Graph, p: seq<EntityId>, a: nat, b: nat)
    requires IsPath(g, p) && Alone(g, p) && a < b < |p|
    ensures p[a] != p[b] && g.items[p[a]].child != g.items[p[b]].child
    decreases a
  {
    if g.items[p[a]].child == g.items[p[b]].child {
      assert Instances(g, g.items[p[a]].child.value) == {p[a]} && Instances(g, g.items[p[b]].child.value) == {p[b]};
    }
    assert g.items[p[a]].owner == Above(g, p, a) && g.items[p[b]].owner == Above(g, p, b);
    if p[a] == p[b] && a > 0 {
      AloneIsDistinct(g, p, a - 1, b - 1);
    }
  }

  // h differs from g only in fresh entities and definitions and in what the
  // entities of `iso` place.
  ghost predicate Frame(g: Graph, h: Graph, iso: seq<EntityId>) {
    && h.root == g.root && h.nextEntity >= g.nextEntity
    && (forall d :: d in g.lists ==> d in h.lists && h.lists[d] == g.lists[d])
    && (forall e :: e in g.items ==> e in h.items && (e !in iso ==> h.items[e] == g.items[e]))
  }

  // The current list corresponds to the original one place by place: it is that
  // list, or a list of fresh copies.
  ghost predicate Matching(g: Graph, orig: seq<EntityId>, h: Graph, cur: seq<EntityId>, copied: bool) {
    && |cur| == |orig| && (!copied ==> cur == orig)
    && (forall p :: 0 <= p < |orig| ==>
          orig[p] in g.items && cur[p] in h.items && SameBut(g.items[orig[p]], h.items[cur[p]]))
    && (copied ==> forall p :: 0 <= p < |cur| ==> cur[p] >= g.nextEntity)
    && (forall i, j :: 0 <= i < j < |cur| ==> cur[i] != cur[j])
  }

  ghost predicate SameBut(a: Item, b: Item) {
    a.payload == b.payload && a.child == b.child
  }

  predicate Shared(g: Graph, d: DefId) {
    |Instances(g, d)| > 1
  }

  ghost function Step(g: Graph, target: EntityId, d: DefId): Graph
    requires WellFormed(g) && Places(g, target, d)
  {
    if Shared(g, d) then MadeUnique(g, target) else g
  }

  lemma OwnerOf(g: Graph, d: DefId, k: nat)
    requires WellFormed(g) && d in g.lists && k < |g.lists[d]|
    ensures g.lists[d][k] in g.items && g.items[g.lists[d][k]].owner == Some(d)
  {
    assert Exists(g, Some(d)) && Holds(g, Some(d), ListOf(g, Some(d)));
  }

  // A shared definition is none of those already isolated.
  lemma SharedIsNotAlone(g: Graph, iso: seq<EntityId>, target: EntityId, d: DefId)
    requires IsPath(g, iso + [target]) && Alone(g, iso) && Places(g, target, d) && Shared(g, d)
    ensures forall i :: 0 <= i < |iso| ==> iso[i] in g.items && g.items[iso[i]].child != Some(d) && iso[i] != target
  {
    forall i | 0 <= i < |iso|
      ensures iso[i] in g.items && g.items[iso[i]].child != Some(d) && iso[i] != target
    {
      assert (iso + [target])[i] == iso[i];
      assert Instances(g, g.items[iso[i]].child.value) == {iso[i]};
    }
  }

  // No entity of the path lies in the list its last entity places.
  lemma NotOnPath(g: Graph, iso: seq<EntityId>, target: EntityId, d: DefId)
    requires IsPath(g, iso + [target]) && Alone(g, iso) && Places(g, target, d)
    ensures forall i :: 0 <= i < |iso| ==> iso[i] in g.items && g.items[iso[i]].owner != Some(d)
  {
    var p := iso + [target];
    assert p[|iso|] == target;
    if Shared(g, d) {
      SharedIsNotAlone(g, iso, target, d);
    } else {
      UnsharedIsAlone(g, iso, target, d);
    }
    forall i | 0 <= i < |iso| ensures iso[i] in g.items && g.items[iso[i]].owner != Some(d) {
      assert p[i] == iso[i] && g.items[p[i]].owner == Above(g, p, i);
      if i > 0 {
        assert p[i - 1] == iso[i - 1];
        if !Shared(g, d) {
          AloneIsDistinct(g, p, i - 1, |iso|);
        }
      }
    }
  }

  lemma UnsharedIsAlone(g: Graph, iso: seq<EntityId>, target: EntityId, d: DefId)
    requires IsPath(g, iso + [target]) && Alone(g, iso) && Places(g, target, d) && !Shared(g, d)
    ensures Alone(g, iso + [target])
  {
    var p := iso + [target];
    assert target in Instances(g, d);
    SingletonOf(Instances(g, d), target);
    forall i | 0 <= i < |p|
      ensures p[i] in g.items && g.items[p[i]].child.Some? && Instances(g, g.items[p[i]].child.value) == {p[i]}
    {
      if i < |iso| {
        assert p[i] == iso[i];
      }
    }
  }

  lemma SingletonOf(s: set<EntityId>, x: EntityId)
    requires x in s && |s| <= 1
    ensures s == {x}
  {
    assert |s - {x}| == |s| - 1;
  }

  // A copied entity places what some entity of the copied list places.
  lemma CopiedChildren(g: Graph, target: EntityId, d: DefId, h: Graph)
    requires WellFormed(g) && Places(g, target, d) && OnlyMadeUnique(g, target, h)
    ensures forall x :: x in h.items && x !in g.items ==>
      exists y :: y in g.items && g.items[y].owner == Some(d) && g.items[y].child == h.items[x].child
  {
    forall x | x in h.items && x !in g.items
      ensures exists y :: y in g.items && g.items[y].owner == Some(d) && g.items[y].child == h.items[x].child
    {
      var d' := g.nextDefinition;
      var k :| 0 <= k < |h.lists[d']| && h.lists[d'][k] == x;
      OwnerOf(g, d, k);
    }
  }

  // Copying a shared definition gives no instance to those isolated before: none
  // of their instances lies in the copied list.
  lemma CopyKeepsInstances(g: Graph, iso: seq<EntityId>, target: EntityId, d: DefId, h: Graph, i: nat)
    requires WellFormed(g) && IsPath(g, iso + [target]) && Alone(g, iso) && i < |iso|
    requires Places(g, target, d) && Shared(g, d) && OnlyMadeUnique(g, target, h)
    ensures iso[i] in g.items && g.items[iso[i]].child.Some? && iso[i] in h.items && h.items[iso[i]] == g.items[iso[i]]
    ensures Instances(h, g.items[iso[i]].child.value) == {iso[i]}
  {
    assert (iso + [target])[i] == iso[i];
    SharedIsNotAlone(g, iso, target, d);
    NotOnPath(g, iso, target, d);
    CopiedChildren(g, target, d, h);
    var di := g.items[iso[i]].child.value;
    assert Instances(g, di) == {iso[i]} && di in g.lists && di != g.nextDefinition;
    OnlyTargetChanges(g, target, h);
    NoNewInstance(g, target, d, h, iso[i], di);
  }

  lemma NoNewInstance(g: Graph, target: EntityId, d: DefId, h: Graph, e: EntityId, di: DefId)
    requires OnlyMadeUnique(g, target, h) && Instances(g, di) == {e} && e != target
    requires target in h.items && h.items[target].child != Some(di)
    requires e in g.items && g.items[e].child == Some(di) && g.items[e].owner != Some(d)
    requires forall x :: x in h.items && x !in g.items ==>
      exists y :: y in g.items && g.items[y].owner == Some(d) && g.items[y].child == h.items[x].child
    ensures e in h.items && h.items[e] == g.items[e] && Instances(h, di) == {e}
  {
    assert h.items[e] == g.items[e];
    hide ClonedList;
    forall y | y in g.items && g.items[y].child == Some(di) ensures y == e {
      assert y in Instances(g, di);
    }
  }

  lemma CopyHasOneInstance(g: Graph, target: EntityId, h: Graph)
    requires WellFormed(g) && OnlyMadeUnique(g, target, h)
    ensures Instances(h, g.nextDefinition) == {target}
  {
    CopiedChildren(g, target, g.items[target].child.value, h);
    assert target in Instances(h, g.nextDefinition);
  }

  lemma MadeUniqueStaysAlone(g: Graph, iso: seq<EntityId>, target: EntityId, d: DefId, h: Graph)
    requires WellFormed(g) && IsPath(g, iso + [target]) && Alone(g, iso)
    requires Places(g, target, d) && Shared(g, d) && OnlyMadeUnique(g, target, h)
    ensures IsPath(h, iso + [target]) && Alone(h, iso + [target])
  {
    CopyHasOneInstance(g, target, h);
    OnlyTargetChanges(g, target, h);
    forall i | 0 <= i < |iso|
      ensures iso[i] in g.items && g.items[iso[i]].child.Some? && iso[i] in h.items
      ensures h.items[iso[i]] == g.items[iso[i]]
      ensures Instances(h, g.items[iso[i]].child.value) == {iso[i]}
    {
      CopyKeepsInstances(g, iso, target, d, h, i);
    }
    hide OnlyMadeUnique, WellFormed, Instances, Shared;
    PathKeepsShape(g, iso, target, h);
  }

  lemma PathKeepsShape(g: Graph, iso: seq<EntityId>, target: EntityId, h: Graph)
    requires IsPath(g, iso + [target]) && target in h.items && target in g.items
    requires h.items[target].child.Some? && h.items[target].owner == g.items[target].owner
    requires Instances(h, h.items[target].child.value) == {target}
    requires forall i :: 0 <= i < |iso| ==>
      iso[i] in g.items && g.items[iso[i]].child.Some? && iso[i] in h.items && h.items[iso[i]] == g.items[iso[i]]
      && Instances(h, g.items[iso[i]].child.value) == {iso[i]}
    ensures IsPath(h, iso + [target]) && Alone(h, iso + [target])
  {
    hide Instances;
    var p := iso + [target];
    forall i | 0 <= i < |p| ensures p[i] in h.items && h.items[p[i]].owner == Above(h, p, i) {
      assert g.items[p[i]].owner == Above(g, p, i);
      assert i < |iso| ==> p[i] == iso[i];
      assert i > 0 ==> p[i - 1] == iso[i - 1];
    }
  }

  lemma OnlyTargetChanges(g: Graph, target: EntityId, h: Graph)
    requires OnlyMadeUnique(g, target, h)
    ensures target in g.items && target in h.items
    ensures h.items[target] == g.items[target].(child := Some(g.nextDefinition))
  {
  }

  lemma StepFacts(g: Graph, iso: seq<EntityId>, target: EntityId, d: DefId)
    requires WellFormed(g) && IsPath(g, iso + [target]) && Alone(g, iso) && Places(g, target, d)
    ensures var h := Step(g, target, d);
      && WellFormed(h) && IsPath(h, iso + [target]) && Alone(h, iso + [target])
      && Frame(g, h, [target])
      && (forall i :: 0 <= i < |iso| ==> iso[i] in g.items && iso[i] in h.items && h.items[iso[i]] == g.items[iso[i]])
  {
    forall i | 0 <= i < |iso| ensures iso[i] in g.items {
      assert (iso + [target])[i] == iso[i];
    }
    if Shared(g, d) {
      SharedIsNotAlone(g, iso, target, d);
      MadeUniqueFacts(g, target);
      MadeUniqueWellFormed(g, target);
      MadeUniqueStaysAlone(g, iso, target, d, MadeUnique(g, target));
      FrameOfOne(g, target, MadeUnique(g, target));
    } else {
      UnsharedIsAlone(g, iso, target, d);
    }
  }

  lemma FrameOfOne(g: Graph, e: EntityId, h: Graph)
    requires OnlyMadeUnique(g, e, h)
    ensures Frame(g, h, [e])
  {
  }

  lemma FrameExtends(g0: Graph, g: Graph, h: Graph, iso: seq<EntityId>, target: EntityId)
    requires Frame(g0, g, iso) && Frame(g, h, [target])
    ensures Frame(g0, h, iso + [target])
  {
  }

  // The next list: reached through the isolated target, it still corresponds to
  // the list the original entity places.
  lemma NextListMatches(g0: Graph, g: Graph, iso: seq<EntityId>, target: EntityId, d: DefId)
    requires WellFormed(g0) && WellFormed(g) && Frame(g0, g, iso)
    requires IsPath(g, iso + [target]) && Alone(g, iso) && Places(g, target, d) && d in g0.lists
    ensures var h := Step(g, target, d);
      && target in h.items && h.items[target].child.Some? && h.items[target].child.value in h.lists
      && Matching(g0, g0.lists[d], h, h.lists[h.items[target].child.value], Shared(g, d))
  {
    assert Exists(g0, Some(d)) && Holds(g0, Some(d), ListOf(g0, Some(d)));
    NotOnPath(g, iso, target, d);
    forall k | 0 <= k < |g0.lists[d]| ensures g0.lists[d][k] !in iso {
      OwnerOf(g, d, k);
    }
    if Shared(g, d) {
      MadeUniqueFacts(g, target);
    }
  }

  // Levels -----------------------------------------------------------------------

  // The list that holds the i-th entity of a path.
  ghost function Level(g: Graph, p: seq<EntityId>, i: nat): seq<EntityId>
    requires i <= |p|
  {
    if Exists(g, Above(g, p, i)) then ListOf(g, Above(g, p, i)) else []
  }

  // Every entity of the path was found again at its own place.
  ghost predicate AtSamePlaces(g: Graph, p: seq<EntityId>, h: Graph, q: seq<EntityId>)
    requires |q| <= |p|
  {
    forall i :: 0 <= i < |q| ==> AtSamePlace(Level(g, p, i), p[i], Level(h, q, i), q[i])
  }

  ghost predicate AtSamePlace(orig: seq<EntityId>, e: EntityId, cur: seq<EntityId>, f: EntityId) {
    |cur| == |orig| && exists k :: 0 <= k < |orig| && orig[k] == e && cur[k] == f
  }

  // Every definition of the path before the i-th entity was shared already.
  ghost predicate SharedAbove(g: Graph, p: seq<EntityId>, i: nat)
    requires i <= |p|
  {
    exists j :: 0 <= j < i && p[j] in g.items && g.items[p[j]].child.Some? && Shared(g, g.items[p[j]].child.value)
  }

  function SignatureOf(g: Graph, signature: (string, DefId) -> string, e: EntityId): Option<string> {
    if e in g.items && g.items[e].child.Some? then Some(signature(g.items[e].payload, g.items[e].child.value)) else None
  }

  // No other instance in its list looks like the i-th entity of the path.
  ghost predicate LooksUnique(g: Graph, signature: (string, DefId) -> string, p: seq<EntityId>, i: nat)
    requires i < |p|
  {
    forall e :: e in Level(g, p, i) && SignatureOf(g, signature, e) == SignatureOf(g, signature, p[i]) ==> e == p[i]
  }

  // Isolation can tell every clone apart: below the first shared definition all
  // entities of the path look unique among their siblings.
  ghost predicate Unambiguous(g: Graph, signature: (string, DefId) -> string, p: seq<EntityId>) {
    forall i :: 0 <= i < |p| && SharedAbove(g, p, i) ==> LooksUnique(g, signature, p, i)
  }

  lemma LevelAt(g: Graph, p: seq<EntityId>, i: nat) returns (k: nat)
    requires WellFormed(g) && IsPath(g, p) && i < |p|
    ensures Holds(g, Above(g, p, i), Level(g, p, i))
    ensures k < |Level(g, p, i)| && Level(g, p, i)[k] == p[i]
  {
    var a := Above(g, p, i);
    assert g.items[p[i]].owner == a && Exists(g, a) && Holds(g, a, ListOf(g, a));
    k :| 0 <= k < |ListOf(g, a)| && ListOf(g, a)[k] == p[i];
  }

  lemma LevelBelow(g: Graph, p: seq<EntityId>)
    requires WellFormed(g) && IsPath(g, p)
    ensures Exists(g, Above(g, p, |p|)) && Level(g, p, |p|) == ListOf(g, Above(g, p, |p|))
    ensures Holds(g, Above(g, p, |p|), Level(g, p, |p|))
  {
    if p != [] {
      assert p[|p| - 1] in g.items;
    }
    assert Holds(g, Above(g, p, |p|), ListOf(g, Above(g, p, |p|)));
  }

  // Choosing the target ------------------------------------------------------------

  function Candidates(g: Graph, signature: (string, DefId) -> string, es: seq<EntityId>,
                      wanted: Option<string>): seq<EntityId> {
    if es == [] then []
    else (if wanted.Some? && SignatureOf(g, signature, es[0]) == wanted then [es[0]] else [])
         + Candidates(g, signature, es[1..], wanted)
  }

  lemma CandidateMembers(g: Graph, signature: (string, DefId) -> string, es: seq<EntityId>, wanted: Option<string>,
                         e: EntityId)
    ensures e in Candidates(g, signature, es, wanted) <==>
      e in es && wanted.Some? && SignatureOf(g, signature, e) == wanted
  {
    if es != [] {
      CandidateMembers(g, signature, es[1..], wanted, e);
      assert es == [es[0]] + es[1..];
    }
  }

  lemma CandidatesDistinct(g: Graph, signature: (string, DefId) -> string, es: seq<EntityId>, wanted: Option<string>)
    requires Distinct(es)
    ensures Distinct(Candidates(g, signature, es, wanted))
  {
    if es != [] {
      CandidatesDistinct(g, signature, es[1..], wanted);
      var rest := Candidates(g, signature, es[1..], wanted);
      forall i | 0 <= i < |rest| ensures rest[i] != es[0] {
        CandidateMembers(g, signature, es[1..], wanted, rest[i]);
      }
    }
  }

  // candidates.include?(source) ? source : the only candidate, if there is one.
  function Choose(candidates: seq<EntityId>, source: EntityId): Option<EntityId> {
    if source in candidates then Some(source)
    else if |candidates| == 1 then Some(candidates[0])
    else None
  }

  // The entity chosen is the one at the source's own place, or none is chosen
  // because a sibling looks the same.
  lemma ChosenIsOwnClone(g0: Graph, orig: seq<EntityId>, h: Graph, cur: seq<EntityId>, copied: bool,
                         signature: (string, DefId) -> string, source: EntityId, k: nat)
    requires Matching(g0, orig, h, cur, copied) && k < |orig| && orig[k] == source
    requires g0.items[source].child.Some? && source < g0.nextEntity && Distinct(orig)
    ensures var wanted := SignatureOf(g0, signature, source);
            var chosen := Choose(Candidates(h, signature, cur, wanted), source);
      && (chosen.Some? ==> chosen.value == cur[k])
      && (chosen.Some? <==> !copied || forall e :: e in orig && SignatureOf(g0, signature, e) == wanted ==> e == source)
  {
    var wanted := SignatureOf(g0, signature, source);
    var candidates := Candidates(h, signature, cur, wanted);
    forall e ensures e in candidates <==> e in cur && SignatureOf(h, signature, e) == wanted {
      CandidateMembers(h, signature, cur, wanted, e);
    }
    assert cur[k] in candidates;
    CandidatesDistinct(h, signature, cur, wanted);
    if copied {
      assert source !in cur;
      if |candidates| != 1 {
        var other := if candidates[0] == cur[k] then candidates[1] else candidates[0];
        assert other in candidates;
        var q :| 0 <= q < |cur| && cur[q] == other;
        assert orig[q] in orig && SignatureOf(g0, signature, orig[q]) == wanted;
        assert q != k;
      } else {
        forall e | e in orig && SignatureOf(g0, signature, e) == wanted ensures e == source {
          var q :| 0 <= q < |orig| && orig[q] == e;
          assert cur[q] in candidates;
          assert cur[q] == candidates[0] == cur[k];
        }
      }
    }
  }

  // The loop ----------------------------------------------------------------------

  ghost predicate SameUnfolding(g: Graph, h: Graph) {
    forall ts :: Unfolds(g, g.root, ts) <==> Unfolds(h, h.root, ts)
  }

  // After the entities of `iso` were isolated; `entities` is the list to look in
  // next and `copied` tells whether it is a copy.
  ghost predicate Progressed(g0: Graph, p: seq<EntityId>, g: Graph, iso: seq<EntityId>, entities: seq<EntityId>,
                             copied: bool) {
    && WellFormed(g0) && WellFormed(g) && IsPath(g0, p) && |iso| <= |p|
    && IsPath(g, iso) && Alone(g, iso) && Frame(g0, g, iso)
    && entities == Level(g, iso, |iso|) && Matching(g0, Level(g0, p, |iso|), g, entities, copied)
    && AtSamePlaces(g0, p, g, iso) && SameUnfolding(g0, g)
  }

  lemma StartsProgressed(g: Graph, p: seq<EntityId>)
    requires WellFormed(g) && IsPath(g, p)
    ensures Progressed(g, p, g, [], g.root, false)
  {
    assert Holds(g, None, ListOf(g, None));
  }

  lemma PathExtends(g: Graph, iso: seq<EntityId>, target: EntityId)
    requires IsPath(g, iso) && target in g.items && g.items[target].child.Some?
    requires g.items[target].owner == Above(g, iso, |iso|)
    ensures IsPath(g, iso + [target])
  {
    var q := iso + [target];
    forall i {:trigger Above(g, q, i)} | 0 <= i < |q| ensures q[i] in g.items && g.items[q[i]].owner == Above(g, q, i) {
      assert Above(g, q, i) == Above(g, iso, i);
      assert i < |iso| ==> g.items[iso[i]].owner == Above(g, iso, i);
    }
  }

  lemma LevelBelowPath(g: Graph, p: seq<EntityId>, i: nat)
    requires WellFormed(g) && IsPath(g, p) && i < |p|
    ensures p[i] in g.items && g.items[p[i]].child.Some? && g.items[p[i]].child.value in g.lists
    ensures Level(g, p, i + 1) == g.lists[g.items[p[i]].child.value]
  {
  }

  lemma TargetExtendsPath(g0: Graph, p: seq<EntityId>, g: Graph, iso: seq<EntityId>, entities: seq<EntityId>,
                          copied: bool, k: nat)
    requires Progressed(g0, p, g, iso, entities, copied) && |iso| < |p|
    requires k < |entities| && Level(g0, p, |iso|)[k] == p[|iso|]
    ensures p[|iso|] in g0.items && g0.items[p[|iso|]].child.Some?
    ensures g0.items[p[|iso|]].child.value in g0.lists && Places(g, entities[k], g0.items[p[|iso|]].child.value)
    ensures IsPath(g, iso + [entities[k]]) && Level(g0, p, |iso| + 1) == g0.lists[g0.items[p[|iso|]].child.value]
  {
    LevelBelow(g, iso);
    LevelBelowPath(g0, p, |iso|);
    hide SameUnfolding, AtSamePlaces, Frame, Alone, WellFormed, IsPath, Above, Level;
    assert SameBut(g0.items[Level(g0, p, |iso|)[k]], g.items[entities[k]]);
    assert g.items[entities[k]].owner == Above(g, iso, |iso|);
    PathExtends(g, iso, entities[k]);
  }

  lemma AtSamePlacesExtends(g0: Graph, p: seq<EntityId>, g: Graph, iso: seq<EntityId>, target: EntityId, h: Graph,
                            k: nat)
    requires |iso| < |p| && AtSamePlaces(g0, p, g, iso) && IsPath(h, iso + [target]) && Frame(g, h, [target])
    requires forall i :: 0 <= i < |iso| ==> iso[i] in g.items && iso[i] in h.items && h.items[iso[i]] == g.items[iso[i]]
    requires Exists(g, Above(g, iso, |iso|))
    requires forall i :: 0 <= i < |iso| ==> Exists(g, Above(g, iso, i))
    requires k < |Level(g, iso, |iso|)| == |Level(g0, p, |iso|)|
    requires Level(g0, p, |iso|)[k] == p[|iso|] && Level(g, iso, |iso|)[k] == target
    ensures AtSamePlaces(g0, p, h, iso + [target])
  {
    var q := iso + [target];
    forall i | 0 <= i < |q| ensures AtSamePlace(Level(g0, p, i), p[i], Level(h, q, i), q[i]) {
      assert i > 0 ==> q[i - 1] == iso[i - 1];
      assert Above(h, q, i) == Above(g, iso, i);
      assert Level(h, q, i) == Level(g, iso, i);
      assert i < |iso| ==> AtSamePlace(Level(g0, p, i), p[i], Level(g, iso, i), iso[i]);
    }
  }

  lemma MadeUniqueShowsNothing(g: Graph, target: EntityId)
    requires WellFormed(g) && target in g.items && g.items[target].child.Some?
    ensures SameUnfolding(g, MadeUnique(g, target))
  {
    MadeUniqueFacts(g, target);
    assert Exists(g, None) && Holds(g, None, ListOf(g, None));
    hide MadeUnique;
    forall ts ensures Unfolds(g, g.root, ts) <==> Unfolds(MadeUnique(g, target), g.root, ts) {
      MadeUniqueUnfolds(g, target, g.root, ts);
    }
  }

  lemma StepUnfolds(g0: Graph, g: Graph, target: EntityId, d: DefId)
    requires WellFormed(g) && Places(g, target, d) && SameUnfolding(g0, g)
    ensures SameUnfolding(g0, Step(g, target, d))
  {
    if Shared(g, d) {
      MadeUniqueShowsNothing(g, target);
      hide MadeUnique, Unfolds;
    }
  }

  lemma ProgressedParts(g0: Graph, p: seq<EntityId>, g: Graph, iso: seq<EntityId>, entities: seq<EntityId>,
                        copied: bool)
    requires Progressed(g0, p, g, iso, entities, copied)
    ensures WellFormed(g0) && WellFormed(g) && IsPath(g0, p) && IsPath(g, iso) && Alone(g, iso) && Frame(g0, g, iso)
    ensures entities == Level(g, iso, |iso|) && |entities| == |Level(g0, p, |iso|)|
    ensures AtSamePlaces(g0, p, g, iso) && SameUnfolding(g0, g)
  {
  }

  lemma StepProgresses(g0: Graph, p: seq<EntityId>, g: Graph, iso: seq<EntityId>, entities: seq<EntityId>, copied: bool,
                       k: nat, d: DefId)
    requires Progressed(g0, p, g, iso, entities, copied) && |iso| < |p|
    requires k < |entities| && Level(g0, p, |iso|)[k] == p[|iso|]
    requires Places(g0, p[|iso|], d) && Places(g, entities[k], d)
    ensures var h := Step(g, entities[k], d);
      && entities[k] in h.items && h.items[entities[k]].child.Some? && h.items[entities[k]].child.value in h.lists
      && Progressed(g0, p, h, iso + [entities[k]], h.lists[h.items[entities[k]].child.value], Shared(g, d))
  {
    hide Progressed, Step, Frame, IsPath, WellFormed, Alone, Matching, SameUnfolding, Shared, Instances, AtSamePlaces;
    var target := entities[k];
    ProgressedParts(g0, p, g, iso, entities, copied);
    var h := Step(g, target, d);
    TargetExtendsPath(g0, p, g, iso, entities, copied, k);
    StepFacts(g, iso, target, d);
    assert target in h.items && h.items[target].child.Some? && h.items[target].child.value in h.lists
        && Matching(g0, g0.lists[d], h, h.lists[h.items[target].child.value], Shared(g, d)) by {
      NextListMatches(g0, g, iso, target, d);
    }
    assert SameUnfolding(g0, h) by {
      StepUnfolds(g0, g, target, d);
    }
    assert Frame(g0, h, iso + [target]) by {
      FrameExtends(g0, g, h, iso, target);
    }
    assert AtSamePlaces(g0, p, h, iso + [target]) by {
      LevelBelow(g, iso);
      PathListsExist(g, iso);
      AtSamePlacesExtends(g0, p, g, iso, target, h, k);
    }
    assert Level(h, iso + [target], |iso| + 1) == h.lists[h.items[target].child.value] by {
      LevelBelowPath(h, iso + [target], |iso|);
      assert (iso + [target])[|iso|] == target;
    }
    ProgressedFrom(g0, p, h, iso + [target], h.lists[h.items[target].child.value], Shared(g, d));
  }

  lemma ProgressedFrom(g0: Graph, p: seq<EntityId>, g: Graph, iso: seq<EntityId>, entities: seq<EntityId>, copied: bool)
    requires WellFormed(g0) && WellFormed(g) && IsPath(g0, p) && |iso| <= |p|
    requires IsPath(g, iso) && Alone(g, iso) && Frame(g0, g, iso)
    requires entities == Level(g, iso, |iso|) && Matching(g0, Level(g0, p, |iso|), g, entities, copied)
    requires AtSamePlaces(g0, p, g, iso) && SameUnfolding(g0, g)
    ensures Progressed(g0, p, g, iso, entities, copied)
  {
  }

  lemma PathListsExist(g: Graph, p: seq<EntityId>)
    requires WellFormed(g) && IsPath(g, p)
    ensures forall i :: 0 <= i < |p| ==> Exists(g, Above(g, p, i))
  {
    forall i | 0 <= i < |p| ensures Exists(g, Above(g, p, i)) {
      assert g.items[p[i]].owner == Above(g, p, i);
    }
  }

  // Which lists are copies: those below the first shared definition.
  ghost predicate Tracked(g0: Graph, p: seq<EntityId>, g: Graph, iso: seq<EntityId>, copied: bool)
    requires |iso| <= |p|
  {
    && (copied <==> SharedAbove(g0, p, |iso|))
    && (!copied ==> g == g0)
    && (forall j :: 0 <= j < |iso| ==> iso[j] == p[j] || iso[j] >= g0.nextEntity)
  }

  lemma SharedAboveExtends(g: Graph, p: seq<EntityId>, i: nat, d: DefId)
    requires i < |p| && Places(g, p[i], d)
    ensures SharedAbove(g, p, i + 1) <==> SharedAbove(g, p, i) || Shared(g, d)
  {
    if SharedAbove(g, p, i) {
      var j :| 0 <= j < i && p[j] in g.items && g.items[p[j]].child.Some? && Shared(g, g.items[p[j]].child.value);
      assert 0 <= j < i + 1;
    }
  }

  // A copy is an instance besides the original, so below a shared definition every
  // definition of the path is shared by the time it is reached.
  lemma CopyMakesShared(g0: Graph, p: seq<EntityId>, g: Graph, iso: seq<EntityId>, target: EntityId, d: DefId)
    requires |iso| < |p| && Distinct(p) && Frame(g0, g, iso)
    requires Places(g0, p[|iso|], d) && Places(g, target, d) && target >= g0.nextEntity > p[|iso|]
    requires forall j :: 0 <= j < |iso| ==> iso[j] == p[j] || iso[j] >= g0.nextEntity
    ensures Shared(g, d)
  {
    var source := p[|iso|];
    assert source !in iso;
    assert source in Instances(g, d) && target in Instances(g, d);
    if |Instances(g, d)| <= 1 {
      SingletonOf(Instances(g, d), target);
    }
  }

  lemma StepTracks(g0: Graph, p: seq<EntityId>, g: Graph, iso: seq<EntityId>, target: EntityId, copied: bool, d: DefId)
    requires WellFormed(g) && Frame(g0, g, iso) && |iso| < |p| && Distinct(p) && p[|iso|] < g0.nextEntity
    requires if copied then target >= g0.nextEntity else target == p[|iso|]
    requires Places(g0, p[|iso|], d) && Places(g, target, d) && Tracked(g0, p, g, iso, copied)
    ensures Tracked(g0, p, Step(g, target, d), iso + [target], Shared(g, d))
  {
    hide WellFormed, Frame, SharedAbove, Shared, Distinct, MadeUnique, Instances, Places;
    assert Shared(g, d) <==> SharedAbove(g0, p, |iso| + 1) by {
      SharedAboveExtends(g0, p, |iso|, d);
      if copied {
        CopyMakesShared(g0, p, g, iso, target, d);
      }
    }
    assert !Shared(g, d) ==> Step(g, target, d) == g0 by {
      if copied {
        CopyMakesShared(g0, p, g, iso, target, d);
      }
    }
    hide Step;
    var q := iso + [target];
    forall j | 0 <= j < |q| ensures q[j] == p[j] || q[j] >= g0.nextEntity {
      assert j < |iso| ==> q[j] == iso[j];
    }
  }

  lemma TargetIsFreshOrOwn(g0: Graph, p: seq<EntityId>, g: Graph, iso: seq<EntityId>, entities: seq<EntityId>,
                           copied: bool, k: nat)
    requires Progressed(g0, p, g, iso, entities, copied) && |iso| < |p|
    requires k < |entities| && Level(g0, p, |iso|)[k] == p[|iso|]
    ensures p[|iso|] < g0.nextEntity
    ensures if copied then entities[k] >= g0.nextEntity else entities[k] == p[|iso|]
  {
    hide SameUnfolding, AtSamePlaces, Frame, Alone, Level;
  }
}
