// What the loop over one entity list has established after each entity, and why
// a finished list yields the report of the unfolded definition.
module RevisionProgress {
  import opened Options
  import opened SketchModel
  import opened TextOrder
  import opened RevisionTree
  import opened RevisionInvariant
  import opened RevisionSteps

  ghost predicate HashedOk(c: Context, s: RunState, es: seq<Entity>, hashed: seq<(seq<string>, Digest)>)
    requires WellFormed(c.m) && Children(es) <= c.m.definitions.Keys
  {
    s.complete ==> hashed == EntryDigests(c.hash, UnfoldList(c.m, es, {}))
  }

  ghost predicate CounterOk(c: Context, s: RunState, es: seq<Entity>, count: nat)
    requires WellFormed(c.m) && Children(es) <= c.m.definitions.Keys
  {
    Sound(s) ==> CountOk(s, count, CountOf(c.m, es, {}))
  }

  // The entities es, handled first, gave these digests and this count.
  ghost predicate Progress(c: Context, s: RunState, open: set<DefKey>, es: seq<Entity>,
                           hashed: seq<(seq<string>, Digest)>, count: nat)
    requires WellFormed(c.m) && Children(es) <= c.m.definitions.Keys
  {
    Placements(c, s, open, es) && ListOk(s, es) && HashedOk(c, s, es, hashed) && CounterOk(c, s, es, count)
  }

  lemma PlacementCarries(c: Context, s: RunState, t: RunState, open: set<DefKey>, d: DefId, extra: nat)
    requires Grows(c.m, s, t, extra) && PlacementOk(c, s, d, open, |s.finished|)
    ensures PlacementOk(c, t, d, open, |t.finished|)
  {
    if RecursiveDefinitionCycle !in t.blockers {
      var j :| 0 <= j < |s.finished| && KeyOf(c.m, s.finished[j]) == KeyOf(c.m, d);
      assert t.finished[j] == t.finished[..|s.finished|][j] == s.finished[j];
    }
  }

  lemma ProgressCarries(c: Context, s: RunState, t: RunState, open: set<DefKey>, es: seq<Entity>,
                        hashed: seq<(seq<string>, Digest)>, count: nat, extra: nat)
    requires WellFormed(c.m) && Children(es) <= c.m.definitions.Keys
    requires StatusOk(s) && StatusOk(t) && Grows(c.m, s, t, extra)
    requires Progress(c, s, open, es, hashed, count)
    ensures Progress(c, t, open, es, hashed, count)
  {
    forall d | d in Children(es) ensures PlacementOk(c, t, d, open, |t.finished|) {
      PlacementCarries(c, s, t, open, d, extra);
    }
    if s.blockers != [] {
      assert s.blockers[0] in t.blockers;
    }
  }

  // Sorting brings equal identities together: comparing neighbours is enough.
  lemma EqualIdentitiesAreAdjacent(es: seq<Entity>, k: nat, i: nat)
    requires Sorted(es) && k < i < |es|
    requires EntityIdentity(es[k].facts) == EntityIdentity(es[i].facts)
    ensures EntityIdentity(es[i - 1].facts) == EntityIdentity(es[i].facts)
  {
    if k < i - 1 {
      var x, y, z := SortKey(es[k].facts), SortKey(es[i - 1].facts), SortKey(es[i].facts);
      assert Before(es[k], es[i - 1]) && Before(es[i - 1], es[i]);
      assert x[0] == z[0] && x[1] == z[1];
      LeqAntisymmetric(x[0], y[0]);
      assert ListLeq(x[1..], y[1..]) && ListLeq(y[1..], z[1..]);
      LeqAntisymmetric(x[1], y[1]);
      SameKeyPartSameIdentity(es[i - 1].facts, es[i].facts);
    }
  }

  lemma SameKeyPartSameIdentity(f: Facts, g: Facts)
    requires SortKey(f)[..2] == SortKey(g)[..2]
    ensures EntityIdentity(f) == EntityIdentity(g)
  {
    assert SortKey(f)[..2][0] == SortKey(g)[..2][0] && SortKey(f)[..2][1] == SortKey(g)[..2][1];
    assert "persistent_id"[0] != "reference"[0] && "persistent_id"[0] != "unavailable"[0]
      && "reference"[0] != "unavailable"[0];
  }

  lemma NoDuplicatesExtends(es: seq<Entity>, i: nat)
    requires Sorted(es) && i < |es| && NoDuplicates(es[..i])
    requires EntityIdentity(es[i].facts) == Unavailable || i == 0
      || EntityIdentity(es[i - 1].facts) != EntityIdentity(es[i].facts)
    ensures NoDuplicates(es[..i + 1])
  {
    var front := es[..i + 1];
    forall k, l | 0 <= k < l < |front| && EntityIdentity(front[k].facts) == EntityIdentity(front[l].facts)
      ensures EntityIdentity(front[k].facts) == Unavailable
    {
      if l < i {
        assert front[k] == es[..i][k] && front[l] == es[..i][l];
      } else {
        EqualIdentitiesAreAdjacent(es, k, i);
      }
    }
  }

  lemma ListOkExtends(s: RunState, es: seq<Entity>, i: nat)
    requires Sorted(es) && i < |es| && ListOk(s, es[..i])
    requires EntityIdentityUnavailable !in s.blockers ==> EntityIdentity(es[i].facts) != Unavailable
    requires DuplicateEntityIdentity !in s.blockers ==>
      EntityIdentity(es[i].facts) == Unavailable || i == 0
        || EntityIdentity(es[i - 1].facts) != EntityIdentity(es[i].facts)
    ensures ListOk(s, es[..i + 1])
  {
    if DuplicateEntityIdentity !in s.blockers {
      NoDuplicatesExtends(es, i);
    }
    assert es[..i + 1] == es[..i] + [es[i]];
  }

  // Handling one more entity -----------------------------------------------------

  // The child report handed to the payload, seen as an expected one.
  ghost predicate ChildOk(c: Context, s: RunState, open: set<DefKey>, e: Entity, child: Option<Report>)
    requires WellFormed(c.m)
  {
    match ChildOf(e)
    case None => child == None
    case Some(d) =>
      && d in c.m.definitions && child.Some?
      && PlacementOk(c, s, d, open, |s.finished|)
      && ReportOk(c, s, d, child.value)
  }

  function EntitySourceFrom(e: Entity, child: Option<Report>): Source {
    EntitySource(e.facts, EntityIdentity(e.facts),
                 if child.Some? then Some(child.value.key) else None,
                 if child.Some? then Some(child.value.digest) else None)
  }

  function CountFrom(child: Option<Report>): nat {
    if child.Some? then child.value.expandedCount else 0
  }

  lemma ChildCarries(c: Context, s: RunState, t: RunState, open: set<DefKey>, e: Entity, child: Option<Report>,
                     extra: nat)
    requires WellFormed(c.m) && StatusOk(s) && StatusOk(t) && Grows(c.m, s, t, extra) && ChildOk(c, s, open, e, child)
    ensures ChildOk(c, t, open, e, child)
  {
    if ChildOf(e).Some? {
      PlacementCarries(c, s, t, open, ChildOf(e).value, extra);
      if s.blockers != [] {
        assert s.blockers[0] in t.blockers;
      }
    }
  }

  lemma SplitLast(m: Model, es: seq<Entity>, i: nat)
    requires WellFormed(m) && i < |es| && Children(es) <= m.definitions.Keys
    ensures es[..i + 1] == es[..i] + [es[i]] && Children(es[..i + 1]) == Children(es[..i]) + Children([es[i]])
    ensures Children(es[..i + 1]) <= m.definitions.Keys && Children([es[i]]) <= m.definitions.Keys
    ensures ChildOf(es[i]).Some? ==> ChildOf(es[i]).value in Children(es)
    ensures UnfoldList(m, es[..i + 1], {}) == UnfoldList(m, es[..i], {}) + [UnfoldEntity(m, es[i], {})]
    ensures CountOf(m, es[..i + 1], {}) == CountOf(m, es[..i], {}) + EntryCount(UnfoldEntity(m, es[i], {}))
  {
    assert es[..i + 1] == es[..i] + [es[i]] && es[i] in es;
    assert Children(es[..i + 1]) <= Children(es) && Children([es[i]]) <= Children(es)
      && Children(es[..i]) <= Children(es);
    UnfoldListAppend(m, es[..i], [es[i]], {});
    assert UnfoldList(m, [es[i]], {}) == [UnfoldEntity(m, es[i], {})];
    ListCountAppend(UnfoldList(m, es[..i], {}), [UnfoldEntity(m, es[i], {})]);
  }

  lemma HashedExtends(c: Context, s: RunState, open: set<DefKey>, es: seq<Entity>, i: nat,
                      hashed: seq<(seq<string>, Digest)>, child: Option<Report>)
    requires WellFormed(c.m) && i < |es| && Children(es) <= c.m.definitions.Keys && Children(es[..i]) <= Children(es)
    requires HashedOk(c, s, es[..i], hashed) && ChildOk(c, s, open, es[i], child)
    ensures Children(es[..i + 1]) <= c.m.definitions.Keys
    ensures HashedOk(c, s, es[..i + 1], hashed + [(SortKey(es[i].facts), c.hash(EntitySourceFrom(es[i], child)))])
  {
    SplitLast(c.m, es, i);
    var t := UnfoldEntity(c.m, es[i], {});
    EntryDigestsAppend(c.hash, UnfoldList(c.m, es[..i], {}), [t]);
    assert EntryDigests(c.hash, [t]) == [(SortKey(t.facts), c.hash(EntitySourceOf(c.hash, t)))];
    if s.complete {
      assert EntitySourceOf(c.hash, t) == EntitySourceFrom(es[i], child);
    }
  }

  lemma CounterExtends(c: Context, s: RunState, open: set<DefKey>, es: seq<Entity>, i: nat, count: nat,
                       child: Option<Report>, next: nat)
    requires WellFormed(c.m) && i < |es| && Children(es) <= c.m.definitions.Keys && Children(es[..i]) <= Children(es)
    requires CounterOk(c, s, es[..i], count) && ChildOk(c, s, open, es[i], child)
    requires next == Min(Min(count + 1, SAFE_INTEGER_MAX) + CountFrom(child), SAFE_INTEGER_MAX)
    requires LogicalOccurrenceCountOverflow !in s.blockers ==> count + 1 + CountFrom(child) <= SAFE_INTEGER_MAX
    ensures Children(es[..i + 1]) <= c.m.definitions.Keys && CounterOk(c, s, es[..i + 1], next)
  {
    SplitLast(c.m, es, i);
  }

  // A counter that does not fit belongs to a list whose exact count does not.
  lemma OverflowIsAFault(c: Context, s: RunState, open: set<DefKey>, stored: seq<Entity>, es: seq<Entity>, i: nat,
                         count: nat, child: Option<Report>)
    requires WellFormed(c.m) && FaultsNoted(c, stored)
    requires multiset(es) == multiset(InSortOrder(Selected(stored)))
    requires i < |es| && Children(es) <= c.m.definitions.Keys && Children(es[..i]) <= Children(es)
    requires Sound(s) && CounterOk(c, s, es[..i], count) && ChildOk(c, s, open, es[i], child)
    requires count + 1 + CountFrom(child) > SAFE_INTEGER_MAX
    ensures LogicalOccurrenceCountOverflow in c.faults
  {
    hide FaultsNoted;
    SplitLast(c.m, es, i);
    CountedInAll(c.m, es, i);
    OverflowNoted(c, stored, es);
  }

  lemma OverflowNoted(c: Context, stored: seq<Entity>, es: seq<Entity>)
    requires WellFormed(c.m) && FaultsNoted(c, stored)
    requires multiset(es) == multiset(InSortOrder(Selected(stored))) && Children(es) <= c.m.definitions.Keys
    requires ListCount(UnfoldList(c.m, es, {})) > SAFE_INTEGER_MAX
    ensures LogicalOccurrenceCountOverflow in c.faults
  {
    SortedSelectionChildren(stored);
    CountPermutes(c.m, es, InSortOrder(Selected(stored)), {});
  }

  lemma CountedInAll(m: Model, es: seq<Entity>, i: nat)
    requires WellFormed(m) && i < |es| && Children(es) <= m.definitions.Keys
    ensures Children(es[..i + 1]) <= m.definitions.Keys
    ensures ListCount(UnfoldList(m, es[..i + 1], {})) <= ListCount(UnfoldList(m, es, {}))
  {
    assert es == es[..i + 1] + es[i + 1..];
    assert Children(es[..i + 1]) <= Children(es);
    assert Children(es[i + 1..]) <= Children(es);
    UnfoldListAppend(m, es[..i + 1], es[i + 1..], {});
    ListCountAppend(UnfoldList(m, es[..i + 1], {}), UnfoldList(m, es[i + 1..], {}));
  }

  lemma PlacementsExtend(c: Context, s: RunState, open: set<DefKey>, es: seq<Entity>, i: nat, child: Option<Report>)
    requires WellFormed(c.m) && i < |es| && Children(es) <= c.m.definitions.Keys
    requires Placements(c, s, open, es[..i]) && ChildOk(c, s, open, es[i], child)
    ensures Placements(c, s, open, es[..i + 1])
  {
    assert Children(es[..i]) <= Children(es);
    SplitLast(c.m, es, i);
    assert Children([es[i]]) == (if ChildOf(es[i]).Some? then {ChildOf(es[i]).value} else {}) by {
      assert es[i] in [es[i]];
    }
  }

  // The marks one entity's identity can cause, given its predecessor's.
  function IdentityMarked(s: RunState, identity: Identity, previous: Option<Identity>): RunState {
    if identity == Unavailable then Marked(s, EntityIdentityUnavailable)
    else if previous == Some(identity) then Marked(s, DuplicateEntityIdentity)
    else s
  }

  lemma IdentityMarkedKeepsInv(c: Context, s: RunState, open: set<DefKey>, stored: seq<Entity>, es: seq<Entity>, i: nat)
    requires Inv(c, s, open) && FaultsNoted(c, stored) && multiset(es) == multiset(Selected(stored)) && i < |es|
    ensures var t := IdentityMarked(s, EntityIdentity(es[i].facts), PreviousIdentity(es, i));
            Inv(c, t, open) && Grows(c.m, s, t, 0)
  {
    IdentitiesPermute(Selected(stored), es);
    var identity := EntityIdentity(es[i].facts);
    if identity == Unavailable {
      MarkedKeepsInv(c, s, open, EntityIdentityUnavailable);
    } else if PreviousIdentity(es, i) == Some(identity) {
      MarkedKeepsInv(c, s, open, DuplicateEntityIdentity);
    } else {
      assert s.finished[|s.finished|..] == [];
    }
  }

  function PreviousIdentity(es: seq<Entity>, i: nat): Option<Identity>
    requires i <= |es|
  {
    if i == 0 then None else Some(EntityIdentity(es[i - 1].facts))
  }

  // The marks that adding one entity and what it places can cause.
  function OccurrencesAdded(s: RunState, count: nat, child: Option<Report>): RunState {
    if count + 1 + CountFrom(child) > SAFE_INTEGER_MAX then Marked(s, LogicalOccurrenceCountOverflow) else s
  }

  lemma OccurrencesAddedKeepsInv(c: Context, s: RunState, open: set<DefKey>, stored: seq<Entity>, es: seq<Entity>,
                                 i: nat,
                                 count: nat, child: Option<Report>)
    requires Inv(c, s, open) && FaultsNoted(c, stored)
    requires multiset(es) == multiset(InSortOrder(Selected(stored))) && i < |es|
    requires Children(es) <= c.m.definitions.Keys && Children(es[..i]) <= Children(es)
    requires CounterOk(c, s, es[..i], count) && ChildOk(c, s, open, es[i], child)
    ensures var t := OccurrencesAdded(s, count, child); Inv(c, t, open) && Grows(c.m, s, t, 0)
  {
    hide Inv, Grows, FaultsNoted, CounterOk, ChildOk, WellFormed, Children, Selected, InSortOrder, Marked, Sound;
    InvBasics(c, s, open);
    if count + 1 + CountFrom(child) > SAFE_INTEGER_MAX {
      assert LogicalOccurrenceCountOverflow in c.faults || !Sound(s) by {
        if Sound(s) {
          OverflowIsAFault(c, s, open, stored, es, i, count, child);
        }
      }
      MarkedKeepsInv(c, s, open, LogicalOccurrenceCountOverflow);
    }
  }

  // One more entity is done: s is the state at the head of the loop, u the one
  // after its child was reported, v the one at the end of the body.
  lemma EntityDone(c: Context, s: RunState, u: RunState, v: RunState, open: set<DefKey>, es: seq<Entity>, i: nat,
                   hashed: seq<(seq<string>, Digest)>, count: nat, child: Option<Report>, next: nat, x: nat)
    requires Inv(c, s, open) && Inv(c, u, open) && Inv(c, v, open)
    requires Sorted(es) && i < |es| && Children(es) <= c.m.definitions.Keys && Children(es[..i]) <= Children(es)
    requires Progress(c, s, open, es[..i], hashed, count)
    requires Grows(c.m, IdentityMarked(s, EntityIdentity(es[i].facts), PreviousIdentity(es, i)), u, 0)
    requires ChildOk(c, u, open, es[i], child)
    requires v == Counted(OccurrencesAdded(u, count, child), c.limit) && Grows(c.m, u, v, 1) && Grows(c.m, s, u, x)
    requires next == Min(Min(count + 1, SAFE_INTEGER_MAX) + CountFrom(child), SAFE_INTEGER_MAX)
    ensures Children(es[..i + 1]) <= c.m.definitions.Keys
    ensures Progress(c, v, open, es[..i + 1], hashed
            + [(SortKey(es[i].facts), c.hash(EntitySourceFrom(es[i], child)))], next)
  {
    SplitLast(c.m, es, i);
    ProgressCarries(c, s, u, open, es[..i], hashed, count, x);
    ProgressCarries(c, u, v, open, es[..i], hashed, count, 1);
    ChildCarries(c, u, v, open, es[i], child, 1);
    PlacementsExtend(c, v, open, es, i, child);
    HashedExtends(c, v, open, es, i, hashed, child);
    EntityMarksStay(s, u, v, es, i, count, child, c);
    ListOkExtends(v, es, i);
    CounterExtends(c, v, open, es, i, count, child, next);
  }

  lemma EntityMarksStay(s: RunState, u: RunState, v: RunState, es: seq<Entity>, i: nat, count: nat,
                        child: Option<Report>, c: Context)
    requires i < |es|
    requires Grows(c.m, IdentityMarked(s, EntityIdentity(es[i].facts), PreviousIdentity(es, i)), u, 0)
    requires v == Counted(OccurrencesAdded(u, count, child), c.limit)
    ensures EntityIdentity(es[i].facts) == Unavailable ==> EntityIdentityUnavailable in v.blockers
    ensures i > 0 && EntityIdentity(es[i].facts) != Unavailable
            && EntityIdentity(es[i - 1].facts) == EntityIdentity(es[i].facts)
      ==> DuplicateEntityIdentity in v.blockers
    ensures count + 1 + CountFrom(child) > SAFE_INTEGER_MAX ==> LogicalOccurrenceCountOverflow in v.blockers
  {
    hide Sizes, EntityIdentity, CountFrom;
    BlockersStay(u, v, count, child, c);
    hide Counted, OccurrencesAdded;
  }

  lemma BlockersStay(u: RunState, v: RunState, count: nat, child: Option<Report>, c: Context)
    requires v == Counted(OccurrencesAdded(u, count, child), c.limit)
    ensures forall b :: b in u.blockers ==> b in v.blockers
    ensures count + 1 + CountFrom(child) > SAFE_INTEGER_MAX ==> LogicalOccurrenceCountOverflow in v.blockers
  {
  }

  // The whole loop body: s is the state at its head, u the one after the child
  // was reported, v the one at the end; the list of hashed entries grows unless
  // the budget is spent.
  lemma EntityStep(c: Context, start: RunState, s: RunState, u: RunState, v: RunState, open: set<DefKey>,
                   stored: seq<Entity>, es: seq<Entity>, i: nat, child: Option<Report>,
                   hashed: seq<(seq<string>, Digest)>, count: nat, hashed': seq<(seq<string>, Digest)>, count': nat)
    requires Inv(c, s, open) && Inv(c, u, open) && FaultsNoted(c, stored)
    requires Sorted(es) && multiset(es) == multiset(Selected(stored)) && i < |es|
    requires Children(es) <= c.m.definitions.Keys && Children(es[..i]) <= c.m.definitions.Keys
    requires Grows(c.m, start, s, i) && Progress(c, s, open, es[..i], hashed, count)
    requires Grows(c.m, IdentityMarked(s, EntityIdentity(es[i].facts), PreviousIdentity(es, i)), u, 0)
    requires ChildOk(c, u, open, es[i], child)
    requires v == Counted(OccurrencesAdded(u, count, child), c.limit)
    requires count' == Min(Min(count + 1, SAFE_INTEGER_MAX) + CountFrom(child), SAFE_INTEGER_MAX)
    requires hashed' == if v.uniqueEntities > c.limit then hashed
                        else hashed + [(SortKey(es[i].facts), c.hash(EntitySourceFrom(es[i], child)))]
    ensures Children(es[..i + 1]) <= c.m.definitions.Keys
    ensures Inv(c, v, open) && Grows(c.m, start, v, i + 1) && Progress(c, v, open, es[..i + 1], hashed', count')
    ensures v.complete ==> s.complete && v.uniqueEntities <= c.limit
  {
    hide Inv, Progress, Grows, FaultsNoted, ChildOk, Sorted, WellFormed, Marked, Counted, StatusOk, RecordOk, Proper,
         ClosedSet;
    hide IdentityMarked, OccurrencesAdded, CounterOk, CountedOnly, Selected, InSortOrder, UnfoldList, Min;
    var t := IdentityMarked(s, EntityIdentity(es[i].facts), PreviousIdentity(es, i));
    var added := OccurrencesAdded(u, count, child);
    InvBasics(c, s, open);
    InvBasics(c, u, open);
    ListsAgree(stored, es);
    IdentityMarkedKeepsInv(c, s, open, stored, es, i);
    GrowsTransitive(c.m, s, t, u, 0, 0);
    ProgressCarries(c, s, u, open, es[..i], hashed, count, 0);
    ProgressParts(c, u, open, es[..i], hashed, count);
    assert Children(es[..i]) <= Children(es);
    OccurrencesAddedKeepsInv(c, u, open, stored, es, i, count, child);
    CountedKeepsInv(c, added, open);
    CountedGrows(c, added, v);
    GrowsTransitive(c.m, u, added, v, 0, 1);
    var all := hashed + [(SortKey(es[i].facts), c.hash(EntitySourceFrom(es[i], child)))];
    EntityDone(c, s, u, v, open, es, i, hashed, count, child, count', 0);
    ProgressUnhashed(c, v, open, es[..i + 1], all, hashed', count');
    GrowsTransitive(c.m, s, u, v, 0, 1);
    GrowsTransitive(c.m, start, s, v, i, 1);
    InvBasics(c, v, open);
    CompleteBefore(c.m, s, v, 1);
  }

  lemma ProgressParts(c: Context, s: RunState, open: set<DefKey>, es: seq<Entity>,
                      hashed: seq<(seq<string>, Digest)>, count: nat)
    requires WellFormed(c.m) && Children(es) <= c.m.definitions.Keys && Progress(c, s, open, es, hashed, count)
    ensures CounterOk(c, s, es, count)
  {
  }

  lemma CountedGrows(c: Context, s: RunState, t: RunState)
    requires CountedOnly(c.m, s, t) && t == Counted(s, c.limit)
    ensures Grows(c.m, s, t, 1) && (t.uniqueEntities > c.limit ==> !t.complete)
  {
  }

  lemma CompleteBefore(m: Model, s: RunState, t: RunState, extra: nat)
    requires StatusOk(s) && StatusOk(t) && Grows(m, s, t, extra)
    ensures t.complete ==> s.complete
  {
    if s.blockers != [] {
      assert s.blockers[0] in t.blockers;
    }
  }

  // Nothing is claimed about the digest of a run that is already incomplete.
  lemma ProgressUnhashed(c: Context, s: RunState, open: set<DefKey>, es: seq<Entity>,
                         hashed: seq<(seq<string>, Digest)>, other: seq<(seq<string>, Digest)>, count: nat)
    requires WellFormed(c.m) && Children(es) <= c.m.definitions.Keys && (s.complete ==> hashed == other)
    requires Progress(c, s, open, es, hashed, count)
    ensures Progress(c, s, open, es, other, count)
  {
  }

  // Both additions of the loop body together.
  lemma AddedInTwoSteps(s: RunState, count: nat, child: Option<Report>)
    ensures var first := if count + 1 <= SAFE_INTEGER_MAX then s else Marked(s, LogicalOccurrenceCountOverflow);
            var second := if Min(count + 1, SAFE_INTEGER_MAX) + CountFrom(child) <= SAFE_INTEGER_MAX then first
                          else Marked(first, LogicalOccurrenceCountOverflow);
            second == OccurrencesAdded(s, count, child)
  {
    assert LogicalOccurrenceCountOverflow in Marked(s, LogicalOccurrenceCountOverflow).blockers;
  }

  // From a finished list to the report of the definition ----------------------

  // While neither a cycle nor a clash of keys was met, the finished definitions
  // are closed under placement and a placed definition is one of them.
  lemma FinishedIsClosed(c: Context, s: RunState, open: set<DefKey>)
    requires Inv(c, s, open) && Sound(s)
    ensures ClosedSet(c.m, set d | d in s.finished)
  {
    var f := set d | d in s.finished;
    forall d | d in f ensures d in c.m.definitions && Children(c.m.definitions[d].entities) <= f {
      var i :| 0 <= i < |s.finished| && s.finished[i] == d;
      assert PlacedOk(c, s, i, open);
      forall p | p in Children(c.m.definitions[d].entities) ensures p in f {
        assert PlacementOk(c, s, p, open, i);
        PlacedIsFinished(c, s, open, p, i);
      }
    }
  }

  lemma PlacedIsFinished(c: Context, s: RunState, open: set<DefKey>, p: DefId, bound: nat)
    requires KeysNoted(c, s) && Sound(s) && bound <= |s.finished|
    requires forall i :: 0 <= i < |s.finished| ==> s.finished[i] in s.keysByObject
    requires PlacementOk(c, s, p, open, bound)
    ensures p in s.finished[..bound]
  {
    var j :| 0 <= j < bound && KeyOf(c.m, s.finished[j]) == KeyOf(c.m, p);
    assert s.finished[j] in s.keysByObject.Keys && p in s.keysByObject.Keys;
    assert s.finished[j] == p;
    assert s.finished[..bound][j] == p;
  }

  // The list of a definition, handled with the definition open, unfolds as the
  // list inside the definition's own unfolding.
  lemma ListBecomesDefinition(c: Context, s: RunState, open: set<DefKey>, d: DefId)
    requires Inv(c, s, open) && Sound(s) && d in c.reach && KeyOf(c.m, d) in open
    requires Placements(c, s, open, c.m.definitions[d].entities)
    ensures var def := c.m.definitions[d];
            UnfoldDefinition(c.m, d, {}) ==
            DefinitionNode(KeyOf(c.m, d), def.name, def.persistentId, def.classification,
              UnfoldSorted(c.m, def.entities, {}))
  {
    var f := set x | x in s.finished;
    FinishedIsClosed(c, s, open);
    forall p | p in Children(c.m.definitions[d].entities) ensures p in f {
      PlacedIsFinished(c, s, open, p, |s.finished|);
    }
    UnfoldAboveClosedSet(c.m, d, f);
  }

  // A stored report serves any definition with its key, as long as keys can be
  // relied on.
  lemma StoredReportServes(c: Context, s: RunState, open: set<DefKey>, d: DefId)
    requires Inv(c, s, open) && d in s.keysByObject && KeyOf(c.m, d) in s.reports
    ensures d in c.m.definitions && PlacementOk(c, s, d, open, |s.finished|)
    ensures ReportOk(c, s, d, s.reports[KeyOf(c.m, d)])
  {
    var j :| 0 <= j < |s.finished| && KeyOf(c.m, s.finished[j]) == KeyOf(c.m, d);
    assert StoredOk(c, s, s.finished[j]);
    if Sound(s) {
      assert s.finished[j] in s.keysByObject.Keys && d in s.keysByObject.Keys;
      assert s.finished[j] == d;
    }
  }

  // Meeting an open definition again gives a report nothing is claimed about.
  lemma CycleReportServes(c: Context, s: RunState, open: set<DefKey>, d: DefId, r: Report)
    requires Proper(c) && d in c.reach && d in s.keysByObject && KeyOf(c.m, d) in open && r.key == KeyOf(c.m, d)
    ensures d in c.m.definitions && |Marked(s, RecursiveDefinitionCycle).finished| == |s.finished|
    ensures PlacementOk(c, Marked(s, RecursiveDefinitionCycle), d, open, |s.finished|)
    ensures ReportOk(c, Marked(s, RecursiveDefinitionCycle), d, r)
  {
    assert RecursiveDefinitionCycle in Marked(s, RecursiveDefinitionCycle).blockers;
  }

  lemma DefinitionDone(c: Context, s: RunState, d: DefId, digest: Digest, count: nat)
    requires WellFormed(c.m) && StatusOk(s) && d in c.m.definitions
    requires s.complete ==> digest == ListDigest(c.hash, UnfoldSorted(c.m, c.m.definitions[d].entities, {}))
    requires Sound(s) ==> CountOk(s, count, Total(c.m, c.m.definitions[d].entities))
    requires Sound(s) ==>
      var def := c.m.definitions[d];
      UnfoldDefinition(c.m, d, {}) ==
      DefinitionNode(KeyOf(c.m, d), def.name, def.persistentId, def.classification, UnfoldSorted(c.m, def.entities, {}))
    ensures ReportOk(c, s, d, DefinitionReportOf(c, d, digest, count))
  {
  }

  function DefinitionReportOf(c: Context, d: DefId, digest: Digest, count: nat): Report
    requires d in c.m.definitions
  {
    var def := c.m.definitions[d];
    var key := KeyOf(c.m, d);
    Report(key, c.hash(DefinitionSource(key, def.name, def.persistentId, def.classification, digest, count)), count)
  }

  lemma StoredGrows(m: Model, s: RunState, t: RunState, u: RunState, key: DefKey, d: DefId, r: Report)
    requires Grows(m, s, t, 0) && d in m.definitions
    requires Grows(m, t.(reachableDefinitions := t.reachableDefinitions + 1), u, |Selected(m.definitions[d].entities)|)
    ensures Grows(m, s, Stored(u, key, d, r), 0)
  {
    var v := Stored(u, key, d, r);
    var a, b, e := t.finished[|s.finished|..], u.finished[|t.finished|..], [d];
    assert u.finished[..|s.finished|] == u.finished[..|t.finished|][..|s.finished|];
    assert v.finished[..|s.finished|] == u.finished[..|s.finished|];
    assert v.finished[|s.finished|..] == a + b + e;
    SizesAppend(m, a, b);
    SizesAppend(m, a + b, e);
    assert Sizes(m, e) == |Selected(m.definitions[d].entities)| + Sizes(m, e[1..]);
  }

  // Everything between the traversal of a definition's list and the return of
  // its report: s is the state before the definition was opened, u the one after
  // its list was traversed.
  lemma DefinitionStep(c: Context, start: RunState, s: RunState, u: RunState, v: RunState, open: set<DefKey>, d: DefId,
                       digest: Digest, count: nat)
    requires Grows(c.m, start, s, 0) && Inv(c, u, open + {KeyOf(c.m, d)})
    requires d in c.reach && d in c.m.definitions && d in s.keysByObject && KeyOf(c.m, d) !in open
    requires Grows(c.m, s.(reachableDefinitions := s.reachableDefinitions + 1), u,
             |Selected(c.m.definitions[d].entities)|)
    requires Placements(c, u, open + {KeyOf(c.m, d)}, c.m.definitions[d].entities)
    requires ListOk(u, Selected(c.m.definitions[d].entities))
    requires u.complete ==> digest == ListDigest(c.hash, UnfoldSorted(c.m, c.m.definitions[d].entities, {}))
    requires Sound(u) ==> CountOk(u, count, Total(c.m, c.m.definitions[d].entities))
    requires v == Stored(u, KeyOf(c.m, d), d, DefinitionReportOf(c, d, digest, count))
    ensures Inv(c, v, open) && Grows(c.m, start, v, 0)
    ensures PlacementOk(c, v, d, open, |v.finished|) && ReportOk(c, v, d, DefinitionReportOf(c, d, digest, count))
  {
    hide Inv, Grows, Placements, ListOk, CountOk, PlacementOk, ReportOk, RecordOk, StatusOk, WellFormed, Proper;
    hide UnfoldSorted, UnfoldDefinition, Selected, Children, KeyOf, ListDigest, Total;
    var key, r := KeyOf(c.m, d), DefinitionReportOf(c, d, digest, count);
    InvBasics(c, u, open + {key});
    GrowsKeepsKeys(c.m, s.(reachableDefinitions := s.reachableDefinitions + 1), u,
      |Selected(c.m.definitions[d].entities)|, d);
    if Sound(u) {
      ListBecomesDefinition(c, u, open + {key}, d);
    }
    DefinitionDone(c, u, d, digest, count);
    StoredKeepsInv(c, u, open, d, r);
    StoredGrows(c.m, start, s, u, key, d, r);
    StoredReportServes(c, v, open, d);
  }

  // From the loop over a list to its report --------------------------------------

  lemma ListsAgree(stored: seq<Entity>, entries: seq<Entity>)
    requires multiset(entries) == multiset(Selected(stored))
    ensures multiset(entries) == multiset(InSortOrder(Selected(stored))) && |entries| == |Selected(stored)|
    ensures Children(entries) == Children(stored)
    ensures forall i :: 0 <= i < |entries| && ChildOf(entries[i]).Some? ==>
            ChildOf(entries[i]).value in Children(stored)
  {
    assert |multiset(entries)| == |entries|;
    InSortOrderSorts(Selected(stored));
    PermutedChildren(entries, Selected(stored));
    SelectedChildren(stored);
  }

  lemma StartProgress(c: Context, s: RunState, open: set<DefKey>, entries: seq<Entity>)
    requires WellFormed(c.m)
    ensures Children(entries[..0]) <= c.m.definitions.Keys
    ensures Progress(c, s, open, entries[..0], [], 0) && Grows(c.m, s, s, 0)
  {
    assert entries[..0] == [] && s.finished[|s.finished|..] == [];
  }

  lemma ListFinished(c: Context, s: RunState, open: set<DefKey>, stored: seq<Entity>, entries: seq<Entity>,
                     hashed: seq<(seq<string>, Digest)>, count: nat)
    requires WellFormed(c.m) && StatusOk(s) && Children(stored) <= c.m.definitions.Keys
    requires Sorted(entries) && multiset(entries) == multiset(Selected(stored))
    requires Children(entries) <= c.m.definitions.Keys
    requires Progress(c, s, open, entries, hashed, count)
    ensures Placements(c, s, open, stored) && ListOk(s, Selected(stored))
    ensures s.complete ==> hashed == EntryDigests(c.hash, UnfoldSorted(c.m, stored, {}))
    ensures |UnfoldSorted(c.m, stored, {})| == |entries|
    ensures Sound(s) ==> CountOk(s, count, Total(c.m, stored))
  {
    ListsAgree(stored, entries);
    IdentitiesPermute(entries, Selected(stored));
    var sorted := InSortOrder(Selected(stored));
    InSortOrderSorts(Selected(stored));
    SortedSelectionChildren(stored);
    CountPermutes(c.m, entries, sorted, {});
    assert |entries| == |multiset(entries)| == |multiset(sorted)| == |sorted|;
    if s.complete {
      SortedOrderIsUnique(entries, sorted);
    }
  }
}
