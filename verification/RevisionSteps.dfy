// The steps of a fingerprint run as functions on snapshots, each with the proof
// that it keeps the invariant.
module RevisionSteps {
  import opened SketchModel
  import opened RevisionTree
  import opened RevisionInvariant

  // Marking a run incomplete -------------------------------------------------

  function Marked(s: RunState, b: Blocker): RunState {
    s.(complete := false, blockers := if b in s.blockers then s.blockers else s.blockers + [b])
  }

  // Learning more blockers or more keys never invalidates what was finished.
  lemma FinishedCarries(c: Context, s: RunState, t: RunState, open: set<DefKey>)
    requires FinishedOk(c, s, open)
    requires t.finished == s.finished && t.reports == s.reports
    requires forall d :: d in s.keysByObject ==> d in t.keysByObject
    requires RecursiveDefinitionCycle in s.blockers ==> RecursiveDefinitionCycle in t.blockers
    ensures FinishedOk(c, t, open)
  {
    forall i | 0 <= i < |t.finished| ensures t.finished[i] in c.m.definitions && PlacedOk(c, t, i, open) {
      assert PlacedOk(c, s, i, open);
    }
  }

  lemma ReportsCarry(c: Context, s: RunState, t: RunState)
    requires WellFormed(c.m) && ReportsOk(c, s)
    requires t.finished == s.finished && t.reports == s.reports
    requires forall b :: b in s.blockers ==> b in t.blockers
    requires t.complete ==> s.complete
    ensures ReportsOk(c, t)
  {
    forall i | 0 <= i < |t.finished| ensures t.finished[i] in c.m.definitions && StoredOk(c, t, t.finished[i]) {
      assert StoredOk(c, s, s.finished[i]);
    }
  }

  lemma MarkedFrame(c: Context, s: RunState, b: Blocker)
    requires StatusOk(s) && KeysNoted(c, s) && CausesOk(c, s)
    requires b in c.faults || (b == LogicalOccurrenceCountOverflow && !Sound(s))
    requires b != DuplicateDefinitionIdentity && b != DefinitionIdentityUnavailable && b != UniqueEntityLimitExceeded
    ensures var t := Marked(s, b); StatusOk(t) && KeysNoted(c, t) && CausesOk(c, t) && Grows(c.m, s, t, 0)
    ensures forall x :: x in Marked(s, b).blockers <==> x in s.blockers || x == b
  {
    var t := Marked(s, b);
    assert forall x :: x in t.blockers <==> x in s.blockers || x == b;
    assert t.finished[|s.finished|..] == [];
  }

  lemma MarkedKeepsInv(c: Context, s: RunState, open: set<DefKey>, b: Blocker)
    requires Inv(c, s, open)
    requires b in c.faults || (b == LogicalOccurrenceCountOverflow && !Sound(s))
    requires b != DuplicateDefinitionIdentity && b != DefinitionIdentityUnavailable && b != UniqueEntityLimitExceeded
    ensures Inv(c, Marked(s, b), open) && Grows(c.m, s, Marked(s, b), 0)
  {
    MarkedFrame(c, s, b);
    FinishedCarries(c, s, Marked(s, b), open);
    ReportsCarry(c, s, Marked(s, b));
  }

  // Computing the key of a definition object ---------------------------------

  // What revision_definition_key does to the state for a new definition object.
  ghost predicate KeyStep(m: Model, s: RunState, t: RunState, d: DefId) {
    var key := KeyOf(m, d);
    && t.keysByObject == s.keysByObject[d := key]
    && t.objectsByKey == (if key in s.objectsByKey then s.objectsByKey else s.objectsByKey[key := d])
    && (forall b :: b in t.blockers <==>
          b in s.blockers
          || (b == DefinitionIdentityUnavailable && key.RuntimeKey?)
          || (b == DuplicateDefinitionIdentity && key in s.objectsByKey))
    && (t.complete <==> t.blockers == [])
    && t.uniqueEntities == s.uniqueEntities && t.reachableDefinitions == s.reachableDefinitions
    && t.reports == s.reports && t.finished == s.finished
  }

  lemma ClashAfterAdding(m: Model, s: set<DefId>, d: DefId)
    requires d !in s
    ensures KeysClash(m, s + {d}) <==> KeysClash(m, s) || exists e :: e in s && KeyOf(m, e) == KeyOf(m, d)
    ensures KeysAvailable(m, s + {d}) <==> KeysAvailable(m, s) && !KeyOf(m, d).RuntimeKey?
  {
    if KeysClash(m, s) {
      var x, y :| x in s && y in s && x != y && KeyOf(m, x) == KeyOf(m, y);
      assert x in s + {d} && y in s + {d};
    }
    if e :| e in s && KeyOf(m, e) == KeyOf(m, d) {
      assert e in s + {d} && d in s + {d};
    }
    if KeysAvailable(m, s + {d}) {
      assert d in s + {d};
      forall e | e in s ensures !KeyOf(m, e).RuntimeKey? {
        assert e in s + {d};
      }
    }
  }

  lemma KeyStepRecords(c: Context, s: RunState, t: RunState, d: DefId)
    requires RecordOk(c, s) && d in c.reach && d !in s.keysByObject && KeyStep(c.m, s, t, d)
    ensures RecordOk(c, t)
  {
  }

  lemma KeyStepNotes(c: Context, s: RunState, t: RunState, d: DefId)
    requires RecordOk(c, s) && KeysNoted(c, s) && d !in s.keysByObject && KeyStep(c.m, s, t, d)
    ensures KeysNoted(c, t)
  {
    var key := KeyOf(c.m, d);
    ClashAfterAdding(c.m, s.keysByObject.Keys, d);
    assert t.keysByObject.Keys == s.keysByObject.Keys + {d};
    if key in s.objectsByKey {
      assert s.objectsByKey[key] in s.keysByObject.Keys;
    } else {
      forall e | e in s.keysByObject ensures KeyOf(c.m, e) != key {
        assert KeyOf(c.m, e) in s.objectsByKey;
      }
    }
  }

  lemma KeyStepKeepsInv(c: Context, s: RunState, t: RunState, open: set<DefKey>, d: DefId)
    requires Inv(c, s, open) && d in c.reach && d !in s.keysByObject && KeyStep(c.m, s, t, d)
    ensures Inv(c, t, open) && Grows(c.m, s, t, 0)
  {
    KeyStepRecords(c, s, t, d);
    KeyStepNotes(c, s, t, d);
    KeyStepFrame(c, s, t, d);
    FinishedCarries(c, s, t, open);
    ReportsCarry(c, s, t);
  }

  lemma KeyStepFrame(c: Context, s: RunState, t: RunState, d: DefId)
    requires StatusOk(s) && CausesOk(c, s) && KeyStep(c.m, s, t, d)
    ensures StatusOk(t) && CausesOk(c, t) && Grows(c.m, s, t, 0)
    ensures t.complete ==> s.complete
  {
    assert t.finished[|s.finished|..] == [];
    if s.blockers != [] {
      assert s.blockers[0] in s.blockers;
    }
  }

  // Counting one more entity against the budget --------------------------------

  function Counted(s: RunState, limit: nat): RunState {
    var t := s.(uniqueEntities := s.uniqueEntities + 1);
    if t.uniqueEntities > limit then Marked(t, UniqueEntityLimitExceeded) else t
  }

  lemma CountedFrame(c: Context, s: RunState)
    requires StatusOk(s) && KeysNoted(c, s) && CausesOk(c, s)
    ensures var t := Counted(s, c.limit); StatusOk(t) && KeysNoted(c, t) && CausesOk(c, t)
    ensures CountedOnly(c.m, s, Counted(s, c.limit))
  {
    hide KeysClash, KeysAvailable, Selected, KeyOf;
    var t := Counted(s, c.limit);
    assert t.finished[|s.finished|..] == [];
  }

  ghost predicate CountedOnly(m: Model, s: RunState, t: RunState) {
    && Grows(m, s, t, 1) && t.finished == s.finished && t.reports == s.reports && t.keysByObject == s.keysByObject
    && (t.complete ==> s.complete) && (Sound(t) <==> Sound(s))
    && (forall x :: x in t.blockers && x != UniqueEntityLimitExceeded ==> x in s.blockers)
  }

  lemma CountedKeepsInv(c: Context, s: RunState, open: set<DefKey>)
    requires Inv(c, s, open)
    ensures Inv(c, Counted(s, c.limit), open) && CountedOnly(c.m, s, Counted(s, c.limit))
  {
    CountedFrame(c, s);
    FinishedCarries(c, s, Counted(s, c.limit), open);
    ReportsCarry(c, s, Counted(s, c.limit));
  }

  // Opening a definition and storing its report --------------------------------

  lemma OpenedFinished(c: Context, s: RunState, t: RunState, open: set<DefKey>, key: DefKey)
    requires FinishedOk(c, s, open) && key !in s.reports
    requires t == s.(reachableDefinitions := t.reachableDefinitions)
    ensures FinishedOk(c, t, open + {key})
  {
    forall i | 0 <= i < |t.finished| ensures t.finished[i] in c.m.definitions && PlacedOk(c, t, i, open + {key}) {
      assert PlacedOk(c, s, i, open);
    }
  }

  lemma OpenedKeepsInv(c: Context, s: RunState, open: set<DefKey>, key: DefKey)
    requires Inv(c, s, open) && key !in s.reports
    ensures Inv(c, s.(reachableDefinitions := s.reachableDefinitions + 1), open + {key})
  {
    hide FinishedOk, ReportsOk, KeysClash, KeysAvailable, FaultsNoted;
    var t := s.(reachableDefinitions := s.reachableDefinitions + 1);
    OpenedFinished(c, s, t, open, key);
    ReportsCarry(c, s, t);
  }

  ghost predicate Placements(c: Context, s: RunState, open: set<DefKey>, es: seq<Entity>) {
    forall d :: d in Children(es) ==> PlacementOk(c, s, d, open, |s.finished|)
  }

  function Stored(s: RunState, key: DefKey, d: DefId, r: Report): RunState {
    s.(reports := s.reports[key := r], finished := s.finished + [d])
  }

  lemma StoredPlacements(c: Context, s: RunState, open: set<DefKey>, d: DefId, r: Report, es: seq<Entity>, bound: nat)
    requires bound <= |s.finished|
    requires forall p :: p in Children(es) ==> PlacementOk(c, s, p, open + {KeyOf(c.m, d)}, bound)
    ensures forall p :: p in Children(es) ==> PlacementOk(c, Stored(s, KeyOf(c.m, d), d, r), p, open, bound)
  {
    forall p | p in Children(es) ensures PlacementOk(c, Stored(s, KeyOf(c.m, d), d, r), p, open, bound) {
      assert PlacementOk(c, s, p, open + {KeyOf(c.m, d)}, bound);
      if RecursiveDefinitionCycle !in s.blockers {
        var j :| 0 <= j < bound && KeyOf(c.m, s.finished[j]) == KeyOf(c.m, p);
        assert Stored(s, KeyOf(c.m, d), d, r).finished[j] == s.finished[j];
      }
    }
  }

  lemma StoredKeys(m: Model, s: RunState, d: DefId, r: Report)
    requires forall k :: k in s.reports ==> exists i :: 0 <= i < |s.finished| && KeyOf(m, s.finished[i]) == k
    ensures var t := Stored(s, KeyOf(m, d), d, r);
            forall k :: k in t.reports ==> exists i :: 0 <= i < |t.finished| && KeyOf(m, t.finished[i]) == k
  {
    var key := KeyOf(m, d);
    var t := Stored(s, key, d, r);
    forall k | k in t.reports ensures exists i :: 0 <= i < |t.finished| && KeyOf(m, t.finished[i]) == k {
      if k == key {
        assert t.finished[|s.finished|] == d;
      } else {
        var i :| 0 <= i < |s.finished| && KeyOf(m, s.finished[i]) == k;
        assert t.finished[i] == s.finished[i];
      }
    }
  }

  lemma StoredPlaced(c: Context, s: RunState, open: set<DefKey>, d: DefId, r: Report, i: nat)
    requires i <= |s.finished|
    requires if i == |s.finished| then d in c.m.definitions
             && Placements(c, s, open + {KeyOf(c.m, d)}, c.m.definitions[d].entities)
             else s.finished[i] in c.m.definitions && PlacedOk(c, s, i, open + {KeyOf(c.m, d)})
    ensures var t := Stored(s, KeyOf(c.m, d), d, r);
            t.finished[i] in c.m.definitions && PlacedOk(c, t, i, open)
  {
    var t := Stored(s, KeyOf(c.m, d), d, r);
    StoredPlacements(c, s, open, d, r, c.m.definitions[t.finished[i]].entities, i);
  }

  lemma StoredFinished(c: Context, s: RunState, open: set<DefKey>, d: DefId, r: Report)
    requires d in c.m.definitions && d in s.keysByObject
    requires FinishedOk(c, s, open + {KeyOf(c.m, d)}) && KeyOf(c.m, d) !in open
    requires Placements(c, s, open + {KeyOf(c.m, d)}, c.m.definitions[d].entities)
    ensures FinishedOk(c, Stored(s, KeyOf(c.m, d), d, r), open)
  {
    hide PlacedOk, Placements, Children, WellFormed;
    var t := Stored(s, KeyOf(c.m, d), d, r);
    StoredKeys(c.m, s, d, r);
    forall i | 0 <= i < |t.finished| ensures t.finished[i] in c.m.definitions && PlacedOk(c, t, i, open) {
      StoredPlaced(c, s, open, d, r, i);
    }
  }

  lemma StoredReports(c: Context, s: RunState, d: DefId, r: Report)
    requires WellFormed(c.m) && ReportsOk(c, s) && d in c.m.definitions && KeyOf(c.m, d) !in s.reports
    requires forall i :: 0 <= i < |s.finished| ==> KeyOf(c.m, s.finished[i]) in s.reports
    requires ListOk(s, Selected(c.m.definitions[d].entities)) && ReportOk(c, s, d, r)
    ensures ReportsOk(c, Stored(s, KeyOf(c.m, d), d, r))
  {
    var t := Stored(s, KeyOf(c.m, d), d, r);
    forall i | 0 <= i < |t.finished| ensures t.finished[i] in c.m.definitions && StoredOk(c, t, t.finished[i]) {
      if i < |s.finished| {
        assert StoredOk(c, s, s.finished[i]);
      }
    }
  }

  lemma StoredKeepsInv(c: Context, s: RunState, open: set<DefKey>, d: DefId, r: Report)
    requires d in c.m.definitions && d in s.keysByObject && KeyOf(c.m, d) !in open
    requires Inv(c, s, open + {KeyOf(c.m, d)})
    requires Placements(c, s, open + {KeyOf(c.m, d)}, c.m.definitions[d].entities)
    requires ListOk(s, Selected(c.m.definitions[d].entities)) && ReportOk(c, s, d, r)
    ensures Inv(c, Stored(s, KeyOf(c.m, d), d, r), open)
  {
    var key := KeyOf(c.m, d);
    assert key in open + {key};
    StoredFinished(c, s, open, d, r);
    StoredReports(c, s, d, r);
  }
}
