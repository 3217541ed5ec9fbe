// The occurrences of a model: every placement of a definition written out.
module EntityOccurrences {
  import opened Options
  import opened TextOrder
  import opened SketchModel
  import opened RevisionTree
  import opened RevisionOutcome
  import opened PlacedEntities

  // `q` names a place in the list, a place in the definition placed there, and so on, and
  // `path` holds the entities met. No definition is entered inside itself.
  ghost predicate Leads(m: Model, es: seq<Entity>, q: seq<nat>, path: seq<Entity>, open: set<DefId>)
    decreases q
  {
    && |q| == |path| > 0 && q[0] < |es| && Counts(es[q[0]]) && path[0] == es[q[0]]
    && (|q| == 1
        || exists d :: d in m.definitions && d !in open && Places(es[q[0]], d)
             && Leads(m, m.definitions[d].entities, q[1..], path[1..], open + {d}))
  }

  // Lists of places in the order of a walk: one list before what goes on from it.
  ghost predicate Precedes(q: seq<nat>, r: seq<nat>) {
    q < r || exists k :: DiffersAt(q, r, k) && q[k] < r[k]
  }

  ghost predicate InTurn(qs: seq<seq<nat>>) {
    forall i, j :: 0 <= i < j < |qs| ==> Precedes(qs[i], qs[j])
  }

  // The paths are those of all occurrences, each once and in turn.
  ghost predicate AreOccurrences(m: Model, es: seq<Entity>, open: set<DefId>, qs: seq<seq<nat>>,
                                 paths: seq<seq<Entity>>) {
    && |qs| == |paths| && InTurn(qs)
    && (forall i :: 0 <= i < |qs| ==> Leads(m, es, qs[i], paths[i], open))
    && forall q, path :: Leads(m, es, q, path, open) ==> q in qs
  }

  ghost function Behind<T>(front: seq<T>, lists: seq<seq<T>>): seq<seq<T>> {
    seq(|lists|, i requires 0 <= i < |lists| => front + lists[i])
  }

  // The occurrences below a list in walk order.
  ghost function EntityPaths(m: Model, es: seq<Entity>, open: set<DefId>): seq<seq<Entity>>
    requires WellFormed(m) && Children(es) <= m.definitions.Keys
    decreases m.definitions.Keys - open, |es|
  {
    if es == [] then []
    else
      assert es[0] in es && Children(es[1..]) <= Children(es);
      PathsAt(m, es[0], open) + EntityPaths(m, es[1..], open)
  }

  ghost function PathsAt(m: Model, e: Entity, open: set<DefId>): seq<seq<Entity>>
    requires WellFormed(m) && (ChildOf(e).Some? ==> ChildOf(e).value in m.definitions)
    decreases m.definitions.Keys - open, 0
  {
    if !Selectable(e) then []
    else
      match ChildOf(e)
      case None => [[e]]
      case Some(d) =>
        if d in open then [[e]]
        else [[e]] + Behind([e], EntityPaths(m, m.definitions[d].entities, open + {d}))
  }

  // The definition list that follows the same places as the paths.
  lemma {:induction false} PathsAreOccurrences(m: Model, es: seq<Entity>, open: set<DefId>)
    returns (qs: seq<seq<nat>>)
    requires WellFormed(m) && Children(es) <= m.definitions.Keys
    ensures AreOccurrences(m, es, open, qs, EntityPaths(m, es, open))
    decreases m.definitions.Keys - open, |es|
  {
    if es == [] {
      qs := [];
    } else {
      assert es[0] in es && Children(es[1..]) <= Children(es);
      var first := PathsAtAreOccurrences(m, es, open);
      var rest := PathsAreOccurrences(m, es[1..], open);
      qs := first + Moved(rest);
      hide EntityPaths, PathsAt;
      MovedAreOccurrences(m, es, open, rest, EntityPaths(m, es[1..], open));
      JoinedAreOccurrences(m, es, open, first, PathsAt(m, es[0], open), Moved(rest), EntityPaths(m, es[1..], open));
    }
  }

  // Occurrences in or below the places of a list from `lo` up to `hi`.
  ghost predicate AreOccurrencesAt(m: Model, es: seq<Entity>, open: set<DefId>, qs: seq<seq<nat>>,
                                   paths: seq<seq<Entity>>, lo: nat, hi: nat) {
    && |qs| == |paths| && InTurn(qs)
    && (forall i :: 0 <= i < |qs| ==> qs[i] != [] && lo <= qs[i][0] < hi && Leads(m, es, qs[i], paths[i], open))
    && forall q, path :: q != [] && lo <= q[0] < hi && Leads(m, es, q, path, open) ==> q in qs
  }

  ghost function Move(q: seq<nat>): seq<nat> {
    if q == [] then [] else [q[0] + 1] + q[1..]
  }

  ghost function Moved(qs: seq<seq<nat>>): seq<seq<nat>> {
    seq(|qs|, i requires 0 <= i < |qs| => Move(qs[i]))
  }

  lemma LeadsSomewhere(m: Model, es: seq<Entity>, q: seq<nat>, path: seq<Entity>, open: set<DefId>)
    requires Leads(m, es, q, path, open)
    ensures q != [] && q[0] < |es| && |q| == |path|
  {
  }

  lemma JoinedAreOccurrences(m: Model, es: seq<Entity>, open: set<DefId>, qs: seq<seq<nat>>, paths: seq<seq<Entity>>,
                             rs: seq<seq<nat>>, more: seq<seq<Entity>>)
    requires es != [] && AreOccurrencesAt(m, es, open, qs, paths, 0, 1)
    requires AreOccurrencesAt(m, es, open, rs, more, 1, |es|)
    ensures AreOccurrences(m, es, open, qs + rs, paths + more)
  {
    hide Precedes, InTurn;
    var all, along := qs + rs, paths + more;
    forall i | 0 <= i < |all| ensures all[i] != [] && Leads(m, es, all[i], along[i], open) {
      if i >= |qs| {
        assert all[i] == rs[i - |qs|] && along[i] == more[i - |qs|];
      }
    }
    JoinedInTurn(qs, rs);
    hide Leads;
    forall q, path | Leads(m, es, q, path, open) ensures q in all {
      LeadsSomewhere(m, es, q, path, open);
      if q[0] < 1 {
        assert q in qs;
      } else {
        assert q in rs;
      }
    }
  }

  lemma JoinedInTurn(qs: seq<seq<nat>>, rs: seq<seq<nat>>)
    requires InTurn(qs) && InTurn(rs)
    requires forall i :: 0 <= i < |qs| ==> qs[i] != [] && qs[i][0] < 1
    requires forall i :: 0 <= i < |rs| ==> rs[i] != [] && 1 <= rs[i][0]
    ensures InTurn(qs + rs)
  {
    var all := qs + rs;
    forall i, j | 0 <= i < |qs| <= j < |all| ensures Precedes(all[i], all[j]) {
      assert all[i] == qs[i] && all[j] == rs[j - |qs|];
      assert DiffersAt(all[i], all[j], 0);
    }
    hide Precedes;
    forall i, j | 0 <= i < j < |all| ensures Precedes(all[i], all[j]) {
      if i >= |qs| {
        assert all[i] == rs[i - |qs|] && all[j] == rs[j - |qs|];
      } else if j < |qs| {
        assert all[i] == qs[i] && all[j] == qs[j];
      }
    }
  }

  lemma MovedAreOccurrences(m: Model, es: seq<Entity>, open: set<DefId>, qs: seq<seq<nat>>, paths: seq<seq<Entity>>)
    requires es != [] && AreOccurrences(m, es[1..], open, qs, paths)
    ensures AreOccurrencesAt(m, es, open, Moved(qs), paths, 1, |es|)
  {
    hide Precedes, Leads;
    var moved := Moved(qs);
    forall i | 0 <= i < |qs| 
      ensures moved[i] != [] && 1 <= moved[i][0] < |es| && Leads(m, es, moved[i], paths[i], open)
    {
      LeadsSomewhere(m, es[1..], qs[i], paths[i], open);
      MovedLeads(m, es, qs[i], paths[i], open);
    }
    MovedInTurn(qs);
    forall q, path | q != [] && 1 <= q[0] < |es| && Leads(m, es, q, path, open) ensures q in moved {
      LeadsSomewhere(m, es, q, path, open);
      var back := [q[0] - 1] + q[1..];
      assert Move(back) == q;
      MovedLeads(m, es, back, path, open);
      assert back in qs;
      var i :| 0 <= i < |qs| && qs[i] == back;
      assert moved[i] == q;
    }
  }

  lemma MovedInTurn(qs: seq<seq<nat>>)
    requires InTurn(qs) && forall i :: 0 <= i < |qs| ==> qs[i] != []
    ensures InTurn(Moved(qs))
  {
    hide Precedes, Move;
    forall i, j | 0 <= i < j < |qs| ensures Precedes(Moved(qs)[i], Moved(qs)[j]) {
      MovedPrecede(qs[i], qs[j]);
    }
  }

  lemma MovedLeads(m: Model, es: seq<Entity>, q: seq<nat>, path: seq<Entity>, open: set<DefId>)
    requires q != [] && es != []
    ensures Leads(m, es, Move(q), path, open) <==> Leads(m, es[1..], q, path, open)
  {
    assert Move(q)[1..] == q[1..];
  }

  lemma MovedPrecede(q: seq<nat>, r: seq<nat>)
    requires Precedes(q, r) && q != [] && r != []
    ensures Precedes(Move(q), Move(r))
  {
    var a, b := Move(q), Move(r);
    if q < r {
      assert a < b;
    } else {
      var k :| DiffersAt(q, r, k) && q[k] < r[k];
      if k == 0 {
        assert DiffersAt(a, b, 0);
      } else {
        assert q[..k][0] == r[..k][0] && q[1..k] == q[..k][1..] == r[..k][1..] == r[1..k];
        assert a[..k] == [q[0] + 1] + q[1..k] && b[..k] == [r[0] + 1] + r[1..k];
        assert DiffersAt(a, b, k);
      }
    }
  }

  lemma {:induction false} PathsAtAreOccurrences(m: Model, es: seq<Entity>, open: set<DefId>)
    returns (qs: seq<seq<nat>>)
    requires WellFormed(m) && es != [] && (ChildOf(es[0]).Some? ==> ChildOf(es[0]).value in m.definitions)
    ensures AreOccurrencesAt(m, es, open, qs, PathsAt(m, es[0], open), 0, 1)
    decreases m.definitions.Keys - open, 0
  {
    var e := es[0];
    if !Selectable(e) {
      qs := [];
    } else if ChildOf(e).Some? && ChildOf(e).value !in open {
      var d := ChildOf(e).value;
      var below := PathsAreOccurrences(m, m.definitions[d].entities, open + {d});
      qs := [[0]] + Behind([0], below);
      hide EntityPaths;
      BelowAreOccurrences(m, es, open, d, below, EntityPaths(m, m.definitions[d].entities, open + {d}));
    } else {
      qs := [[0]];
      assert Leads(m, es, [0], [e], open);
      forall q: seq<nat>, path | q != [] && q[0] < 1 && Leads(m, es, q, path, open) ensures q == [0] {
        assert forall d: DefId :: Places(e, d) ==> ChildOf(e) == Some(d);
      }
    }
  }

  lemma BelowAreOccurrences(m: Model, es: seq<Entity>, open: set<DefId>, d: DefId, qs: seq<seq<nat>>,
                            paths: seq<seq<Entity>>)
    requires es != [] && Counts(es[0]) && Places(es[0], d) && d in m.definitions && d !in open
    requires AreOccurrences(m, m.definitions[d].entities, open + {d}, qs, paths)
    ensures AreOccurrencesAt(m, es, open, [[0]] + Behind([0], qs), [[es[0]]] + Behind([es[0]], paths), 0, 1)
  {
    hide Counts, Places, Precedes, Leads;
    var below := m.definitions[d].entities;
    var all, along := [[0]] + Behind([0], qs), [[es[0]]] + Behind([es[0]], paths);
    forall i | 0 <= i < |all| ensures all[i] != [] && all[i][0] == 0 && Leads(m, es, all[i], along[i], open) {
      if i > 0 {
        assert all[i][1..] == qs[i - 1] && along[i][1..] == paths[i - 1];
        LeadsSomewhere(m, below, qs[i - 1], paths[i - 1], open + {d});
      }
      BelowLeads(m, es, all[i], along[i], open, d);
    }
    forall i | 0 <= i < |qs| ensures qs[i] != [] {
      LeadsSomewhere(m, below, qs[i], paths[i], open + {d});
    }
    BehindInTurn(qs);
    forall q, path | q != [] && q[0] < 1 && Leads(m, es, q, path, open) ensures q in all {
      LeadsSomewhere(m, es, q, path, open);
      BelowLeads(m, es, q, path, open, d);
      if |q| > 1 {
        assert q[1..] in qs;
        var i :| 0 <= i < |qs| && qs[i] == q[1..];
        assert all[i + 1] == [0] + q[1..] == q;
      } else {
        assert all[0] == q;
      }
    }
  }

  lemma BehindInTurn(qs: seq<seq<nat>>)
    requires InTurn(qs) && forall i :: 0 <= i < |qs| ==> qs[i] != []
    ensures InTurn([[0]] + Behind([0], qs))
  {
    var all := [[0]] + Behind([0], qs);
    forall j | 0 < j < |all| ensures Precedes(all[0], all[j]) {
      assert [0] < [0] + qs[j - 1];
    }
    hide Precedes;
    forall i, j | 0 <= i < j < |all| ensures Precedes(all[i], all[j]) {
      if i > 0 {
        BehindPrecede(0, qs[i - 1], qs[j - 1]);
      }
    }
  }

  lemma BelowLeads(m: Model, es: seq<Entity>, q: seq<nat>, path: seq<Entity>, open: set<DefId>, d: DefId)
    requires es != [] && Counts(es[0]) && Places(es[0], d) && d in m.definitions && d !in open && q != [] && q[0] == 0
    ensures Leads(m, es, q, path, open) <==>
            |path| == |q| && path[0] == es[0]
              && (|q| == 1 || Leads(m, m.definitions[d].entities, q[1..], path[1..], open + {d}))
  {
    assert forall c :: Places(es[0], c) <==> c == d;
  }

  lemma BehindPrecede(k: nat, q: seq<nat>, r: seq<nat>)
    requires Precedes(q, r)
    ensures Precedes([k] + q, [k] + r)
  {
    var a, b := [k] + q, [k] + r;
    if q < r {
      assert a < b;
    } else {
      var i :| DiffersAt(q, r, i) && q[i] < r[i];
      assert a[..i + 1] == [k] + q[..i] && b[..i + 1] == [k] + r[..i];
      assert DiffersAt(a, b, i + 1);
    }
  }

  // There are as many paths as occurrences in the unfolded model.
  lemma {:induction false} PathsAreCounted(m: Model, es: seq<Entity>, open: set<DefId>)
    requires WellFormed(m) && Children(es) <= m.definitions.Keys
    ensures Children(Selected(es)) <= m.definitions.Keys
    ensures |EntityPaths(m, es, open)| == CountOf(m, Selected(es), open)
    decreases m.definitions.Keys - open, |es|
  {
    SelectedChildren(es);
    if es != [] {
      assert es[0] in es && Children(es[1..]) <= Children(es);
      PathsAreCounted(m, es[1..], open);
      if Selectable(es[0]) {
        assert Selected(es) == [es[0]] + Selected(es[1..]);
        PathsAtAreCounted(m, es[0], open);
        var ts := UnfoldList(m, Selected(es), open);
        assert Selected(es)[1..] == Selected(es[1..]);
        assert ts[0] == UnfoldEntity(m, es[0], open) && ts[1..] == UnfoldList(m, Selected(es[1..]), open);
      } else {
        assert Selected(es) == Selected(es[1..]);
      }
    }
  }

  lemma {:induction false} PathsAtAreCounted(m: Model, e: Entity, open: set<DefId>)
    requires WellFormed(m) && Selectable(e) && (ChildOf(e).Some? ==> ChildOf(e).value in m.definitions)
    ensures |PathsAt(m, e, open)| == EntryCount(UnfoldEntity(m, e, open))
    decreases m.definitions.Keys - open, 0
  {
    if ChildOf(e).Some? && ChildOf(e).value !in open {
      var d := ChildOf(e).value;
      var es := m.definitions[d].entities;
      PathsAreCounted(m, es, open + {d});
      SortedSelectionChildren(es);
      InSortOrderSorts(Selected(es));
      CountPermutes(m, Selected(es), InSortOrder(Selected(es)), open + {d});
    }
  }

  lemma OccurrencesMean(m: Model)
    requires WellFormed(m)
    ensures |EntityPaths(m, m.root, {})| == Occurrences(m)
    ensures exists qs :: AreOccurrences(m, m.root, {}, qs, EntityPaths(m, m.root, {}))
  {
    PathsAreCounted(m, m.root, {});
    SortedSelectionChildren(m.root);
    InSortOrderSorts(Selected(m.root));
    CountPermutes(m, Selected(m.root), InSortOrder(Selected(m.root)), {});
    var qs := PathsAreOccurrences(m, m.root, {});
  }
}
