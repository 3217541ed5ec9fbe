// The state the bridge keeps beside a document: written into an attribute of the
// document, and held in a cache of bounded size.
module DocumentState {
  import opened Lists
  import opened Options
  import T = Transaction

  datatype Json =
    | Null
    | Bool(b: bool)
    | Number(n: int)
    | Text(s: string)
    | Array(items: seq<Json>)
    | Object(members: map<string, Json>)

  // The value of the attribute: nothing, or a text of some length that may parse.
  datatype Raw = Missing | Stored(bytes: nat, parsed: Parsed)

  datatype Parsed = Unparsable | Parses(value: Json)

  const VERSION := 1
  const MAX_BYTES := 1_000_000
  const CACHE_LIMIT := 16
  const ARRAY_FIELDS: seq<string> := ["warnings", "scenes", "levels", "manifold_checks"]
  const HASH_FIELDS: seq<string> := ["view_state", "style_state", "shadow_state", "rendering_options_state"]

  type State = map<string, Json>

  function EmptyState(): State {
    map f | f in ARRAY_FIELDS + HASH_FIELDS :: if f in ARRAY_FIELDS then Array([]) else Null
  }

  function InvalidState(): State {
    EmptyState()["warnings" := Array([Object(map["type" := Text("state.sidecar_invalid")])])]
  }

  ghost predicate HasFields(s: State) {
    s.Keys == set f | f in ARRAY_FIELDS + HASH_FIELDS
  }

  ghost predicate FitsField(f: string, v: Json) {
    (f in ARRAY_FIELDS ==> v.Array?) && (f in HASH_FIELDS ==> v.Null? || v.Object?)
  }

  // What an attribute can hold: lists where lists belong, and hashes or nothing.
  ghost predicate WellTyped(s: State) {
    HasFields(s) && forall f :: f in s ==> FitsField(f, s[f])
  }

  function OrEmpty(v: Json): Json {
    if v.Null? || v == Bool(false) then Array([]) else v
  }

  function Payload(s: State): map<string, Json>
    requires HasFields(s)
  {
    (map f | f in s :: if f in ARRAY_FIELDS then OrEmpty(s[f]) else s[f])["version" := Number(VERSION)]
  }

  function Member(members: map<string, Json>, f: string): Json {
    if f in members then members[f] else Null
  }

  function Load(raw: Raw): State {
    if raw.Missing? || raw.bytes == 0 then EmptyState()
    else if raw.bytes > MAX_BYTES then InvalidState()
    else if raw.parsed.Unparsable? || !raw.parsed.value.Object? then InvalidState()
    else LoadMembers(raw.parsed.value.members)
  }

  function LoadMembers(members: map<string, Json>): State {
    if Member(members, "version") != Number(VERSION) then InvalidState()
    else map f | f in ARRAY_FIELDS + HASH_FIELDS :: LoadField(f, Member(members, f))
  }

  function LoadField(f: string, v: Json): Json {
    if f in ARRAY_FIELDS then (if v.Array? then v else Array([]))
    else if v.Null? || v.Object? then v
    else Null
  }

  lemma LoadIsWellTyped(raw: Raw)
    ensures WellTyped(Load(raw))
  {
    EmptyIsWellTyped();
    hide LoadField, WellTyped, EmptyState;
    if Load(raw) == InvalidState() {
      WarningIsWellTyped(EmptyState(), [Object(map["type" := Text("state.sidecar_invalid")])]);
    } else if Load(raw) != EmptyState() {
      MembersAreWellTyped(raw.parsed.value.members);
    }
  }

  lemma MembersAreWellTyped(members: map<string, Json>)
    ensures var s: State := map f | f in ARRAY_FIELDS + HASH_FIELDS :: LoadField(f, Member(members, f)); WellTyped(s)
  {
    var s: State := map f | f in ARRAY_FIELDS + HASH_FIELDS :: LoadField(f, Member(members, f));
    assert s.Keys == set f | f in ARRAY_FIELDS + HASH_FIELDS;
    FieldsApart();
    forall f | f in s ensures FitsField(f, s[f]) {
      assert s[f] == LoadField(f, Member(members, f));
    }
  }

  lemma FieldsApart()
    ensures forall f :: f in ARRAY_FIELDS ==> f !in HASH_FIELDS
  {
    forall f | f in HASH_FIELDS ensures f !in ARRAY_FIELDS {
      assert |f| >= 10 && f[|f| - 1] == 'e';
    }
  }

  lemma WarningIsWellTyped(s: State, warnings: seq<Json>)
    requires WellTyped(s)
    ensures WellTyped(s["warnings" := Array(warnings)])
  {
    assert "warnings" in ARRAY_FIELDS + HASH_FIELDS;
    assert s["warnings" := Array(warnings)].Keys == s.Keys;
    FieldsApart();
  }

  lemma EmptyIsWellTyped()
    ensures WellTyped(EmptyState())
  {
    assert EmptyState().Keys == set f | f in ARRAY_FIELDS + HASH_FIELDS;
    FieldsApart();
  }

  lemma FieldsAre(s: State)
    requires HasFields(s)
    ensures forall f :: f in s <==> f in ARRAY_FIELDS + HASH_FIELDS
    ensures "version" !in s
  {
    assert forall f :: f in ARRAY_FIELDS + HASH_FIELDS <==> f in set g | g in ARRAY_FIELDS + HASH_FIELDS;
  }

  lemma LoadedPayload(s: State)
    requires HasFields(s)
    ensures LoadMembers(Payload(s)) == map f | f in ARRAY_FIELDS + HASH_FIELDS ::
            LoadField(f, if f in ARRAY_FIELDS then OrEmpty(s[f]) else s[f])
  {
    FieldsAre(s);
    hide LoadField, OrEmpty;
  }

  // Writing a state and loading it gives it back exactly when it is well typed.
  lemma RoundTrip(s: State, bytes: nat)
    requires HasFields(s) && 0 < bytes <= MAX_BYTES
    ensures Load(Stored(bytes, Parses(Object(Payload(s))))) == s <==> WellTyped(s)
  {
    LoadedPayload(s);
    LoadIsWellTyped(Stored(bytes, Parses(Object(Payload(s)))));
    FieldsAre(s);
    hide Payload, HasFields;
  }

  // What a state says, by the names of its fields ------------------------------------

  ghost predicate IsList(f: string) {
    f == "warnings" || f == "scenes" || f == "levels" || f == "manifold_checks"
  }

  ghost predicate IsHash(f: string) {
    f == "view_state" || f == "style_state" || f == "shadow_state" || f == "rendering_options_state"
  }

  // Empty lists, and nothing in the other fields.
  ghost predicate IsBlank(s: State) {
    forall f :: f in s ==> s[f] == if IsList(f) then Array([]) else Null
  }

  // The text is not too long and holds a hash of the version there is.
  ghost predicate IsReadable(raw: Raw) {
    && raw.Stored? && 0 < raw.bytes <= 1_000_000 && raw.parsed.Parses? && raw.parsed.value.Object?
    && "version" in raw.parsed.value.members && raw.parsed.value.members["version"] == Number(1)
  }

  // A text that cannot be read leaves a warning and nothing else. Of one that can, every
  // field is kept that is a list where a list belongs, a hash or nothing elsewhere.
  ghost predicate Tells(s: State, raw: Raw) {
    && (forall f :: f in s <==> IsList(f) || IsHash(f))
    && (raw.Missing? || raw.bytes == 0 ==> IsBlank(s))
    && (raw.Stored? && raw.bytes > 0 && !IsReadable(raw) ==>
          && s["warnings"] == Array([Object(map["type" := Text("state.sidecar_invalid")])])
          && IsBlank(s["warnings" := Array([])]))
    && (IsReadable(raw) ==> forall f :: f in s ==> s[f] == Told(f, raw.parsed.value.members))
  }

  ghost function Told(f: string, members: map<string, Json>): Json {
    if f in members && IsList(f) && members[f].Array? then members[f]
    else if f in members && IsHash(f) && members[f].Object? then members[f]
    else if IsList(f) then Array([])
    else Null
  }

  lemma LoadTells(raw: Raw)
    ensures Tells(Load(raw), raw)
  {
    LoadIsWellTyped(raw);
    FieldsAre(Load(raw));
    FieldsApart();
    forall f ensures (f in ARRAY_FIELDS <==> IsList(f)) && (f in HASH_FIELDS <==> IsHash(f)) {
      FieldsMean(f);
    }
    assert IsList("warnings");
    hide IsList, IsHash, WellTyped, HasFields;
    if IsReadable(raw) {
      FieldsTold(raw.parsed.value.members);
    } else {
      BlankTells(raw);
      hide Load, EmptyState, InvalidState, IsBlank;
    }
  }

  lemma FieldsTold(members: map<string, Json>)
    requires Member(members, "version") == Number(VERSION)
    ensures forall f :: f in LoadMembers(members) ==> LoadMembers(members)[f] == Told(f, members)
  {
    forall f | f in ARRAY_FIELDS + HASH_FIELDS ensures LoadField(f, Member(members, f)) == Told(f, members) {
      FieldsMean(f);
      FieldsApart();
    }
    hide LoadField, Told;
  }

  lemma BlankTells(raw: Raw)
    requires !IsReadable(raw)
    ensures Load(raw) == if raw.Missing? || raw.bytes == 0 then EmptyState() else InvalidState()
    ensures IsBlank(EmptyState()) && IsBlank(InvalidState()["warnings" := Array([])])
    ensures InvalidState()["warnings"] == Array([Object(map["type" := Text("state.sidecar_invalid")])])
  {
    forall f ensures f in ARRAY_FIELDS <==> IsList(f) {
      FieldsMean(f);
    }
    assert IsList("warnings");
    hide IsList;
  }

  lemma EmptyIsBlank()
    ensures IsBlank(EmptyState())
  {
    BlankTells(Missing);
  }

  // Nothing else tells the same: what is loaded is settled.
  lemma ToldOnce(s: State, t: State, raw: Raw)
    requires Tells(s, raw) && Tells(t, raw)
    ensures s == t
  {
    assert IsList("warnings");
    hide IsList, IsHash, Told;
    forall f | f in s ensures f in t && s[f] == t[f] {
      if raw.Stored? && raw.bytes > 0 && !IsReadable(raw) && f != "warnings" {
        assert s[f] == s["warnings" := Array([])][f] && t[f] == t["warnings" := Array([])][f];
      }
    }
  }

  // The attribute of a state that was written.
  ghost predicate IsWritten(raw: Raw, s: State, bytes: nat) {
    && raw.Stored? && raw.bytes == bytes && raw.parsed.Parses? && raw.parsed.value.Object?
    && var members := raw.parsed.value.members;
    && members.Keys == s.Keys + {"version"} && members["version"] == Number(1)
    && forall f :: f in s ==> f in members && members[f] == s[f]
  }

  lemma PayloadIsWritten(s: State, bytes: nat)
    requires WellTyped(s)
    ensures IsWritten(Stored(bytes, Parses(Object(Payload(s)))), s, bytes)
  {
    FieldsAre(s);
  }

  lemma FieldsMean(f: string)
    ensures f in ARRAY_FIELDS <==> IsList(f)
    ensures f in HASH_FIELDS <==> IsHash(f)
  {
    assert ARRAY_FIELDS[0] == "warnings" && ARRAY_FIELDS[1] == "scenes" && ARRAY_FIELDS[2] == "levels"
      && ARRAY_FIELDS[3] == "manifold_checks";
    assert HASH_FIELDS[0] == "view_state" && HASH_FIELDS[1] == "style_state" && HASH_FIELDS[2] == "shadow_state"
      && HASH_FIELDS[3] == "rendering_options_state";
  }

  // The changes that operations make to the state of the document they work on, and
  // how an operation that fails ends its block.
  datatype Edit = SetValue(field: string, value: Json) | Append(field: string, value: Json) | Reset | Fail(how: T.Block)

  // What operations do: hashes for hash fields, entries for lists.
  ghost predicate IsTyped(e: Edit) {
    match e
    case SetValue(f, v) => f in HASH_FIELDS && (v.Null? || v.Object?)
    case Append(f, _) => f in ARRAY_FIELDS
    case Reset => true
    case Fail(how) => !how.Yields?
  }

  function AsItems(v: Json): seq<Json> {
    if v.Array? then v.items else []
  }

  function Edited(s: State, e: Edit): State
    requires HasFields(s) && IsTyped(e)
  {
    match e
    case SetValue(f, v) => s[f := v]
    case Append(f, v) => s[f := Array(AsItems(s[f]) + [v])]
    case Reset => EmptyState()
    case Fail(_) => s
  }

  lemma EditedKeepsTypes(s: State, e: Edit)
    requires WellTyped(s) && IsTyped(e)
    ensures WellTyped(Edited(s, e)) && (e.Reset? ==> Edited(s, e) == EmptyState())
  {
    if e.Reset? {
      assert EmptyState() == Load(Missing);
      LoadIsWellTyped(Missing);
    } else if !e.Fail? {
      assert Edited(s, e).Keys == s.Keys;
    }
  }

  // The state after all edits; one that fails changes nothing.
  ghost function AllEdited(s: State, edits: seq<Edit>): (r: State)
    requires WellTyped(s) && forall e :: e in edits ==> IsTyped(e)
    ensures WellTyped(r)
    decreases edits
  {
    if edits == [] then s
    else
      EditedKeepsTypes(s, edits[|edits| - 1]);
      EditedKeepsTypes(AllEdited(s, edits[..|edits| - 1]), edits[|edits| - 1]);
      Edited(AllEdited(s, edits[..|edits| - 1]), edits[|edits| - 1])
  }

  // What is appended to a list, in turn.
  ghost function Appended(edits: seq<Edit>, f: string): seq<Json> {
    if edits == [] then []
    else (if edits[0].Append? && edits[0].field == f then [edits[0].value] else []) + Appended(edits[1..], f)
  }

  // What is set last, if anything is.
  ghost function LastSet(value: Json, edits: seq<Edit>, f: string): Json {
    if edits == [] then value
    else if edits[|edits| - 1].SetValue? && edits[|edits| - 1].field == f then edits[|edits| - 1].value
    else LastSet(value, edits[..|edits| - 1], f)
  }

  lemma {:induction false} AppendedLast(edits: seq<Edit>, e: Edit, f: string)
    ensures Appended(edits + [e], f) == Appended(edits, f) + if e.Append? && e.field == f then [e.value] else []
  {
    if edits != [] {
      AppendedLast(edits[1..], e, f);
      assert (edits + [e])[1..] == edits[1..] + [e];
    }
  }

  lemma TypeMeans(s: State, f: string)
    requires WellTyped(s) && f in s
    ensures IsList(f) <==> s[f].Array?
    ensures IsHash(f) <==> s[f].Null? || s[f].Object?
  {
    FieldsAre(s);
    FieldsMean(f);
    FieldsApart();
    hide IsList, IsHash;
  }

  lemma EditTells(s: State, e: Edit, f: string)
    requires WellTyped(s) && IsTyped(e) && !e.Reset? && f in s
    ensures f in Edited(s, e) && (IsList(f) <==> s[f].Array?)
    ensures Edited(s, e)[f] ==
            if e.Append? && e.field == f then Array(s[f].items + [e.value])
            else if e.SetValue? && e.field == f then e.value
            else s[f]
    ensures e.Append? && e.field == f ==> IsList(f)
    ensures e.SetValue? && e.field == f ==> IsHash(f)
  {
    TypeMeans(s, f);
    FieldsMean(f);
    hide IsList, IsHash, WellTyped;
  }

  lemma LastEdit(s: State, edits: seq<Edit>)
    requires WellTyped(s) && (forall e :: e in edits ==> IsTyped(e)) && edits != []
    ensures var front, last := edits[..|edits| - 1], edits[|edits| - 1];
            && WellTyped(AllEdited(s, front)) && IsTyped(last)
            && AllEdited(s, edits) == Edited(AllEdited(s, front), last) && edits == front + [last]
  {
  }

  // Unless they reset the state, edits add to lists in turn and leave the last value in
  // the other fields.
  lemma {:induction false} EditsTell(s: State, edits: seq<Edit>, f: string)
    requires WellTyped(s) && (forall e :: e in edits ==> IsTyped(e) && !e.Reset?) && f in s
    ensures f in AllEdited(s, edits)
    ensures IsList(f) ==> s[f].Array? && AllEdited(s, edits)[f] == Array(s[f].items + Appended(edits, f))
    ensures IsHash(f) ==> AllEdited(s, edits)[f] == LastSet(s[f], edits, f)
  {
    hide WellTyped, IsTyped, AllEdited, Edited, IsList, IsHash, Appended;
    TypeMeans(s, f);
    if edits == [] {
      AllEditedStarts(s);
      NothingAppended(f);
    } else {
      var front, last := edits[..|edits| - 1], edits[|edits| - 1];
      LastEdit(s, edits);
      assert forall e :: e in front ==> e in edits;
      EditsTell(s, front, f);
      EditTells(AllEdited(s, front), last, f);
      AppendedLast(front, last, f);
    }
  }

  lemma NothingAppended(f: string)
    ensures Appended([], f) == []
  {
  }

  // A reset forgets everything before it.
  lemma {:induction false} ResetForgets(s: State, before: seq<Edit>, edits: seq<Edit>)
    requires WellTyped(s) && WellTyped(EmptyState()) && forall e :: e in before + [Reset] + edits ==> IsTyped(e)
    ensures forall e :: e in edits ==> IsTyped(e)
    ensures AllEdited(s, before + [Reset] + edits) == AllEdited(EmptyState(), edits)
    decreases |edits|
  {
    hide WellTyped, IsTyped, EmptyState, AllEdited;
    var all := before + [Reset] + edits;
    assert forall i :: 0 <= i < |edits| ==> all[|before| + 1 + i] == edits[i];
    LastEdit(s, all);
    if edits == [] {
      assert all == before + [Reset];
      AllEditedStarts(EmptyState());
    } else {
      var front, last := edits[..|edits| - 1], edits[|edits| - 1];
      LastEdit(EmptyState(), edits);
      assert all[..|all| - 1] == before + [Reset] + front && all[|all| - 1] == last;
      ResetForgets(s, before, front);
    }
  }

  // How many edits come before the first that fails.
  function FailAt(edits: seq<Edit>): (i: nat)
    ensures i <= |edits| && (i < |edits| ==> edits[i].Fail?)
    ensures forall j :: 0 <= j < i ==> !edits[j].Fail?
  {
    if edits == [] || edits[0].Fail? then 0 else 1 + FailAt(edits[1..])
  }

  // One build: how the check of the creation scope fails, if it does, the edits of its
  // operations, the length of the text of the state they lead to, and how the block
  // ends once that is written.
  datatype Job = Job(scope: Option<T.Block>, edits: seq<Edit>, bytes: nat, ending: T.Block)

  ghost predicate IsJob(job: Job) {
    && (job.scope.Some? ==> !job.scope.value.Yields?) && (forall e :: e in job.edits ==> IsTyped(e)) && 0 < job.bytes
  }

  ghost predicate Persists(job: Job) {
    job.scope.None? && FailAt(job.edits) == |job.edits| && job.bytes <= MAX_BYTES
  }

  // How the block of a build ends.
  function BlockOf(job: Job): T.Block {
    if job.scope.Some? then job.scope.value
    else if FailAt(job.edits) < |job.edits| then job.edits[FailAt(job.edits)].how
    else if job.bytes > MAX_BYTES then T.RaisesOther
    else job.ending
  }

  // What a build makes of a document: its state without warnings, edited.
  ghost function Built(raw: Raw, job: Job): State
    requires IsJob(job)
  {
    LoadIsWellTyped(raw);
    BuiltKeepsTypes(Load(raw));
    AllEdited(Load(raw)["warnings" := Array([])], job.edits[..FailAt(job.edits)])
  }

  // Stopping the block where it stops leaves no change of the state that is not
  // written: none was made yet, or it has been written, or it comes to nothing.
  ghost predicate LeavesNoTrace(raw: Raw, job: Job)
    requires IsJob(job)
  {
    job.scope.Some? || Persists(job) || Built(raw, job) == Load(raw)
  }

  // Keys in the order in which they were stored --------------------------------

  ghost function Newest(order: seq<string>): seq<string> {
    if |order| <= CACHE_LIMIT then order else order[|order| - CACHE_LIMIT..]
  }

  lemma NewestMeans(all: seq<string>)
    ensures Newest(all) == if |all| <= 16 then all else all[|all| - 16..]
  {
  }

  ghost function Kept(states: map<string, State>, order: seq<string>): map<string, State> {
    map k | k in states && k in order :: states[k]
  }

  lemma OneExpires(states: map<string, State>, all: seq<string>, dropped: nat)
    requires dropped < |all| && Distinct(all)
    ensures Kept(states, all[dropped..]) - {all[dropped]} == Kept(states, all[dropped + 1..])
    ensures all[dropped..][0] == all[dropped] && all[dropped..][1..] == all[dropped + 1..]
  {
    assert all[dropped..] == [all[dropped]] + all[dropped + 1..];
    assert all[dropped] !in all[dropped + 1..];
  }

  // The keys of the cache are the keys in order, each once, and not too many.
  ghost predicate WellOrdered(states: map<string, State>, order: seq<string>) {
    Distinct(order) && states.Keys == AsSet(order) && |order| <= CACHE_LIMIT
  }

  // The cache after the key was moved to the end.
  lemma Touched(states: map<string, State>, order: seq<string>, key: string)
    requires Distinct(order) && states.Keys == AsSet(order) + {key}
    ensures var touched := Newest(Without(order, key) + [key]);
      key in touched && WellOrdered(Kept(states, touched), touched) && key in Kept(states, touched)
  {
    WithoutIsDistinct(order, key);
    var all := Without(order, key) + [key];
    var touched := Newest(all);
    assert touched[|touched| - 1] == key;
    forall k | k in touched ensures k in Kept(states, touched) {
      assert k in all;
      assert k in AsSet(order) + {key};
    }
  }

  lemma NewestIsLeft(all: seq<string>, dropped: nat)
    requires dropped <= |all| && |all| - dropped <= CACHE_LIMIT && (dropped > 0 ==> |all| - dropped >= CACHE_LIMIT)
    ensures all[dropped..] == Newest(all)
  {
  }

  lemma MovedToTheEnd(states: map<string, State>, order: seq<string>, key: string)
    requires Distinct(order) && states.Keys == AsSet(order) + {key}
    ensures Distinct(Without(order, key) + [key]) && states == Kept(states, Without(order, key) + [key])
    ensures var touched := Newest(Without(order, key) + [key]);
      WellOrdered(Kept(states, touched), touched) && key in Kept(states, touched)
  {
    WithoutIsDistinct(order, key);
    Touched(states, order, key);
    hide Newest, WellOrdered;
    var all := Without(order, key) + [key];
    forall k | k in states ensures k in all {
      assert k in AsSet(order) + {key};
    }
  }

  lemma Discarded(states: map<string, State>, order: seq<string>, key: string)
    requires WellOrdered(states, order)
    ensures WellOrdered(states - {key}, Without(order, key))
  {
    WithoutIsDistinct(order, key);
    assert (states - {key}).Keys == AsSet(Without(order, key));
  }

  class Bridge {
    var states: map<string, State>
    var order: seq<string>
    // The attributes of the documents, by the identity of the document.
    var attributes: map<string, Raw>

    ghost predicate Valid()
      reads this
    {
      WellOrdered(states, order) && forall k :: k in states ==> k in attributes && WellTyped(states[k])
    }

    // Every cached state is what loading the attribute would give.
    ghost predicate Coherent()
      reads this
    {
      forall k :: k in states ==> k in attributes && states[k] == Load(attributes[k])
    }

    constructor (documents: map<string, Raw>)
      ensures Valid() && Coherent() && attributes == documents && states == map[]
    {
      states, order, attributes := map[], [], documents;
    }

    // Moves the key to the end, and drops the oldest keys while there are too many.
    method TouchDocumentStateCache(key: string)
      requires Distinct(order) && states.Keys == AsSet(order) + {key}
      modifies `order, `states
      ensures order == Newest(Without(old(order), key) + [key]) && states == Kept(old(states), order)
      ensures WellOrdered(states, order) && key in states
    {
      MovedToTheEnd(states, order, key);
      hide *;
      order := Without(order, key) + [key];
      ExpireOldest(order);
    }

    method ExpireOldest(ghost all: seq<string>)
      requires order == all && Distinct(all) && states == Kept(states, all)
      modifies `order, `states
      ensures order == Newest(all) && states == Kept(old(states), order)
    {
      hide Kept, Distinct, Newest;
      ghost var dropped := 0;
      while |order| > CACHE_LIMIT
        invariant 0 <= dropped <= |all| && order == all[dropped..]
        invariant dropped > 0 ==> |order| >= CACHE_LIMIT
        invariant states == Kept(old(states), all[dropped..])
      {
        var expired := order[0];
        OneExpires(old(states), all, dropped);
        states := states - {expired};
        order := order[1..];
        dropped := dropped + 1;
      }
      NewestIsLeft(all, dropped);
    }

    method DocumentState(key: string) returns (state: State)
      requires Valid() && Coherent() && key in attributes
      modifies `order, `states
      ensures Valid() && Coherent() && key in states && states[key] == state
      ensures state == Load(attributes[key]) && Tells(state, attributes[key])
      ensures key in old(states) ==> states == old(states) && order == old(order)
      ensures key !in old(states) ==>
                order == Newest(Without(old(order), key) + [key]) && states == Kept(old(states)[key := state], order)
    {
      hide WellTyped, Load, Newest, Without, Tells;
      LoadTells(attributes[key]);
      if key in states {
        return states[key];
      }
      state := Load(attributes[key]);
      LoadIsWellTyped(attributes[key]);
      states := states[key := state];
      TouchDocumentStateCache(key);
    }

    // An empty state for the document, in the cache only.
    method ResetDocumentState(key: string)
      requires Valid() && key in attributes
      modifies `order, `states
      ensures Valid() && key in states && states[key] == EmptyState() && IsBlank(states[key])
      ensures order == Newest(Without(old(order), key) + [key])
              && states == Kept(old(states)[key := EmptyState()], order)
    {
      hide WellTyped, EmptyState, Newest, Without, IsBlank;
      EmptyIsWellTyped();
      EmptyIsBlank();
      states := states[key := EmptyState()];
      assert states.Keys == AsSet(order) + {key};
      TouchDocumentStateCache(key);
    }

    method DiscardDocumentStateCache(key: string)
      requires Valid()
      modifies `order, `states
      ensures Valid() && states == old(states) - {key} && order == Without(old(order), key)
    {
      hide WellTyped;
      Discarded(states, order, key);
      states := states - {key};
      order := Without(order, key);
    }

    // Writes what the cache holds for the document; bytes is the length of the text.
    method PersistDocumentState(key: string, bytes: nat) returns (persisted: bool)
      requires Valid() && key in states && 0 < bytes
      modifies `attributes
      ensures Valid() && attributes.Keys == old(attributes).Keys && (persisted <==> bytes <= 1_000_000)
      ensures persisted ==> Load(attributes[key]) == states[key] && IsWritten(attributes[key], states[key], bytes)
      ensures forall k :: k in attributes && (k != key || !persisted) ==> attributes[k] == old(attributes)[k]
    {
      if bytes > MAX_BYTES {
        return false;
      }
      hide IsWritten;
      RoundTrip(states[key], bytes);
      PayloadIsWritten(states[key], bytes);
      attributes := attributes[key := Stored(bytes, Parses(Object(Payload(states[key]))))];
      persisted := true;
    }

    // Changes the cached state of a document in place.
    method ChangeState(key: string, state: State)
      requires Valid() && key in states && WellTyped(state)
      modifies `states
      ensures Valid() && states == old(states)[key := state]
    {
      hide WellTyped, WellOrdered;
      SameKeys(states, states[key := state], order);
      states := states[key := state];
    }

    // One edit of one operation.
    method ApplyEdit(key: string, e: Edit)
      requires Valid() && key in states && IsTyped(e) && !e.Fail?
      modifies `order, `states
      ensures Valid() && key in states && WellTyped(old(states)[key]) && states[key] == Edited(old(states)[key], e)
      ensures forall k :: k in states && k != key ==> k in old(states) && states[k] == old(states)[k]
    {
      hide WellOrdered, EmptyState, Edited, Newest, Without, IsTyped, IsBlank, HasFields, IsList;
      assert WellTyped(states[key]) && HasFields(states[key]);
      hide WellTyped;
      EditedKeepsTypes(states[key], e);
      if e.Reset? {
        ResetDocumentState(key);
      } else {
        ChangeState(key, Edited(states[key], e));
      }
    }

    // The edits of the operations of one build, up to one that fails.
    method ApplyEdits(key: string, edits: seq<Edit>) returns (failed: Option<T.Block>)
      requires Valid() && key in states && (forall e :: e in edits ==> IsTyped(e))
      modifies `order, `states
      ensures Valid() && key in states && WellTyped(old(states)[key])
      ensures failed == if FailAt(edits) < |edits| then Some(edits[FailAt(edits)].how) else None
      ensures states[key] == AllEdited(old(states)[key], edits[..FailAt(edits)])
      ensures forall k :: k in states && k != key ==> k in old(states) && states[k] == old(states)[k]
    {
      hide WellTyped, WellOrdered, IsTyped, Edited, AllEdited, FailAt;
      var i := 0;
      AllEditedStarts(states[key]);
      while i < |edits|
        invariant 0 <= i <= FailAt(edits) && Valid() && key in states
        invariant states[key] == AllEdited(old(states)[key], edits[..i])
        invariant forall k :: k in states && k != key ==> k in old(states) && states[k] == old(states)[k]
      {
        if edits[i].Fail? {
          return Some(edits[i].how);
        }
        AllEditedGoesOn(old(states)[key], edits, i);
        ApplyEdit(key, edits[i]);
        i := i + 1;
      }
      failed := None;
    }

    // The work of a build inside its transaction.
    method BuildBlock(key: string, job: Job) returns (block: T.Block)
      requires Valid() && Coherent() && key in attributes && IsJob(job)
      modifies this
      ensures Valid() && attributes.Keys == old(attributes).Keys && block == BlockOf(job)
      ensures forall k :: k in attributes && k != key ==> attributes[k] == old(attributes)[k]
      ensures forall k :: k in states && k != key ==> states[k] == Load(attributes[k])
      ensures key in states ==> (states[key] == Load(attributes[key]) <==> LeavesNoTrace(old(attributes)[key], job))
      ensures key !in states ==> LeavesNoTrace(old(attributes)[key], job)
      ensures if Persists(job) then Load(attributes[key]) == Built(old(attributes)[key], job)
              else attributes == old(attributes)
    {
      hide WellTyped, WellOrdered, Load, IsTyped, AllEdited, FailAt;
      if job.scope.Some? {
        return job.scope.value;
      }
      var state := DocumentState(key);
      BuiltKeepsTypes(state);
      ChangeState(key, state["warnings" := Array([])]);
      var failed := ApplyEdits(key, job.edits);
      if failed.Some? {
        return failed.value;
      }
      var persisted := PersistDocumentState(key, job.bytes);
      block := if persisted then job.ending else T.RaisesOther;
    }

    // One build of a document, in a transaction of its model. Unless the block is left
    // by what the wrapper does not rescue, nothing stays in the cache that the
    // attribute does not say; if it is, exactly when stopping there leaves no trace.
    // What a build leaves does not depend on what was cached before it.
    method BuildModel(host: T.NativeModel, key: string, job: Job, finalizes: bool) returns (outcome: T.Outcome)
      requires Valid() && Coherent() && key in attributes && IsJob(job)
      requires host.fate == T.Untouched && host.calls == []
      modifies this, host
      ensures Valid() && attributes.Keys == old(attributes).Keys
      ensures T.Settled(host.calls, host.fate, BlockOf(job), finalizes, outcome)
      ensures Coherent() <==> !outcome.Escaped? || LeavesNoTrace(old(attributes)[key], job)
      ensures outcome.Failed? ==> key !in states
      ensures outcome.Returned? ==> Load(attributes[key]) == Built(old(attributes)[key], job)
      ensures forall k :: k in attributes && (k != key || !Persists(job) || host.fate == T.RolledBack) ==>
                attributes[k] == old(attributes)[k]
      ensures attributes[key] == old(attributes)[key] || Load(attributes[key]) == Built(old(attributes)[key], job)
    {
      hide WellTyped, WellOrdered, Load, IsTyped, Built, FailAt, T.Settled, LeavesNoTrace, BlockOf, Persists, IsJob;
      PersistingLeavesNoTrace(attributes[key], job);
      var before := attributes[key];
      var block := BlockOf(job);
      var startReply := host.StartOperation();
      if startReply.Confirms? {
        block := BuildBlock(key, job);
      }
      var wrapper := new T.Bridge(key in states);
      outcome := wrapper.Conclude(host, startReply, block, finalizes);
      T.HowItSettles(host.calls, host.fate, block, finalizes, outcome);
      if host.fate == T.RolledBack {
        attributes := attributes[key := before];
      }
      if !wrapper.cached {
        DiscardDocumentStateCache(key);
      }
    }
  }

  lemma PersistingLeavesNoTrace(raw: Raw, job: Job)
    requires IsJob(job)
    ensures BlockOf(job).Yields? ==> Persists(job)
    ensures Persists(job) ==> LeavesNoTrace(raw, job)
  {
    hide Built;
    assert FailAt(job.edits) < |job.edits| ==> job.edits[FailAt(job.edits)] in job.edits;
  }

  lemma SameKeys(states: map<string, State>, others: map<string, State>, order: seq<string>)
    requires WellOrdered(states, order) && others.Keys == states.Keys
    ensures WellOrdered(others, order)
  {
  }

  lemma AllEditedStarts(s: State)
    requires WellTyped(s)
    ensures AllEdited(s, []) == s
  {
  }

  lemma AllEditedGoesOn(s: State, edits: seq<Edit>, i: nat)
    requires WellTyped(s) && (forall e :: e in edits ==> IsTyped(e)) && i < |edits|
    ensures WellTyped(AllEdited(s, edits[..i])) && IsTyped(edits[i])
    ensures AllEdited(s, edits[..i + 1]) == Edited(AllEdited(s, edits[..i]), edits[i])
  {
    assert edits[..i + 1][..i] == edits[..i];
  }

  lemma BuiltKeepsTypes(s: State)
    requires WellTyped(s)
    ensures WellTyped(s["warnings" := Array([])])
  {
    WarningIsWellTyped(s, []);
  }
}
