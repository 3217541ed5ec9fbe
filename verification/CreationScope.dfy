// Documents that may only create: what the scope of a document lets its operations
// do, and what carrying them out does to the graph of component definitions.
module CreationScope {
  import opened Lists

  // Operations on the definition graph. Plain geometry has no reference to a
  // definition; not all of it can be made inside one.
  datatype Op =
    | Definition(name: string, content: Content)
    | Instance(id: string, definition: string)
    | Geometry(id: string, nestable: bool)
    | Forbidden

  datatype Content = StandardBox | Operations(ops: seq<Op>)

  datatype Entity = Leaf(id: string) | Placed(id: string, definition: string)

  type Definitions = map<string, seq<Entity>>

  // What the document says of itself, and whether the revision it names is the model's.
  datatype References = NoReferences | References(names: seq<string>, revisionMatches: bool)

  datatype Scope = Scope(namespace: string, references: References, definitions: seq<string>)

  ghost function Reused(s: Scope): seq<string> {
    if s.references.NoReferences? then [] else s.references.names
  }

  // The graph -------------------------------------------------------------------

  ghost predicate RefersTo(entities: seq<Entity>, name: string) {
    exists k :: 0 <= k < |entities| && entities[k].Placed? && entities[k].definition == name
  }

  // Instances are of definitions there are.
  ghost predicate Closed(defs: Definitions) {
    forall d, name :: d in defs && RefersTo(defs[d], name) ==> name in defs
  }

  // Every definition of the walk has an instance of the next one.
  ghost predicate IsWalk(defs: Definitions, walk: seq<string>) {
    && (forall i :: 0 <= i < |walk| ==> walk[i] in defs)
    && forall i :: 0 <= i < |walk| - 1 ==> RefersTo(defs[walk[i]], walk[i + 1])
  }

  ghost predicate Acyclic(defs: Definitions) {
    forall walk: seq<string> :: IsWalk(defs, walk) && |walk| > 1 ==> walk[0] != walk[|walk| - 1]
  }

  // A new definition that refers to definitions there were closes no cycle.
  lemma NewDefinition(defs: Definitions, name: string, entities: seq<Entity>)
    requires Closed(defs) && Acyclic(defs) && name !in defs
    requires forall other :: RefersTo(entities, other) ==> other in defs
    ensures Closed(defs[name := entities]) && Acyclic(defs[name := entities])
  {
    var more := defs[name := entities];
    hide RefersTo;
    forall walk: seq<string> | IsWalk(more, walk) && |walk| > 1 ensures walk[0] != walk[|walk| - 1] {
      forall i | 1 <= i < |walk| ensures walk[i] != name {
        assert RefersTo(more[walk[i - 1]], walk[i - 1 + 1]);
      }
      if walk[0] != name {
        assert IsWalk(defs, walk);
      }
    }
  }

  // The rules -------------------------------------------------------------------

  // The definitions that a list of operations declares, and the ids it gives.
  ghost function DeclaredIn(ops: seq<Op>): seq<string> {
    if ops == [] then []
    else
      var last := ops[|ops| - 1];
      DeclaredIn(ops[..|ops| - 1]) + if last.Definition? then [last.name] else []
  }

  ghost function IdsIn(ops: seq<Op>): seq<string> {
    if ops == [] then []
    else
      var last := ops[|ops| - 1];
      IdsIn(ops[..|ops| - 1]) + if last.Instance? || last.Geometry? then [last.id] else []
  }

  datatype Rules = Rules(namespace: string, reused: seq<string>, existing: set<string>)

  // An operation is accepted after others: definitions are new, at the top and of the
  // document's own namespace, instances are of definitions declared before or reused.
  ghost predicate OpAccepted(r: Rules, declared: seq<string>, ids: seq<string>, op: Op, nested: bool)
    decreases op, 1
  {
    match op
    case Definition(_, _) => DefinitionAccepted(r, declared, op, nested)
    case Instance(id, definition) =>
      (definition in declared || definition in r.reused) && r.namespace <= id && id !in ids
    case Geometry(id, _) => r.namespace <= id && id !in ids
    case Forbidden => false
  }

  ghost predicate DefinitionAccepted(r: Rules, declared: seq<string>, op: Op, nested: bool)
    requires op.Definition?
    decreases op, 0
  {
    && !nested && r.namespace <= op.name && op.name !in declared && op.name !in r.reused && op.name !in r.existing
    && (op.content.Operations? ==> ListAccepted(r, declared, op.content.ops, true))
  }

  ghost predicate ListAccepted(r: Rules, declared: seq<string>, ops: seq<Op>, nested: bool)
    decreases ops, 1
  {
    forall k :: 0 <= k < |ops| ==> OpAccepted(r, declared + DeclaredIn(ops[..k]), IdsIn(ops[..k]), ops[k], nested)
  }

  // The reused definitions that operations refer to.
  ghost function UsedByOp(r: Rules, op: Op): set<string>
    decreases op, 0
  {
    match op
    case Definition(_, content) => if content.Operations? then UsedBy(r, content.ops) else {}
    case Instance(_, definition) => if definition in r.reused then {definition} else {}
    case Geometry(_, _) => {}
    case Forbidden => {}
  }

  ghost function UsedBy(r: Rules, ops: seq<Op>): set<string>
    decreases ops, 1
  {
    set k, name | 0 <= k < |ops| && name in UsedByOp(r, ops[k]) :: name
  }

  ghost predicate ReferencesAccepted(s: Scope, existing: set<string>) {
    s.references.References? ==>
      && s.references.names != [] && Distinct(s.references.names) && s.references.revisionMatches
      && forall k :: 0 <= k < |s.references.names| ==> s.references.names[k] != "" && s.references.names[k] in existing
  }

  ghost predicate Accepted(s: Scope, existing: set<string>, ops: seq<Op>) {
    var r := Rules(s.namespace, Reused(s), existing);
    && ReferencesAccepted(s, existing) && ListAccepted(r, [], ops, false)
    && (forall k :: 0 <= k < |r.reused| ==> r.reused[k] in UsedBy(r, ops))
    && DeclaredIn(ops) == s.definitions
  }

  lemma AcceptedStep(r: Rules, declared: seq<string>, ops: seq<Op>, k: nat, nested: bool)
    requires k < |ops| && ListAccepted(r, declared, ops[..k], nested)
    ensures ListAccepted(r, declared, ops[..k + 1], nested) <==>
            OpAccepted(r, declared + DeclaredIn(ops[..k]), IdsIn(ops[..k]), ops[k], nested)
    ensures ListAccepted(r, declared, ops, nested) ==>
              OpAccepted(r, declared + DeclaredIn(ops[..k]), IdsIn(ops[..k]), ops[k], nested)
  {
    hide OpAccepted, DeclaredIn, IdsIn;
    forall j | 0 <= j <= k ensures ops[..k + 1][..j] == ops[..j] && (j < k ==> ops[..k][..j] == ops[..j]) {
    }
    assert forall j :: 0 <= j < k ==> ops[..k][j] == ops[j];
  }

  lemma UsedStep(r: Rules, ops: seq<Op>, k: nat)
    requires k < |ops|
    ensures UsedBy(r, ops[..k + 1]) == UsedBy(r, ops[..k]) + UsedByOp(r, ops[k])
  {
    hide UsedByOp;
    var more, fewer := ops[..k + 1], ops[..k];
    assert more[k] == ops[k] && forall j :: 0 <= j < k ==> more[j] == fewer[j];
  }

  lemma DeclaredStep(ops: seq<Op>, k: nat)
    requires k < |ops|
    ensures DeclaredIn(ops[..k + 1]) == DeclaredIn(ops[..k]) + if ops[k].Definition? then [ops[k].name] else []
    ensures IdsIn(ops[..k + 1]) == IdsIn(ops[..k]) + if ops[k].Instance? || ops[k].Geometry? then [ops[k].id] else []
  {
    assert ops[..k + 1][..k] == ops[..k];
  }

  lemma NestedIsNoDefinition(r: Rules, declared: seq<string>, ids: seq<string>, op: Op)
    requires OpAccepted(r, declared, ids, op, true)
    ensures !op.Definition?
  {
  }

  lemma {:induction false} NestedDeclareNothing(r: Rules, declared: seq<string>, ops: seq<Op>)
    requires ListAccepted(r, declared, ops, true)
    ensures DeclaredIn(ops) == []
  {
    if ops != [] {
      var n := |ops| - 1;
      assert OpAccepted(r, declared + DeclaredIn(ops[..n]), IdsIn(ops[..n]), ops[n], true);
      NestedIsNoDefinition(r, declared + DeclaredIn(ops[..n]), IdsIn(ops[..n]), ops[n]);
      AcceptedPrefix(r, declared, ops, n, true);
      NestedDeclareNothing(r, declared, ops[..n]);
    }
  }

  lemma AcceptedPrefix(r: Rules, declared: seq<string>, ops: seq<Op>, n: nat, nested: bool)
    requires ListAccepted(r, declared, ops, nested) && n <= |ops|
    ensures ListAccepted(r, declared, ops[..n], nested)
  {
    hide OpAccepted, DeclaredIn, IdsIn;
    forall j | 0 <= j < n ensures ops[..n][..j] == ops[..j] {
    }
  }

  // No definition that is declared is one that is reused.
  ghost predicate Apart(r: Rules, declared: seq<string>) {
    forall i :: 0 <= i < |declared| ==> declared[i] !in r.reused
  }

  // The validator: one pass over the document, nested lists included.
  class Validator {
    const rules: Rules
    var definitions: seq<string>
    var usedReferences: set<string>

    constructor (r: Rules)
      ensures rules == r && definitions == [] && usedReferences == {}
    {
      rules, definitions, usedReferences := r, [], {};
    }

    method VisitDefinition(op: Op, nested: bool) returns (accepted: bool)
      requires op.Definition? && Apart(rules, definitions)
      modifies this
      ensures accepted <==> DefinitionAccepted(rules, old(definitions), op, nested)
      ensures accepted ==> definitions == old(definitions) + [op.name] && Apart(rules, definitions)
      ensures accepted ==> usedReferences == old(usedReferences) + UsedByOp(rules, op)
      decreases op, 0
    {
      var name := op.name;
      if nested || !(rules.namespace <= name) || name in definitions || name in rules.reused || name in rules.existing {
        return false;
      }
      if op.content.Operations? {
        var inner := Visit(op.content.ops, true);
        if !inner {
            return false;
        }
        NestedDeclareNothing(rules, old(definitions), op.content.ops);
      }
      definitions := definitions + [name];
      accepted := true;
    }

    method Visit(ops: seq<Op>, nested: bool) returns (accepted: bool)
      requires Apart(rules, definitions)
      modifies this
      ensures accepted <==> ListAccepted(rules, old(definitions), ops, nested)
      ensures accepted ==> definitions == old(definitions) + DeclaredIn(ops) && Apart(rules, definitions)
      ensures accepted ==> usedReferences == old(usedReferences) + UsedBy(rules, ops)
      decreases ops, 1
    {
      hide ListAccepted, UsedBy, DeclaredIn, IdsIn;
      var objects: seq<string> := [];
      NothingVisited(rules, definitions, ops, nested);
      for k := 0 to |ops|
        invariant objects == IdsIn(ops[..k]) && definitions == old(definitions) + DeclaredIn(ops[..k])
        invariant Apart(rules, definitions) && usedReferences == old(usedReferences) + UsedBy(rules, ops[..k])
        invariant ListAccepted(rules, old(definitions), ops[..k], nested)
      {
        AcceptedStep(rules, old(definitions), ops, k, nested);
        UsedStep(rules, ops, k);
        DeclaredStep(ops, k);
        var op := ops[k];
        if op.Definition? {
          var isNew := VisitDefinition(op, nested);
          if !isNew {
            return false;
          }
        } else if op.Forbidden? {
          return false;
        } else {
          if op.Instance? && op.definition !in definitions {
            if op.definition !in rules.reused {
              return false;
            }
            usedReferences := usedReferences + {op.definition};
          }
          if !(rules.namespace <= op.id) || op.id in objects {
            return false;
          }
          objects := objects + [op.id];
        }
      }
      assert ops[..|ops|] == ops;
      accepted := true;
    }
  }

  lemma NothingVisited(r: Rules, declared: seq<string>, ops: seq<Op>, nested: bool)
    ensures ListAccepted(r, declared, ops[..0], nested) && UsedBy(r, ops[..0]) == {} && DeclaredIn(ops[..0]) == []
    ensures IdsIn(ops[..0]) == []
  {
  }

  method ReferencesOk(s: Scope, existing: set<string>) returns (ok: bool)
    ensures ok <==> ReferencesAccepted(s, existing)
  {
    if s.references.NoReferences? {
      return true;
    }
    var names := s.references.names;
    ok := names != [] && s.references.revisionMatches;
    for i := 0 to |names|
      invariant ok <==> names != [] && s.references.revisionMatches && Distinct(names[..i])
                        && forall k :: 0 <= k < i ==> names[k] != "" && names[k] in existing
    {
      ok := ok && names[i] != "" && names[i] in existing && names[i] !in names[..i];
    }
    assert names[..|names|] == names;
  }

  method ValidateCreationScope(s: Scope, existing: set<string>, ops: seq<Op>) returns (accepted: bool)
    ensures accepted <==> Accepted(s, existing, ops)
  {
    hide ReferencesAccepted, ListAccepted, UsedBy, DeclaredIn;
    var ok := ReferencesOk(s, existing);
    if !ok {
      return false;
    }
    var reused: seq<string> := if s.references.References? then s.references.names else [];
    var rules := Rules(s.namespace, reused, existing);
    var validator := new Validator(rules);
    accepted := validator.Visit(ops, false);
    if accepted {
      for i := 0 to |rules.reused|
        invariant accepted <==> forall k :: 0 <= k < i ==> rules.reused[k] in UsedBy(rules, ops)
      {
        accepted := accepted && rules.reused[i] in validator.usedReferences;
      }
      accepted := accepted && validator.definitions == s.definitions;
    }
  }

  // Carrying out ----------------------------------------------------------------

  ghost function EntityOf(op: Op): Entity
    requires op.Instance? || op.Geometry?
  {
    match op
    case Instance(id, definition) => Placed(id, definition)
    case Geometry(id, _) => Leaf(id)
  }

  // The entities that a list of operations adds to the list it works on.
  ghost function EntitiesOf(ops: seq<Op>): seq<Entity> {
    if ops == [] then []
    else
      var last := ops[|ops| - 1];
      EntitiesOf(ops[..|ops| - 1]) + if last.Instance? || last.Geometry? then [EntityOf(last)] else []
  }

  ghost function ContentOf(op: Op): seq<Entity>
    requires op.Definition?
  {
    if op.content.StandardBox? then [Leaf(op.name + "_Geometry")] else EntitiesOf(op.content.ops)
  }

  ghost function WithDefinitions(defs: Definitions, ops: seq<Op>): Definitions {
    if ops == [] then defs
    else
      var last := ops[|ops| - 1];
      var before := WithDefinitions(defs, ops[..|ops| - 1]);
      if last.Definition? then before[last.name := ContentOf(last)] else before
  }

  // Geometry inside a definition is of a kind that can be made there.
  ghost predicate Makeable(op: Op) {
    op.Definition? && op.content.Operations? ==> forall k :: 0 <= k < |op.content.ops| ==> IsMakeable(op.content.ops[k])
  }

  ghost predicate IsMakeable(op: Op) {
    op.Instance? || (op.Geometry? && op.nestable)
  }

  lemma NoEntities(ops: seq<Op>)
    ensures EntitiesOf(ops[..0]) == []
  {
  }

  lemma EntitiesStep(ops: seq<Op>, k: nat)
    requires k < |ops|
    ensures EntitiesOf(ops[..k + 1])
         == EntitiesOf(ops[..k]) + if ops[k].Instance? || ops[k].Geometry? then [EntityOf(ops[k])] else []
  {
    assert ops[..k + 1][..k] == ops[..k];
  }

  class Model {
    var definitions: Definitions
    var root: seq<Entity>

    constructor (d: Definitions, r: seq<Entity>)
      ensures definitions == d && root == r
    {
      definitions, root := d, r;
    }

    // An instance in the model or in a definition; its definition is looked up first.
    method AddComponentInstance(op: Op, inDefinition: bool, owner: string) returns (done: bool)
      requires op.Instance? && (inDefinition ==> owner in definitions)
      modifies this
      ensures done <==> op.definition in old(definitions)
      ensures done && !inDefinition ==> definitions == old(definitions) && root == old(root) + [EntityOf(op)]
      ensures done && inDefinition ==>
                root == old(root) && definitions == old(definitions)[owner := old(definitions)[owner] + [EntityOf(op)]]
      ensures !done ==> definitions == old(definitions) && root == old(root)
    {
      if op.definition !in definitions {
        return false;
      }
      if inDefinition {
        definitions := definitions[owner := definitions[owner] + [Placed(op.id, op.definition)]];
      } else {
        root := root + [Placed(op.id, op.definition)];
      }
      done := true;
    }

    // A definition of that name is emptied, or made, and filled by its operations.
    method AddComponentDefinition(op: Op) returns (done: bool)
      requires op.Definition?
      requires op.content.Operations? ==> forall k :: 0 <= k < |op.content.ops| && op.content.ops[k].Instance? ==>
                                            op.content.ops[k].definition in definitions
      modifies this
      ensures done <==> Makeable(op)
      ensures done ==> definitions == old(definitions)[op.name := ContentOf(op)] && root == old(root)
    {
      hide EntitiesOf;
      var name := op.name;
      definitions := definitions[name := []];
      if op.content.StandardBox? {
        definitions := definitions[name := [Leaf(name + "_Geometry")]];
        return true;
      }
      var ops := op.content.ops;
      NoEntities(ops);
      for k := 0 to |ops|
        invariant definitions == old(definitions)[name := EntitiesOf(ops[..k])] && root == old(root)
        invariant forall j :: 0 <= j < k ==> IsMakeable(ops[j])
      {
        EntitiesStep(ops, k);
        if ops[k].Instance? {
          var placed := AddComponentInstance(ops[k], true, name);
        } else if ops[k].Geometry? && ops[k].nestable {
          definitions := definitions[name := definitions[name] + [Leaf(ops[k].id)]];
        } else {
          return false;
        }
      }
      assert ops[..|ops|] == ops;
      done := true;
    }

    // Validates a document and carries it out. In an accepted document every instance
    // finds its definition; no definition there was is touched, and the graph of the
    // definitions stays without cycles.
    method Build(s: Scope, ops: seq<Op>) returns (built: bool)
      requires Closed(definitions) && Acyclic(definitions)
      modifies this
      ensures built <==> Accepted(s, old(definitions).Keys, ops) && forall k :: 0 <= k < |ops| ==> Makeable(ops[k])
      ensures built ==> definitions == WithDefinitions(old(definitions), ops) && root == old(root) + EntitiesOf(ops)
      ensures built ==> Closed(definitions) && Acyclic(definitions)
      ensures built ==> forall d :: d in old(definitions) ==> d in definitions && definitions[d] == old(definitions)[d]
    {
      hide Accepted, ListAccepted, Closed, Acyclic, WithDefinitions, EntitiesOf, DeclaredIn, IdsIn, Makeable;
      var accepted := ValidateCreationScope(s, definitions.Keys, ops);
      if !accepted {
        return false;
      }
      ghost var r := Rules(s.namespace, Reused(s), definitions.Keys);
      AcceptedRules(s, definitions.Keys, ops);
      NothingBuilt(definitions, ops);
      for k := 0 to |ops|
        invariant definitions == WithDefinitions(old(definitions), ops[..k]) && root == old(root) + EntitiesOf(ops[..k])
        invariant Sound(old(definitions), definitions, r, ops[..k])
        invariant forall j :: 0 <= j < k ==> Makeable(ops[j])
      {
        BuiltStep(old(definitions), ops, k);
        if ops[k].Definition? {
          DefinitionStep(old(definitions), definitions, r, ops, k);
          var done := AddComponentDefinition(ops[k]);
          if !done {
            return false;
          }
        } else {
          PlainStep(old(definitions), definitions, r, ops, k);
          NotDefinition(ops[k]);
          if ops[k].Instance? {
            var placed := AddComponentInstance(ops[k], false, "");
          } else {
            root := root + [Leaf(ops[k].id)];
          }
        }
      }
      assert ops[..|ops|] == ops;
      built := true;
    }
  }

  lemma NotDefinition(op: Op)
    requires !op.Definition?
    ensures Makeable(op)
  {
  }

  lemma AcceptedRules(s: Scope, existing: set<string>, ops: seq<Op>)
    requires Accepted(s, existing, ops)
    ensures var r := Rules(s.namespace, Reused(s), existing); ListAccepted(r, [], ops, false) && AllExist(r)
  {
  }

  ghost predicate AllExist(r: Rules) {
    forall k :: 0 <= k < |r.reused| ==> r.reused[k] in r.existing
  }

  // The graph part of the way through: what there was is as it was, and what has been
  // declared is there.
  ghost predicate Sound(base: Definitions, defs: Definitions, r: Rules, done: seq<Op>) {
    && Closed(defs) && Acyclic(defs) && r.existing == base.Keys && AllExist(r)
    && (forall d :: d in base ==> d in defs && defs[d] == base[d])
    && defs.Keys == base.Keys + AsSet(DeclaredIn(done))
  }

  lemma NothingBuilt(defs: Definitions, ops: seq<Op>)
    ensures WithDefinitions(defs, ops[..0]) == defs && EntitiesOf(ops[..0]) == [] && DeclaredIn(ops[..0]) == []
  {
  }

  lemma BuiltStep(defs: Definitions, ops: seq<Op>, k: nat)
    requires k < |ops|
    ensures WithDefinitions(defs, ops[..k + 1])
         == if ops[k].Definition? then WithDefinitions(defs, ops[..k])[ops[k].name := ContentOf(ops[k])]
           else WithDefinitions(defs, ops[..k])
    ensures EntitiesOf(ops[..k + 1])
         == EntitiesOf(ops[..k]) + if ops[k].Instance? || ops[k].Geometry? then [EntityOf(ops[k])] else []
  {
    assert ops[..k + 1][..k] == ops[..k];
  }

  lemma {:induction false} EntitiesReferTo(ops: seq<Op>, name: string)
    requires RefersTo(EntitiesOf(ops), name)
    ensures exists k :: 0 <= k < |ops| && ops[k].Instance? && ops[k].definition == name
  {
    var n := |ops| - 1;
    if RefersTo(EntitiesOf(ops[..n]), name) {
      EntitiesReferTo(ops[..n], name);
      var k :| 0 <= k < |ops[..n]| && ops[..n][k].Instance? && ops[..n][k].definition == name;
      assert ops[k].Instance? && ops[k].definition == name;
    }
  }

  lemma PlainStep(base: Definitions, defs: Definitions, r: Rules, ops: seq<Op>, k: nat)
    requires k < |ops| && ListAccepted(r, [], ops, false) && Sound(base, defs, r, ops[..k]) && !ops[k].Definition?
    ensures ops[k].Instance? || ops[k].Geometry?
    ensures ops[k].Instance? ==> ops[k].definition in defs
    ensures Sound(base, defs, r, ops[..k + 1])
  {
    OpAtIsAccepted(r, ops, k);
    DeclaredStep(ops, k);
    hide ListAccepted, DeclaredIn, IdsIn, Sound;
    KnownNames(base, defs, r, ops[..k]);
    SoundStays(base, defs, r, ops[..k], ops[..k + 1]);
    assert ops[k].Instance? || ops[k].Geometry?;
  }

  lemma SoundStays(base: Definitions, defs: Definitions, r: Rules, done: seq<Op>, more: seq<Op>)
    requires Sound(base, defs, r, done) && DeclaredIn(more) == DeclaredIn(done)
    ensures Sound(base, defs, r, more)
  {
    hide DeclaredIn, Closed, Acyclic;
  }

  lemma DefinitionStep(base: Definitions, defs: Definitions, r: Rules, ops: seq<Op>, k: nat)
    requires k < |ops| && ListAccepted(r, [], ops, false) && Sound(base, defs, r, ops[..k]) && ops[k].Definition?
    ensures Sound(base, defs[ops[k].name := ContentOf(ops[k])], r, ops[..k + 1])
    ensures ops[k].content.Operations? ==>
              forall j :: 0 <= j < |ops[k].content.ops| && ops[k].content.ops[j].Instance? ==>
                ops[k].content.ops[j].definition in defs
  {
    OpAtIsAccepted(r, ops, k);
    DeclaredStep(ops, k);
    hide ListAccepted, DeclaredIn, IdsIn, Closed, Acyclic, ContentOf, Sound;
    assert DefinitionAccepted(r, DeclaredIn(ops[..k]), ops[k], false);
    hide DefinitionAccepted, OpAccepted;
    DefinitionIsSound(base, defs, r, ops[..k], ops[k], ops[..k + 1]);
  }

  lemma OpAtIsAccepted(r: Rules, ops: seq<Op>, k: nat)
    requires k < |ops| && ListAccepted(r, [], ops, false)
    ensures OpAccepted(r, DeclaredIn(ops[..k]), IdsIn(ops[..k]), ops[k], false)
  {
    hide DeclaredIn, IdsIn, OpAccepted;
    assert [] + DeclaredIn(ops[..k]) == DeclaredIn(ops[..k]);
  }

  lemma DefinitionIsSound(base: Definitions, defs: Definitions, r: Rules, done: seq<Op>, op: Op, more: seq<Op>)
    requires Sound(base, defs, r, done) && op.Definition? && DefinitionAccepted(r, DeclaredIn(done), op, false)
    requires DeclaredIn(more) == DeclaredIn(done) + [op.name]
    ensures Sound(base, defs[op.name := ContentOf(op)], r, more)
    ensures op.content.Operations? ==>
              forall j :: 0 <= j < |op.content.ops| && op.content.ops[j].Instance? ==>
                op.content.ops[j].definition in defs
  {
    hide ListAccepted, DeclaredIn, IdsIn, Closed, Acyclic, DefinitionAccepted, ContentOf, RefersTo;
    KnownNames(base, defs, r, done);
    FreshName(base, defs, r, done, op);
    ContentRefers(r, DeclaredIn(done), op, defs);
    NewDefinition(defs, op.name, ContentOf(op));
    assert AsSet(DeclaredIn(done) + [op.name]) == AsSet(DeclaredIn(done)) + {op.name};
  }

  // What may be referred to is there.
  lemma KnownNames(base: Definitions, defs: Definitions, r: Rules, done: seq<Op>)
    requires Sound(base, defs, r, done)
    ensures forall name :: name in DeclaredIn(done) || name in r.reused ==> name in defs
  {
    hide Closed, Acyclic, DeclaredIn;
    forall name | name in DeclaredIn(done) || name in r.reused ensures name in defs {
      if name in r.reused {
        assert name in base.Keys;
      } else {
        assert name in AsSet(DeclaredIn(done));
      }
    }
  }

  lemma FreshName(base: Definitions, defs: Definitions, r: Rules, done: seq<Op>, op: Op)
    requires Sound(base, defs, r, done) && op.Definition? && DefinitionAccepted(r, DeclaredIn(done), op, false)
    ensures op.name !in defs
  {
    hide Closed, Acyclic, DeclaredIn, ListAccepted;
    assert op.name !in AsSet(DeclaredIn(done)) && op.name !in base.Keys;
  }

  // A definition refers only to definitions there were before it.
  lemma ContentRefers(r: Rules, declared: seq<string>, op: Op, defs: Definitions)
    requires op.Definition? && DefinitionAccepted(r, declared, op, false)
    requires forall name :: name in declared || name in r.reused ==> name in defs
    ensures forall name :: RefersTo(ContentOf(op), name) ==> name in defs
    ensures op.content.Operations? ==>
              forall j :: 0 <= j < |op.content.ops| && op.content.ops[j].Instance? ==>
                op.content.ops[j].definition in defs
  {
    if op.content.Operations? {
      var inner := op.content.ops;
      forall j: nat | j < |inner| && inner[j].Instance? ensures inner[j].definition in defs {
        AcceptedPrefix(r, declared, inner, j, true);
        NestedDeclareNothing(r, declared, inner[..j]);
        assert OpAccepted(r, declared + DeclaredIn(inner[..j]), IdsIn(inner[..j]), inner[j], true);
      }
      forall name | RefersTo(ContentOf(op), name) ensures name in defs {
        EntitiesReferTo(inner, name);
      }
    }
  }
}
