/** The typed accessors of a grammar node: which fields it has, how they are
    typed, and why a singular accessor never drops a capture. */
module TypedModel {
  import opened Wrappers
  import opened Patterns
  import opened Rules
  import opened Derivations
  import opened Matching
  import opened TypedFields
  import opened Ambiguity

  // ----- collecting fields -----

  datatype FieldError = NestedLabel(name: string) | LabelConflict(name: string)

  /** A label nested under another label. */
  predicate Nested(rule: Rule, active: Option<string>)
    decreases rule
  {
    match rule
    case LeafRule(_) => false
    case LabeledRule(name, inner) => active.Some? || Nested(inner, Some(name))
    case OptRule(inner) => Nested(inner, active)
    case RepRule(inner) => Nested(inner, active)
    case SeqRule(rules) => exists i | 0 <= i < |rules| :: Nested(rules[i], active)
    case AltRule(rules) => exists i | 0 <= i < |rules| :: Nested(rules[i], active)
  }

  /** No label names two targets. */
  ghost predicate Consistent(keys: set<FieldKey>) {
    forall a, b | a in keys && b in keys && a.name.Some? && a.name == b.name :: a.target == b.target
  }

  ghost function AsSet(fields: seq<FieldKey>): set<FieldKey> {
    set f | f in fields
  }

  predicate Distinct(fields: seq<FieldKey>) {
    forall i, j | 0 <= i < j < |fields| :: fields[i] != fields[j]
  }

  ghost predicate Collected(fields: seq<FieldKey>, before: seq<FieldKey>, keys: set<FieldKey>) {
    before <= fields && Distinct(fields) && AsSet(fields) == AsSet(before) + keys && Consistent(AsSet(fields))
  }

  /** The leaves of a rule from left to right, each with its active label. */
  ghost function LeafList(rule: Rule, active: Option<string>): seq<FieldKey>
    decreases rule
  {
    match rule
    case LeafRule(target) => [FieldKey(target, active)]
    case LabeledRule(name, inner) => LeafList(inner, Some(name))
    case OptRule(inner) => LeafList(inner, active)
    case RepRule(inner) => LeafList(inner, active)
    case SeqRule(rules) => LeafLists(rules, active)
    case AltRule(rules) => LeafLists(rules, active)
  }

  ghost function LeafLists(rules: seq<Rule>, active: Option<string>): seq<FieldKey>
    decreases rules
  {
    if rules == [] then [] else LeafLists(rules[..|rules| - 1], active) + LeafList(rules[|rules| - 1], active)
  }

  /** Each new key is added behind the others, where it first occurs. */
  ghost function FirstSeen(fields: seq<FieldKey>, leaves: seq<FieldKey>): seq<FieldKey>
    decreases |leaves|
  {
    if leaves == [] then fields
    else FirstSeen(if leaves[0] in fields then fields else fields + [leaves[0]], leaves[1..])
  }

  lemma {:induction false} FirstSeenJoin(fields: seq<FieldKey>, a: seq<FieldKey>, b: seq<FieldKey>)
    ensures FirstSeen(fields, a + b) == FirstSeen(FirstSeen(fields, a), b)
    decreases |a|
  {
    if a == [] {
      assert a + b == b;
    } else {
      assert (a + b)[0] == a[0] && (a + b)[1..] == a[1..] + b;
      FirstSeenJoin(if a[0] in fields then fields else fields + [a[0]], a[1..], b);
    }
  }

  method PushUnique(fields: seq<FieldKey>, field: FieldKey) returns (r: Result<seq<FieldKey>, FieldError>)
    requires Distinct(fields) && Consistent(AsSet(fields))
    ensures r.Ok? <==> Consistent(AsSet(fields) + {field})
    ensures r.Ok? ==> Collected(r.value, fields, {field}) && r.value == FirstSeen(fields, [field])
  {
    if field.name.Some? {
      var i := 0;
      while i < |fields| && fields[i].name != field.name
        invariant i <= |fields| && forall j | 0 <= j < i :: fields[j].name != field.name
      {
        i := i + 1;
      }
      if i < |fields| {
        assert fields[i] in AsSet(fields) + {field} && field in AsSet(fields) + {field};
        if fields[i].target != field.target {
          return Err(LabelConflict(field.name.value));
        }
        assert fields[i] == field && AsSet(fields) + {field} == AsSet(fields);
        return Ok(fields);
      }
    }
    if field in fields {
      assert AsSet(fields) + {field} == AsSet(fields);
      return Ok(fields);
    }
    assert AsSet(fields + [field]) == AsSet(fields) + {field};
    return Ok(fields + [field]);
  }

  method CollectFields(rule: Rule, active: Option<string>, fields: seq<FieldKey>)
    returns (r: Result<seq<FieldKey>, FieldError>)
    requires Distinct(fields) && Consistent(AsSet(fields))
    ensures r.Ok? <==> !Nested(rule, active) && Consistent(AsSet(fields) + Atoms(Leaves(rule, active)))
    ensures r.Ok? ==> Collected(r.value, fields, Atoms(Leaves(rule, active)))
    ensures r.Ok? ==> r.value == FirstSeen(fields, LeafList(rule, active))
    decreases rule, 1
  {
    match rule
    case LeafRule(target) => r := PushUnique(fields, FieldKey(target, active));
    case LabeledRule(name, inner) =>
      if active.Some? {
        return Err(NestedLabel(name));
      }
      r := CollectFields(inner, Some(name), fields);
    case OptRule(inner) => r := CollectFields(inner, active, fields);
    case RepRule(inner) => r := CollectFields(inner, active, fields);
    case SeqRule(rules) =>
      assert Nested(rule, active) <==> !NoneNested(rules, |rules|, active);
      r := CollectAll(rules, active, fields);
    case AltRule(rules) =>
      assert Nested(rule, active) <==> !NoneNested(rules, |rules|, active);
      r := CollectAll(rules, active, fields);
  }

  method CollectAll(rules: seq<Rule>, active: Option<string>, fields: seq<FieldKey>)
    returns (r: Result<seq<FieldKey>, FieldError>)
    requires Distinct(fields) && Consistent(AsSet(fields))
    ensures r.Ok? <==> Collectable(rules, active, fields)
    ensures r.Ok? ==> Collected(r.value, fields, AllAtoms(AllLeaves(rules, active)))
    ensures r.Ok? ==> r.value == FirstSeen(fields, LeafLists(rules, active))
    decreases rules, 1
  {
    var current := fields;
    for i := 0 to |rules|
      invariant CollectedTo(rules, i, active, fields, current)
      invariant current == FirstSeen(fields, LeafLists(rules[..i], active))
    {
      NextLeaves(rules, i, active, fields);
      r := CollectOne(rules, i, active, fields, current);
      if r.Err? { return; }
      current := r.value;
    }
    assert AllLeaves(rules, active)[..|rules|] == AllLeaves(rules, active) && rules[..|rules|] == rules;
    r := Ok(current);
  }

  lemma {:induction false} NextLeaves(rules: seq<Rule>, i: nat, active: Option<string>, fields: seq<FieldKey>)
    requires i < |rules|
    ensures FirstSeen(fields, LeafLists(rules[..i + 1], active)) ==
            FirstSeen(FirstSeen(fields, LeafLists(rules[..i], active)), LeafList(rules[i], active))
  {
    assert rules[..i + 1][..i] == rules[..i];
    FirstSeenJoin(fields, LeafLists(rules[..i], active), LeafList(rules[i], active));
  }

  ghost predicate Collectable(rules: seq<Rule>, active: Option<string>, fields: seq<FieldKey>) {
    NoneNested(rules, |rules|, active) && Consistent(AsSet(fields) + AllAtoms(AllLeaves(rules, active)))
  }

  /** The fields of the first i rules are collected. */
  ghost predicate CollectedTo(rules: seq<Rule>, i: nat, active: Option<string>, fields: seq<FieldKey>,
                              current: seq<FieldKey>)
    requires i <= |rules|
  {
    NoneNested(rules, i, active) && Collected(current, fields, AllAtoms(AllLeaves(rules, active)[..i]))
  }

  method CollectOne(rules: seq<Rule>, i: nat, active: Option<string>, ghost fields: seq<FieldKey>,
                    current: seq<FieldKey>)
    returns (r: Result<seq<FieldKey>, FieldError>)
    requires i < |rules| && CollectedTo(rules, i, active, fields, current)
    ensures r.Ok? ==> CollectedTo(rules, i + 1, active, fields, r.value)
    ensures r.Ok? ==> r.value == FirstSeen(current, LeafList(rules[i], active))
    ensures r.Err? ==> !Collectable(rules, active, fields)
    decreases rules, 0
  {
    ghost var all := AllLeaves(rules, active);
    Fails(rules, active, AsSet(fields), i);
    AtomsGrow(all, i);
    r := CollectNext(rules[i], active, current, fields, AllAtoms(all[..i]));
  }

  ghost predicate NoneNested(rules: seq<Rule>, n: nat, active: Option<string>)
    requires n <= |rules|
  {
    forall j | 0 <= j < n :: !Nested(rules[j], active)
  }

  /** A rule that fails behind its predecessors makes the whole list fail. */
  lemma {:induction false} Fails(rules: seq<Rule>, active: Option<string>, before: set<FieldKey>, i: nat)
    requires i < |rules|
    ensures Nested(rules[i], active) ==> !NoneNested(rules, |rules|, active)
    ensures Consistent(before + AllAtoms(AllLeaves(rules, active))) ==>
              Consistent(before + (AllAtoms(AllLeaves(rules, active)[..i]) + Atoms(Leaves(rules[i], active))))
  {
    var all := AllLeaves(rules, active);
    AtomsGrow(all, i);
    SubsetConsistent(before + (AllAtoms(all[..i]) + Atoms(all[i])), before + AllAtoms(all));
  }

  method CollectNext(rule: Rule, active: Option<string>, current: seq<FieldKey>, ghost fields: seq<FieldKey>,
                     ghost keys: set<FieldKey>)
    returns (r: Result<seq<FieldKey>, FieldError>)
    requires Collected(current, fields, keys)
    ensures r.Ok? <==> !Nested(rule, active) && Consistent(AsSet(fields) + (keys + Atoms(Leaves(rule, active))))
    ensures r.Ok? ==> Collected(r.value, fields, keys + Atoms(Leaves(rule, active)))
    ensures r.Ok? ==> r.value == FirstSeen(current, LeafList(rule, active))
    decreases rule, 2
  {
    r := CollectFields(rule, active, current);
    assert AsSet(current) + Atoms(Leaves(rule, active)) == AsSet(fields) + (keys + Atoms(Leaves(rule, active)));
    if r.Ok? {
      CollectedMore(r.value, current, fields, keys, Atoms(Leaves(rule, active)));
    }
  }

  lemma {:induction false} SubsetConsistent(small: set<FieldKey>, large: set<FieldKey>)
    requires small <= large
    ensures Consistent(large) ==> Consistent(small)
  {
  }

  lemma {:induction false} CollectedMore(later: seq<FieldKey>, fields: seq<FieldKey>, before: seq<FieldKey>,
                                         keys: set<FieldKey>, more: set<FieldKey>)
    requires Collected(fields, before, keys) && Collected(later, fields, more)
    ensures Collected(later, before, keys + more)
  {
  }

  lemma {:induction false} AtomsGrow(parts: seq<Pattern<FieldKey>>, i: nat)
    requires i < |parts|
    ensures AllAtoms(parts[..i + 1]) == AllAtoms(parts[..i]) + Atoms(parts[i])
    ensures AllAtoms(parts[..i + 1]) <= AllAtoms(parts)
    decreases |parts| - i
  {
    assert parts[..i + 1][..i] == parts[..i];
    if i + 1 < |parts| {
      AtomsGrow(parts, i + 1);
    } else {
      assert parts[..i + 1] == parts;
    }
  }

  // ----- labels and rendered patterns -----

  function Labels(fields: seq<FieldKey>): seq<string> {
    if fields == [] then []
    else
      var rest := Labels(fields[..|fields| - 1]);
      if fields[|fields| - 1].name.Some? then rest + [fields[|fields| - 1].name.value] else rest
  }

  lemma {:induction false} LabelsList(fields: seq<FieldKey>, name: string)
    ensures name in Labels(fields) <==> exists f | f in fields :: f.name == Some(name)
  {
    if fields != [] {
      var n := |fields| - 1;
      LabelsList(fields[..n], name);
      assert forall f | f in fields :: f in fields[..n] || f == fields[n];
      assert fields[n] in fields;
      if f :| f in fields[..n] && f.name == Some(name) {
        assert f in fields;
      }
    }
  }

  ghost function LabelNames(keys: set<FieldKey>): set<string> {
    set k | k in keys && k.name.Some? :: k.name.value
  }

  ghost predicate NoDuplicates(labels: seq<string>) {
    forall i, j | 0 <= i < j < |labels| :: labels[i] != labels[j]
  }

  /** Fields that are distinct and consistent list every label once. */
  lemma {:induction false} LabelsAreDistinct(fields: seq<FieldKey>)
    requires Distinct(fields) && Consistent(AsSet(fields))
    ensures NoDuplicates(Labels(fields)) && |Labels(fields)| == |LabelNames(AsSet(fields))|
    decreases |fields|
  {
    if fields == [] {
      assert AsSet(fields) == {} && LabelNames({}) == {};
    } else {
      var n := |fields| - 1;
      NamesSnoc(fields);
      SubsetConsistent(AsSet(fields[..n]), AsSet(fields));
      LabelsAreDistinct(fields[..n]);
      if fields[n].name.Some? {
        LastLabelIsNew(fields);
      }
    }
  }

  lemma {:induction false} NamesSnoc(fields: seq<FieldKey>)
    requires fields != []
    ensures var front, last := AsSet(fields[..|fields| - 1]), fields[|fields| - 1];
            && AsSet(fields) == front + {last}
            && LabelNames(AsSet(fields)) == LabelNames(front) + (if last.name.Some? then {last.name.value} else {})
  {
    var n := |fields| - 1;
    assert fields == fields[..n] + [fields[n]];
    assert AsSet(fields) == AsSet(fields[..n]) + {fields[n]};
  }

  lemma {:induction false} LastLabelIsNew(fields: seq<FieldKey>)
    requires fields != [] && Distinct(fields) && Consistent(AsSet(fields)) && fields[|fields| - 1].name.Some?
    ensures var front, name := fields[..|fields| - 1], fields[|fields| - 1].name.value;
            name !in Labels(front) && name !in LabelNames(AsSet(front))
  {
    var n := |fields| - 1;
    var front, last := fields[..n], fields[n];
    forall f | f in front ensures f.name != last.name {
      var i :| 0 <= i < n && fields[i] == f;
      assert f in AsSet(fields) && last in AsSet(fields);
    }
    LabelsList(front, last.name.value);
  }

  function Position(labels: seq<string>, name: string): (r: Option<nat>)
    ensures r.Some? <==> name in labels
    ensures r.Some? ==> r.value < |labels| && labels[r.value] == name && name !in labels[..r.value]
  {
    if labels == [] then None
    else if labels[|labels| - 1] == name && name !in labels[..|labels| - 1] then Some(|labels| - 1)
    else
      assert labels[..|labels| - 1] + [labels[|labels| - 1]] == labels;
      var r := Position(labels[..|labels| - 1], name);
      assert r.Some? ==> labels[..|labels| - 1][..r.value] == labels[..r.value];
      r
  }

  function RenderAtom(kinds: Target -> SyntaxKind, labels: seq<string>): FieldKey -> AstAtom {
    (key: FieldKey) => AstAtom(kinds(key.target), if key.name.Some? then Position(labels, key.name.value) else None)
  }

  function RenderPattern(kinds: Target -> SyntaxKind, labels: seq<string>, rule: Rule): AstPattern {
    MapPattern(RenderAtom(kinds, labels), Leaves(rule, None))
  }

  /** The child kinds a rule derives, labels aside. */
  function Kinds(rule: Rule): Pattern<Target> {
    MapPattern((key: FieldKey) => key.target, Leaves(rule, None))
  }

  /** The kind pattern derives exactly the target lists of the rule's derivations. */
  lemma {:induction false} KindsIff(rule: Rule, targets: seq<Target>)
    ensures InLang(Kinds(rule), targets) <==> Iteration(rule, targets)
  {
    var f := (key: FieldKey) => key.target;
    if InLang(Kinds(rule), targets) {
      var origin := MapOrigin(f, Leaves(rule, None), targets);
      LeavesDerive(rule, None, origin);
      assert ChildTargets(origin) == targets;
    }
    if word :| Derives(rule, None, word) && ChildTargets(word) == targets {
      LeavesDerive(rule, None, word);
      MapDerives(f, Leaves(rule, None), word);
      assert MapWord(f, word) == targets;
    }
  }

  // ----- repetitions -----

  /** The targets of one derivation of the rule. */
  ghost predicate Iteration(rule: Rule, targets: seq<Target>) {
    exists word | Derives(rule, None, word) :: ChildTargets(word) == targets
  }

  ghost predicate Iterations(rule: Rule, words: seq<seq<Target>>) {
    forall x | x in words :: Iteration(rule, x)
  }

  /** One list of children splits in two ways into iterations of the rule. */
  ghost predicate TwoBoundaries(rule: Rule) {
    exists a: seq<seq<Target>>, b: seq<seq<Target>> | a != b && Flatten(a) == Flatten(b) ::
      Iterations(rule, a) && Iterations(rule, b)
  }

  lemma {:induction false} TwoBoundariesIff(rule: Rule)
    ensures TwoWays(Kinds(rule)) <==> TwoBoundaries(rule)
  {
    forall words: seq<seq<Target>>, whole: seq<Target>
      ensures Factorizes(Kinds(rule), words, whole) <==> Flatten(words) == whole && Iterations(rule, words)
    {
      forall x ensures InLang(Kinds(rule), x) <==> Iteration(rule, x) {
        KindsIff(rule, x);
      }
    }
    if TwoWays(Kinds(rule)) {
      var a: seq<seq<Target>>, b: seq<seq<Target>> :|
        a != b && Factorizes(Kinds(rule), a, Flatten(a)) && Factorizes(Kinds(rule), b, Flatten(a));
      assert Iterations(rule, a) && Iterations(rule, b);
    }
    if TwoBoundaries(rule) {
      var a: seq<seq<Target>>, b: seq<seq<Target>> :|
        a != b && Flatten(a) == Flatten(b) && Iterations(rule, a) && Iterations(rule, b);
      assert Factorizes(Kinds(rule), a, Flatten(a)) && Factorizes(Kinds(rule), b, Flatten(a));
    }
  }

  ghost predicate ObservableRepetitions(rule: Rule)
    decreases rule
  {
    match rule
    case LeafRule(_) => true
    case LabeledRule(_, inner) => ObservableRepetitions(inner)
    case OptRule(inner) => ObservableRepetitions(inner)
    case RepRule(inner) => !TwoBoundaries(inner) && ObservableRepetitions(inner)
    case SeqRule(rules) => forall i | 0 <= i < |rules| :: ObservableRepetitions(rules[i])
    case AltRule(rules) => forall i | 0 <= i < |rules| :: ObservableRepetitions(rules[i])
  }

  /** Accepts exactly the rules whose repetitions all have unique iteration boundaries. */
  method ValidateRepetitions(rule: Rule) returns (ok: bool)
    ensures ok <==> ObservableRepetitions(rule)
    decreases rule
  {
    match rule
    case LeafRule(_) => ok := true;
    case LabeledRule(_, inner) => ok := ValidateRepetitions(inner);
    case OptRule(inner) => ok := ValidateRepetitions(inner);
    case RepRule(inner) =>
      var ambiguous := RepetitionIsAmbiguous(Kinds(inner));
      TwoBoundariesIff(inner);
      if ambiguous {
        return false;
      }
      ok := ValidateRepetitions(inner);
    case SeqRule(rules) =>
      for i := 0 to |rules|
        invariant forall j | 0 <= j < i :: ObservableRepetitions(rules[j])
      {
        ok := ValidateRepetitions(rules[i]);
        if !ok {
          return;
        }
      }
      ok := true;
    case AltRule(rules) =>
      for i := 0 to |rules|
        invariant forall j | 0 <= j < i :: ObservableRepetitions(rules[j])
      {
        ok := ValidateRepetitions(rules[i]);
        if !ok {
          return;
        }
      }
      ok := true;
  }

  // ----- accessors -----

  datatype Accessor = Accessor(key: FieldKey, cardinality: Cardinality, tag: Option<nat>, methodName: string)

  datatype TypedNode = TypedNode(accessors: seq<Accessor>, labels: seq<string>)

  datatype ModelError = BadField(error: FieldError) | AmbiguousRepetition | NameCollision | TooManyLabels

  const MAX_TAG := 0xFFFF
  const RESERVED := {"children", "errors", "syntax"}

  /** No label is nested and none names two targets. */
  ghost predicate FieldsOk(rule: Rule) {
    !Nested(rule, None) && Consistent(Atoms(Leaves(rule, None)))
  }

  /** Some leaf of the rule carries a label. */
  ghost predicate Labelled(rule: Rule) {
    exists key | key in Atoms(Leaves(rule, None)) :: key.name.Some?
  }

  function MethodFor(rule: Rule, methodOf: (FieldKey, Cardinality) -> string, key: FieldKey): string {
    methodOf(key, FieldCount(rule, key, None).Cardinality())
  }

  /** No accessor's method is reserved or shared. */
  ghost predicate MethodsFree(rule: Rule, methodOf: (FieldKey, Cardinality) -> string, keys: set<FieldKey>) {
    && (forall k | k in keys :: MethodFor(rule, methodOf, k) !in {"children", "errors", "syntax"})
    && forall k, l | k in keys && l in keys && MethodFor(rule, methodOf, k) == MethodFor(rule, methodOf, l) :: k == l
  }

  /** What holds of every accessor of a modelled node. */
  ghost predicate Typed(rule: Rule, labels: seq<string>, accessor: Accessor) {
    && accessor.key in Atoms(Leaves(rule, None))
    && accessor.cardinality == FieldCount(rule, accessor.key, None).Cardinality()
    && (accessor.tag.Some? <==> accessor.key.name.Some?)
    && (accessor.tag.Some? ==>
          accessor.tag.value <= MAX_TAG && Position(labels, accessor.key.name.value) == accessor.tag)
  }

  /** Exactly one well-typed accessor per field, and repetitions that are observable
      if any field is labelled. */
  ghost predicate Modelled(rule: Rule, node: TypedNode) {
    && Consistent(Atoms(Leaves(rule, None)))
    && (forall a | a in node.accessors :: Typed(rule, node.labels, a))
    && (forall key | key in Atoms(Leaves(rule, None)) :: HasAccessor(node.accessors, key))
    && (forall i, j | 0 <= i < j < |node.accessors| :: node.accessors[i].key != node.accessors[j].key)
    && (node.labels != [] ==> ObservableRepetitions(rule))
  }

  ghost function Keys(accessors: seq<Accessor>): seq<FieldKey> {
    seq(|accessors|, i requires 0 <= i < |accessors| => accessors[i].key)
  }

  /** The labels among the keys, in their order. */
  ghost function LabelList(keys: seq<FieldKey>): seq<string> {
    if keys == [] then []
    else (if keys[0].name.Some? then [keys[0].name.value] else []) + LabelList(keys[1..])
  }

  lemma {:induction false} LabelListJoin(a: seq<FieldKey>, b: seq<FieldKey>)
    ensures LabelList(a + b) == LabelList(a) + LabelList(b)
  {
    if a == [] {
      assert a + b == b;
    } else {
      assert (a + b)[0] == a[0] && (a + b)[1..] == a[1..] + b;
      LabelListJoin(a[1..], b);
    }
  }

  lemma {:induction false} LabelsInOrder(fields: seq<FieldKey>)
    ensures Labels(fields) == LabelList(fields)
  {
    if fields != [] {
      var front, last := fields[..|fields| - 1], fields[|fields| - 1];
      LabelsInOrder(front);
      LabelListJoin(front, [last]);
      assert fields == front + [last];
    }
  }

  /** Accessors stand where their fields first occur, and labels are numbered likewise. */
  ghost predicate InRuleOrder(rule: Rule, node: TypedNode) {
    && Keys(node.accessors) == FirstSeen([], LeafList(rule, None))
    && node.labels == LabelList(Keys(node.accessors))
  }

  ghost predicate Named(methodOf: (FieldKey, Cardinality) -> string, accessors: seq<Accessor>) {
    forall a | a in accessors :: a.methodName == methodOf(a.key, a.cardinality)
  }

  method ModelNode(rule: Rule, methodOf: (FieldKey, Cardinality) -> string) returns (r: Result<TypedNode, ModelError>)
    ensures r.Ok? ==> Modelled(rule, r.value) && Named(methodOf, r.value.accessors) && InRuleOrder(rule, r.value)
    ensures var keys := Atoms(Leaves(rule, None));
            && (r.Ok? <==> && FieldsOk(rule) && (Labelled(rule) ==> ObservableRepetitions(rule))
                           && MethodsFree(rule, methodOf, keys) && |LabelNames(keys)| <= 0x1_0000)
            && (r.Err? && r.error.BadField? <==> !FieldsOk(rule))
            && (r.Err? && r.error.AmbiguousRepetition? <==>
                  FieldsOk(rule) && Labelled(rule) && !ObservableRepetitions(rule))
            && (r.Err? && r.error.NameCollision? ==> !MethodsFree(rule, methodOf, keys))
            && (r.Err? && r.error.TooManyLabels? ==> |LabelNames(keys)| > 0x1_0000)
  {
    var collected := CollectFields(rule, None, []);
    assert AsSet([]) + Atoms(Leaves(rule, None)) == Atoms(Leaves(rule, None));
    if collected.Err? {
      return Err(BadField(collected.error));
    }
    assert AsSet(collected.value) == Atoms(Leaves(rule, None));
    r := ModelFields(rule, collected.value, methodOf);
    LabelsInOrder(collected.value);
  }

  method ModelFields(rule: Rule, fields: seq<FieldKey>, methodOf: (FieldKey, Cardinality) -> string)
    returns (r: Result<TypedNode, ModelError>)
    requires FieldsOk(rule) && Distinct(fields) && AsSet(fields) == Atoms(Leaves(rule, None))
    ensures r.Ok? ==> Modelled(rule, r.value) && Named(methodOf, r.value.accessors)
    ensures r.Ok? ==> Keys(r.value.accessors) == fields && r.value.labels == Labels(fields)
    ensures r.Ok? <==> && (Labelled(rule) ==> ObservableRepetitions(rule))
                       && MethodsFree(rule, methodOf, AsSet(fields)) && |LabelNames(AsSet(fields))| <= MAX_TAG + 1
    ensures r.Err? ==> match r.error
                       case BadField(_) => false
                       case AmbiguousRepetition => Labelled(rule) && !ObservableRepetitions(rule)
                       case NameCollision =>
                         (Labelled(rule) ==> ObservableRepetitions(rule)) && !MethodsFree(rule, methodOf, AsSet(fields))
                       case TooManyLabels =>
                         (Labelled(rule) ==> ObservableRepetitions(rule)) && |LabelNames(AsSet(fields))| > MAX_TAG + 1
  {
    var labels := Labels(fields);
    LabelledIff(rule, fields);
    if labels != [] {
      var ok := ValidateRepetitions(rule);
      if !ok {
        return Err(AmbiguousRepetition);
      }
    }
    var accessors := Accessors(rule, fields, methodOf);
    if accessors.Err? {
      return Err(accessors.error);
    }
    r := Ok(TypedNode(accessors.value, labels));
    OnePerField(rule, fields, accessors.value);
  }

  /** Without empty alternations an accessor's type says how often derivations hold its field. */
  lemma {:induction false} AccessorMeans(rule: Rule, node: TypedNode, accessor: Accessor)
    requires NoEmptyAlternation(rule) && Modelled(rule, node) && accessor in node.accessors
    ensures Promises(Words(rule), accessor.key, accessor.cardinality)
  {
    assert Typed(rule, node.labels, accessor);
    CardinalityMeans(rule, accessor.key);
  }

  lemma {:induction false} LabelledIff(rule: Rule, fields: seq<FieldKey>)
    requires AsSet(fields) == Atoms(Leaves(rule, None)) && Distinct(fields) && Consistent(AsSet(fields))
    ensures Labels(fields) != [] <==> Labelled(rule)
  {
    LabelsAreDistinct(fields);
    if Labels(fields) != [] {
      LabelsList(fields, Labels(fields)[0]);
      var f :| f in fields && f.name == Some(Labels(fields)[0]);
      assert f in AsSet(fields);
    }
    if key :| key in Atoms(Leaves(rule, None)) && key.name.Some? {
      assert key in AsSet(fields);
      LabelsList(fields, key.name.value);
    }
  }

  lemma {:induction false} OnePerField(rule: Rule, fields: seq<FieldKey>, accessors: seq<Accessor>)
    requires AsSet(fields) == Atoms(Leaves(rule, None)) && Distinct(fields) && |accessors| == |fields|
    requires forall i | 0 <= i < |fields| :: accessors[i].key == fields[i]
    ensures forall key | key in Atoms(Leaves(rule, None)) :: HasAccessor(accessors, key)
    ensures forall i, j | 0 <= i < j < |accessors| :: accessors[i].key != accessors[j].key
  {
    forall key | key in Atoms(Leaves(rule, None)) ensures HasAccessor(accessors, key) {
      assert key in AsSet(fields);
      var j :| 0 <= j < |fields| && fields[j] == key;
      assert accessors[j] in accessors;
    }
  }

  ghost predicate HasAccessor(accessors: seq<Accessor>, key: FieldKey) {
    exists a | a in accessors :: a.key == key
  }

  /** The accessor at position i is the one of the i-th field. */
  ghost predicate AccessorFor(rule: Rule, labels: seq<string>, methodOf: (FieldKey, Cardinality) -> string,
                              field: FieldKey, a: Accessor) {
    a.key == field && Typed(rule, labels, a) && a.methodName == MethodFor(rule, methodOf, field)
  }

  /** The method names taken by the first n fields and the reserved ones. */
  ghost function Taken(rule: Rule, methodOf: (FieldKey, Cardinality) -> string, fields: seq<FieldKey>,
                       n: nat): set<string>
    requires n <= |fields|
  {
    RESERVED + set k | k in fields[..n] :: MethodFor(rule, methodOf, k)
  }

  /** One accessor per field, unless a method name is taken or a label's position
      does not fit its tag. */
  method Accessors(rule: Rule, fields: seq<FieldKey>, methodOf: (FieldKey, Cardinality) -> string)
    returns (r: Result<seq<Accessor>, ModelError>)
    requires Distinct(fields) && Consistent(AsSet(fields)) && AsSet(fields) == Atoms(Leaves(rule, None))
    ensures r.Ok? ==> |r.value| == |fields| && forall i | 0 <= i < |fields| ::
                        AccessorFor(rule, Labels(fields), methodOf, fields[i], r.value[i])
    ensures r.Ok? <==> MethodsFree(rule, methodOf, AsSet(fields)) && |LabelNames(AsSet(fields))| <= MAX_TAG + 1
    ensures r.Err? ==> || (r.error == NameCollision && !MethodsFree(rule, methodOf, AsSet(fields)))
                       || (r.error == TooManyLabels && |LabelNames(AsSet(fields))| > MAX_TAG + 1)
  {
    var labels := Labels(fields);
    LabelsAreDistinct(fields);
    var accessors: seq<Accessor>, used := [], RESERVED;
    for i := 0 to |fields|
      invariant Built(rule, methodOf, fields, i, accessors, used)
    {
      r := BuildNext(rule, fields, methodOf, i, accessors, used);
      if r.Err? {
        return;
      }
      used := used + {r.value[i].methodName};
      accessors := r.value;
    }
    NoneTaken(rule, methodOf, fields);
    LabelsFit(rule, methodOf, fields, accessors);
    r := Ok(accessors);
  }

  /** The accessors of the first n fields are built. */
  ghost predicate Built(rule: Rule, methodOf: (FieldKey, Cardinality) -> string, fields: seq<FieldKey>, n: nat,
                        accessors: seq<Accessor>, used: set<string>)
    requires n <= |fields|
  {
    && |accessors| == n && used == Taken(rule, methodOf, fields, n)
    && (forall j | 0 <= j < n :: AccessorFor(rule, Labels(fields), methodOf, fields[j], accessors[j]))
    && forall j | 0 <= j < n :: MethodFor(rule, methodOf, fields[j]) !in Taken(rule, methodOf, fields, j)
  }

  method BuildNext(rule: Rule, fields: seq<FieldKey>, methodOf: (FieldKey, Cardinality) -> string, i: nat,
                   accessors: seq<Accessor>, used: set<string>)
    returns (r: Result<seq<Accessor>, ModelError>)
    requires Distinct(fields) && AsSet(fields) == Atoms(Leaves(rule, None)) && i < |fields|
    requires Built(rule, methodOf, fields, i, accessors, used)
    ensures r.Ok? ==>
              |r.value| == i + 1 && Built(rule, methodOf, fields, i + 1, r.value, used + {r.value[i].methodName})
    ensures r.Err? ==> || (r.error == NameCollision && !MethodsFree(rule, methodOf, AsSet(fields)))
                       || (r.error == TooManyLabels && |Labels(fields)| > MAX_TAG + 1)
  {
    var field, labels := fields[i], Labels(fields);
    assert field in AsSet(fields);
    var cardinality := FieldCount(rule, field, None).Cardinality();
    var name := methodOf(field, cardinality);
    if name in used {
      TakenTwice(rule, methodOf, fields, i);
      return Err(NameCollision);
    }
    TakenGrows(rule, methodOf, fields, i);
    var tag: Option<nat> := None;
    if field.name.Some? {
      LabelsList(fields, field.name.value);
      tag := Position(labels, field.name.value);
      if tag.value > MAX_TAG {
        return Err(TooManyLabels);
      }
    }
    r := Ok(accessors + [Accessor(field, cardinality, tag, name)]);
  }

  lemma {:induction false} TakenGrows(rule: Rule, methodOf: (FieldKey, Cardinality) -> string, fields: seq<FieldKey>,
                                      i: nat)
    requires i < |fields|
    ensures Taken(rule, methodOf, fields, i + 1) ==
            Taken(rule, methodOf, fields, i) + {MethodFor(rule, methodOf, fields[i])}
  {
    assert fields[..i + 1] == fields[..i] + [fields[i]];
    assert forall k :: k in fields[..i + 1] <==> k in fields[..i] || k == fields[i];
  }

  lemma {:induction false} TakenTwice(rule: Rule, methodOf: (FieldKey, Cardinality) -> string, fields: seq<FieldKey>,
                                      i: nat)
    requires i < |fields| && Distinct(fields) && MethodFor(rule, methodOf, fields[i]) in Taken(rule, methodOf, fields,
             i)
    ensures !MethodsFree(rule, methodOf, AsSet(fields))
  {
    assert fields[i] in AsSet(fields);
    if MethodFor(rule, methodOf, fields[i]) !in RESERVED {
      var k :| k in fields[..i] && MethodFor(rule, methodOf, k) == MethodFor(rule, methodOf, fields[i]);
      var j :| 0 <= j < i && fields[j] == k;
      assert k in AsSet(fields) && k != fields[i];
    }
  }

  lemma {:induction false} NoneTaken(rule: Rule, methodOf: (FieldKey, Cardinality) -> string, fields: seq<FieldKey>)
    requires forall j | 0 <= j < |fields| :: MethodFor(rule, methodOf, fields[j]) !in Taken(rule, methodOf, fields, j)
    ensures MethodsFree(rule, methodOf, AsSet(fields))
  {
    forall k | k in AsSet(fields) ensures MethodFor(rule, methodOf, k) !in RESERVED {
      var i :| 0 <= i < |fields| && fields[i] == k;
    }
    forall i, j | 0 <= i < j < |fields| ensures MethodFor(rule, methodOf, fields[i]) != MethodFor(rule, methodOf,
        fields[j]) {
      assert fields[..j][i] == fields[i];
    }
    forall k, l | k in AsSet(fields) && l in AsSet(fields) &&
        MethodFor(rule, methodOf, k) == MethodFor(rule, methodOf, l)
      ensures k == l
    {
      var i :| 0 <= i < |fields| && fields[i] == k;
      var j :| 0 <= j < |fields| && fields[j] == l;
    }
  }

  /** When every label's position fits a tag, there are not too many labels. */
  lemma {:induction false} LabelsFit(rule: Rule, methodOf: (FieldKey, Cardinality) -> string, fields: seq<FieldKey>,
                                     accessors: seq<Accessor>)
    requires Distinct(fields) && Consistent(AsSet(fields)) && |accessors| == |fields|
    requires forall j | 0 <= j < |fields| :: AccessorFor(rule, Labels(fields), methodOf, fields[j], accessors[j])
    ensures |LabelNames(AsSet(fields))| <= MAX_TAG + 1
  {
    var labels := Labels(fields);
    LabelsAreDistinct(fields);
    if labels != [] {
      var last := labels[|labels| - 1];
      LabelsList(fields, last);
      var f :| f in fields && f.name == Some(last);
      var j :| 0 <= j < |fields| && fields[j] == f;
      assert AccessorFor(rule, labels, methodOf, fields[j], accessors[j]);
      var tag := Position(labels, last).value;
      assert labels[tag] == labels[|labels| - 1];
      assert tag == |labels| - 1;
    }
  }

  // ----- a singular accessor captures at most one child -----

  lemma {:induction false} TagNamesLabel(kinds: Target -> SyntaxKind, labels: seq<string>, k: FieldKey, key: FieldKey,
                                         tag: nat)
    requires key.name.Some? && Position(labels, key.name.value) == Some(tag)
    ensures RenderAtom(kinds, labels)(k).tag == Some(tag) <==> k.name == key.name
  {
    if k.name.Some? && Position(labels, k.name.value) == Some(tag) {
      assert labels[tag] == k.name.value && labels[tag] == key.name.value;
    }
  }

  lemma {:induction false} CapturesAreOccurrences(kinds: Target -> SyntaxKind, labels: seq<string>, q: Query,
                                                  key: FieldKey, pos: nat, word: seq<AstAtom>, origin: seq<FieldKey>)
    requires word == MapWord(RenderAtom(kinds, labels), origin) && Accepts(q, pos, word)
    requires key.name.Some? && Position(labels, key.name.value) == Some(q.tag)
    requires forall k | k in origin && k.name == key.name :: k == key
    ensures |Captured(q, pos, word)| == Occurrences(origin, key)
    decreases |word|
  {
    if word != [] {
      var first, rest := origin[0], origin[1..];
      assert word[1..] == MapWord(RenderAtom(kinds, labels), rest);
      CapturesAreOccurrences(kinds, labels, q, key, pos + 1, word[1..], rest);
      assert origin == [first] + rest;
      OccurrencesJoin([first], rest, key);
      assert first in origin;
      TagNamesLabel(kinds, labels, first, key, q.tag);
    }
  }

  /** For every child sequence, recovered or not, every parse captures at most one
      child for an accessor that is not `Many`, and exactly one if it is `Required`. */
  lemma {:induction false} SingularCaptures(kinds: Target -> SyntaxKind, rule: Rule, node: TypedNode,
                                            accessor: Accessor, q: Query, word: seq<AstAtom>)
    requires Modelled(rule, node) && accessor in node.accessors && accessor.tag == Some(q.tag)
    requires Parses(RenderPattern(kinds, node.labels, rule), q, INITIAL, word)
    ensures accessor.cardinality != Many ==> |Captured(q, 0, word)| <= 1
    ensures accessor.cardinality == Required ==> |Captured(q, 0, word)| == 1
  {
    var key := accessor.key;
    var origin := MapOrigin(RenderAtom(kinds, node.labels), Leaves(rule, None), word);
    WordUsesAtoms(Leaves(rule, None), origin);
    assert Typed(rule, node.labels, accessor);
    CapturesAreOccurrences(kinds, node.labels, q, key, 0, word, origin);
    CountIsSound(rule, key, None);
  }

  /** The children of a node with this derivation, some of them perhaps `Missing`. */
  ghost predicate Recovered(kinds: Target -> SyntaxKind, elements: seq<SyntaxKind>, word: seq<FieldKey>) {
    |elements| == |word| && forall i | 0 <= i < |word| :: elements[i] in {kinds(word[i].target), Missing}
  }

  lemma {:induction false} AcceptsRecovered(kinds: Target -> SyntaxKind, labels: seq<string>, q: Query, pos: nat,
                                            word: seq<FieldKey>)
    requires pos + |word| == |q.elements| && Recovered(kinds, q.elements[pos..], word)
    ensures Accepts(q, pos, MapWord(RenderAtom(kinds, labels), word))
    ensures q.elements[pos..] == ChildKinds(kinds, word) ==>
              ExactKinds(q, pos, MapWord(RenderAtom(kinds, labels), word)) == |word|
    decreases |word|
  {
    if word != [] {
      var atoms := MapWord(RenderAtom(kinds, labels), word);
      assert atoms[1..] == MapWord(RenderAtom(kinds, labels), word[1..]);
      assert q.elements[pos..][0] == q.elements[pos] && q.elements[pos..][1..] == q.elements[pos + 1..];
      assert ChildKinds(kinds, word)[1..] == ChildKinds(kinds, word[1..]);
      AcceptsRecovered(kinds, labels, q, pos + 1, word[1..]);
    }
  }

  /** The rendered pattern parses the children of every derivation to their end. */
  lemma {:induction false} DerivationParses(kinds: Target -> SyntaxKind, labels: seq<string>, rule: Rule, q: Query,
                                            word: seq<FieldKey>)
    requires Derives(rule, None, word) && Recovered(kinds, q.elements, word)
    ensures Parses(RenderPattern(kinds, labels, rule), q, INITIAL, MapWord(RenderAtom(kinds, labels), word))
    ensures q.elements == ChildKinds(kinds, word) ==>
              ExactKinds(q, 0, MapWord(RenderAtom(kinds, labels), word)) == |word|
  {
    LeavesDerive(rule, None, word);
    MapDerives(RenderAtom(kinds, labels), Leaves(rule, None), word);
    assert q.elements[0..] == q.elements;
    AcceptsRecovered(kinds, labels, q, 0, word);
  }

  lemma {:induction false} ExactIsBounded(q: Query, pos: nat, word: seq<AstAtom>)
    requires Accepts(q, pos, word)
    ensures ExactKinds(q, pos, word) <= |word|
    ensures ExactKinds(q, pos, word) == |word| ==>
              forall i | pos <= i < pos + |word| :: i < |q.elements| && q.elements[i] == word[i - pos].kind
    decreases |word|
  {
    if word != [] {
      ExactIsBounded(q, pos + 1, word[1..]);
      AcceptsInRange(q, pos, word);
      if ExactKinds(q, pos, word) == |word| {
        forall i | pos < i < pos + |word| ensures i < |q.elements| && q.elements[i] == word[i - pos].kind {
          assert word[i - pos] == word[1..][i - (pos + 1)];
        }
      }
    }
  }

  lemma {:induction false} CapturesLabelled(kinds: Target -> SyntaxKind, labels: seq<string>, q: Query, name: string,
                                            pos: nat, word: seq<FieldKey>)
    requires Accepts(q, pos, MapWord(RenderAtom(kinds, labels), word)) && Missing !in q.elements
    requires Position(labels, name) == Some(q.tag)
    ensures Captured(q, pos, MapWord(RenderAtom(kinds, labels), word)) == LabelledAt(word, name, pos)
    decreases |word|
  {
    if word != [] {
      var atoms := MapWord(RenderAtom(kinds, labels), word);
      assert atoms[1..] == MapWord(RenderAtom(kinds, labels), word[1..]);
      TagNamesLabel(kinds, labels, word[0], FieldKey(word[0].target, Some(name)), q.tag);
      CapturesLabelled(kinds, labels, q, name, pos + 1, word[1..]);
    }
  }

  /** `word` derives children of exactly these kinds. */
  ghost predicate DerivesKinds(kinds: Target -> SyntaxKind, rule: Rule, elements: seq<SyntaxKind>,
                               word: seq<FieldKey>) {
    Derives(rule, None, word) && ChildKinds(kinds, word) == elements
  }

  /** The captures are the labelled children of a derivation of these kinds, and no
      derivation of these kinds has more of them. */
  ghost predicate ReadsDerivation(kinds: Target -> SyntaxKind, rule: Rule, elements: seq<SyntaxKind>, name: string,
                                  captures: seq<Option<nat>>) {
    && (exists word | DerivesKinds(kinds, rule, elements, word) :: captures == LabelledAt(word, name, 0))
    && forall word | DerivesKinds(kinds, rule, elements, word) :: |LabelledAt(word, name, 0)| <= |captures|
  }

  /** When some parse matches every child by its own kind, so does the best one. */
  lemma {:induction false} BestIsExact(p: AstPattern, q: Query, best: seq<AstAtom>, exact: seq<AstAtom>)
    requires BestParse(p, q, best) && Parses(p, q, INITIAL, exact)
    requires ExactKinds(q, 0, exact) == |exact| == |q.elements|
    ensures |best| == |q.elements| && forall i | 0 <= i < |best| :: q.elements[i] == best[i].kind
    ensures |Captured(q, 0, exact)| <= |Captured(q, 0, best)|
  {
    ExactIsBounded(q, 0, best);
    if best != [] {
      AcceptsInRange(q, 0, best);
    }
  }

  lemma {:induction false} ExactOrigin(kinds: Target -> SyntaxKind, labels: seq<string>, rule: Rule, q: Query,
                                       word: seq<AstAtom>)
    returns (origin: seq<FieldKey>)
    requires InLang(RenderPattern(kinds, labels, rule), word) && |word| == |q.elements|
    requires forall i | 0 <= i < |word| :: q.elements[i] == word[i].kind
    ensures DerivesKinds(kinds, rule, q.elements, origin) && word == MapWord(RenderAtom(kinds, labels), origin)
  {
    origin := MapOrigin(RenderAtom(kinds, labels), Leaves(rule, None), word);
    LeavesDerive(rule, None, origin);
    assert ChildKinds(kinds, origin) == q.elements;
  }

  lemma {:induction false} NoneHasMore(kinds: Target -> SyntaxKind, labels: seq<string>, rule: Rule, q: Query,
                                       name: string, word: seq<AstAtom>, known: seq<FieldKey>)
    requires Position(labels, name) == Some(q.tag) && Missing !in q.elements
    requires DerivesKinds(kinds, rule, q.elements, known)
    requires BestParse(RenderPattern(kinds, labels, rule), q, word)
    ensures |word| == |q.elements| && forall i | 0 <= i < |word| :: q.elements[i] == word[i].kind
    ensures |LabelledAt(known, name, 0)| <= |Captured(q, 0, word)|
  {
    DerivationParses(kinds, labels, rule, q, known);
    BestIsExact(RenderPattern(kinds, labels, rule), q, word, MapWord(RenderAtom(kinds, labels), known));
    CapturesLabelled(kinds, labels, q, name, 0, known);
  }

  /** The best parse of the children of a derivation is itself a derivation of them. */
  lemma {:induction false} BestIsDerivation(kinds: Target -> SyntaxKind, labels: seq<string>, rule: Rule, q: Query,
                                            name: string, word: seq<AstAtom>, known: seq<FieldKey>)
    requires Position(labels, name) == Some(q.tag) && Missing !in q.elements
    requires DerivesKinds(kinds, rule, q.elements, known)
    requires BestParse(RenderPattern(kinds, labels, rule), q, word)
    ensures ReadsDerivation(kinds, rule, q.elements, name, Captured(q, 0, word))
  {
    NoneHasMore(kinds, labels, rule, q, name, word, known);
    var origin := ExactOrigin(kinds, labels, rule, q, word);
    CapturesLabelled(kinds, labels, q, name, 0, origin);
    forall other | DerivesKinds(kinds, rule, q.elements, other)
      ensures |LabelledAt(other, name, 0)| <= |Captured(q, 0, word)|
    {
      NoneHasMore(kinds, labels, rule, q, name, word, other);
    }
  }

  lemma {:induction false} ReadsAll(kinds: Target -> SyntaxKind, rule: Rule, node: TypedNode, accessor: Accessor,
                                    q: Query, captures: seq<Option<nat>>)
    requires Modelled(rule, node) && accessor in node.accessors && accessor.tag == Some(q.tag)
    requires ReadFrom(RenderPattern(kinds, node.labels, rule), q, captures)
    ensures forall word | Derives(rule, None, word) && Recovered(kinds, q.elements, word) ::
              exists best :: BestParse(RenderPattern(kinds, node.labels, rule), q, best) &&
                             captures == Captured(q, 0, best)
    ensures forall word | DerivesKinds(kinds, rule, q.elements, word) && Missing !in q.elements ::
              ReadsDerivation(kinds, rule, q.elements, accessor.key.name.value, captures)
  {
    var pattern := RenderPattern(kinds, node.labels, rule);
    assert Typed(rule, node.labels, accessor);
    forall word | Derives(rule, None, word) && Recovered(kinds, q.elements, word)
      ensures exists best :: BestParse(pattern, q, best) && captures == Captured(q, 0, best)
    {
      DerivationParses(kinds, node.labels, rule, q, word);
    }
    forall word | DerivesKinds(kinds, rule, q.elements, word) && Missing !in q.elements
      ensures ReadsDerivation(kinds, rule, q.elements, accessor.key.name.value, captures)
    {
      assert Recovered(kinds, q.elements, word);
      var best :| BestParse(pattern, q, best) && captures == Captured(q, 0, best);
      BestIsDerivation(kinds, node.labels, rule, q, accessor.key.name.value, best, word);
    }
  }

  /** Reading a labelled accessor: the singular form keeps every capture. */
  method ReadAccessor(kinds: Target -> SyntaxKind, rule: Rule, node: TypedNode, accessor: Accessor,
                      elements: seq<SyntaxKind>)
    returns (captures: seq<Option<nat>>, first: Option<Option<nat>>)
    requires Modelled(rule, node) && accessor in node.accessors && accessor.tag.Some?
    ensures first == if captures == [] then None else Some(captures[0])
    ensures ReadFrom(RenderPattern(kinds, node.labels, rule), Query(elements, accessor.tag.value), captures)
    ensures accessor.cardinality != Many ==> captures == if first.Some? then [first.value] else []
    ensures accessor.cardinality == Required ==>
      forall word | Parses(RenderPattern(kinds, node.labels, rule), Query(elements, accessor.tag.value), INITIAL,
                           word) :: first.Some?
    // a required child is found behind the children of every derivation, `Missing` ones included
    ensures accessor.cardinality == Required ==>
      forall word | Derives(rule, None, word) && Recovered(kinds, elements, word) :: first.Some?
    ensures forall word | DerivesKinds(kinds, rule, elements, word) && Missing !in elements ::
      ReadsDerivation(kinds, rule, elements, accessor.key.name.value, captures)
  {
    var pattern, q := RenderPattern(kinds, node.labels, rule), Query(elements, accessor.tag.value);
    captures := ReadFields(pattern, q);
    first := if captures == [] then None else Some(captures[0]);
    if word :| BestParse(pattern, q, word) && captures == Captured(q, 0, word) {
      SingularCaptures(kinds, rule, node, accessor, q, word);
    }
    ReadsAll(kinds, rule, node, accessor, q, captures);
  }
}
