/** Grammar rules of a typed-AST node, and the cardinality analysis of its fields. */
module Rules {
  import opened Wrappers
  import opened Patterns

  datatype Target = Node(id: nat) | Token(id: nat)

  datatype Rule =
    | LeafRule(target: Target)
    | LabeledRule(name: string, rule: Rule)
    | OptRule(rule: Rule)
    | RepRule(rule: Rule)
    | SeqRule(rules: seq<Rule>)
    | AltRule(rules: seq<Rule>)

  /** A field: a child target under the label active at its place, if any. */
  datatype FieldKey = FieldKey(target: Target, name: Option<string>)

  /** The pattern a rule stands for, each leaf carrying its active label. */
  function Leaves(rule: Rule, active: Option<string>): Pattern<FieldKey>
    decreases rule
  {
    match rule
    case LeafRule(target) => Atom(FieldKey(target, active))
    case LabeledRule(name, inner) => Leaves(inner, Some(name))
    case OptRule(inner) => Opt(Leaves(inner, active))
    case RepRule(inner) => Rep(Leaves(inner, active))
    case SeqRule(rules) => Seq(AllLeaves(rules, active))
    case AltRule(rules) => Alt(AllLeaves(rules, active))
  }

  function AllLeaves(rules: seq<Rule>, active: Option<string>): (r: seq<Pattern<FieldKey>>)
    ensures |r| == |rules| && forall i | 0 <= i < |rules| :: r[i] == Leaves(rules[i], active)
    decreases rules
  {
    if rules == [] then []
    else AllLeaves(rules[..|rules| - 1], active) + [Leaves(rules[|rules| - 1], active)]
  }

  // ----- the abstract count -----

  datatype Cardinality = Required | Optional | Many

  datatype Count = Count(min: nat, max: nat) {
    function Cardinality(): Cardinality {
      if (min, max) == (1, 1) then Required
      else if (min, max) == (0, 1) then Optional
      else Many
    }

    function Sequence(other: Count): Count {
      Count(Cap(min + other.min), Cap(max + other.max))
    }

    function Alternative(other: Count): Count {
      Count(if min <= other.min then min else other.min, if max >= other.max then max else other.max)
    }
  }

  const ZERO := Count(0, 0)
  const ONE := Count(1, 1)

  function Cap(n: nat): nat {
    if n < 2 then n else 2
  }

  function FieldCount(rule: Rule, key: FieldKey, active: Option<string>): Count
    decreases rule
  {
    match rule
    case LeafRule(target) => if FieldKey(target, active) == key then ONE else ZERO
    case LabeledRule(name, inner) => FieldCount(inner, key, Some(name))
    case OptRule(inner) => FieldCount(inner, key, active).(min := 0)
    case RepRule(inner) => Count(0, if FieldCount(inner, key, active).max != 0 then 2 else 0)
    case SeqRule(rules) => SeqCount(rules, key, active)
    case AltRule(rules) => AltCount(rules, key, active)
  }

  function SeqCount(rules: seq<Rule>, key: FieldKey, active: Option<string>): Count
    decreases rules
  {
    if rules == [] then ZERO
    else SeqCount(rules[..|rules| - 1], key, active).Sequence(FieldCount(rules[|rules| - 1], key, active))
  }

  function AltCount(rules: seq<Rule>, key: FieldKey, active: Option<string>): Count
    decreases rules
  {
    if rules == [] then ZERO
    else if |rules| == 1 then FieldCount(rules[0], key, active)
    else AltCount(rules[..|rules| - 1], key, active).Alternative(FieldCount(rules[|rules| - 1], key, active))
  }

  // ----- what the count means -----

  function Occurrences(word: seq<FieldKey>, key: FieldKey): nat {
    multiset(word)[key]
  }

  lemma {:induction false} OccurrencesJoin(left: seq<FieldKey>, right: seq<FieldKey>, key: FieldKey)
    ensures Occurrences(left + right, key) == Occurrences(left, key) + Occurrences(right, key)
  {
    assert multiset(left + right) == multiset(left) + multiset(right);
  }

  ghost predicate Within(c: Count, p: Pattern<FieldKey>, key: FieldKey) {
    forall word | InLang(p, word) :: c.min <= Cap(Occurrences(word, key)) <= c.max
  }

  ghost predicate Attains(p: Pattern<FieldKey>, key: FieldKey, n: nat) {
    exists word | InLang(p, word) :: Cap(Occurrences(word, key)) == n
  }

  /** The count is the exact interval, capped at two, of occurrences over all derivations. */
  ghost predicate ExactCount(c: Count, p: Pattern<FieldKey>, key: FieldKey) {
    Within(c, p, key) && Attains(p, key, c.min) && Attains(p, key, c.max)
  }

  /** No derivation leaves the interval, whatever the rule. */
  lemma {:induction false} CountIsSound(rule: Rule, key: FieldKey, active: Option<string>)
    ensures Within(FieldCount(rule, key, active), Leaves(rule, active), key)
    decreases rule, 0
  {
    match rule
    case LeafRule(target) =>
      assert forall word | InLang(Leaves(rule, active), word) :: word == [FieldKey(target, active)];
    case LabeledRule(name, inner) => CountIsSound(inner, key, Some(name));
    case OptRule(inner) => CountIsSound(inner, key, active);
    case RepRule(inner) =>
      CountIsSound(inner, key, active);
      var p := Leaves(inner, active);
      forall word | InLang(Rep(p), word) ensures FieldCount(inner, key, active).max == 0 ==>
            Occurrences(word, key) == 0 {
        if FieldCount(inner, key, active).max == 0 {
          var words: seq<seq<FieldKey>> :| Flatten(words) == word && forall x | x in words :: InLang(p, x);
          NoneInFlatten(words, key);
        }
      }
    case SeqRule(rules) => SeqCountIsSound(rules, key, active);
    case AltRule(rules) => AltCountIsSound(rules, key, active);
  }

  lemma {:induction false} NoneInFlatten(words: seq<seq<FieldKey>>, key: FieldKey)
    requires forall x | x in words :: Occurrences(x, key) == 0
    ensures Occurrences(Flatten(words), key) == 0
  {
    if words != [] {
      NoneInFlatten(words[1..], key);
      OccurrencesJoin(words[0], Flatten(words[1..]), key);
    }
  }

  lemma {:induction false} SeqCountIsSound(rules: seq<Rule>, key: FieldKey, active: Option<string>)
    ensures Within(SeqCount(rules, key, active), Seq(AllLeaves(rules, active)), key)
    decreases rules, 1
  {
    if rules == [] {
      forall word | InLang<FieldKey>(Seq([]), word) ensures word == [] {
      }
    } else {
      var init, last := rules[..|rules| - 1], rules[|rules| - 1];
      SeqCountIsSound(init, key, active);
      CountIsSound(last, key, active);
      forall word | InLang(Seq(AllLeaves(rules, active)), word)
        ensures SeqCount(rules, key, active).min <= Cap(Occurrences(word, key)) <= SeqCount(rules, key, active).max
      {
        var left, right := SeqSplit(AllLeaves(init, active), Leaves(last, active), word);
        OccurrencesJoin(left, right, key);
      }
    }
  }

  lemma {:induction false} AltCountIsSound(rules: seq<Rule>, key: FieldKey, active: Option<string>)
    ensures Within(AltCount(rules, key, active), Alt(AllLeaves(rules, active)), key)
    decreases rules, 1
  {
    if rules != [] {
      var init, last := rules[..|rules| - 1], rules[|rules| - 1];
      var parts := AllLeaves(rules, active);
      CountIsSound(last, key, active);
      if |rules| > 1 {
        AltCountIsSound(init, key, active);
      }
      forall word | InLang(Alt(parts), word)
        ensures AltCount(rules, key, active).min <= Cap(Occurrences(word, key)) <= AltCount(rules, key, active).max
      {
        var i :| 0 <= i < |parts| && InLang(parts[i], word);
        if i < |init| {
          assert AllLeaves(init, active)[i] == parts[i];
          assert InLang(Alt(AllLeaves(init, active)), word);
        }
      }
    }
  }

  /** No alternation anywhere in the rule is empty. */
  predicate NoEmptyAlternation(rule: Rule)
    decreases rule
  {
    match rule
    case LeafRule(_) => true
    case LabeledRule(_, inner) => NoEmptyAlternation(inner)
    case OptRule(inner) => NoEmptyAlternation(inner)
    case RepRule(inner) => NoEmptyAlternation(inner)
    case SeqRule(rules) => forall i | 0 <= i < |rules| :: NoEmptyAlternation(rules[i])
    case AltRule(rules) => rules != [] && forall i | 0 <= i < |rules| :: NoEmptyAlternation(rules[i])
  }

  lemma {:induction false} CountIsAttained(rule: Rule, key: FieldKey, active: Option<string>)
    requires NoEmptyAlternation(rule)
    ensures Attains(Leaves(rule, active), key, FieldCount(rule, key, active).min)
    ensures Attains(Leaves(rule, active), key, FieldCount(rule, key, active).max)
    decreases rule, 0
  {
    var p := Leaves(rule, active);
    match rule
    case LeafRule(target) => assert InLang(p, [FieldKey(target, active)]);
    case LabeledRule(name, inner) => CountIsAttained(inner, key, Some(name));
    case OptRule(inner) =>
      CountIsAttained(inner, key, active);
      var max := FieldCount(inner, key, active).max;
      var word :| InLang(Leaves(inner, active), word) && Cap(Occurrences(word, key)) == max;
      assert InLang(p, word) && InLang(p, []);
      assert Occurrences([], key) == 0;
    case RepRule(inner) =>
      CountIsAttained(inner, key, active);
      RepAttains(Leaves(inner, active), key, FieldCount(inner, key, active).max);
    case SeqRule(rules) => SeqCountIsAttained(rules, key, active);
    case AltRule(rules) => AltCountIsAttained(rules, key, active);
  }

  lemma {:induction false} RepAttains(body: Pattern<FieldKey>, key: FieldKey, max: nat)
    requires Attains(body, key, max)
    ensures Attains(Rep(body), key, 0) && (max != 0 ==> Attains(Rep(body), key, 2))
  {
    RepNone(body);
    assert Occurrences([], key) == 0;
    if max != 0 {
      var word :| InLang(body, word) && Cap(Occurrences(word, key)) == max;
      RepSnoc(body, [], word);
      assert [] + word == word;
      RepSnoc(body, word, word);
      OccurrencesJoin(word, word, key);
      assert InLang(Rep(body), word + word) && Cap(Occurrences(word + word, key)) == 2;
    }
  }

  lemma {:induction false} SeqAttains(parts: seq<Pattern<FieldKey>>, part: Pattern<FieldKey>, key: FieldKey, m: nat,
                                      n: nat)
    requires Attains(Seq(parts), key, m) && Attains(part, key, n)
    ensures Attains(Seq(parts + [part]), key, Cap(m + n))
  {
    var left :| InLang(Seq(parts), left) && Cap(Occurrences(left, key)) == m;
    var right :| InLang(part, right) && Cap(Occurrences(right, key)) == n;
    SeqSnoc(parts, part, left, right);
    OccurrencesJoin(left, right, key);
    assert Cap(Occurrences(left + right, key)) == Cap(m + n);
  }

  lemma {:induction false} SeqCountIsAttained(rules: seq<Rule>, key: FieldKey, active: Option<string>)
    requires forall i | 0 <= i < |rules| :: NoEmptyAlternation(rules[i])
    ensures Attains(Seq(AllLeaves(rules, active)), key, SeqCount(rules, key, active).min)
    ensures Attains(Seq(AllLeaves(rules, active)), key, SeqCount(rules, key, active).max)
    decreases rules, 1
  {
    if rules == [] {
      var none: seq<seq<FieldKey>> := [];
      assert Flatten(none) == [];
      assert InLang<FieldKey>(Seq([]), []);
      assert Occurrences([], key) == 0;
    } else {
      var init, last := rules[..|rules| - 1], rules[|rules| - 1];
      SeqCountIsAttained(init, key, active);
      CountIsAttained(last, key, active);
      var parts, part := AllLeaves(init, active), Leaves(last, active);
      var c, d := SeqCount(init, key, active), FieldCount(last, key, active);
      SeqAttains(parts, part, key, c.min, d.min);
      SeqAttains(parts, part, key, c.max, d.max);
    }
  }

  lemma {:induction false} AltAttains(parts: seq<Pattern<FieldKey>>, i: nat, key: FieldKey, n: nat)
    requires i < |parts| && Attains(parts[i], key, n)
    ensures Attains(Alt(parts), key, n)
  {
    var word :| InLang(parts[i], word) && Cap(Occurrences(word, key)) == n;
    assert InLang(Alt(parts), word);
  }

  lemma {:induction false} AltMore(parts: seq<Pattern<FieldKey>>, part: Pattern<FieldKey>, key: FieldKey, n: nat)
    requires Attains(Alt(parts), key, n)
    ensures Attains(Alt(parts + [part]), key, n)
  {
    var word :| InLang(Alt(parts), word) && Cap(Occurrences(word, key)) == n;
    var i :| 0 <= i < |parts| && InLang(parts[i], word);
    assert (parts + [part])[i] == parts[i];
    assert InLang(Alt(parts + [part]), word);
  }

  lemma {:induction false} AltCountIsAttained(rules: seq<Rule>, key: FieldKey, active: Option<string>)
    requires rules != [] && forall i | 0 <= i < |rules| :: NoEmptyAlternation(rules[i])
    ensures Attains(Alt(AllLeaves(rules, active)), key, AltCount(rules, key, active).min)
    ensures Attains(Alt(AllLeaves(rules, active)), key, AltCount(rules, key, active).max)
    decreases rules, 1
  {
    var init, last := rules[..|rules| - 1], rules[|rules| - 1];
    var parts := AllLeaves(rules, active);
    var d := FieldCount(last, key, active);
    CountIsAttained(last, key, active);
    AltAttains(parts, |rules| - 1, key, d.min);
    AltAttains(parts, |rules| - 1, key, d.max);
    if |rules| > 1 {
      AltCountIsAttained(init, key, active);
      var c := AltCount(init, key, active);
      AltMore(AllLeaves(init, active), Leaves(last, active), key, c.min);
      AltMore(AllLeaves(init, active), Leaves(last, active), key, c.max);
      assert parts == AllLeaves(init, active) + [Leaves(last, active)];
    }
  }

  /** A key that occurs in the rule can occur at least once: its count is never
      the empty interval. */
  lemma {:induction false} OccurringKeyCounts(rule: Rule, key: FieldKey, active: Option<string>)
    requires key in Atoms(Leaves(rule, active))
    ensures FieldCount(rule, key, active).max >= 1
    decreases rule, 0
  {
    match rule
    case LeafRule(_) =>
    case LabeledRule(name, inner) => OccurringKeyCounts(inner, key, Some(name));
    case OptRule(inner) => OccurringKeyCounts(inner, key, active);
    case RepRule(inner) => OccurringKeyCounts(inner, key, active);
    case SeqRule(rules) => OccurringKeySums(rules, key, active);
    case AltRule(rules) => OccurringKeySums(rules, key, active);
  }

  lemma {:induction false} OccurringKeySums(rules: seq<Rule>, key: FieldKey, active: Option<string>)
    requires key in AllAtoms(AllLeaves(rules, active))
    ensures SeqCount(rules, key, active).max >= 1 && AltCount(rules, key, active).max >= 1
    decreases rules, 1
  {
    var init, last := rules[..|rules| - 1], rules[|rules| - 1];
    var parts := AllLeaves(rules, active);
    assert parts[..|parts| - 1] == AllLeaves(init, active) && parts[|parts| - 1] == Leaves(last, active);
    if key in Atoms(Leaves(last, active)) {
      OccurringKeyCounts(last, key, active);
    } else {
      OccurringKeySums(init, key, active);
    }
  }

  lemma {:induction false} CountIsExact(rule: Rule, key: FieldKey, active: Option<string>)
    requires NoEmptyAlternation(rule)
    ensures ExactCount(FieldCount(rule, key, active), Leaves(rule, active), key)
  {
    CountIsSound(rule, key, active);
    CountIsAttained(rule, key, active);
  }

  /** Without the restriction the count can be strictly too wide. */
  lemma {:induction false} EmptyAlternationIsInexact()
    ensures var rule, key := AltRule([AltRule([]), LeafRule(Node(0))]), FieldKey(Node(0), None);
      FieldCount(rule, key, None) == Count(0, 1) && !ExactCount(FieldCount(rule, key, None), Leaves(rule, None), key)
  {
    var rule, key := AltRule([AltRule([]), LeafRule(Node(0))]), FieldKey(Node(0), None);
    var empty: Rule := AltRule([]);
    var leaf: Rule := LeafRule(Node(0));
    assert rule.rules[..1] == [empty];
    assert AltCount([empty], key, None) == FieldCount(empty, key, None) == ZERO;
    assert FieldCount(leaf, key, None) == ONE;
    assert AltCount(rule.rules, key, None) == Count(0, 1);
    var parts := AllLeaves(rule.rules, None);
    forall word | InLang(Leaves(rule, None), word) ensures Occurrences(word, key) == 1 {
      var i :| 0 <= i < |parts| && InLang(parts[i], word);
      assert parts[0] == Alt([]) && parts[1] == Atom(key);
      assert word == [key];
    }
  }
}
