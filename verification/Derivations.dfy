/** What a grammar rule derives, read off the rule itself: the children of a node
    in order, each with the label active at its leaf. */
module Derivations {
  import opened Wrappers
  import opened Patterns
  import opened Rules
  import opened Matching

  ghost predicate Derives(rule: Rule, active: Option<string>, word: seq<FieldKey>)
    decreases rule
  {
    match rule
    case LeafRule(target) => word == [FieldKey(target, active)]
    case LabeledRule(name, inner) => Derives(inner, Some(name), word)
    case OptRule(inner) => word == [] || Derives(inner, active, word)
    case RepRule(inner) =>
      exists words: seq<seq<FieldKey>> :: Flatten(words) == word && forall x | x in words :: Derives(inner, active, x)
    case SeqRule(rules) =>
      exists words: seq<seq<FieldKey>> :: |words| == |rules| && Flatten(words) == word &&
        forall i | 0 <= i < |rules| :: Derives(rules[i], active, words[i])
    case AltRule(rules) => exists i | 0 <= i < |rules| :: Derives(rules[i], active, word)
  }

  /** The pattern of a rule derives exactly the rule's derivations. */
  lemma {:induction false} LeavesDerive(rule: Rule, active: Option<string>, word: seq<FieldKey>)
    ensures InLang(Leaves(rule, active), word) <==> Derives(rule, active, word)
    decreases rule
  {
    match rule
    case LeafRule(_) =>
    case LabeledRule(name, inner) => LeavesDerive(inner, Some(name), word);
    case OptRule(inner) => LeavesDerive(inner, active, word);
    case RepRule(inner) =>
      forall x ensures InLang(Leaves(inner, active), x) <==> Derives(inner, active, x) {
        LeavesDerive(inner, active, x);
      }
    case SeqRule(rules) =>
      forall i, x | 0 <= i < |rules| ensures InLang(AllLeaves(rules, active)[i], x) <==> Derives(rules[i], active, x) {
        LeavesDerive(rules[i], active, x);
      }
      SeqDerives(rules, AllLeaves(rules, active), active, word);
    case AltRule(rules) =>
      forall i | 0 <= i < |rules| ensures InLang(AllLeaves(rules, active)[i], word) <==> Derives(rules[i], active, word)
      {
        LeavesDerive(rules[i], active, word);
      }
  }

  lemma {:induction false} SeqDerives(rules: seq<Rule>, parts: seq<Pattern<FieldKey>>, active: Option<string>,
                                      word: seq<FieldKey>)
    requires |parts| == |rules|
    requires forall i, x | 0 <= i < |rules| :: InLang(parts[i], x) <==> Derives(rules[i], active, x)
    ensures InLang(Seq(parts), word) <==> Derives(SeqRule(rules), active, word)
  {
    if InLang(Seq(parts), word) {
      var words := SeqWords(parts, word);
      assert forall i | 0 <= i < |rules| :: Derives(rules[i], active, words[i]);
    }
    if Derives(SeqRule(rules), active, word) {
      var words: seq<seq<FieldKey>> :| |words| == |rules| && Flatten(words) == word &&
        forall i | 0 <= i < |rules| :: Derives(rules[i], active, words[i]);
      SeqWitness(parts, words);
    }
  }

  /** The targets of the children of a derivation, labels aside. */
  function ChildTargets(word: seq<FieldKey>): (r: seq<Target>) {
    seq(|word|, i requires 0 <= i < |word| => word[i].target)
  }

  /** The kinds of the children of a node with this derivation. */
  function ChildKinds(kinds: Target -> SyntaxKind, word: seq<FieldKey>): (r: seq<SyntaxKind>) {
    seq(|word|, i requires 0 <= i < |word| => kinds(word[i].target))
  }

  /** Where the children of a derivation with a given label stand. */
  ghost function LabelledAt(word: seq<FieldKey>, name: string, pos: nat): seq<Option<nat>> {
    if word == [] then []
    else (if word[0].name == Some(name) then [Some(pos)] else []) + LabelledAt(word[1..], name, pos + 1)
  }

  // ----- what a cardinality promises -----

  ghost function Words(rule: Rule): iset<seq<FieldKey>> {
    iset word | Derives(rule, None, word)
  }

  ghost predicate AllHold(words: iset<seq<FieldKey>>, key: FieldKey, count: Count) {
    forall word | word in words :: count.min <= Cap(Occurrences(word, key)) <= count.max
  }

  ghost predicate SomeCaps(words: iset<seq<FieldKey>>, key: FieldKey, n: nat) {
    exists word | word in words :: Cap(Occurrences(word, key)) == n
  }

  /** What a cardinality promises about derivations: always once; none, once and
      never twice; or twice and more somewhere. */
  ghost predicate Promises(words: iset<seq<FieldKey>>, key: FieldKey, c: Cardinality) {
    && (c == Required <==> forall word | word in words :: Occurrences(word, key) == 1)
    && (c == Optional <==> && (exists word | word in words :: Occurrences(word, key) == 0)
                           && (exists word | word in words :: Occurrences(word, key) == 1)
                           && !exists word | word in words :: Occurrences(word, key) >= 2)
    && (c == Many <==> exists word | word in words :: Occurrences(word, key) >= 2)
  }

  lemma {:induction false} ExactPromises(words: iset<seq<FieldKey>>, key: FieldKey, count: Count)
    requires AllHold(words, key, count) && SomeCaps(words, key, count.min) && SomeCaps(words, key, count.max)
    requires count.max >= 1
    ensures Promises(words, key, count.Cardinality())
  {
    var low :| low in words && Cap(Occurrences(low, key)) == count.min;
    var high :| high in words && Cap(Occurrences(high, key)) == count.max;
  }

  /** Without empty alternations the fields of a rule are those that some derivation holds. */
  lemma {:induction false} FieldsOccur(rule: Rule, key: FieldKey)
    requires NoEmptyAlternation(rule)
    ensures key in Atoms(Leaves(rule, None)) <==> exists word | word in Words(rule) :: key in word
  {
    if word :| word in Words(rule) && key in word {
      LeavesDerive(rule, None, word);
      WordUsesAtoms(Leaves(rule, None), word);
    }
    if key in Atoms(Leaves(rule, None)) {
      OccurringKeyCounts(rule, key, None);
      DerivedCounts(rule, key);
      SomeHold(Words(rule), key, FieldCount(rule, key, None).max);
    }
  }

  lemma {:induction false} SomeHold(words: iset<seq<FieldKey>>, key: FieldKey, n: nat)
    requires n >= 1 && SomeCaps(words, key, n)
    ensures exists word | word in words :: key in word
  {
    var word :| word in words && Cap(Occurrences(word, key)) == n;
    assert key in word;
  }

  /** Without empty alternations the cardinality of a field says how often derivations hold it. */
  lemma {:induction false} CardinalityMeans(rule: Rule, key: FieldKey)
    requires NoEmptyAlternation(rule) && key in Atoms(Leaves(rule, None))
    ensures Promises(Words(rule), key, FieldCount(rule, key, None).Cardinality())
  {
    DerivedCounts(rule, key);
    OccurringKeyCounts(rule, key, None);
    ExactPromises(Words(rule), key, FieldCount(rule, key, None));
  }

  lemma {:induction false} DerivedCounts(rule: Rule, key: FieldKey)
    requires NoEmptyAlternation(rule)
    ensures var count := FieldCount(rule, key, None);
            && AllHold(Words(rule), key, count)
            && SomeCaps(Words(rule), key, count.min) && SomeCaps(Words(rule), key, count.max)
  {
    var p, count := Leaves(rule, None), FieldCount(rule, key, None);
    CountIsExact(rule, key, None);
    forall word | word in Words(rule) ensures count.min <= Cap(Occurrences(word, key)) <= count.max {
      LeavesDerive(rule, None, word);
    }
    var low :| InLang(p, low) && Cap(Occurrences(low, key)) == count.min;
    var high :| InLang(p, high) && Cap(Occurrences(high, key)) == count.max;
    LeavesDerive(rule, None, low);
    LeavesDerive(rule, None, high);
    assert low in Words(rule) && high in Words(rule);
  }
}
