/** Exactly when a field count is the exact interval. An empty alternation derives
    nothing, and the count does not notice. */
module CountLaws {
  import opened Wrappers
  import opened Patterns
  import opened Rules

  /** The count over those parts of the rule that derive something; none if the
      rule itself derives nothing. */
  function LiveCount(rule: Rule, key: FieldKey, active: Option<string>): Option<Count>
    decreases rule
  {
    match rule
    case LeafRule(_) => Some(FieldCount(rule, key, active))
    case LabeledRule(name, inner) => LiveCount(inner, key, Some(name))
    case OptRule(inner) => Some(Skippable(LiveCount(inner, key, active)))
    case RepRule(inner) => Some(Repeated(LiveCount(inner, key, active)))
    case SeqRule(rules) => LiveSeq(rules, key, active)
    case AltRule(rules) => LiveAlt(rules, key, active)
  }

  function LiveSeq(rules: seq<Rule>, key: FieldKey, active: Option<string>): Option<Count>
    decreases rules
  {
    if rules == [] then Some(ZERO)
    else Both(LiveSeq(rules[..|rules| - 1], key, active), LiveCount(rules[|rules| - 1], key, active))
  }

  function LiveAlt(rules: seq<Rule>, key: FieldKey, active: Option<string>): Option<Count>
    decreases rules
  {
    if rules == [] then None
    else Either(LiveAlt(rules[..|rules| - 1], key, active), LiveCount(rules[|rules| - 1], key, active))
  }

  function Skippable(c: Option<Count>): Count {
    Count(0, if c.Some? then c.value.max else 0)
  }

  function Repeated(c: Option<Count>): Count {
    Count(0, if c.Some? && c.value.max != 0 then 2 else 0)
  }

  function Both(c: Option<Count>, d: Option<Count>): Option<Count> {
    if c.None? || d.None? then None else Some(c.value.Sequence(d.value))
  }

  function Either(c: Option<Count>, d: Option<Count>): Option<Count> {
    if c.None? then d else if d.None? then c else Some(c.value.Alternative(d.value))
  }

  /** The exact interval of a pattern that derives something, or none. */
  ghost predicate Describes(c: Option<Count>, p: Pattern<FieldKey>, key: FieldKey) {
    match c
    case None => forall word :: !InLang(p, word)
    case Some(count) => ExactCount(count, p, key)
  }

  lemma {:induction false} AttainsOf(p: Pattern<FieldKey>, key: FieldKey, word: seq<FieldKey>)
    requires InLang(p, word)
    ensures Attains(p, key, Cap(Occurrences(word, key)))
  {
  }

  lemma {:induction false} OptDescribes(c: Option<Count>, p: Pattern<FieldKey>, key: FieldKey)
    requires Describes(c, p, key)
    ensures Describes(Some(Skippable(c)), Opt(p), key)
  {
    assert InLang(Opt(p), []) && Occurrences([], key) == 0;
    AttainsOf(Opt(p), key, []);
    forall word | InLang(Opt(p), word) ensures Cap(Occurrences(word, key)) <= Skippable(c).max {
      assert word == [] || InLang(p, word);
    }
    if c.Some? {
      var word :| InLang(p, word) && Cap(Occurrences(word, key)) == c.value.max;
      AttainsOf(Opt(p), key, word);
    }
  }

  lemma {:induction false} RepDescribes(c: Option<Count>, p: Pattern<FieldKey>, key: FieldKey)
    requires Describes(c, p, key)
    ensures Describes(Some(Repeated(c)), Rep(p), key)
  {
    RepNone(p);
    assert Occurrences([], key) == 0;
    AttainsOf(Rep(p), key, []);
    if c.Some? {
      RepAttains(p, key, c.value.max);
    }
    if Repeated(c).max == 0 {
      forall word | InLang(Rep(p), word) ensures Occurrences(word, key) == 0 {
        var words: seq<seq<FieldKey>> :| Flatten(words) == word && forall x | x in words :: InLang(p, x);
        NoneInFlatten(words, key);
      }
    }
  }

  lemma {:induction false} SeqDescribes(c: Option<Count>, parts: seq<Pattern<FieldKey>>, d: Option<Count>,
                                        part: Pattern<FieldKey>, key: FieldKey)
    requires Describes(c, Seq(parts), key) && Describes(d, part, key)
    ensures Describes(Both(c, d), Seq(parts + [part]), key)
  {
    if c.Some? && d.Some? {
      SeqExact(c.value, parts, d.value, part, key);
    } else {
      forall word ensures !InLang(Seq(parts + [part]), word) {
        if InLang(Seq(parts + [part]), word) {
          var left, right := SeqSplit(parts, part, word);
        }
      }
    }
  }

  lemma {:induction false} SeqExact(c: Count, parts: seq<Pattern<FieldKey>>, d: Count, part: Pattern<FieldKey>,
                                    key: FieldKey)
    requires ExactCount(c, Seq(parts), key) && ExactCount(d, part, key)
    ensures ExactCount(c.Sequence(d), Seq(parts + [part]), key)
  {
    forall word | InLang(Seq(parts + [part]), word)
      ensures c.Sequence(d).min <= Cap(Occurrences(word, key)) <= c.Sequence(d).max {
      SeqWordWithin(c, parts, d, part, key, word);
    }
    SeqAttains(parts, part, key, c.min, d.min);
    SeqAttains(parts, part, key, c.max, d.max);
  }

  lemma {:induction false} SeqWordWithin(c: Count, parts: seq<Pattern<FieldKey>>, d: Count, part: Pattern<FieldKey>,
                                         key: FieldKey, word: seq<FieldKey>)
    requires Within(c, Seq(parts), key) && Within(d, part, key) && InLang(Seq(parts + [part]), word)
    ensures c.Sequence(d).min <= Cap(Occurrences(word, key)) <= c.Sequence(d).max
  {
    var left, right := SeqSplit(parts, part, word);
    OccurrencesJoin(left, right, key);
    CapAdds(c, d, Occurrences(left, key), Occurrences(right, key));
  }

  lemma {:induction false} CapAdds(c: Count, d: Count, m: nat, n: nat)
    requires c.min <= Cap(m) <= c.max && d.min <= Cap(n) <= d.max
    ensures c.Sequence(d).min <= Cap(m + n) <= c.Sequence(d).max
  {
  }

  lemma {:induction false} AltSnoc(parts: seq<Pattern<FieldKey>>, part: Pattern<FieldKey>, word: seq<FieldKey>)
    ensures InLang(Alt(parts + [part]), word) <==> InLang(Alt(parts), word) || InLang(part, word)
  {
    var all := parts + [part];
    if InLang(Alt(parts), word) {
      var i :| 0 <= i < |parts| && InLang(parts[i], word);
      assert all[i] == parts[i];
    }
    assert all[|parts|] == part;
  }

  lemma {:induction false} AltDescribes(c: Option<Count>, parts: seq<Pattern<FieldKey>>, d: Option<Count>,
                                        part: Pattern<FieldKey>, key: FieldKey)
    requires Describes(c, Alt(parts), key) && Describes(d, part, key)
    ensures Describes(Either(c, d), Alt(parts + [part]), key)
  {
    var all, both := Alt(parts + [part]), Either(c, d);
    forall word | InLang(all, word) ensures both.Some? &&
        both.value.min <= Cap(Occurrences(word, key)) <= both.value.max {
      AltWordWithin(c, parts, d, part, key, word);
    }
    if both.Some? {
      AltAttainsBoth(c, parts, d, part, key);
    }
  }

  lemma {:induction false} AltWordWithin(c: Option<Count>, parts: seq<Pattern<FieldKey>>, d: Option<Count>,
                                         part: Pattern<FieldKey>, key: FieldKey, word: seq<FieldKey>)
    requires Describes(c, Alt(parts), key) && Describes(d, part, key) && InLang(Alt(parts + [part]), word)
    ensures Either(c, d).Some? && Either(c, d).value.min <= Cap(Occurrences(word, key)) <= Either(c, d).value.max
  {
    AltSnoc(parts, part, word);
    if InLang(Alt(parts), word) {
      WordWithin(c, Alt(parts), key, word);
    } else {
      WordWithin(d, part, key, word);
    }
  }

  lemma {:induction false} WordWithin(c: Option<Count>, p: Pattern<FieldKey>, key: FieldKey, word: seq<FieldKey>)
    requires Describes(c, p, key) && InLang(p, word)
    ensures c.Some? && c.value.min <= Cap(Occurrences(word, key)) <= c.value.max
  {
  }

  lemma {:induction false} AltAttainsBoth(c: Option<Count>, parts: seq<Pattern<FieldKey>>, d: Option<Count>,
                                          part: Pattern<FieldKey>, key: FieldKey)
    requires Describes(c, Alt(parts), key) && Describes(d, part, key) && Either(c, d).Some?
    ensures Attains(Alt(parts + [part]), key, Either(c, d).value.min) &&
            Attains(Alt(parts + [part]), key, Either(c, d).value.max)
  {
    if c.Some? {
      AltMore(parts, part, key, c.value.min);
      AltMore(parts, part, key, c.value.max);
    }
    if d.Some? {
      assert (parts + [part])[|parts|] == part;
      AltAttains(parts + [part], |parts|, key, d.value.min);
      AltAttains(parts + [part], |parts|, key, d.value.max);
    }
  }

  /** The live count is the exact interval of every rule, empty alternations or not. */
  lemma {:induction false} LiveCountIsExact(rule: Rule, key: FieldKey, active: Option<string>)
    ensures Describes(LiveCount(rule, key, active), Leaves(rule, active), key)
    decreases rule, 0
  {
    match rule
    case LeafRule(target) => CountIsExact(rule, key, active);
    case LabeledRule(name, inner) => LiveCountIsExact(inner, key, Some(name));
    case OptRule(inner) =>
      LiveCountIsExact(inner, key, active);
      OptDescribes(LiveCount(inner, key, active), Leaves(inner, active), key);
    case RepRule(inner) =>
      LiveCountIsExact(inner, key, active);
      RepDescribes(LiveCount(inner, key, active), Leaves(inner, active), key);
    case SeqRule(rules) => LiveSeqIsExact(rules, key, active);
    case AltRule(rules) => LiveAltIsExact(rules, key, active);
  }

  lemma {:induction false} LiveSeqIsExact(rules: seq<Rule>, key: FieldKey, active: Option<string>)
    ensures Describes(LiveSeq(rules, key, active), Seq(AllLeaves(rules, active)), key)
    decreases rules, 1
  {
    if rules == [] {
      CountIsExact(SeqRule([]), key, active);
    } else {
      var init, last := rules[..|rules| - 1], rules[|rules| - 1];
      LiveSeqIsExact(init, key, active);
      LiveCountIsExact(last, key, active);
      SeqDescribes(LiveSeq(init, key, active), AllLeaves(init, active), LiveCount(last, key, active),
                   Leaves(last, active), key);
      assert AllLeaves(rules, active) == AllLeaves(init, active) + [Leaves(last, active)];
    }
  }

  lemma {:induction false} LiveAltIsExact(rules: seq<Rule>, key: FieldKey, active: Option<string>)
    ensures Describes(LiveAlt(rules, key, active), Alt(AllLeaves(rules, active)), key)
    decreases rules, 1
  {
    if rules != [] {
      var init, last := rules[..|rules| - 1], rules[|rules| - 1];
      LiveAltIsExact(init, key, active);
      LiveCountIsExact(last, key, active);
      AltDescribes(LiveAlt(init, key, active), AllLeaves(init, active), LiveCount(last, key, active),
                   Leaves(last, active), key);
      assert AllLeaves(rules, active) == AllLeaves(init, active) + [Leaves(last, active)];
    }
  }

  lemma {:induction false} ExactIsUnique(c: Count, d: Count, p: Pattern<FieldKey>, key: FieldKey)
    requires ExactCount(c, p, key) && ExactCount(d, p, key)
    ensures c == d
  {
    var low :| InLang(p, low) && Cap(Occurrences(low, key)) == c.min;
    var high :| InLang(p, high) && Cap(Occurrences(high, key)) == c.max;
    var low' :| InLang(p, low') && Cap(Occurrences(low', key)) == d.min;
    var high' :| InLang(p, high') && Cap(Occurrences(high', key)) == d.max;
  }

  /** A field count is exact if and only if leaving out what derives nothing would
      not change it. The two differ only around an empty alternation, which no parsed
      grammar has: what a caller checks is NoEmptyAlternation, as below. */
  lemma {:induction false} CountIsExactIff(rule: Rule, key: FieldKey, active: Option<string>)
    ensures ExactCount(FieldCount(rule, key, active), Leaves(rule, active), key) <==>
              LiveCount(rule, key, active) == Some(FieldCount(rule, key, active))
  {
    LiveCountIsExact(rule, key, active);
    var c, live := FieldCount(rule, key, active), LiveCount(rule, key, active);
    if ExactCount(c, Leaves(rule, active), key) {
      var word :| InLang(Leaves(rule, active), word) && Cap(Occurrences(word, key)) == c.min;
      ExactIsUnique(c, live.value, Leaves(rule, active), key);
    }
  }

  /** Without empty alternations nothing is left out. */
  lemma {:induction false} NoEmptyIsLive(rule: Rule, key: FieldKey, active: Option<string>)
    requires NoEmptyAlternation(rule)
    ensures LiveCount(rule, key, active) == Some(FieldCount(rule, key, active))
  {
    CountIsExact(rule, key, active);
    CountIsExactIff(rule, key, active);
  }
}
