/** Unlabelled accessors read a node's children by kind alone: the first child of the
    kind, or all of them. When that is the accessor's own field. */
module Aggregates {
  import opened Wrappers
  import opened Patterns
  import opened Matching
  import opened Rules
  import opened Derivations
  import opened CountLaws

  // ----- the first child of a target -----

  /** Whether a target occurs in a word and, if so, how its first occurrence is labelled. */
  datatype Look = Absent | First(name: Option<string>)

  function LookOf(word: seq<FieldKey>, target: Target): Look {
    if word == [] then Absent
    else if word[0].target == target then First(word[0].name)
    else LookOf(word[1..], target)
  }

  function Then(a: Look, b: Look): Look {
    if a.Absent? then b else a
  }

  lemma {:induction false} LookJoin(left: seq<FieldKey>, right: seq<FieldKey>, target: Target)
    ensures LookOf(left + right, target) == Then(LookOf(left, target), LookOf(right, target))
    decreases |left|
  {
    if left == [] {
      assert left + right == right;
    } else {
      LookJoin(left[1..], right, target);
      assert (left + right)[1..] == left[1..] + right;
    }
  }

  /** The looks of a pattern's words, computed. */
  function Looks(p: Pattern<FieldKey>, target: Target): set<Look>
    decreases p
  {
    match p
    case Atom(key) => {if key.target == target then First(key.name) else Absent}
    case Seq(parts) => SeqLooks(parts, target)
    case Alt(parts) => AltLooks(parts, target)
    case Opt(body) => Looks(body, target) + {Absent}
    case Rep(body) => Looks(body, target) + {Absent}
  }

  function SeqLooks(parts: seq<Pattern<FieldKey>>, target: Target): set<Look>
    decreases parts
  {
    if parts == [] then {Absent}
    else
      set a, b | a in SeqLooks(parts[..|parts| - 1], target) && b in Looks(parts[|parts| - 1], target) :: Then(a, b)
  }

  function AltLooks(parts: seq<Pattern<FieldKey>>, target: Target): set<Look>
    decreases parts
  {
    if parts == [] then {} else AltLooks(parts[..|parts| - 1], target) + Looks(parts[|parts| - 1], target)
  }

  ghost predicate Shows(p: Pattern<FieldKey>, target: Target, look: Look) {
    exists word | InLang(p, word) :: LookOf(word, target) == look
  }

  lemma {:induction false} ShowsOf(p: Pattern<FieldKey>, target: Target, word: seq<FieldKey>)
    requires InLang(p, word)
    ensures Shows(p, target, LookOf(word, target))
  {
  }

  /** The computed looks are exactly the looks of the derived words. */
  lemma {:induction false} LooksAreExact(p: Pattern<FieldKey>, target: Target, look: Look)
    ensures look in Looks(p, target) <==> Shows(p, target, look)
    decreases p, 0
  {
    match p
    case Atom(key) =>
      AtomShows(key, target, look);
    case Seq(parts) => SeqLooksAreExact(parts, target, look);
    case Alt(parts) => AltLooksAreExact(parts, target, look);
    case Opt(body) =>
      LooksAreExact(body, target, look);
      OptShows(body, target, look);
    case Rep(body) =>
      forall l ensures l in Looks(body, target) <==> Shows(body, target, l) {
        LooksAreExact(body, target, l);
      }
      RepShows(body, target, Looks(body, target), look);
  }

  lemma {:induction false} AtomShows(key: FieldKey, target: Target, look: Look)
    ensures Shows(Atom(key), target, look) <==> look == if key.target == target then First(key.name) else Absent
  {
    assert [key][1..] == [] && InLang(Atom(key), [key]);
    assert LookOf([key], target) == if key.target == target then First(key.name) else Absent;
    ShowsOf(Atom(key), target, [key]);
    if Shows(Atom(key), target, look) {
      var word :| InLang(Atom(key), word) && LookOf(word, target) == look;
      assert word == [key];
    }
  }

  lemma {:induction false} OptShows(body: Pattern<FieldKey>, target: Target, look: Look)
    ensures Shows(Opt(body), target, look) <==> Shows(body, target, look) || look == Absent
  {
    assert InLang(Opt(body), []);
    ShowsOf(Opt(body), target, []);
    if Shows(body, target, look) {
      var word :| InLang(body, word) && LookOf(word, target) == look;
      ShowsOf(Opt(body), target, word);
    }
    if Shows(Opt(body), target, look) {
      var word :| InLang(Opt(body), word) && LookOf(word, target) == look;
      assert word == [] || InLang(body, word);
    }
  }

  lemma {:induction false} RepShows(body: Pattern<FieldKey>, target: Target, looks: set<Look>, look: Look)
    requires forall l :: l in looks <==> Shows(body, target, l)
    ensures Shows(Rep(body), target, look) <==> look in looks + {Absent}
  {
    RepNone(body);
    ShowsOf(Rep(body), target, []);
    if look in looks {
      var word :| InLang(body, word) && LookOf(word, target) == look;
      RepSnoc(body, [], word);
      assert [] + word == word;
      ShowsOf(Rep(body), target, word);
    }
    if Shows(Rep(body), target, look) {
      var word :| InLang(Rep(body), word) && LookOf(word, target) == look;
      var words: seq<seq<FieldKey>> :| Flatten(words) == word && forall x | x in words :: InLang(body, x);
      forall x | x in words ensures LookOf(x, target) in looks {
        ShowsOf(body, target, x);
      }
      FlattenLook(words, target, looks);
    }
  }

  lemma {:induction false} FlattenLook(words: seq<seq<FieldKey>>, target: Target, looks: set<Look>)
    requires forall x | x in words :: LookOf(x, target) in looks
    ensures LookOf(Flatten(words), target) in looks + {Absent}
    decreases |words|
  {
    if words != [] {
      FlattenLook(words[1..], target, looks);
      LookJoin(words[0], Flatten(words[1..]), target);
      assert words[0] in words;
    }
  }

  lemma {:induction false} SeqLooksAreExact(parts: seq<Pattern<FieldKey>>, target: Target, look: Look)
    ensures look in SeqLooks(parts, target) <==> Shows(Seq(parts), target, look)
    decreases parts, 1
  {
    if parts == [] {
      SeqOfNothing(target, look);
    } else {
      var init, last := parts[..|parts| - 1], parts[|parts| - 1];
      assert parts == init + [last];
      forall l ensures l in SeqLooks(init, target) <==> Shows(Seq(init), target, l) {
        SeqLooksAreExact(init, target, l);
      }
      forall l ensures l in Looks(last, target) <==> Shows(last, target, l) {
        LooksAreExact(last, target, l);
      }
      SeqShows(init, last, target, SeqLooks(init, target), Looks(last, target), look);
    }
  }

  lemma {:induction false} SeqOfNothing(target: Target, look: Look)
    ensures Shows(Seq([]), target, look) <==> look == Absent
  {
    var none: seq<seq<FieldKey>> := [];
    assert Flatten(none) == [] && InLang<FieldKey>(Seq([]), []);
    ShowsOf(Seq([]), target, []);
  }

  lemma {:induction false} SeqShows(init: seq<Pattern<FieldKey>>, last: Pattern<FieldKey>, target: Target,
                                    lefts: set<Look>, rights: set<Look>, look: Look)
    requires forall l :: l in lefts <==> Shows(Seq(init), target, l)
    requires forall l :: l in rights <==> Shows(last, target, l)
    ensures Shows(Seq(init + [last]), target, look) <==> exists a, b | a in lefts && b in rights :: Then(a, b) == look
  {
    if a, b :| a in lefts && b in rights && Then(a, b) == look {
      JoinShows(init, last, target, a, b);
    }
    if Shows(Seq(init + [last]), target, look) {
      var word :| InLang(Seq(init + [last]), word) && LookOf(word, target) == look;
      var left, right := SeqSplit(init, last, word);
      LookJoin(left, right, target);
      ShowsOf(Seq(init), target, left);
      ShowsOf(last, target, right);
    }
  }

  lemma {:induction false} JoinShows(init: seq<Pattern<FieldKey>>, last: Pattern<FieldKey>, target: Target, a: Look,
                                     b: Look)
    requires Shows(Seq(init), target, a) && Shows(last, target, b)
    ensures Shows(Seq(init + [last]), target, Then(a, b))
  {
    var left :| InLang(Seq(init), left) && LookOf(left, target) == a;
    var right :| InLang(last, right) && LookOf(right, target) == b;
    SeqSnoc(init, last, left, right);
    LookJoin(left, right, target);
    ShowsOf(Seq(init + [last]), target, left + right);
  }

  lemma {:induction false} AltLooksAreExact(parts: seq<Pattern<FieldKey>>, target: Target, look: Look)
    ensures look in AltLooks(parts, target) <==> Shows(Alt(parts), target, look)
    decreases parts, 1
  {
    if parts != [] {
      var init, last := parts[..|parts| - 1], parts[|parts| - 1];
      assert parts == init + [last];
      AltLooksAreExact(init, target, look);
      LooksAreExact(last, target, look);
      AltShows(init, last, target, look);
    }
  }

  lemma {:induction false} AltShows(init: seq<Pattern<FieldKey>>, last: Pattern<FieldKey>, target: Target, look: Look)
    ensures Shows(Alt(init + [last]), target, look) <==> Shows(Alt(init), target, look) || Shows(last, target, look)
  {
    if Shows(Alt(init + [last]), target, look) {
      var word :| InLang(Alt(init + [last]), word) && LookOf(word, target) == look;
      AltSnoc(init, last, word);
    }
    if Shows(Alt(init), target, look) {
      var word :| InLang(Alt(init), word) && LookOf(word, target) == look;
      AltSnoc(init, last, word);
      ShowsOf(Alt(init + [last]), target, word);
    }
    if Shows(last, target, look) {
      var word :| InLang(last, word) && LookOf(word, target) == look;
      AltSnoc(init, last, word);
      ShowsOf(Alt(init + [last]), target, word);
    }
  }

  // ----- reading by kind -----

  /** Different targets have different kinds. */
  ghost predicate Separates(kinds: Target -> SyntaxKind) {
    forall a, b | kinds(a) == kinds(b) :: a == b
  }

  /** The position of the first child of a kind. */
  function FirstOfKind(elements: seq<SyntaxKind>, kind: SyntaxKind): Option<nat> {
    if elements == [] then None
    else if elements[0] == kind then Some(0)
    else Later(FirstOfKind(elements[1..], kind))
  }

  /** The position of the first child that is the field. */
  function FirstOwn(word: seq<FieldKey>, key: FieldKey): Option<nat> {
    if word == [] then None
    else if word[0] == key then Some(0)
    else Later(FirstOwn(word[1..], key))
  }

  function Later(position: Option<nat>): Option<nat> {
    if position.None? then None else Some(position.value + 1)
  }

  lemma {:induction false} ReadsOwnWord(kinds: Target -> SyntaxKind, word: seq<FieldKey>, key: FieldKey)
    requires Separates(kinds) && key.name.None?
    ensures FirstOfKind(ChildKinds(kinds, word), kinds(key.target)) == FirstOwn(word, key) <==>
            LookOf(word, key.target) in {Absent, First(None)}
    decreases |word|
  {
    if word != [] {
      ReadsOwnWord(kinds, word[1..], key);
      assert ChildKinds(kinds, word)[1..] == ChildKinds(kinds, word[1..]);
      assert ChildKinds(kinds, word)[0] == kinds(word[0].target);
    }
  }

  /** A singular unlabelled accessor reads its own field on every derivation if and
      only if no derivation puts a labelled child of the target first. */
  lemma {:induction false} AggregateReadsOwnIff(kinds: Target -> SyntaxKind, rule: Rule, key: FieldKey)
    requires Separates(kinds) && key.name.None?
    ensures (forall word | InLang(Leaves(rule, None), word) ::
               FirstOfKind(ChildKinds(kinds, word), kinds(key.target)) == FirstOwn(word, key)) <==>
            Looks(Leaves(rule, None), key.target) <= {Absent, First(None)}
  {
    var p := Leaves(rule, None);
    if Looks(p, key.target) <= {Absent, First(None)} {
      forall word | InLang(p, word) ensures FirstOfKind(ChildKinds(kinds, word), kinds(key.target)) ==
          FirstOwn(word, key) {
        ShowsOf(p, key.target, word);
        LooksAreExact(p, key.target, LookOf(word, key.target));
        ReadsOwnWord(kinds, word, key);
      }
    } else {
      var look :| look in Looks(p, key.target) && look !in {Absent, First(None)};
      LooksAreExact(p, key.target, look);
      var word :| InLang(p, word) && LookOf(word, key.target) == look;
      ReadsOwnWord(kinds, word, key);
    }
  }

  /** The rule `name:B B`. */
  function LabelledThenPlain(name: string, b: Target): Rule {
    SeqRule([LabeledRule(name, LeafRule(b)), LeafRule(b)])
  }

  /** The condition can fail: in `lhs:B B` the unlabelled accessor is typed Required
      and reads the labelled child. */
  lemma {:induction false} LabelledChildIsRead(kinds: Target -> SyntaxKind, name: string, b: Target)
    ensures var rule, key := LabelledThenPlain(name, b), FieldKey(b, None);
            var word := [FieldKey(b, Some(name)), key];
            && FieldCount(rule, key, None).Cardinality() == Required && InLang(Leaves(rule, None), word)
            && FirstOfKind(ChildKinds(kinds, word), kinds(b)) == Some(0) && FirstOwn(word, key) == Some(1)
  {
    var key := FieldKey(b, None);
    var word := [FieldKey(b, Some(name)), key];
    PairIsCounted(name, b);
    PairIsDerived(name, b);
    assert word[1..] == [key] && ChildKinds(kinds, word)[0] == kinds(b);
  }

  lemma {:induction false} PairIsCounted(name: string, b: Target)
    ensures FieldCount(LabelledThenPlain(name, b), FieldKey(b, None), None) == ONE
  {
    var labelled, plain, key := LabeledRule(name, LeafRule(b)), LeafRule(b), FieldKey(b, None);
    var rules := [labelled, plain];
    assert rules[..1] == [labelled] && [labelled][..0] == [];
    assert FieldCount(LeafRule(b), key, Some(name)) == ZERO;
    assert SeqCount([labelled], key, None) == SeqCount([], key, None).Sequence(FieldCount(labelled, key, None)) == ZERO;
    assert SeqCount(rules, key, None) == SeqCount([labelled], key, None).Sequence(FieldCount(plain, key, None));
  }

  lemma {:induction false} PairIsDerived(name: string, b: Target)
    ensures InLang(Leaves(LabelledThenPlain(name, b), None), [FieldKey(b, Some(name)), FieldKey(b, None)])
  {
    var lhs, key := FieldKey(b, Some(name)), FieldKey(b, None);
    var rules := [LabeledRule(name, LeafRule(b)), LeafRule(b)];
    var parts, none: seq<seq<FieldKey>> := AllLeaves(rules, None), [];
    assert Leaves(LeafRule(b), Some(name)) == Atom(lhs) && Leaves(LeafRule(b), None) == Atom(key);
    assert Leaves(rules[0], None) == Atom(lhs) && Leaves(rules[1], None) == Atom(key);
    assert parts == [Atom(lhs)] + [Atom(key)];
    assert Flatten(none) == [] && InLang<FieldKey>(Seq([]), []);
    SeqSnoc([], Atom(lhs), [], [lhs]);
    assert [] + [Atom(lhs)] == [Atom(lhs)] && [] + [lhs] == [lhs];
    SeqSnoc([Atom(lhs)], Atom(key), [lhs], [key]);
    assert [lhs] + [key] == [lhs, key];
  }

  // ----- reading all children of a kind -----

  function AllOfKind(elements: seq<SyntaxKind>, kind: SyntaxKind): seq<bool> {
    seq(|elements|, i requires 0 <= i < |elements| => elements[i] == kind)
  }

  function AllOwn(word: seq<FieldKey>, key: FieldKey): seq<bool> {
    seq(|word|, i requires 0 <= i < |word| => word[i] == key)
  }

  /** The field never occurs in a derivation. */
  predicate NeverOccurs(rule: Rule, key: FieldKey) {
    var live := LiveCount(rule, key, None);
    live.None? || live.value.max == 0
  }

  lemma {:induction false} NeverOccursIff(rule: Rule, key: FieldKey)
    ensures NeverOccurs(rule, key) <==> forall word | InLang(Leaves(rule, None), word) :: key !in word
  {
    LiveCountIsExact(rule, key, None);
    var live, p := LiveCount(rule, key, None), Leaves(rule, None);
    if live.Some? {
      var high :| InLang(p, high) && Cap(Occurrences(high, key)) == live.value.max;
      assert forall word | InLang(p, word) :: key in word <==> Occurrences(word, key) > 0;
      assert live.value.max == 0 <==> key !in high;
    }
  }

  /** Every child of the target is the field. */
  predicate OnlyOwn(word: seq<FieldKey>, key: FieldKey) {
    forall k | k in word && k.target == key.target :: k == key
  }

  /** An unlabelled accessor for many children reads exactly its own field on every
      derivation if and only if no labelled child of the target ever occurs. */
  lemma {:induction false} AggregateReadsAllIff(kinds: Target -> SyntaxKind, rule: Rule, key: FieldKey)
    requires Separates(kinds) && key.name.None?
    ensures (forall word | InLang(Leaves(rule, None), word) ::
               AllOfKind(ChildKinds(kinds, word), kinds(key.target)) == AllOwn(word, key)) <==>
            forall k | k in Atoms(Leaves(rule, None)) && k.target == key.target && k.name.Some? :: NeverOccurs(rule, k)
  {
    var p := Leaves(rule, None);
    if forall k | k in Atoms(p) && k.target == key.target && k.name.Some? :: NeverOccurs(rule, k) {
      forall word | InLang(p, word) ensures AllOfKind(ChildKinds(kinds, word), kinds(key.target)) == AllOwn(word, key) {
        AllReadWord(kinds, word, key);
        UnlabelledOnly(rule, key, word);
      }
    } else {
      var k :| k in Atoms(p) && k.target == key.target && k.name.Some? && !NeverOccurs(rule, k);
      NeverOccursIff(rule, k);
      var word :| InLang(p, word) && k in word;
      AllReadWord(kinds, word, key);
    }
  }

  lemma {:induction false} UnlabelledOnly(rule: Rule, key: FieldKey, word: seq<FieldKey>)
    requires key.name.None? && InLang(Leaves(rule, None), word)
    requires forall k | k in Atoms(Leaves(rule, None)) && k.target == key.target && k.name.Some? :: NeverOccurs(rule, k)
    ensures OnlyOwn(word, key)
  {
    WordUsesAtoms(Leaves(rule, None), word);
    forall k | k in word && k.target == key.target ensures k == key {
      if k.name.Some? {
        NeverOccursIff(rule, k);
      }
    }
  }

  lemma {:induction false} AllReadWord(kinds: Target -> SyntaxKind, word: seq<FieldKey>, key: FieldKey)
    requires Separates(kinds)
    ensures AllOfKind(ChildKinds(kinds, word), kinds(key.target)) == AllOwn(word, key) <==> OnlyOwn(word, key)
  {
    var elements := ChildKinds(kinds, word);
    var read, own := AllOfKind(elements, kinds(key.target)), AllOwn(word, key);
    assert forall i | 0 <= i < |word| :: read[i] == (word[i].target == key.target);
    if read == own {
      forall k | k in word && k.target == key.target ensures k == key {
        var i :| 0 <= i < |word| && word[i] == k;
        assert read[i] == own[i];
      }
    } else {
      var i :| 0 <= i < |word| && read[i] != own[i];
      assert word[i] in word;
    }
  }
}
