/** Regular patterns over an arbitrary symbol type, and the words they derive.
    Both the typed-AST patterns and the grammar rules of the syntax build are
    instances: they differ only in what an atom carries. */
module Patterns {

  datatype Pattern<S> =
    | Atom(symbol: S)
    | Seq(parts: seq<Pattern<S>>)
    | Alt(parts: seq<Pattern<S>>)
    | Opt(body: Pattern<S>)
    | Rep(body: Pattern<S>)

  function Flatten<S>(words: seq<seq<S>>): seq<S> {
    if words == [] then [] else words[0] + Flatten(words[1..])
  }

  /** `word` is the concatenation of `words`, one for each part in turn. */
  ghost predicate InLang<S(!new)>(p: Pattern<S>, word: seq<S>)
    decreases p
  {
    match p
    case Atom(a) => word == [a]
    case Seq(parts) =>
      exists words: seq<seq<S>> :: |words| == |parts| && Flatten(words) == word &&
        forall i | 0 <= i < |parts| :: InLang(parts[i], words[i])
    case Alt(parts) => exists i | 0 <= i < |parts| :: InLang(parts[i], word)
    case Opt(body) => word == [] || InLang(body, word)
    case Rep(body) =>
      exists words: seq<seq<S>> :: Flatten(words) == word && forall x | x in words :: InLang(body, x)
  }

  /** A factorization of `word` into iterations of a repeated body. */
  ghost predicate Factorizes<S(!new)>(body: Pattern<S>, words: seq<seq<S>>, word: seq<S>) {
    Flatten(words) == word && forall x | x in words :: InLang(body, x)
  }

  lemma {:induction false} FlattenAppend<S>(left: seq<seq<S>>, right: seq<seq<S>>)
    ensures Flatten(left + right) == Flatten(left) + Flatten(right)
  {
    if left == [] {
      assert left + right == right && Flatten(left) + Flatten(right) == Flatten(right);
    } else {
      FlattenAppend(left[1..], right);
      assert (left + right)[1..] == left[1..] + right && (left + right)[0] == left[0];
      assert left[0] + (Flatten(left[1..]) + Flatten(right)) == (left[0] + Flatten(left[1..])) + Flatten(right);
    }
  }

  lemma FlattenOne<S>(word: seq<S>)
    ensures Flatten([word]) == word
  {
    assert Flatten([word]) == word + Flatten([]);
  }

  /** Dropping empty factors does not change the concatenation. */
  function NonEmpty<S>(words: seq<seq<S>>): (r: seq<seq<S>>)
    ensures forall x | x in r :: x in words && x != []
    ensures Flatten(r) == Flatten(words)
  {
    if words == [] then []
    else if words[0] == [] then NonEmpty(words[1..])
    else
      var rest := NonEmpty(words[1..]);
      assert ([words[0]] + rest)[1..] == rest;
      [words[0]] + rest
  }

  /** A sequence pattern extended by one more part on the right. */
  lemma {:induction false} SeqSnoc<S(!new)>(parts: seq<Pattern<S>>, part: Pattern<S>, left: seq<S>, right: seq<S>)
    requires InLang(Seq(parts), left)
    requires InLang(part, right)
    ensures InLang(Seq(parts + [part]), left + right)
  {
    var words: seq<seq<S>> :| |words| == |parts| && Flatten(words) == left &&
      forall i | 0 <= i < |parts| :: InLang(parts[i], words[i]);
    FlattenAppend(words, [right]);
    FlattenOne(right);
    var all := words + [right];
    assert |all| == |parts + [part]| && Flatten(all) == left + right;
    assert forall i | 0 <= i < |parts + [part]| :: InLang((parts + [part])[i], all[i]);
  }

  /** No iterations, and one more iteration, of a repeated body. */
  lemma {:induction false} RepNone<S(!new)>(body: Pattern<S>)
    ensures InLang(Rep(body), [])
  {
    var none: seq<seq<S>> := [];
    assert Flatten(none) == [] && forall x | x in none :: InLang(body, x);
  }

  lemma {:induction false} RepSnoc<S(!new)>(body: Pattern<S>, left: seq<S>, right: seq<S>)
    requires InLang(Rep(body), left) && InLang(body, right)
    ensures InLang(Rep(body), left + right)
  {
    var words: seq<seq<S>> :| Flatten(words) == left && forall x | x in words :: InLang(body, x);
    FlattenAppend(words, [right]);
    FlattenOne(right);
    assert Flatten(words + [right]) == left + right && forall x | x in words + [right] :: InLang(body, x);
  }

  lemma {:induction false} SeqSplit<S(!new)>(parts: seq<Pattern<S>>, part: Pattern<S>, word: seq<S>)
    returns (left: seq<S>, right: seq<S>)
    requires InLang(Seq(parts + [part]), word)
    ensures word == left + right && InLang(Seq(parts), left) && InLang(part, right)
  {
    var words := SeqWords(parts + [part], word);
    var n := |parts|;
    FlattenSnoc(words);
    left, right := Flatten(words[..n]), words[n];
    AllButLast(parts, part, words);
    SeqWitness(parts, words[..n]);
  }

  ghost predicate Derived<S(!new)>(parts: seq<Pattern<S>>, words: seq<seq<S>>) {
    |words| == |parts| && forall i | 0 <= i < |parts| :: InLang(parts[i], words[i])
  }

  lemma {:induction false} SeqWords<S(!new)>(parts: seq<Pattern<S>>, word: seq<S>) returns (words: seq<seq<S>>)
    requires InLang(Seq(parts), word)
    ensures Derived(parts, words) && Flatten(words) == word
  {
    words :| |words| == |parts| && Flatten(words) == word && forall i | 0 <= i < |parts| :: InLang(parts[i], words[i]);
  }

  lemma {:induction false} AllButLast<S(!new)>(parts: seq<Pattern<S>>, part: Pattern<S>, words: seq<seq<S>>)
    requires Derived(parts + [part], words)
    ensures Derived(parts, words[..|parts|]) && InLang(part, words[|parts|])
  {
    var all, n := parts + [part], |parts|;
    assert all[n] == part;
    forall i | 0 <= i < n ensures InLang(parts[i], words[..n][i]) {
      assert all[i] == parts[i] && words[..n][i] == words[i];
    }
  }

  lemma {:induction false} FlattenSnoc<S>(words: seq<seq<S>>)
    requires words != []
    ensures Flatten(words) == Flatten(words[..|words| - 1]) + words[|words| - 1]
  {
    var n := |words| - 1;
    assert words == words[..n] + [words[n]];
    FlattenAppend(words[..n], [words[n]]);
    FlattenOne(words[n]);
  }

  lemma {:induction false} SeqWitness<S(!new)>(parts: seq<Pattern<S>>, words: seq<seq<S>>)
    requires |words| == |parts| && forall i | 0 <= i < |parts| :: InLang(parts[i], words[i])
    ensures InLang(Seq(parts), Flatten(words))
  {
  }

  /** A sequence pattern opened at its first part. */
  lemma {:induction false} SeqCons<S(!new)>(part: Pattern<S>, parts: seq<Pattern<S>>, left: seq<S>, right: seq<S>)
    requires InLang(part, left)
    requires InLang(Seq(parts), right)
    ensures InLang(Seq([part] + parts), left + right)
  {
    var words: seq<seq<S>> :| |words| == |parts| && Flatten(words) == right &&
      forall i | 0 <= i < |parts| :: InLang(parts[i], words[i]);
    var all := [left] + words;
    assert all[1..] == words;
    assert |all| == |[part] + parts| && Flatten(all) == left + right;
    assert forall i | 0 <= i < |[part] + parts| :: InLang(([part] + parts)[i], all[i]);
  }

  // ----- renaming symbols -----

  function MapWord<S, T>(f: S -> T, word: seq<S>): (r: seq<T>)
    ensures |r| == |word| && forall i | 0 <= i < |word| :: r[i] == f(word[i])
  {
    seq(|word|, i requires 0 <= i < |word| => f(word[i]))
  }

  function MapPattern<S, T>(f: S -> T, p: Pattern<S>): Pattern<T>
    decreases p
  {
    match p
    case Atom(a) => Atom(f(a))
    case Seq(parts) => Seq(MapPatterns(f, parts))
    case Alt(parts) => Alt(MapPatterns(f, parts))
    case Opt(body) => Opt(MapPattern(f, body))
    case Rep(body) => Rep(MapPattern(f, body))
  }

  function MapPatterns<S, T>(f: S -> T, parts: seq<Pattern<S>>): (r: seq<Pattern<T>>)
    ensures |r| == |parts| && forall i | 0 <= i < |parts| :: r[i] == MapPattern(f, parts[i])
    decreases parts
  {
    if parts == [] then [] else [MapPattern(f, parts[0])] + MapPatterns(f, parts[1..])
  }

  lemma {:induction false} FlattenMap<S, T>(f: S -> T, words: seq<seq<S>>, images: seq<seq<T>>)
    requires |words| == |images| && forall i | 0 <= i < |words| :: images[i] == MapWord(f, words[i])
    ensures Flatten(images) == MapWord(f, Flatten(words))
  {
    if words != [] {
      FlattenMap(f, words[1..], images[1..]);
    }
  }

  /** Renaming a word of the pattern gives a word of the renamed pattern. */
  lemma {:induction false} MapDerives<S(!new), T(!new)>(f: S -> T, p: Pattern<S>, word: seq<S>)
    requires InLang(p, word)
    ensures InLang(MapPattern(f, p), MapWord(f, word))
    decreases p
  {
    match p
    case Atom(_) =>
    case Seq(parts) =>
      var words: seq<seq<S>> :| |words| == |parts| && Flatten(words) == word &&
        forall i | 0 <= i < |parts| :: InLang(parts[i], words[i]);
      var images := seq(|words|, i requires 0 <= i < |words| => MapWord(f, words[i]));
      FlattenMap(f, words, images);
      forall i | 0 <= i < |parts| ensures InLang(MapPatterns(f, parts)[i], images[i]) {
        MapDerives(f, parts[i], words[i]);
      }
      SeqWitness(MapPatterns(f, parts), images);
    case Alt(parts) =>
      var i :| 0 <= i < |parts| && InLang(parts[i], word);
      MapDerives(f, parts[i], word);
      assert InLang(MapPatterns(f, parts)[i], MapWord(f, word));
    case Opt(body) => if word != [] { MapDerives(f, body, word); }
    case Rep(body) =>
      var words: seq<seq<S>> :| Flatten(words) == word && forall x | x in words :: InLang(body, x);
      var images := seq(|words|, i requires 0 <= i < |words| => MapWord(f, words[i]));
      FlattenMap(f, words, images);
      forall x | x in images ensures InLang(MapPattern(f, body), x) {
        var i :| 0 <= i < |images| && images[i] == x;
        assert words[i] in words;
        MapDerives(f, body, words[i]);
      }
  }

  /** Every word of a renamed pattern renames a word of the pattern. */
  lemma {:induction false} MapOrigin<S(!new), T(!new)>(f: S -> T, p: Pattern<S>, word: seq<T>) returns (origin: seq<S>)
    requires InLang(MapPattern(f, p), word)
    ensures InLang(p, origin) && word == MapWord(f, origin)
    decreases p, 0
  {
    match p
    case Atom(a) => origin := [a];
    case Seq(parts) =>
      var mapped := MapPatterns(f, parts);
      var words: seq<seq<T>> :| |words| == |mapped| && Flatten(words) == word &&
        forall i | 0 <= i < |mapped| :: InLang(mapped[i], words[i]);
      var origins := MapOrigins(f, parts, words);
      FlattenMap(f, origins, words);
      origin := Flatten(origins);
    case Alt(parts) =>
      var mapped := MapPatterns(f, parts);
      var i :| 0 <= i < |mapped| && InLang(mapped[i], word);
      origin := MapOrigin(f, parts[i], word);
    case Opt(body) =>
      if word == [] { origin := []; } else { origin := MapOrigin(f, body, word); }
    case Rep(body) =>
      var words: seq<seq<T>> :| Flatten(words) == word && forall x | x in words :: InLang(MapPattern(f, body), x);
      var origins := MapRepeats(f, body, words);
      FlattenMap(f, origins, words);
      origin := Flatten(origins);
      assert forall x | x in origins :: InLang(body, x);
  }

  ghost predicate Origin<S(!new), T(!new)>(f: S -> T, p: Pattern<S>, word: seq<T>, origin: seq<S>) {
    InLang(p, origin) && word == MapWord(f, origin)
  }

  lemma {:induction false} MapOrigins<S(!new), T(!new)>(f: S -> T, parts: seq<Pattern<S>>, words: seq<seq<T>>)
    returns (origins: seq<seq<S>>)
    requires |words| == |parts| && forall i | 0 <= i < |parts| :: InLang(MapPattern(f, parts[i]), words[i])
    ensures |origins| == |parts| && forall i | 0 <= i < |parts| :: Origin(f, parts[i], words[i], origins[i])
    decreases parts, 1
  {
    origins := [];
    for n := 0 to |parts|
      invariant |origins| == n
      invariant forall i | 0 <= i < n :: Origin(f, parts[i], words[i], origins[i])
    {
      var origin := MapOrigin(f, parts[n], words[n]);
      origins := origins + [origin];
    }
  }

  lemma {:induction false} MapRepeats<S(!new), T(!new)>(f: S -> T, body: Pattern<S>, words: seq<seq<T>>)
    returns (origins: seq<seq<S>>)
    requires forall x | x in words :: InLang(MapPattern(f, body), x)
    ensures |origins| == |words| && forall i | 0 <= i < |words| ::
              InLang(body, origins[i]) && words[i] == MapWord(f, origins[i])
    decreases body, 1
  {
    origins := [];
    for n := 0 to |words|
      invariant |origins| == n
      invariant forall i | 0 <= i < n :: InLang(body, origins[i]) && words[i] == MapWord(f, origins[i])
    {
      var origin := MapOrigin(f, body, words[n]);
      origins := origins + [origin];
    }
  }

  // ----- the symbols of a pattern -----

  function Atoms<S(==)>(p: Pattern<S>): set<S>
    decreases p
  {
    match p
    case Atom(a) => {a}
    case Seq(parts) => AllAtoms(parts)
    case Alt(parts) => AllAtoms(parts)
    case Opt(body) => Atoms(body)
    case Rep(body) => Atoms(body)
  }

  function AllAtoms<S(==)>(parts: seq<Pattern<S>>): (r: set<S>)
    ensures forall i | 0 <= i < |parts| :: Atoms(parts[i]) <= r
    decreases parts
  {
    if parts == [] then {} else AllAtoms(parts[..|parts| - 1]) + Atoms(parts[|parts| - 1])
  }

  lemma {:induction false} FlattenUses<S>(words: seq<seq<S>>, symbols: set<S>)
    requires forall w, x | w in words && x in w :: x in symbols
    ensures forall x | x in Flatten(words) :: x in symbols
  {
    if words != [] {
      assert words[0] in words && forall w | w in words[1..] :: w in words;
      FlattenUses(words[1..], symbols);
    }
  }

  lemma {:induction false} WordUsesAtoms<S(!new)>(p: Pattern<S>, word: seq<S>)
    requires InLang(p, word)
    ensures forall x | x in word :: x in Atoms(p)
    decreases p
  {
    match p
    case Atom(_) =>
    case Seq(parts) =>
      var words: seq<seq<S>> :| |words| == |parts| && Flatten(words) == word &&
        forall i | 0 <= i < |parts| :: InLang(parts[i], words[i]);
      forall w, x | w in words && x in w ensures x in AllAtoms(parts) {
        var i :| 0 <= i < |words| && words[i] == w;
        WordUsesAtoms(parts[i], w);
      }
      FlattenUses(words, AllAtoms(parts));
    case Alt(parts) =>
      var i :| 0 <= i < |parts| && InLang(parts[i], word);
      WordUsesAtoms(parts[i], word);
    case Opt(body) => if word != [] { WordUsesAtoms(body, word); }
    case Rep(body) =>
      var words: seq<seq<S>> :| Flatten(words) == word && forall x | x in words :: InLang(body, x);
      forall w, x | w in words && x in w ensures x in Atoms(body) {
        WordUsesAtoms(body, w);
      }
      FlattenUses(words, Atoms(body));
  }
}
