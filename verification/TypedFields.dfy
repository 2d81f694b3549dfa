/** Reading a labelled field of a node: either engine, the best match, its captures. */
module TypedFields {
  import opened Wrappers
  import opened Patterns
  import opened Matching
  import opened DirectEngine
  import opened AutomatonEngine

  predicate HasNestedRepetition(p: AstPattern, inside: bool)
    decreases p
  {
    match p
    case Rep(body) => inside || HasNestedRepetition(body, true)
    case Opt(body) => HasNestedRepetition(body, inside)
    case Seq(parts) => exists i | 0 <= i < |parts| :: HasNestedRepetition(parts[i], inside)
    case Alt(parts) => exists i | 0 <= i < |parts| :: HasNestedRepetition(parts[i], inside)
    case Atom(_) => false
  }

  /** How deep repetitions nest. */
  ghost function RepDepth(p: AstPattern): nat
    decreases p
  {
    match p
    case Rep(body) => 1 + RepDepth(body)
    case Opt(body) => RepDepth(body)
    case Seq(parts) => RepDepths(parts)
    case Alt(parts) => RepDepths(parts)
    case Atom(_) => 0
  }

  ghost function RepDepths(parts: seq<AstPattern>): (r: nat)
    ensures forall i | 0 <= i < |parts| :: RepDepth(parts[i]) <= r
    ensures parts != [] ==> exists i | 0 <= i < |parts| :: RepDepth(parts[i]) == r
    decreases parts
  {
    if parts == [] then 0
    else
      var first, rest := RepDepth(parts[0]), RepDepths(parts[1..]);
      assert first >= rest ==> RepDepth(parts[0]) == first;
      assert forall i | 0 <= i < |parts| - 1 :: parts[1..][i] == parts[i + 1];
      if first >= rest then first else rest
  }

  /** The automaton engine is chosen exactly for repetitions inside repetitions. */
  lemma {:induction false} NestedIff(p: AstPattern, inside: bool)
    ensures HasNestedRepetition(p, inside) <==> RepDepth(p) >= if inside then 1 else 2
    decreases p
  {
    match p
    case Rep(body) => NestedIff(body, true);
    case Opt(body) => NestedIff(body, inside);
    case Seq(parts) =>
      forall i | 0 <= i < |parts| ensures
          HasNestedRepetition(parts[i], inside) <==> RepDepth(parts[i]) >= if inside then 1 else 2 {
        NestedIff(parts[i], inside);
      }
    case Alt(parts) =>
      forall i | 0 <= i < |parts| ensures
          HasNestedRepetition(parts[i], inside) <==> RepDepth(parts[i]) >= if inside then 1 else 2 {
        NestedIff(parts[i], inside);
      }
    case Atom(_) =>
  }

  // ----- the two engines agree -----

  ghost predicate Exact(p: AstPattern, q: Query, out: seq<AstMatch>) {
    Sound(p, q, [INITIAL], out) && Complete(p, q, [INITIAL], out) && Ascending(out)
  }

  predicate SameResult(m: AstMatch, n: AstMatch) {
    m.pos == n.pos && m.score == n.score && m.fieldCount == n.fieldCount
  }

  /** A reported match is the lexicographic maximum over all parses that end where it does. */
  lemma {:induction false} ReportedIsBest(p: AstPattern, q: Query, out: seq<AstMatch>, m: AstMatch, word: seq<AstAtom>)
    requires Exact(p, q, out) && m in out && Parses(p, q, INITIAL, word) && |word| == m.pos
    ensures ExactKinds(q, 0, word) < m.score ||
            (ExactKinds(q, 0, word) == m.score && |Captured(q, 0, word)| <= m.fieldCount)
  {
    var o := Covering(p, q, out, word);
    assert o == m;
    RunCaptures(q, INITIAL, word);
  }

  lemma {:induction false} ReportedElsewhere(p: AstPattern, q: Query, a: seq<AstMatch>, b: seq<AstMatch>, m: AstMatch)
    returns (n: AstMatch)
    requires Exact(p, q, a) && Exact(p, q, b) && m in a
    ensures n in b && SameResult(m, n)
  {
    var word := ParseOf(p, q, a, m);
    n := Covering(p, q, b, word);
    var other := ParseOf(p, q, b, n);
    ReportedIsBest(p, q, a, m, other);
    RunCaptures(q, INITIAL, other);
  }

  lemma {:induction false} ParseOf(p: AstPattern, q: Query, out: seq<AstMatch>, m: AstMatch)
    returns (word: seq<AstAtom>)
    requires Sound(p, q, [INITIAL], out) && m in out
    ensures Parses(p, q, INITIAL, word) && m == Run(q, INITIAL, word) && m.pos == |word|
  {
    assert Reached(p, q, [INITIAL], m);
    word :| Parses(p, q, INITIAL, word) && m == Run(q, INITIAL, word);
  }

  lemma {:induction false} Covering(p: AstPattern, q: Query, out: seq<AstMatch>, word: seq<AstAtom>)
    returns (n: AstMatch)
    requires Complete(p, q, [INITIAL], out) && Parses(p, q, INITIAL, word)
    ensures n in out && n.pos == Run(q, INITIAL, word).pos && AtMost(Run(q, INITIAL, word), n)
  {
    assert INITIAL in [INITIAL];
    assert Covered(out, Run(q, INITIAL, word));
    n :| n in out && n.pos == Run(q, INITIAL, word).pos && AtMost(Run(q, INITIAL, word), n);
  }

  /** Whatever two exact engines report, they report the same end positions with
      the same best scores and capture counts, in the same order. */
  lemma {:induction false} EnginesAgree(p: AstPattern, q: Query, a: seq<AstMatch>, b: seq<AstMatch>)
    requires Exact(p, q, a) && Exact(p, q, b)
    ensures |a| == |b| && forall i | 0 <= i < |a| :: SameResult(a[i], b[i])
  {
    forall m | m in a ensures Lists(b, m) {
      var n := ReportedElsewhere(p, q, a, b, m);
    }
    forall m | m in b ensures Lists(a, m) {
      var n := ReportedElsewhere(p, q, b, a, m);
    }
    SameOrder(a, b);
  }

  /** On every pattern and every child sequence the two engines agree. */
  method RunBoth(p: AstPattern, q: Query) returns (direct: seq<AstMatch>, automaton: seq<AstMatch>)
    ensures |direct| == |automaton| && forall i | 0 <= i < |direct| :: SameResult(direct[i], automaton[i])
  {
    direct := Apply(p, q, [INITIAL]);
    var work;
    ghost var compiled;
    automaton, work, compiled := ApplyAutomaton(p, q);
    EnginesAgree(p, q, direct, automaton);
  }

  ghost predicate Lists(out: seq<AstMatch>, m: AstMatch) {
    exists n | n in out :: SameResult(m, n)
  }

  ghost predicate ListsAll(out: seq<AstMatch>, others: seq<AstMatch>) {
    forall m {:trigger Lists(out, m)} | m in others :: Lists(out, m)
  }

  lemma {:induction false} ListsRest(a: seq<AstMatch>, b: seq<AstMatch>)
    requires a != [] && b != [] && Ascending(a) && Ascending(b) && ListsAll(b, a) && SameResult(a[|a| - 1], b[|b| - 1])
    ensures ListsAll(b[..|b| - 1], a[..|a| - 1])
  {
    var a', b' := a[..|a| - 1], b[..|b| - 1];
    forall m | m in a' ensures Lists(b', m) {
      var k :| 0 <= k < |a| - 1 && a[k] == m;
      assert m in a && Lists(b, m);
      var n :| n in b && SameResult(m, n);
      assert a[k].pos < a[|a| - 1].pos;
      assert n in b';
    }
  }

  lemma {:induction false} ListsSome(out: seq<AstMatch>, others: seq<AstMatch>)
    requires ListsAll(out, others) && others != []
    ensures out != []
  {
    assert Lists(out, others[0]);
  }

  lemma {:induction false} SameOrder(a: seq<AstMatch>, b: seq<AstMatch>)
    requires Ascending(a) && Ascending(b) && ListsAll(b, a) && ListsAll(a, b)
    ensures |a| == |b| && forall i | 0 <= i < |a| :: SameResult(a[i], b[i])
    decreases |a| + |b|
  {
    if b != [] {
      ListsSome(a, b);
    }
    if a != [] {
      ListsSome(b, a);
    }
    if a != [] && b != [] {
      var x, y := a[|a| - 1], b[|b| - 1];
      assert Lists(b, x) && Lists(a, y);
      var a', b' := a[..|a| - 1], b[..|b| - 1];
      ListsRest(a, b);
      ListsRest(b, a);
      SameOrder(a', b');
      assert forall i | 0 <= i < |a'| :: a'[i] == a[i] && b'[i] == b[i];
    }
  }

  // ----- captures -----

  function Listed(fields: AstCapture): seq<Option<nat>> {
    match fields
    case NoCapture => []
    case Capture(previous, element) => Listed(previous) + [element]
  }

  /** The children a parse captures for the wanted label, in order. */
  ghost function Captured(q: Query, pos: nat, word: seq<AstAtom>): seq<Option<nat>>
    requires Accepts(q, pos, word)
    decreases |word|
  {
    if word == [] then []
    else (if word[0].tag == Some(q.tag) then [if q.elements[pos] == Missing then None else Some(pos)] else [])
         + Captured(q, pos + 1, word[1..])
  }

  /** How many children match their atom's kind exactly. */
  ghost function ExactKinds(q: Query, pos: nat, word: seq<AstAtom>): nat
    requires Accepts(q, pos, word)
    decreases |word|
  {
    if word == [] then 0
    else (if q.elements[pos] == word[0].kind then 1 else 0) + ExactKinds(q, pos + 1, word[1..])
  }

  lemma {:induction false} RunCaptures(q: Query, m: AstMatch, word: seq<AstAtom>)
    requires Accepts(q, m.pos, word)
    ensures Listed(Run(q, m, word).fields) == Listed(m.fields) + Captured(q, m.pos, word)
    ensures Run(q, m, word).fieldCount == m.fieldCount + |Captured(q, m.pos, word)|
    ensures Run(q, m, word).score == m.score + ExactKinds(q, m.pos, word)
    decreases |word|
  {
    if word != [] {
      RunCaptures(q, Advance(q, m, word[0]), word[1..]);
    }
  }

  /** Lexicographically at most: first the children read, then those matched by their
      own kind, then the captures. */
  ghost predicate NotBeyond(q: Query, other: seq<AstAtom>, word: seq<AstAtom>)
    requires Accepts(q, 0, other) && Accepts(q, 0, word)
  {
    || |other| < |word|
    || (|other| == |word| && ExactKinds(q, 0, other) < ExactKinds(q, 0, word))
    || (|other| == |word| && ExactKinds(q, 0, other) == ExactKinds(q, 0, word) &&
        |Captured(q, 0, other)| <= |Captured(q, 0, word)|)
  }

  /** The parse a field is read from: no parse goes beyond it. */
  ghost predicate BestParse(p: AstPattern, q: Query, word: seq<AstAtom>) {
    Parses(p, q, INITIAL, word) && forall other | Parses(p, q, INITIAL, other) :: NotBeyond(q, other, word)
  }

  function Reversed<T>(s: seq<T>): seq<T> {
    if s == [] then [] else Reversed(s[1..]) + [s[0]]
  }

  lemma {:induction false} ReversedSnoc<T>(s: seq<T>, x: T)
    ensures Reversed(s + [x]) == [x] + Reversed(s)
  {
    if s == [] {
      assert [x][1..] == [];
    } else {
      ReversedSnoc(s[1..], x);
      assert (s + [x])[1..] == s[1..] + [x];
    }
  }

  method MaterializeFields(state: AstMatch) returns (fields: seq<Option<nat>>)
    ensures fields == Listed(state.fields)
  {
    var pushed: seq<Option<nat>> := [];
    var capture := state.fields;
    while capture.Capture?
      invariant Listed(state.fields) == Listed(capture) + Reversed(pushed)
      decreases capture
    {
      ReversedSnoc(pushed, capture.element);
      pushed := pushed + [capture.element];
      capture := capture.previous;
    }
    fields := Reversed(pushed);
  }

  /** The selection key orders complete matches first, then by end, score and captures. */
  predicate KeyBelow(q: Query, m: AstMatch, n: AstMatch) {
    var full, full' := m.pos == |q.elements|, n.pos == |q.elements|;
    if full != full' then full'
    else if m.pos != n.pos then m.pos < n.pos
    else if m.score != n.score then m.score < n.score
    else m.fieldCount < n.fieldCount
  }

  /** The captures of a best parse, or none when no parse exists. */
  ghost predicate ReadFrom(p: AstPattern, q: Query, fields: seq<Option<nat>>) {
    || (exists word :: BestParse(p, q, word) && fields == Captured(q, 0, word))
    || (fields == [] && forall word :: !Parses(p, q, INITIAL, word))
  }

  method ReadFields(p: AstPattern, q: Query) returns (fields: seq<Option<nat>>)
    ensures ReadFrom(p, q, fields)
  {
    var matches;
    if HasNestedRepetition(p, false) {
      var work;
      ghost var compiled;
      matches, work, compiled := ApplyAutomaton(p, q);
    } else {
      matches := Apply(p, q, [INITIAL]);
    }
    assert Exact(p, q, matches);
    if matches == [] {
      fields := [];
      forall word ensures !Parses(p, q, INITIAL, word) {
        if Parses(p, q, INITIAL, word) {
          SomeMatch(p, q, matches, word);
        }
      }
    } else {
      var best := matches[0];
      for i := 1 to |matches|
        invariant best in matches
        invariant forall j | 0 <= j < i :: !KeyBelow(q, best, matches[j])
      {
        if !KeyBelow(q, matches[i], best) {
          best := matches[i];
        }
      }
      fields := MaterializeFields(best);
      Selected(p, q, matches, best);
    }
  }

  lemma {:induction false} SomeMatch(p: AstPattern, q: Query, out: seq<AstMatch>, word: seq<AstAtom>)
    requires Exact(p, q, out) && Parses(p, q, INITIAL, word)
    ensures out != []
  {
    assert INITIAL in [INITIAL] && Covered(out, Run(q, INITIAL, word));
  }

  lemma {:induction false} InRange(p: AstPattern, q: Query, out: seq<AstMatch>, m: AstMatch)
    requires Exact(p, q, out) && m in out
    ensures m.pos <= |q.elements|
  {
    assert Reached(p, q, [INITIAL], m);
    var word :| Parses(p, q, INITIAL, word) && m == Run(q, INITIAL, word);
    if word != [] {
      AcceptsInRange(q, 0, word);
    }
  }

  lemma {:induction false} Selected(p: AstPattern, q: Query, matches: seq<AstMatch>, best: AstMatch)
    requires Exact(p, q, matches) && best in matches
    requires forall m | m in matches :: !KeyBelow(q, best, m)
    ensures exists word :: BestParse(p, q, word) && Listed(best.fields) == Captured(q, 0, word)
  {
    assert Reached(p, q, [INITIAL], best);
    var word :| Parses(p, q, INITIAL, word) && best == Run(q, INITIAL, word);
    InRange(p, q, matches, best);
    RunCaptures(q, INITIAL, word);
    forall other | Parses(p, q, INITIAL, other) ensures NotBeyond(q, other, word) {
      assert INITIAL in [INITIAL] && Covered(matches, Run(q, INITIAL, other));
      var o :| o in matches && o.pos == |other| && AtMost(Run(q, INITIAL, other), o);
      RunCaptures(q, INITIAL, other);
      InRange(p, q, matches, o);
      assert !KeyBelow(q, best, o);
    }
    assert BestParse(p, q, word);
  }
}
