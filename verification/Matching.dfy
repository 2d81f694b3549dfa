/** What it means for a typed-AST pattern to match a node's children. A child is
    abstracted to its kind; a capture records the position of the child, or
    nothing when the child is a `Missing` placeholder. */
module Matching {
  import opened Collections
  import opened Wrappers
  import opened Patterns

  datatype SyntaxKind = Missing | Kind(id: nat)

  datatype AstAtom = AstAtom(kind: SyntaxKind, tag: Option<nat>)

  type AstPattern = Pattern<AstAtom>

  /** The shared tail-linked capture list. */
  datatype AstCapture = NoCapture | Capture(previous: AstCapture, element: Option<nat>)

  datatype AstMatch = AstMatch(pos: nat, score: nat, fieldCount: nat, fields: AstCapture)

  const INITIAL := AstMatch(0, 0, 0, NoCapture)

  /** The children to match, and the tag of the label whose captures are wanted. */
  datatype Query = Query(elements: seq<SyntaxKind>, tag: nat)

  predicate Fits(atom: AstAtom, actual: SyntaxKind) {
    actual == atom.kind || actual == Missing
  }

  /** One child consumed by one atom. */
  function Advance(q: Query, m: AstMatch, atom: AstAtom): AstMatch
    requires m.pos < |q.elements|
  {
    var actual := q.elements[m.pos];
    var score := if actual == atom.kind then m.score + 1 else m.score;
    if atom.tag == Some(q.tag) then
      AstMatch(m.pos + 1, score, m.fieldCount + 1,
               Capture(m.fields, if actual == Missing then None else Some(m.pos)))
    else
      AstMatch(m.pos + 1, score, m.fieldCount, m.fields)
  }

  predicate IsBetter(candidate: AstMatch, previous: AstMatch) {
    candidate.score > previous.score ||
    (candidate.score == previous.score && candidate.fieldCount > previous.fieldCount)
  }

  // ----- parses -----

  /** Each atom of `word` finds a child of its kind, or a `Missing` placeholder. */
  ghost predicate Accepts(q: Query, pos: nat, word: seq<AstAtom>)
    decreases |word|
  {
    word == [] ||
    (pos < |q.elements| && q.elements[pos] in {word[0].kind, Missing} && Accepts(q, pos + 1, word[1..]))
  }

  /** The state reached from `m` by consuming `word`, one child per atom. */
  ghost function Run(q: Query, m: AstMatch, word: seq<AstAtom>): (r: AstMatch)
    requires Accepts(q, m.pos, word)
    ensures r.pos == m.pos + |word|
    decreases |word|
  {
    if word == [] then m else Run(q, Advance(q, m, word[0]), word[1..])
  }

  /** `word` is one parse of the children from `m` on by the pattern. */
  ghost predicate Parses(p: AstPattern, q: Query, m: AstMatch, word: seq<AstAtom>) {
    InLang(p, word) && Accepts(q, m.pos, word)
  }

  ghost predicate From(p: AstPattern, q: Query, s: AstMatch, m: AstMatch) {
    exists word :: Parses(p, q, s, word) && m == Run(q, s, word)
  }

  /** The order of the specification: lexicographic in score and capture count. */
  ghost predicate AtMost(m: AstMatch, o: AstMatch) {
    m.score < o.score || (m.score == o.score && m.fieldCount <= o.fieldCount)
  }

  ghost predicate Covered(out: seq<AstMatch>, m: AstMatch) {
    exists o | o in out :: o.pos == m.pos && AtMost(m, o)
  }

  ghost predicate Reached(p: AstPattern, q: Query, states: seq<AstMatch>, m: AstMatch) {
    exists s | s in states :: From(p, q, s, m)
  }

  /** Every result is reached by some parse from some input state. */
  ghost predicate Sound(p: AstPattern, q: Query, states: seq<AstMatch>, out: seq<AstMatch>) {
    forall m {:trigger Reached(p, q, states, m)} | m in out :: Reached(p, q, states, m)
  }

  /** No parse from any input state beats the result at its end position. */
  ghost predicate Complete(p: AstPattern, q: Query, states: seq<AstMatch>, out: seq<AstMatch>) {
    forall s, word {:trigger Covered(out, Run(q, s, word))} | s in states && Parses(p, q, s, word) ::
      Covered(out, Run(q, s, word))
  }

  ghost predicate AllCovered(out: seq<AstMatch>, states: seq<AstMatch>) {
    forall m {:trigger Covered(out, m)} | m in states :: Covered(out, m)
  }

  predicate Ascending(out: seq<AstMatch>) {
    forall i, j | 0 <= i < j < |out| :: out[i].pos < out[j].pos
  }

  lemma {:induction false} AscendingSnoc(out: seq<AstMatch>, m: AstMatch)
    requires Ascending(out) && forall o | o in out :: o.pos < m.pos
    ensures Ascending(out + [m])
  {
    forall i, j | 0 <= i < j < |out + [m]| ensures (out + [m])[i].pos < (out + [m])[j].pos {
      if j == |out| {
        assert out[i] in out;
      }
    }
  }

  lemma {:induction false} AcceptsSplit(q: Query, pos: nat, left: seq<AstAtom>, right: seq<AstAtom>)
    ensures Accepts(q, pos, left + right) <==> Accepts(q, pos, left) && Accepts(q, pos + |left|, right)
    decreases |left|
  {
    if left == [] {
      assert left + right == right;
    } else {
      assert (left + right)[0] == left[0] && (left + right)[1..] == left[1..] + right;
      AcceptsSplit(q, pos + 1, left[1..], right);
    }
  }

  lemma {:induction false} AcceptsInRange(q: Query, pos: nat, word: seq<AstAtom>)
    requires Accepts(q, pos, word) && word != []
    ensures pos + |word| <= |q.elements|
    decreases |word|
  {
    if word[1..] != [] {
      AcceptsInRange(q, pos + 1, word[1..]);
    }
  }

  lemma {:induction false} RunJoin(q: Query, m: AstMatch, left: seq<AstAtom>, right: seq<AstAtom>)
    requires Accepts(q, m.pos, left + right)
    ensures Accepts(q, m.pos, left) && Accepts(q, m.pos + |left|, right)
    ensures Run(q, m, left + right) == Run(q, Run(q, m, left), right)
    decreases |left|
  {
    AcceptsSplit(q, m.pos, left, right);
    if left == [] {
      assert left + right == right;
    } else {
      assert (left + right)[0] == left[0] && (left + right)[1..] == left[1..] + right;
      RunJoin(q, Advance(q, m, left[0]), left[1..], right);
    }
  }

  /** Extending two states by the same word keeps their order. */
  lemma {:induction false} RunMonotone(q: Query, m: AstMatch, n: AstMatch, word: seq<AstAtom>)
    requires m.pos == n.pos && AtMost(m, n) && Accepts(q, m.pos, word)
    ensures AtMost(Run(q, m, word), Run(q, n, word))
    decreases |word|
  {
    if word != [] {
      RunMonotone(q, Advance(q, m, word[0]), Advance(q, n, word[0]), word[1..]);
    }
  }

  lemma {:induction false} FromJoin(p: AstPattern, q: Query, s: AstMatch, left: seq<AstAtom>, m: AstMatch,
                                    right: seq<AstAtom>)
    requires Accepts(q, s.pos, left) && m == Run(q, s, left) && Accepts(q, m.pos, right)
    requires InLang(p, left + right)
    ensures From(p, q, s, Run(q, m, right))
  {
    AcceptsSplit(q, s.pos, left, right);
    RunJoin(q, s, left, right);
    assert Parses(p, q, s, left + right);
  }

  // ----- deduplication by end position -----

  ghost predicate Keyed(best: map<nat, AstMatch>) {
    forall k | k in best :: best[k].pos == k
  }

  ghost predicate CoveredBy(best: map<nat, AstMatch>, m: AstMatch) {
    m.pos in best && AtMost(m, best[m.pos])
  }

  /** The values of an ordered map, in key order. */
  method IntoValues(best: map<nat, AstMatch>) returns (out: seq<AstMatch>)
    requires Keyed(best)
    ensures Ascending(out)
    ensures forall m :: m in out <==> m.pos in best && best[m.pos] == m
  {
    out := [];
    var rest := best.Keys;
    while rest != {}
      invariant rest <= best.Keys && Ascending(out)
      invariant forall m :: m in out <==> m.pos in best.Keys - rest && best[m.pos] == m
      invariant forall m, k | m in out && k in rest :: m.pos < k
      decreases rest
    {
      var k := First(rest);
      rest := rest - {k};
      out := out + [best[k]];
    }
  }

  method Dedup(states: seq<AstMatch>) returns (out: seq<AstMatch>)
    ensures Ascending(out)
    ensures forall m | m in out :: m in states
    ensures AllCovered(out, states)
  {
    var best: map<nat, AstMatch> := map[];
    for i := 0 to |states|
      invariant Keyed(best)
      invariant forall k | k in best :: best[k] in states
      invariant forall j | 0 <= j < i :: CoveredBy(best, states[j])
    {
      var state := states[i];
      if !(state.pos in best && !IsBetter(state, best[state.pos])) {
        best := best[state.pos := state];
      }
    }
    out := IntoValues(best);
    forall m | m in states ensures Covered(out, m) {
      assert CoveredBy(best, m);
      assert best[m.pos] in out;
    }
  }
}
