/** Thompson-style compilation of a pattern to an automaton with epsilon edges,
    and the proof that it preserves the derived words exactly. */
module Automata {
  import opened Patterns

  datatype Edge<S> = Epsilon(next: nat) | Symbol(symbol: S, next: nat)

  datatype Step<S> = Step(from: nat, edge: Edge<S>)

  // ----- runs of an automaton -----

  ghost predicate IsTrace<S>(edges: seq<seq<Edge<S>>>, from: nat, trace: seq<Step<S>>, to: nat)
    decreases |trace|
  {
    if trace == [] then from == to
    else
      && trace[0].from == from < |edges|
      && trace[0].edge in edges[from]
      && IsTrace(edges, trace[0].edge.next, trace[1..], to)
  }

  function Word<S>(trace: seq<Step<S>>): seq<S> {
    if trace == [] then []
    else if trace[0].edge.Symbol? then [trace[0].edge.symbol] + Word(trace[1..])
    else Word(trace[1..])
  }

  /** Every edge leads to a state of the table. */
  ghost predicate InRange<S>(edges: seq<seq<Edge<S>>>) {
    forall q, e | 0 <= q < |edges| && e in edges[q] :: e.next < |edges|
  }

  ghost predicate Spells<S(!new)>(edges: seq<seq<Edge<S>>>, from: nat, word: seq<S>, to: nat) {
    exists t :: IsTrace(edges, from, t, to) && Word(t) == word
  }

  lemma {:induction false} TraceJoin<S>(edges: seq<seq<Edge<S>>>, a: nat, t: seq<Step<S>>, b: nat, u: seq<Step<S>>,
                                        c: nat)
    requires IsTrace(edges, a, t, b) && IsTrace(edges, b, u, c)
    ensures IsTrace(edges, a, t + u, c)
    ensures Word(t + u) == Word(t) + Word(u)
    decreases |t|
  {
    if t == [] {
      assert t + u == u;
    } else {
      TraceJoin(edges, t[0].edge.next, t[1..], b, u, c);
      assert (t + u)[1..] == t[1..] + u;
    }
  }

  lemma {:induction false} TraceSplit<S>(edges: seq<seq<Edge<S>>>, a: nat, t: seq<Step<S>>, c: nat, k: nat)
    returns (b: nat)
    requires IsTrace(edges, a, t, c) && k <= |t|
    ensures IsTrace(edges, a, t[..k], b) && IsTrace(edges, b, t[k..], c)
    ensures Word(t) == Word(t[..k]) + Word(t[k..])
  {
    WordSplit(t, k);
    b := StatesSplit(edges, a, t, c, k);
  }

  lemma {:induction false} WordSplit<S>(t: seq<Step<S>>, k: nat)
    requires k <= |t|
    ensures Word(t) == Word(t[..k]) + Word(t[k..])
    decreases k
  {
    if k == 0 {
      assert t[..0] == [] && t[0..] == t;
      assert [] + Word(t) == Word(t);
    } else {
      var front := t[..k];
      WordSplit(t[1..], k - 1);
      assert front[1..] == t[1..][..k - 1] && front[0] == t[0] && t[k..] == t[1..][k - 1..];
      WordCons(t, Word(front[1..]), Word(t[k..]));
    }
  }

  lemma {:induction false} WordCons<S>(t: seq<Step<S>>, left: seq<S>, right: seq<S>)
    requires t != [] && Word(t[1..]) == left + right
    ensures Word(t) == (if t[0].edge.Symbol? then [t[0].edge.symbol] + left else left) + right
  {
    if t[0].edge.Symbol? {
      assert ([t[0].edge.symbol] + left) + right == [t[0].edge.symbol] + (left + right);
    }
  }

  lemma {:induction false} StatesSplit<S>(edges: seq<seq<Edge<S>>>, a: nat, t: seq<Step<S>>, c: nat, k: nat)
    returns (b: nat)
    requires IsTrace(edges, a, t, c) && k <= |t|
    ensures IsTrace(edges, a, t[..k], b) && IsTrace(edges, b, t[k..], c)
    decreases k
  {
    if k == 0 {
      b := a;
      assert t[..0] == [] && t[0..] == t;
    } else {
      b := StatesSplit(edges, t[0].edge.next, t[1..], c, k - 1);
      assert t[..k][1..] == t[1..][..k - 1];
      assert t[k..] == t[1..][k - 1..];
    }
  }

  lemma {:induction false} OneStep<S>(edges: seq<seq<Edge<S>>>, from: nat, edge: Edge<S>)
    requires from < |edges| && edge in edges[from]
    ensures IsTrace(edges, from, [Step(from, edge)], edge.next)
    ensures Word([Step(from, edge)]) == (if edge.Symbol? then [edge.symbol] else [])
  {
    assert [Step(from, edge)][1..] == [];
  }

  // ----- the states a pattern's fragment occupies -----

  /** Number of states the fragment of a pattern allocates. */
  function Width<S>(p: Pattern<S>): (n: nat)
    ensures n >= 1
    decreases p
  {
    match p
    case Atom(_) => 2
    case Seq(parts) => 1 + Widths(parts)
    case Alt(parts) => 2 + Widths(parts)
    case Opt(body) => 2 + Width(body)
    case Rep(body) => 2 + Width(body)
  }

  function Widths<S>(parts: seq<Pattern<S>>): nat
    decreases parts
  {
    if parts == [] then 0 else Width(parts[0]) + Widths(parts[1..])
  }

  /** The accepting state of the fragment whose first (and start) state is `lo`. */
  function Accept<S>(p: Pattern<S>, lo: nat): (a: nat)
    ensures lo <= a < lo + Width(p)
    decreases p
  {
    match p
    case Seq(parts) => SeqAccept(parts, lo, lo + 1)
    case _ => lo + 1
  }

  function SeqAccept<S>(parts: seq<Pattern<S>>, tail: nat, lo: nat): (a: nat)
    ensures a == tail || lo <= a < lo + Widths(parts)
    ensures parts == [] <==> !(lo <= a < lo + Widths(parts))
    decreases parts
  {
    if parts == [] then tail
    else
      var rest := SeqAccept(parts[1..], Accept(parts[0], lo), lo + Width(parts[0]));
      rest
  }

  // ----- the edges of a pattern's fragment -----

  /** The edges of every state of the fragment, except of its accepting state,
      whose edges belong to the enclosing fragment. */
  ghost predicate Shape<S>(p: Pattern<S>, edges: seq<seq<Edge<S>>>, lo: nat)
    decreases p
  {
    && lo + Width(p) <= |edges|
    && match p
       case Atom(a) => edges[lo] == [Symbol(a, lo + 1)]
       case Seq(parts) => SeqShape(parts, edges, lo, lo + 1)
       case Alt(parts) => edges[lo] == AltStarts(parts, lo + 2) && AltShape(parts, edges, lo + 2, lo + 1)
       case Opt(body) =>
         && edges[lo] == [Epsilon(lo + 1), Epsilon(lo + 2)]
         && Shape(body, edges, lo + 2)
         && edges[Accept(body, lo + 2)] == [Epsilon(lo + 1)]
       case Rep(body) =>
         && edges[lo] == [Epsilon(lo + 1), Epsilon(lo + 2)]
         && Shape(body, edges, lo + 2)
         && edges[Accept(body, lo + 2)] == [Epsilon(lo + 2), Epsilon(lo + 1)]
  }

  ghost predicate SeqShape<S>(parts: seq<Pattern<S>>, edges: seq<seq<Edge<S>>>, tail: nat, lo: nat)
    decreases parts
  {
    parts == [] ||
    (&& tail < |edges| && edges[tail] == [Epsilon(lo)]
     && Shape(parts[0], edges, lo)
     && SeqShape(parts[1..], edges, Accept(parts[0], lo), lo + Width(parts[0])))
  }

  function AltStarts<S>(parts: seq<Pattern<S>>, lo: nat): seq<Edge<S>> {
    if parts == [] then [] else [Epsilon(lo)] + AltStarts(parts[1..], lo + Width(parts[0]))
  }

  ghost predicate AltShape<S>(parts: seq<Pattern<S>>, edges: seq<seq<Edge<S>>>, lo: nat, accept: nat)
    decreases parts
  {
    parts == [] ||
    (&& Shape(parts[0], edges, lo)
     && edges[Accept(parts[0], lo)] == [Epsilon(accept)]
     && AltShape(parts[1..], edges, lo + Width(parts[0]), accept))
  }

  // ----- derived words have traces -----

  lemma {:induction false} TraceOf<S(!new)>(p: Pattern<S>, edges: seq<seq<Edge<S>>>, lo: nat, word: seq<S>)
    returns (t: seq<Step<S>>)
    requires Shape(p, edges, lo) && InLang(p, word)
    ensures IsTrace(edges, lo, t, Accept(p, lo)) && Word(t) == word
    decreases p, 0
  {
    match p
    case Atom(a) =>
      OneStep(edges, lo, Symbol(a, lo + 1));
      t := [Step(lo, Symbol(a, lo + 1))];
    case Seq(parts) =>
      var words: seq<seq<S>> :| |words| == |parts| && Flatten(words) == word &&
        forall i | 0 <= i < |parts| :: InLang(parts[i], words[i]);
      t := SeqTraceOf(parts, edges, lo, lo + 1, words);
    case Alt(parts) =>
      var i :| 0 <= i < |parts| && InLang(parts[i], word);
      t := AltTraceOf(parts, edges, lo, lo + 2, lo + 1, word, i);
    case Opt(body) =>
      if word == [] {
        OneStep(edges, lo, Epsilon(lo + 1));
        t := [Step(lo, Epsilon(lo + 1))];
      } else {
        var inner := TraceOf(body, edges, lo + 2, word);
        t := Around(edges, lo, lo + 2, inner, Accept(body, lo + 2), lo + 1);
      }
    case Rep(body) =>
      var words: seq<seq<S>> :| Flatten(words) == word && forall x | x in words :: InLang(body, x);
      if words == [] {
        OneStep(edges, lo, Epsilon(lo + 1));
        t := [Step(lo, Epsilon(lo + 1))];
      } else {
        var inner := RepTraceOf(body, edges, lo + 2, words);
        t := Around(edges, lo, lo + 2, inner, Accept(body, lo + 2), lo + 1);
      }
  }

  /** Enter a fragment by an epsilon edge and leave its accepting state by one. */
  lemma {:induction false} Around<S>(edges: seq<seq<Edge<S>>>, from: nat, start: nat, inner: seq<Step<S>>, end: nat,
                                     to: nat)
    returns (t: seq<Step<S>>)
    requires from < |edges| && Epsilon(start) in edges[from]
    requires IsTrace(edges, start, inner, end)
    requires end < |edges| && Epsilon(to) in edges[end]
    ensures IsTrace(edges, from, t, to) && Word(t) == Word(inner)
  {
    var first := [Step(from, Epsilon(start))];
    var last := [Step(end, Epsilon(to))];
    OneStep(edges, from, Epsilon(start));
    OneStep(edges, end, Epsilon(to));
    TraceJoin(edges, from, first, start, inner, end);
    TraceJoin(edges, from, first + inner, end, last, to);
    t := first + inner + last;
  }

  lemma {:induction false} SeqTraceOf<S(!new)>(parts: seq<Pattern<S>>, edges: seq<seq<Edge<S>>>, tail: nat, lo: nat,
                                               words: seq<seq<S>>)
    returns (t: seq<Step<S>>)
    requires SeqShape(parts, edges, tail, lo) && |words| == |parts|
    requires forall i | 0 <= i < |parts| :: InLang(parts[i], words[i])
    ensures IsTrace(edges, tail, t, SeqAccept(parts, tail, lo)) && Word(t) == Flatten(words)
    decreases parts, 1
  {
    if parts == [] {
      t := [];
    } else {
      var inner := TraceOf(parts[0], edges, lo, words[0]);
      var rest := SeqTraceOf(parts[1..], edges, Accept(parts[0], lo), lo + Width(parts[0]), words[1..]);
      var first := [Step(tail, Epsilon(lo))];
      OneStep(edges, tail, Epsilon(lo));
      TraceJoin(edges, tail, first, lo, inner, Accept(parts[0], lo));
      TraceJoin(edges, tail, first + inner, Accept(parts[0], lo), rest, SeqAccept(parts, tail, lo));
      t := first + inner + rest;
    }
  }

  lemma {:induction false} AltTraceOf<S(!new)>(parts: seq<Pattern<S>>, edges: seq<seq<Edge<S>>>, start: nat, lo: nat,
                                               accept: nat, word: seq<S>, i: nat)
    returns (t: seq<Step<S>>)
    requires AltShape(parts, edges, lo, accept) && i < |parts| && InLang(parts[i], word)
    requires start < |edges| && forall e | e in AltStarts(parts, lo) :: e in edges[start]
    ensures IsTrace(edges, start, t, accept) && Word(t) == word
    decreases parts, 1
  {
    if i == 0 {
      var inner := TraceOf(parts[0], edges, lo, word);
      t := Around(edges, start, lo, inner, Accept(parts[0], lo), accept);
    } else {
      assert parts[1..][i - 1] == parts[i];
      t := AltTraceOf(parts[1..], edges, start, lo + Width(parts[0]), accept, word, i - 1);
    }
  }

  lemma {:induction false} RepTraceOf<S(!new)>(body: Pattern<S>, edges: seq<seq<Edge<S>>>, lo: nat, words: seq<seq<S>>)
    returns (t: seq<Step<S>>)
    requires Shape(body, edges, lo) && words != [] && forall x | x in words :: InLang(body, x)
    requires Epsilon(lo) in edges[Accept(body, lo)]
    ensures IsTrace(edges, lo, t, Accept(body, lo)) && Word(t) == Flatten(words)
    decreases body, 1, |words|
  {
    var a := Accept(body, lo);
    t := TraceOf(body, edges, lo, words[0]);
    if |words| > 1 {
      var rest := RepTraceOf(body, edges, lo, words[1..]);
      var back := [Step(a, Epsilon(lo))];
      OneStep(edges, a, Epsilon(lo));
      TraceJoin(edges, lo, t, a, back, lo);
      TraceJoin(edges, lo, t + back, lo, rest, a);
      t := t + back + rest;
    } else {
      assert words[1..] == [];
    }
  }

  // ----- traces derive words -----

  lemma {:induction false} WordJoin<S>(t: seq<Step<S>>, u: seq<Step<S>>)
    ensures Word(t + u) == Word(t) + Word(u)
  {
    if t == [] {
      assert t + u == u;
    } else {
      WordJoin(t[1..], u);
      assert (t + u)[0] == t[0] && (t + u)[1..] == t[1..] + u;
    }
  }

  /** An epsilon step in front of a trace reads nothing. */
  lemma {:induction false} EpsilonFirst<S>(step: Step<S>, t: seq<Step<S>>)
    requires step.edge.Epsilon?
    ensures Word([step] + t) == Word(t)
  {
    assert ([step] + t)[1..] == t;
  }

  lemma {:induction false} Behind<S>(edges: seq<seq<Edge<S>>>, from: nat, t: seq<Step<S>>, to: nat)
    requires IsTrace(edges, from, t, to) && from != to
    ensures t != [] && t == [t[0]] + t[1..] && t[0].edge in edges[from] && IsTrace(edges, t[0].edge.next, t[1..], to)
  {
  }

  ghost predicate Outside<S>(p: Pattern<S>, lo: nat, goal: nat) {
    goal == Accept(p, lo) || goal < lo || lo + Width(p) <= goal
  }

  /** A trace that enters a fragment at its start and goes on to a state outside
      of it passes the accepting state, having read a derived word. */
  lemma {:induction false} FirstExit<S(!new)>(p: Pattern<S>, edges: seq<seq<Edge<S>>>, lo: nat, t: seq<Step<S>>,
                                              goal: nat)
    returns (inside: seq<Step<S>>, after: seq<Step<S>>)
    requires Shape(p, edges, lo) && IsTrace(edges, lo, t, goal) && Outside(p, lo, goal)
    ensures t == inside + after && IsTrace(edges, Accept(p, lo), after, goal) && InLang(p, Word(inside))
    decreases p, 0, |t|
  {
    match p
    case Atom(a) =>
      Behind(edges, lo, t, goal);
      inside, after := [t[0]], t[1..];
      assert inside[1..] == [];
    case Seq(parts) =>
      inside, after := SeqExit(parts, edges, lo, lo + 1, t, goal);
    case Alt(parts) =>
      Behind(edges, lo, t, goal);
      inside, after := AltExit(parts, edges, lo + 2, lo + 1, t, goal);
    case Opt(body) =>
      inside, after := OptExit(body, edges, lo, t, goal);
    case Rep(body) =>
      inside, after := LoopExit(body, edges, lo, t, goal);
  }

  lemma {:induction false} OptExit<S(!new)>(body: Pattern<S>, edges: seq<seq<Edge<S>>>, lo: nat, t: seq<Step<S>>,
                                            goal: nat)
    returns (inside: seq<Step<S>>, after: seq<Step<S>>)
    requires Shape(Opt(body), edges, lo) && IsTrace(edges, lo, t, goal) && Outside(Opt(body), lo, goal)
    ensures t == inside + after && IsTrace(edges, lo + 1, after, goal) && InLang(Opt(body), Word(inside))
    decreases body, 2, |t|
  {
    Behind(edges, lo, t, goal);
    if t[0].edge == Epsilon(lo + 1) {
      inside, after := [t[0]], t[1..];
      EpsilonFirst(t[0], []);
    } else {
      inside, after := ThroughBody(body, edges, lo + 2, lo + 1, t, goal);
    }
  }

  lemma {:induction false} LoopExit<S(!new)>(body: Pattern<S>, edges: seq<seq<Edge<S>>>, lo: nat, t: seq<Step<S>>,
                                             goal: nat)
    returns (inside: seq<Step<S>>, after: seq<Step<S>>)
    requires Shape(Rep(body), edges, lo) && IsTrace(edges, lo, t, goal) && Outside(Rep(body), lo, goal)
    ensures t == inside + after && IsTrace(edges, lo + 1, after, goal) && InLang(Rep(body), Word(inside))
    decreases body, 2, |t|
  {
    Behind(edges, lo, t, goal);
    var words: seq<seq<S>>;
    if t[0].edge == Epsilon(lo + 1) {
      inside, after, words := [t[0]], t[1..], [];
      EpsilonFirst(t[0], []);
    } else {
      inside, after, words := RepExit(body, edges, lo + 2, lo + 1, t[1..], goal);
      EpsilonFirst(t[0], inside);
      inside := [t[0]] + inside;
    }
    assert Flatten(words) == Word(inside) && forall x | x in words :: InLang(body, x);
  }

  /** An epsilon step into a body, the body, and the only epsilon step out of it. */
  lemma {:induction false} ThroughBody<S(!new)>(body: Pattern<S>, edges: seq<seq<Edge<S>>>, lo: nat, accept: nat,
                                                t: seq<Step<S>>, goal: nat)
    returns (inside: seq<Step<S>>, after: seq<Step<S>>)
    requires Shape(body, edges, lo) && edges[Accept(body, lo)] == [Epsilon(accept)]
    requires t != [] && t[0].edge == Epsilon(lo) && IsTrace(edges, lo, t[1..], goal)
    requires Outside(body, lo, goal) && goal != Accept(body, lo)
    ensures t == inside + after && IsTrace(edges, accept, after, goal) && InLang(body, Word(inside))
    decreases body, 1
  {
    var x, y := FirstExit(body, edges, lo, t[1..], goal);
    Behind(edges, Accept(body, lo), y, goal);
    inside, after := [t[0]] + (x + [y[0]]), y[1..];
    EpsilonFirst(t[0], x + [y[0]]);
    WordJoin(x, [y[0]]);
    EpsilonFirst(y[0], []);
    assert Word(inside) == Word(x);
  }

  lemma {:induction false} Regroup<T>(first: seq<T>, x: seq<T>, x': seq<T>, y': seq<T>)
    ensures first + (x + (x' + y')) == (first + (x + x')) + y'
  {
  }

  /** The states that a trace through a sequence may end in. */
  ghost predicate SeqGoal<S>(parts: seq<Pattern<S>>, tail: nat, lo: nat, goal: nat) {
    goal == SeqAccept(parts, tail, lo) || (goal != tail && (goal < lo || lo + Widths(parts) <= goal))
  }

  /** Such a state is outside of the first part, and such a state for the others. */
  lemma {:induction false} GoalAhead<S>(parts: seq<Pattern<S>>, tail: nat, lo: nat, goal: nat)
    requires parts != [] && tail < lo && SeqGoal(parts, tail, lo, goal)
    ensures Outside(parts[0], lo, goal) && SeqGoal(parts[1..], Accept(parts[0], lo), lo + Width(parts[0]), goal)
    ensures goal != tail
  {
  }

  lemma {:induction false} SeqExit<S(!new)>(parts: seq<Pattern<S>>, edges: seq<seq<Edge<S>>>, tail: nat, lo: nat,
                                            t: seq<Step<S>>, goal: nat)
    returns (inside: seq<Step<S>>, after: seq<Step<S>>)
    requires SeqShape(parts, edges, tail, lo) && IsTrace(edges, tail, t, goal) && tail < lo
    requires SeqGoal(parts, tail, lo, goal)
    ensures t == inside + after && IsTrace(edges, SeqAccept(parts, tail, lo), after, goal)
    ensures InLang(Seq(parts), Word(inside))
    decreases parts, 1
  {
    if parts == [] {
      inside, after := [], t;
      var none: seq<seq<S>> := [];
      assert Flatten(none) == Word(inside);
    } else {
      Behind(edges, tail, t, goal);
      GoalAhead(parts, tail, lo, goal);
      var x, y := FirstExit(parts[0], edges, lo, t[1..], goal);
      var x', y' := SeqExit(parts[1..], edges, Accept(parts[0], lo), lo + Width(parts[0]), y, goal);
      inside, after := [t[0]] + (x + x'), y';
      Regroup([t[0]], x, x', y');
      SeqWord(parts, t[0], x, x');
    }
  }

  lemma {:induction false} SeqWord<S(!new)>(parts: seq<Pattern<S>>, step: Step<S>, x: seq<Step<S>>, x': seq<Step<S>>)
    requires parts != [] && step.edge.Epsilon? && InLang(parts[0], Word(x)) && InLang(Seq(parts[1..]), Word(x'))
    ensures InLang(Seq(parts), Word([step] + (x + x')))
  {
    EpsilonFirst(step, x + x');
    WordJoin(x, x');
    SeqCons(parts[0], parts[1..], Word(x), Word(x'));
    assert [parts[0]] + parts[1..] == parts;
  }

  lemma {:induction false} AltExit<S(!new)>(parts: seq<Pattern<S>>, edges: seq<seq<Edge<S>>>, lo: nat, accept: nat,
                                            t: seq<Step<S>>, goal: nat)
    returns (inside: seq<Step<S>>, after: seq<Step<S>>)
    requires AltShape(parts, edges, lo, accept)
    requires t != [] && t[0].edge in AltStarts(parts, lo) && IsTrace(edges, t[0].edge.next, t[1..], goal)
    requires goal < lo || lo + Widths(parts) <= goal
    ensures t == inside + after && IsTrace(edges, accept, after, goal)
    ensures InLang(Alt(parts), Word(inside))
    decreases parts, 1
  {
    if t[0].edge == Epsilon(lo) {
      inside, after := ThroughBody(parts[0], edges, lo, accept, t, goal);
      assert InLang(parts[0], Word(inside));
    } else {
      inside, after := AltExit(parts[1..], edges, lo + Width(parts[0]), accept, t, goal);
      var i :| 0 <= i < |parts[1..]| && InLang(parts[1..][i], Word(inside));
      assert InLang(parts[i + 1], Word(inside));
    }
  }

  lemma {:induction false} RepExit<S(!new)>(body: Pattern<S>, edges: seq<seq<Edge<S>>>, lo: nat, accept: nat,
                                            t: seq<Step<S>>, goal: nat)
    returns (inside: seq<Step<S>>, after: seq<Step<S>>, words: seq<seq<S>>)
    requires Shape(body, edges, lo) && edges[Accept(body, lo)] == [Epsilon(lo), Epsilon(accept)]
    requires IsTrace(edges, lo, t, goal) && Outside(body, lo, goal) && goal != Accept(body, lo)
    ensures t == inside + after && IsTrace(edges, accept, after, goal) && Factorizes(body, words, Word(inside))
    decreases body, 1, |t|
  {
    var x, y := FirstExit(body, edges, lo, t, goal);
    Behind(edges, Accept(body, lo), y, goal);
    if y[0].edge == Epsilon(accept) {
      inside, after, words := x + [y[0]], y[1..], [Word(x)];
      WordJoin(x, [y[0]]);
      EpsilonFirst(y[0], []);
      FlattenOne(Word(x));
    } else {
      var x', y', words' := RepExit(body, edges, lo, accept, y[1..], goal);
      inside, after, words := x + ([y[0]] + x'), y', [Word(x)] + words';
      WordJoin(x, [y[0]] + x');
      EpsilonFirst(y[0], x');
      assert words[1..] == words';
    }
  }

  /** Compilation preserves meaning: the start-to-accept traces of a fragment
      read exactly the words of its pattern. */
  lemma {:induction false} CompilePreservesWords<S(!new)>(p: Pattern<S>, edges: seq<seq<Edge<S>>>, lo: nat,
                                                          word: seq<S>)
    requires Shape(p, edges, lo) && edges[Accept(p, lo)] == []
    ensures InLang(p, word) <==> Spells(edges, lo, word, Accept(p, lo))
  {
    if InLang(p, word) {
      var t := TraceOf(p, edges, lo, word);
    }
    if Spells(edges, lo, word, Accept(p, lo)) {
      var t :| IsTrace(edges, lo, t, Accept(p, lo)) && Word(t) == word;
      var inside, after := FirstExit(p, edges, lo, t, Accept(p, lo));
      assert after == [] && inside == t;
    }
  }

  // ----- epsilon paths and the last symbol of a trace -----

  ghost predicate EpsilonPath<S(!new)>(edges: seq<seq<Edge<S>>>, from: nat, to: nat) {
    exists t :: IsTrace(edges, from, t, to) && Word(t) == []
  }

  lemma {:induction false} EpsilonStep<S(!new)>(edges: seq<seq<Edge<S>>>, from: nat, mid: nat, e: Edge<S>)
    requires EpsilonPath(edges, from, mid) && mid < |edges| && e in edges[mid] && e.Epsilon?
    ensures EpsilonPath(edges, from, e.next)
  {
    var t :| IsTrace(edges, from, t, mid) && Word(t) == [];
    OneStep(edges, mid, e);
    TraceJoin(edges, from, t, mid, [Step(mid, e)], e.next);
  }

  ghost predicate EndsInSymbol<S>(t: seq<Step<S>>) {
    t == [] || t[|t| - 1].edge.Symbol?
  }

  lemma {:induction false} SymbolLast<S>(t: seq<Step<S>>)
    requires t != [] && t[|t| - 1].edge.Symbol?
    ensures Word(t) == Word(t[..|t| - 1]) + [t[|t| - 1].edge.symbol]
  {
    var last := t[|t| - 1];
    assert t == t[..|t| - 1] + [last];
    WordJoin(t[..|t| - 1], [last]);
    assert [last][1..] == [];
    assert Word([last]) == [last.edge.symbol];
  }

  /** Every trace is one that ends in a symbol, then epsilon edges only. */
  lemma {:induction false} LastSymbol<S>(edges: seq<seq<Edge<S>>>, from: nat, t: seq<Step<S>>, to: nat)
    returns (k: nat, mid: nat)
    requires IsTrace(edges, from, t, to)
    ensures k <= |t| && EndsInSymbol(t[..k])
    ensures IsTrace(edges, from, t[..k], mid) && IsTrace(edges, mid, t[k..], to)
    ensures Word(t[k..]) == [] && Word(t) == Word(t[..k])
  {
    k := |t|;
    while k > 0 && t[k - 1].edge.Epsilon?
      invariant k <= |t| && Word(t[k..]) == []
    {
      k := k - 1;
      assert t[k..] == [t[k]] + t[k + 1..];
      EpsilonFirst(t[k], t[k + 1..]);
    }
    mid := TraceSplit(edges, from, t, to, k);
  }
}
