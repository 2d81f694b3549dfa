/** Deciding whether a repeated body splits some word into iterations in two
    different ways: a search over pairs of decoders of the same word. */
module Ambiguity {
  import opened Collections
  import opened Wrappers
  import opened Patterns
  import opened Automata
  import opened Compiler

  // ----- state sets -----

  /** The states reached from the start by reading `word`. */
  ghost function StateSet<S(!new)>(edges: seq<seq<Edge<S>>>, word: seq<S>): set<nat> {
    set q | q in Below(|edges|) && Spells(edges, 0, word, q)
  }

  ghost predicate ClosureOf<S(!new)>(edges: seq<seq<Edge<S>>>, seeds: set<nat>, q: nat) {
    exists p | p in seeds :: EpsilonPath(edges, p, q)
  }

  lemma {:induction false} ClosedHolds<S(!new)>(edges: seq<seq<Edge<S>>>, closure: set<nat>, from: nat, t: seq<Step<S>>,
                                                to: nat)
    requires forall q, e | q in closure && q < |edges| && e in edges[q] && e.Epsilon? :: e.next in closure
    requires IsTrace(edges, from, t, to) && Word(t) == [] && from in closure
    ensures to in closure
    decreases |t|
  {
    if t != [] {
      ClosedHolds(edges, closure, t[0].edge.next, t[1..], to);
    }
  }

  /** The worklist state of a closure; `exempt` is the state being expanded. */
  ghost predicate Walking<S(!new)>(edges: seq<seq<Edge<S>>>, good: nat -> bool, closure: set<nat>, pending: seq<nat>,
                                   exempt: set<nat>) {
    && (forall q | q in closure :: q < |edges| && good(q))
    && (forall q | q in pending :: q in closure)
    && (forall q, e | q in closure && q !in pending && q !in exempt && e in edges[q] && e.Epsilon? :: e.next in closure)
  }

  lemma {:induction false} WalkPop<S(!new)>(edges: seq<seq<Edge<S>>>, good: nat -> bool, closure: set<nat>,
                                            pending: seq<nat>)
    requires pending != [] && Walking(edges, good, closure, pending, {})
    ensures Walking(edges, good, closure, pending[..|pending| - 1], {pending[|pending| - 1]})
    ensures pending[|pending| - 1] in closure
  {
    var n := |pending| - 1;
    assert pending == pending[..n] + [pending[n]];
    assert pending[n] in pending;
    assert forall q | q in pending :: q in pending[..n] || q == pending[n];
  }

  lemma {:induction false} WalkPush<S(!new)>(edges: seq<seq<Edge<S>>>, good: nat -> bool, closure: set<nat>,
                                             pending: seq<nat>, exempt: set<nat>, q: nat)
    requires Walking(edges, good, closure, pending, exempt) && q < |edges| && good(q)
    ensures Walking(edges, good, closure + {q}, pending + [q], exempt)
  {
    assert q in pending + [q] && forall p | p in pending :: p in pending + [q];
  }

  method Visit<S(!new)>(edges: seq<seq<Edge<S>>>, ghost good: nat -> bool, closure0: set<nat>, pending0: seq<nat>,
                        state: nat)
    returns (closure: set<nat>, pending: seq<nat>)
    requires InRange(edges) && state in closure0 && Walking(edges, good, closure0, pending0, {state})
    requires forall e | e in edges[state] && e.Epsilon? :: good(e.next)
    ensures closure0 <= closure && Walking(edges, good, closure, pending, {})
    ensures closure == closure0 ==> pending == pending0
  {
    closure, pending := closure0, pending0;
    var out := edges[state];
    for i := 0 to |out|
      invariant closure0 <= closure && Walking(edges, good, closure, pending, {state})
      invariant closure == closure0 ==> pending == pending0
      invariant forall j | 0 <= j < i && out[j].Epsilon? :: out[j].next in closure
    {
      if out[i].Epsilon? && out[i].next !in closure {
        WalkPush(edges, good, closure, pending, {state}, out[i].next);
        closure := closure + {out[i].next};
        pending := pending + [out[i].next];
      }
    }
  }

  method Closure<S(!new)>(edges: seq<seq<Edge<S>>>, seeds: set<nat>) returns (closure: set<nat>)
    requires InRange(edges) && forall q | q in seeds :: q < |edges|
    ensures forall q :: q in closure <==> ClosureOf(edges, seeds, q)
    ensures forall q | q in closure :: q < |edges|
  {
    ghost var good := (q: nat) => ClosureOf(edges, seeds, q);
    forall q | q in seeds ensures good(q) {
      var none: seq<Step<S>> := [];
      assert IsTrace(edges, q, none, q) && Word(none) == [];
      assert EpsilonPath(edges, q, q);
    }
    forall q, e | 0 <= q < |edges| && good(q) && e in edges[q] && e.Epsilon? ensures good(e.next) {
      Extended(edges, seeds, q, e);
    }
    closure := VisitAll(edges, good, seeds);
    forall q | ClosureOf(edges, seeds, q) ensures q in closure {
      var p :| p in seeds && EpsilonPath(edges, p, q);
      var t :| IsTrace(edges, p, t, q) && Word(t) == [];
      ClosedHolds(edges, closure, p, t, q);
    }
  }

  method VisitAll<S(!new)>(edges: seq<seq<Edge<S>>>, ghost good: nat -> bool, seeds: set<nat>)
    returns (closure: set<nat>)
    requires InRange(edges) && forall q | q in seeds :: q < |edges| && good(q)
    requires forall q, e | 0 <= q < |edges| && good(q) && e in edges[q] && e.Epsilon? :: good(e.next)
    ensures seeds <= closure && forall q | q in closure :: q < |edges| && good(q)
    ensures forall q, e | q in closure && e in edges[q] && e.Epsilon? :: e.next in closure
  {
    closure := seeds;
    var pending := Listing(seeds);
    ghost var all := Below(|edges|);
    while pending != []
      invariant seeds <= closure <= all && Walking(edges, good, closure, pending, {})
      decreases all - closure, |pending|
    {
      var n := |pending| - 1;
      WalkPop(edges, good, closure, pending);
      closure, pending := Visit(edges, good, closure, pending[..n], pending[n]);
    }
  }

  lemma {:induction false} Extended<S(!new)>(edges: seq<seq<Edge<S>>>, seeds: set<nat>, q: nat, e: Edge<S>)
    requires ClosureOf(edges, seeds, q) && q < |edges| && e in edges[q] && e.Epsilon?
    ensures ClosureOf(edges, seeds, e.next)
  {
    var p :| p in seeds && EpsilonPath(edges, p, q);
    EpsilonStep(edges, p, q, e);
  }

  method Listing(s: set<nat>) returns (list: seq<nat>)
    ensures forall x :: x in list <==> x in s
  {
    list := [];
    var rest := s;
    while rest != {}
      invariant rest <= s && forall x :: x in list <==> x in s - rest
      decreases rest
    {
      var x := First(rest);
      list := list + [x];
      rest := rest - {x};
    }
  }

  function Targets<S(==)>(edges: seq<seq<Edge<S>>>, states: set<nat>, symbol: S): set<nat>
    requires forall q | q in states :: q < |edges|
  {
    set q, e | q in states && e in edges[q] && e.Symbol? && e.symbol == symbol :: e.next
  }

  function Symbols<S(==)>(edges: seq<seq<Edge<S>>>, states: set<nat>): set<S>
    requires forall q | q in states :: q < |edges|
  {
    set q, e | q in states && e in edges[q] && e.Symbol? :: e.symbol
  }

  ghost predicate Available<S(!new)>(edges: seq<seq<Edge<S>>>, word: seq<S>, symbol: S) {
    symbol in Symbols(edges, StateSet(edges, word))
  }

  lemma {:induction false} StepForward<S(!new)>(edges: seq<seq<Edge<S>>>, word: seq<S>, symbol: S, q: nat)
    requires ClosureOf(edges, Targets(edges, StateSet(edges, word), symbol), q)
    ensures Spells(edges, 0, word + [symbol], q)
  {
    var p :| p in Targets(edges, StateSet(edges, word), symbol) && EpsilonPath(edges, p, q);
    var from, e :| from in StateSet(edges, word) && e in edges[from] && e.Symbol? && e.symbol == symbol && e.next == p;
    var t :| IsTrace(edges, 0, t, from) && Word(t) == word;
    var u :| IsTrace(edges, p, u, q) && Word(u) == [];
    OneStep(edges, from, e);
    TraceJoin(edges, 0, t, from, [Step(from, e)], p);
    TraceJoin(edges, 0, t + [Step(from, e)], p, u, q);
    assert Word(t + [Step(from, e)] + u) == word + [symbol];
  }

  lemma {:induction false} StepBack<S(!new)>(edges: seq<seq<Edge<S>>>, word: seq<S>, symbol: S, q: nat)
    requires InRange(edges) && Spells(edges, 0, word + [symbol], q)
    ensures Available(edges, word, symbol)
    ensures ClosureOf(edges, Targets(edges, StateSet(edges, word), symbol), q)
  {
    var t: seq<Step<S>> :| IsTrace(edges, 0, t, q) && Word(t) == word + [symbol];
    var k, mid := LastSymbol(edges, 0, t, q);
    var n := k - 1;
    SymbolLast(t[..k]);
    assert t[..k][..n] == t[..n];
    var e := t[n].edge;
    assert Word(t[..n]) + [e.symbol] == word + [symbol];
    assert e.symbol == symbol && Word(t[..n]) == word by {
      assert (Word(t[..n]) + [e.symbol])[|word|] == symbol;
      assert (Word(t[..n]) + [e.symbol])[..|word|] == word;
    }
    var from := TraceSplit(edges, 0, t[..k], mid, n);
    assert t[..k][n..] == [t[n]] && [t[n]][1..] == [];
    assert Spells(edges, 0, word, from) && from in StateSet(edges, word);
    assert EpsilonPath(edges, mid, q);
    assert mid in Targets(edges, StateSet(edges, word), symbol);
  }

  ghost function AdvanceSet<S(!new)>(edges: seq<seq<Edge<S>>>, states: set<nat>, symbol: S): set<nat>
    requires forall q | q in states :: q < |edges|
  {
    set q | q in Below(|edges|) && ClosureOf(edges, Targets(edges, states, symbol), q)
  }

  method Advance<S(==, !new)>(edges: seq<seq<Edge<S>>>, states: set<nat>, symbol: S) returns (next: set<nat>)
    requires InRange(edges) && forall q | q in states :: q < |edges|
    ensures next == AdvanceSet(edges, states, symbol)
  {
    next := Closure(edges, Targets(edges, states, symbol));
  }

  /** Reading one more symbol advances the state set. */
  lemma {:induction false} AdvanceReads<S(!new)>(edges: seq<seq<Edge<S>>>, word: seq<S>, symbol: S)
    requires InRange(edges)
    ensures AdvanceSet(edges, StateSet(edges, word), symbol) == StateSet(edges, word + [symbol])
  {
    forall q | q in AdvanceSet(edges, StateSet(edges, word), symbol) ensures q in StateSet(edges, word + [symbol]) {
      StepForward(edges, word, symbol, q);
    }
    forall q | q in StateSet(edges, word + [symbol]) ensures q in AdvanceSet(edges, StateSet(edges, word), symbol) {
      StepBack(edges, word, symbol, q);
    }
  }

  // ----- two decoders of one word -----

  datatype DecoderPair = DecoderPair(left: set<nat>, right: set<nat>, boundariesDiffer: bool)

  /** What one decoder has done: the iterations it has cut off, and the open one. */
  datatype History<S> = History(done: seq<seq<S>>, open: seq<S>)

  ghost predicate Reads<S(!new)>(p: Pattern<S>, edges: seq<seq<Edge<S>>>, h: History<S>, word: seq<S>) {
    && Factorizes(p, h.done, Flatten(h.done)) && word == Flatten(h.done) + h.open
    && StateSet(edges, h.open) != {}
  }

  ghost function PairOf<S(!new)>(edges: seq<seq<Edge<S>>>, a: History<S>, b: History<S>): DecoderPair {
    DecoderPair(StateSet(edges, a.open), StateSet(edges, b.open), a != b)
  }

  /** Reading one more symbol, then cutting the iteration off or not. */
  ghost function After<S>(h: History<S>, symbol: S, cut: bool): History<S> {
    if cut then History(h.done + [h.open + [symbol]], []) else History(h.done, h.open + [symbol])
  }

  lemma {:induction false} AfterDiffers<S(!new)>(a: History<S>, b: History<S>, symbol: S, cutA: bool, cutB: bool)
    ensures After(a, symbol, cutA) != After(b, symbol, cutB) <==> a != b || cutA != cutB
  {
    var x, y := a.open + [symbol], b.open + [symbol];
    assert x[..|x| - 1] == a.open && y[..|y| - 1] == b.open;
    var m, n := a.done + [x], b.done + [y];
    assert m[..|m| - 1] == a.done && n[..|n| - 1] == b.done && m[|m| - 1] == x && n[|n| - 1] == y;
  }

  ghost predicate TwoWays<S(!new)>(p: Pattern<S>) {
    exists a: seq<seq<S>>, b: seq<seq<S>> | a != b :: Factorizes(p, a, Flatten(a)) && Factorizes(p, b, Flatten(a))
  }

  /** The automaton of a body that derives no empty word. */
  ghost predicate Decoder<S(!new)>(p: Pattern<S>, edges: seq<seq<Edge<S>>>) {
    && InRange(edges) && |edges| == Width(p) && Shape(p, edges, 0) && edges[Accept(p, 0)] == []
    && !InLang(p, [])
  }

  lemma {:induction false} AcceptsWords<S(!new)>(p: Pattern<S>, edges: seq<seq<Edge<S>>>, word: seq<S>)
    requires Shape(p, edges, 0) && edges[Accept(p, 0)] == []
    ensures Accept(p, 0) in StateSet(edges, word) <==> InLang(p, word)
  {
    CompilePreservesWords(p, edges, 0, word);
    assert Accept(p, 0) in Below(|edges|);
    assert Spells(edges, 0, word, Accept(p, 0)) <==> InLang(p, word);
  }

  lemma {:induction false} AfterReads<S(!new)>(p: Pattern<S>, edges: seq<seq<Edge<S>>>, h: History<S>, word: seq<S>,
                                               symbol: S, cut: bool)
    requires Decoder(p, edges) && Reads(p, edges, h, word) && StateSet(edges, h.open + [symbol]) != {}
    requires cut ==> Accept(p, 0) in StateSet(edges, h.open + [symbol])
    ensures Reads(p, edges, After(h, symbol, cut), word + [symbol])
  {
    AcceptsWords(p, edges, h.open + [symbol]);
    if cut {
      FlattenAppend(h.done, [h.open + [symbol]]);
      FlattenOne(h.open + [symbol]);
      StartLive(edges);
    }
  }

  lemma {:induction false} StartLive<S(!new)>(edges: seq<seq<Edge<S>>>)
    requires |edges| > 0
    ensures 0 in StateSet(edges, [])
  {
    var none: seq<Step<S>> := [];
    assert IsTrace(edges, 0, none, 0) && Word(none) == [];
  }

  /** Every decoder state over a non-empty word was reached from one over its prefix. */
  lemma {:induction false} Before<S(!new)>(p: Pattern<S>, edges: seq<seq<Edge<S>>>, h: History<S>, word: seq<S>,
                                           symbol: S)
    returns (g: History<S>, cut: bool)
    requires Decoder(p, edges) && Reads(p, edges, h, word + [symbol])
    ensures Reads(p, edges, g, word) && h == After(g, symbol, cut)
    ensures Available(edges, g.open, symbol)
    ensures cut ==> Accept(p, 0) in StateSet(edges, g.open + [symbol])
  {
    if h.open != [] {
      g := BeforeOpen(h, word, symbol);
      cut := false;
    } else {
      g := BeforeCut(p, h, word, symbol);
      cut := true;
      AcceptsWords(p, edges, g.open + [symbol]);
    }
    var q :| q in StateSet(edges, g.open + [symbol]);
    StepBack(edges, g.open, symbol, q);
    assert StateSet(edges, g.open) != {} by {
      var from, e :| from in StateSet(edges, g.open) && e in edges[from] && e.Symbol? && e.symbol == symbol;
    }
  }

  lemma {:induction false} BeforeOpen<S(!new)>(h: History<S>, word: seq<S>, symbol: S) returns (g: History<S>)
    requires h.open != [] && word + [symbol] == Flatten(h.done) + h.open
    ensures g.done == h.done && h.open == g.open + [symbol] && word == Flatten(g.done) + g.open
  {
    var n := |h.open| - 1;
    g := History(h.done, h.open[..n]);
    LastSymbolOf(Flatten(h.done), h.open, word, symbol);
  }

  lemma {:induction false} LastSymbolOf<S>(front: seq<S>, back: seq<S>, word: seq<S>, symbol: S)
    requires back != [] && word + [symbol] == front + back
    ensures back == back[..|back| - 1] + [symbol] && word == front + back[..|back| - 1]
  {
    assert (front + back)[|word|] == symbol && (front + back)[|word|] == back[|back| - 1];
    assert (word + [symbol])[..|word|] == word && (front + back)[..|word|] == front + back[..|back| - 1];
  }

  lemma {:induction false} BeforeCut<S(!new)>(p: Pattern<S>, h: History<S>, word: seq<S>, symbol: S)
    returns (g: History<S>)
    requires h.open == [] && word + [symbol] == Flatten(h.done) && (forall x | x in h.done :: InLang(p, x)) &&
             !InLang(p, [])
    ensures h.done == g.done + [g.open + [symbol]] && word == Flatten(g.done) + g.open
    ensures InLang(p, g.open + [symbol]) && forall x | x in g.done :: InLang(p, x)
  {
    var n := |h.done| - 1;
    var last, front := h.done[n], h.done[..n];
    assert last in h.done && h.done == front + [last];
    FlattenAppend(front, [last]);
    FlattenOne(last);
    LastSymbolOf(Flatten(front), last, word, symbol);
    g := History(front, last[..|last| - 1]);
  }

  // ----- the search -----

  ghost predicate Live<S(!new)>(edges: seq<seq<Edge<S>>>, pair: DecoderPair) {
    (forall q | q in pair.left :: q < |edges|) && forall q | q in pair.right :: q < |edges|
  }

  ghost predicate Common<S(!new)>(edges: seq<seq<Edge<S>>>, pair: DecoderPair, symbol: S)
    requires Live(edges, pair)
  {
    symbol in Symbols(edges, pair.left) && symbol in Symbols(edges, pair.right)
  }

  ghost function Next<S(!new)>(edges: seq<seq<Edge<S>>>, pair: DecoderPair, symbol: S, cutLeft: bool,
                               cutRight: bool): DecoderPair
    requires Live(edges, pair)
  {
    DecoderPair(if cutLeft then StateSet(edges, []) else AdvanceSet(edges, pair.left, symbol),
                if cutRight then StateSet(edges, []) else AdvanceSet(edges, pair.right, symbol),
                pair.boundariesDiffer || cutLeft != cutRight)
  }

  /** A cut is allowed where the iteration can end. */
  ghost predicate MayCut<S(!new)>(edges: seq<seq<Edge<S>>>, accept: nat, states: set<nat>, symbol: S, cut: bool)
    requires forall q | q in states :: q < |edges|
  {
    cut ==> accept in AdvanceSet(edges, states, symbol)
  }

  ghost predicate Hit<S(!new)>(edges: seq<seq<Edge<S>>>, accept: nat, pair: DecoderPair, symbol: S)
    requires Live(edges, pair)
  {
    pair.boundariesDiffer && MayCut(edges, accept, pair.left, symbol, true) &&
        MayCut(edges, accept, pair.right, symbol, true)
  }

  /** Everything the pair's decoders can read next has been seen, and none of it
      ends both of them after different cuts. */
  ghost predicate Explored<S(!new)>(edges: seq<seq<Edge<S>>>, accept: nat, seen: set<DecoderPair>, pair: DecoderPair,
                                    symbol: S)
    requires Live(edges, pair)
  {
    Common(edges, pair, symbol) ==>
      && !Hit(edges, accept, pair, symbol)
      && forall l, r | MayCut(edges, accept, pair.left, symbol, l) && MayCut(edges, accept, pair.right, symbol, r) ::
           Next(edges, pair, symbol, l, r) in seen
  }

  /** The pair stands for two decoders of one word. */
  ghost predicate Explained<S(!new)>(p: Pattern<S>, edges: seq<seq<Edge<S>>>, pair: DecoderPair) {
    exists a: History<S>, b: History<S>, word: seq<S> ::
      Reads(p, edges, a, word) && Reads(p, edges, b, word) && pair == PairOf(edges, a, b)
  }

  ghost function Initial<S(!new)>(edges: seq<seq<Edge<S>>>): DecoderPair {
    DecoderPair(StateSet(edges, []), StateSet(edges, []), false)
  }

  ghost predicate Exhausted<S(!new)>(edges: seq<seq<Edge<S>>>, accept: nat, seen: set<DecoderPair>) {
    && Initial(edges) in seen
    && forall pair, symbol {:trigger Explored(edges, accept, seen, pair, symbol)} | pair in seen ::
         Live(edges, pair) && Explored(edges, accept, seen, pair, symbol)
  }

  lemma {:induction false} NextIsAfter<S(!new)>(edges: seq<seq<Edge<S>>>, a: History<S>, b: History<S>, symbol: S,
                                                cutA: bool, cutB: bool)
    requires InRange(edges)
    ensures Live(edges, PairOf(edges, a, b))
    ensures Next(edges, PairOf(edges, a, b), symbol, cutA, cutB) ==
            PairOf(edges, After(a, symbol, cutA), After(b, symbol, cutB))
  {
    AfterDiffers(a, b, symbol, cutA, cutB);
    AdvanceReads(edges, a.open, symbol);
    AdvanceReads(edges, b.open, symbol);
  }

  /** A search that ends without a hit has seen every pair of decoders. */
  lemma {:induction false} AllSeen<S(!new)>(p: Pattern<S>, edges: seq<seq<Edge<S>>>, seen: set<DecoderPair>,
                                            a: History<S>, b: History<S>, word: seq<S>)
    requires Decoder(p, edges) && Reads(p, edges, a, word) && Reads(p, edges, b, word)
    requires Exhausted(edges, Accept(p, 0), seen)
    ensures PairOf(edges, a, b) in seen
    decreases |word|
  {
    if word == [] {
      OnlyStart(p, edges, a);
      OnlyStart(p, edges, b);
    } else {
      var n := |word| - 1;
      assert word == word[..n] + [word[n]];
      var x, cutX := Before(p, edges, a, word[..n], word[n]);
      var y, cutY := Before(p, edges, b, word[..n], word[n]);
      AllSeen(p, edges, seen, x, y, word[..n]);
      SeenAfter(p, edges, seen, x, y, word[n], cutX, cutY);
    }
  }

  lemma {:induction false} SeenAfter<S(!new)>(p: Pattern<S>, edges: seq<seq<Edge<S>>>, seen: set<DecoderPair>,
                                              x: History<S>, y: History<S>, symbol: S, cutX: bool, cutY: bool)
    requires Decoder(p, edges) && Exhausted(edges, Accept(p, 0), seen) && PairOf(edges, x, y) in seen
    requires Available(edges, x.open, symbol) && Available(edges, y.open, symbol)
    requires cutX ==> Accept(p, 0) in StateSet(edges, x.open + [symbol])
    requires cutY ==> Accept(p, 0) in StateSet(edges, y.open + [symbol])
    ensures PairOf(edges, After(x, symbol, cutX), After(y, symbol, cutY)) in seen
    ensures cutX && cutY ==> x == y
  {
    var pair := PairOf(edges, x, y);
    AdvanceReads(edges, x.open, symbol);
    AdvanceReads(edges, y.open, symbol);
    NextIsAfter(edges, x, y, symbol, cutX, cutY);
    assert Explored(edges, Accept(p, 0), seen, pair, symbol);
    assert MayCut(edges, Accept(p, 0), pair.left, symbol, cutX) &&
           MayCut(edges, Accept(p, 0), pair.right, symbol, cutY);
    assert Next(edges, pair, symbol, cutX, cutY) in seen;
  }

  lemma {:induction false} OnlyStart<S(!new)>(p: Pattern<S>, edges: seq<seq<Edge<S>>>, h: History<S>)
    requires Decoder(p, edges) && Reads(p, edges, h, [])
    ensures h == History([], [])
  {
  }

  /** Two factorizations of one word would have been hit. */
  lemma {:induction false} ExhaustedIsUnambiguous<S(!new)>(p: Pattern<S>, edges: seq<seq<Edge<S>>>,
                                                           seen: set<DecoderPair>)
    requires Decoder(p, edges) && Exhausted(edges, Accept(p, 0), seen)
    ensures !TwoWays(p)
  {
    forall a: seq<seq<S>>, b: seq<seq<S>> | Factorizes(p, a, Flatten(a)) && Factorizes(p, b, Flatten(a))
      ensures a == b {
      OneWay(p, edges, seen, a, b);
    }
  }

  lemma {:induction false} OneWay<S(!new)>(p: Pattern<S>, edges: seq<seq<Edge<S>>>, seen: set<DecoderPair>,
                                           a: seq<seq<S>>, b: seq<seq<S>>)
    requires Decoder(p, edges) && Exhausted(edges, Accept(p, 0), seen)
    requires Factorizes(p, a, Flatten(a)) && Factorizes(p, b, Flatten(a))
    ensures a == b
  {
    var word := Flatten(a);
    StartLive(edges);
    var h, g := History(a, []), History(b, []);
    assert Reads(p, edges, h, word) && Reads(p, edges, g, word);
    if word == [] {
      OnlyStart(p, edges, h);
      OnlyStart(p, edges, g);
    } else {
      var n := |word| - 1;
      assert word == word[..n] + [word[n]];
      var x, cutX := Before(p, edges, h, word[..n], word[n]);
      var y, cutY := Before(p, edges, g, word[..n], word[n]);
      assert cutX && cutY;
      AllSeen(p, edges, seen, x, y, word[..n]);
      SeenAfter(p, edges, seen, x, y, word[n], cutX, cutY);
    }
  }

  /** A hit yields two factorizations of one word. */
  lemma {:induction false} HitIsAmbiguity<S(!new)>(p: Pattern<S>, edges: seq<seq<Edge<S>>>, pair: DecoderPair,
                                                   symbol: S)
    requires Decoder(p, edges) && Explained(p, edges, pair) && Live(edges, pair) &&
             Hit(edges, Accept(p, 0), pair, symbol)
    ensures TwoWays(p)
  {
    var a: History<S>, b: History<S>, word: seq<S> :|
      Reads(p, edges, a, word) && Reads(p, edges, b, word) && pair == PairOf(edges, a, b);
    AdvanceReads(edges, a.open, symbol);
    AdvanceReads(edges, b.open, symbol);
    TwoCuts(p, edges, a, b, word, symbol);
  }

  lemma {:induction false} TwoCuts<S(!new)>(p: Pattern<S>, edges: seq<seq<Edge<S>>>, a: History<S>, b: History<S>,
                                            word: seq<S>, symbol: S)
    requires Decoder(p, edges) && Reads(p, edges, a, word) && Reads(p, edges, b, word) && a != b
    requires Accept(p, 0) in StateSet(edges, a.open + [symbol]) && Accept(p, 0) in StateSet(edges, b.open + [symbol])
    ensures TwoWays(p)
  {
    AfterReads(p, edges, a, word, symbol, true);
    AfterReads(p, edges, b, word, symbol, true);
    AfterDiffers(a, b, symbol, true, true);
    var x, y := After(a, symbol, true).done, After(b, symbol, true).done;
    assert Flatten(x) == Flatten(x) + [] == word + [symbol] == Flatten(y) + [] == Flatten(y);
    assert Factorizes(p, x, Flatten(x)) && Factorizes(p, y, Flatten(x));
  }

  lemma {:induction false} NextExplained<S(!new)>(p: Pattern<S>, edges: seq<seq<Edge<S>>>, pair: DecoderPair, symbol: S,
                                                  l: bool, r: bool)
    requires Decoder(p, edges) && Explained(p, edges, pair) && Live(edges, pair) && Common(edges, pair, symbol)
    requires MayCut(edges, Accept(p, 0), pair.left, symbol, l) && MayCut(edges, Accept(p, 0), pair.right, symbol, r)
    ensures Explained(p, edges, Next(edges, pair, symbol, l, r))
  {
    var a: History<S>, b: History<S>, word: seq<S> :|
      Reads(p, edges, a, word) && Reads(p, edges, b, word) && pair == PairOf(edges, a, b);
    CommonAdvances(edges, a.open, symbol);
    CommonAdvances(edges, b.open, symbol);
    AfterReads(p, edges, a, word, symbol, l);
    AfterReads(p, edges, b, word, symbol, r);
    NextIsAfter(edges, a, b, symbol, l, r);
  }

  lemma {:induction false} CommonAdvances<S(!new)>(edges: seq<seq<Edge<S>>>, word: seq<S>, symbol: S)
    requires InRange(edges) && Available(edges, word, symbol)
    ensures StateSet(edges, word + [symbol]) != {}
    ensures AdvanceSet(edges, StateSet(edges, word), symbol) == StateSet(edges, word + [symbol])
  {
    var q, e :| q in StateSet(edges, word) && e in edges[q] && e.Symbol? && e.symbol == symbol;
    var none: seq<Step<S>> := [];
    assert IsTrace(edges, e.next, none, e.next) && Word(none) == [];
    assert EpsilonPath(edges, e.next, e.next) && e.next in Targets(edges, StateSet(edges, word), symbol);
    AdvanceReads(edges, word, symbol);
    assert e.next in AdvanceSet(edges, StateSet(edges, word), symbol);
  }

  // ----- the worklist -----

  ghost function Subsets(n: nat): set<set<nat>> {
    if n == 0 then {{}}
    else
      var rest := Subsets(n - 1);
      rest + set s | s in rest :: s + {n - 1}
  }

  lemma {:induction false} IsSubset(n: nat, s: set<nat>)
    requires s <= Below(n)
    ensures s in Subsets(n)
  {
    if n == 0 {
      assert s == {};
    } else if n - 1 in s {
      IsSubset(n - 1, s - {n - 1});
      assert s == (s - {n - 1}) + {n - 1};
    } else {
      IsSubset(n - 1, s);
    }
  }

  /** The finite space the search moves in. */
  ghost function Space(n: nat): set<DecoderPair> {
    set l, r, d | l in Subsets(n) && r in Subsets(n) && d in {false, true} :: DecoderPair(l, r, d)
  }

  lemma {:induction false} InSpace<S(!new)>(edges: seq<seq<Edge<S>>>, pair: DecoderPair)
    requires Live(edges, pair)
    ensures pair in Space(|edges|)
  {
    IsSubset(|edges|, pair.left);
    IsSubset(|edges|, pair.right);
    assert pair.boundariesDiffer in {false, true};
    assert pair == DecoderPair(pair.left, pair.right, pair.boundariesDiffer);
  }

  lemma {:induction false} ExplainedLive<S(!new)>(p: Pattern<S>, edges: seq<seq<Edge<S>>>, pair: DecoderPair)
    requires Explained(p, edges, pair)
    ensures Live(edges, pair)
  {
  }

  /** The search state; `exempt` is the pair being expanded. */
  ghost predicate Searching<S(!new)>(good: DecoderPair -> bool, edges: seq<seq<Edge<S>>>, accept: nat,
                                     seen: set<DecoderPair>, pending: seq<DecoderPair>, exempt: set<DecoderPair>) {
    && Initial(edges) in seen
    && (forall pair | pair in seen :: good(pair) && Live(edges, pair))
    && (forall pair | pair in pending :: pair in seen)
    && (forall pair, symbol {:trigger Explored(edges, accept, seen, pair, symbol)} |
          pair in seen && pair !in pending && pair !in exempt :: Explored(edges, accept, seen, pair, symbol))
  }

  lemma {:induction false} ExploredStays<S(!new)>(edges: seq<seq<Edge<S>>>, accept: nat, seen: set<DecoderPair>,
                                                  more: set<DecoderPair>, pair: DecoderPair, symbol: S)
    requires Live(edges, pair) && seen <= more && Explored(edges, accept, seen, pair, symbol)
    ensures Explored(edges, accept, more, pair, symbol)
  {
  }

  lemma {:induction false} SearchPush<S(!new)>(good: DecoderPair -> bool, edges: seq<seq<Edge<S>>>, accept: nat,
                                               seen: set<DecoderPair>, pending: seq<DecoderPair>,
    exempt: set<DecoderPair>, next: DecoderPair)
    requires Searching(good, edges, accept, seen, pending, exempt) && good(next) && Live(edges, next)
    ensures Searching(good, edges, accept, seen + {next}, pending + [next], exempt)
  {
    var more, queue := seen + {next}, pending + [next];
    assert next in queue && forall pair | pair in pending :: pair in queue;
    assert forall pair | pair in queue :: pair in pending || pair == next;
    forall pair, symbol | pair in more && pair !in queue && pair !in exempt
      ensures Explored(edges, accept, more, pair, symbol) {
      assert Explored(edges, accept, seen, pair, symbol);
      ExploredStays(edges, accept, seen, more, pair, symbol);
    }
  }

  lemma {:induction false} SearchPop<S(!new)>(good: DecoderPair -> bool, edges: seq<seq<Edge<S>>>, accept: nat,
                                              seen: set<DecoderPair>, pending: seq<DecoderPair>)
    requires pending != [] && Searching(good, edges, accept, seen, pending, {})
    ensures Searching(good, edges, accept, seen, pending[1..], {pending[0]}) && pending[0] in seen
  {
    assert pending[0] in pending;
    assert forall pair | pair in pending[1..] :: pair in pending;
    assert forall pair | pair in pending :: pair in pending[1..] || pair == pending[0];
  }

  function Cuts(accepts: bool): seq<bool> {
    if accepts then [false, true] else [false]
  }

  /** Enqueues every way of cutting after one symbol. */
  method Branch<S(==, !new)>(ghost good: DecoderPair -> bool, edges: seq<seq<Edge<S>>>, accept: nat, start: set<nat>,
                             pair: DecoderPair, symbol: S,
                             left: set<nat>, right: set<nat>, seen0: set<DecoderPair>, pending0: seq<DecoderPair>)
    returns (seen: set<DecoderPair>, pending: seq<DecoderPair>)
    requires InRange(edges) && Live(edges, pair) && start == StateSet(edges, [])
    requires left == AdvanceSet(edges, pair.left, symbol) && right == AdvanceSet(edges, pair.right, symbol)
    requires Searching(good, edges, accept, seen0, pending0, {pair})
    requires forall l, r | MayCut(edges, accept, pair.left, symbol, l) &&
             MayCut(edges, accept, pair.right, symbol, r) ::
      good(Next(edges, pair, symbol, l, r))
    ensures seen0 <= seen && Searching(good, edges, accept, seen, pending, {pair})
    ensures seen == seen0 ==> pending == pending0
    ensures forall l, r | MayCut(edges, accept, pair.left, symbol, l) && MayCut(edges, accept, pair.right, symbol, r) ::
      Next(edges, pair, symbol, l, r) in seen
  {
    seen, pending := seen0, pending0;
    var leftCuts, rightCuts := Cuts(accept in left), Cuts(accept in right);
    for i := 0 to |leftCuts|
      invariant seen0 <= seen && Searching(good, edges, accept, seen, pending, {pair})
      invariant seen == seen0 ==> pending == pending0
      invariant forall l, r | l in leftCuts[..i] && r in rightCuts :: Next(edges, pair, symbol, l, r) in seen
    {
      var l := leftCuts[i];
      assert leftCuts[..i + 1] == leftCuts[..i] + [l];
      for j := 0 to |rightCuts|
        invariant seen0 <= seen && Searching(good, edges, accept, seen, pending, {pair})
        invariant seen == seen0 ==> pending == pending0
        invariant forall l', r | l' in leftCuts[..i] && r in rightCuts :: Next(edges, pair, symbol, l', r) in seen
        invariant forall r | r in rightCuts[..j] :: Next(edges, pair, symbol, l, r) in seen
      {
        var r := rightCuts[j];
        assert rightCuts[..j + 1] == rightCuts[..j] + [r];
        var next := DecoderPair(if l then start else left, if r then start else right, pair.boundariesDiffer || l != r);
        assert next == Next(edges, pair, symbol, l, r);
        assert MayCut(edges, accept, pair.left, symbol, l) && MayCut(edges, accept, pair.right, symbol, r);
        if next !in seen {
          SearchPush(good, edges, accept, seen, pending, {pair}, next);
          seen := seen + {next};
          pending := pending + [next];
        }
      }
      assert rightCuts[..|rightCuts|] == rightCuts;
    }
    assert leftCuts[..|leftCuts|] == leftCuts;
  }

  /** Expands one pair by every symbol both decoders can read. */
  method Expand<S(==, !new)>(ghost good: DecoderPair -> bool, edges: seq<seq<Edge<S>>>, accept: nat, start: set<nat>,
                             pair: DecoderPair,
                             seen0: set<DecoderPair>, pending0: seq<DecoderPair>)
    returns (hit: Option<S>, seen: set<DecoderPair>, pending: seq<DecoderPair>)
    requires InRange(edges) && pair in seen0 && start == StateSet(edges, [])
    requires Searching(good, edges, accept, seen0, pending0, {pair})
    requires forall symbol, l, r | Common(edges, pair, symbol) && MayCut(edges, accept, pair.left, symbol, l) &&
             MayCut(edges, accept, pair.right, symbol, r) ::
      good(Next(edges, pair, symbol, l, r))
    ensures hit.Some? ==> Hit(edges, accept, pair, hit.value)
    ensures hit.None? ==>
              seen0 <= seen && Searching(good, edges, accept, seen, pending, {}) &&
              (seen == seen0 ==> pending == pending0)
  {
    hit, seen, pending := None, seen0, pending0;
    var common := Symbols(edges, pair.left) * Symbols(edges, pair.right);
    var rest := common;
    while rest != {}
      invariant rest <= common && seen0 <= seen && Searching(good, edges, accept, seen, pending, {pair})
      invariant seen == seen0 ==> pending == pending0
      invariant forall symbol {:trigger Explored(edges, accept, seen, pair, symbol)} | symbol !in rest ::
                  Explored(edges, accept, seen, pair, symbol)
      decreases rest
    {
      var symbol :| symbol in rest;
      rest := rest - {symbol};
      var left := Advance(edges, pair.left, symbol);
      var right := Advance(edges, pair.right, symbol);
      if pair.boundariesDiffer && accept in left && accept in right {
        hit := Some(symbol);
        return;
      }
      ghost var before := seen;
      seen, pending := Branch(good, edges, accept, start, pair, symbol, left, right, seen, pending);
      forall other | other !in rest ensures Explored(edges, accept, seen, pair, other) {
        if other != symbol {
          assert Explored(edges, accept, before, pair, other);
          ExploredStays(edges, accept, before, seen, pair, other);
        }
      }
    }
  }

  /** Decides exactly whether some word splits into iterations of the body in two
      different ways; a body that derives the empty word does. */
  method RepetitionIsAmbiguous<S(==, !new)>(p: Pattern<S>) returns (ambiguous: bool)
    ensures ambiguous <==> TwoWays(p)
  {
    var nfa := new Automaton(p);
    var edges, accept := nfa.edges, nfa.accept;
    CompiledInRange(p, edges);
    var start := StartClosure(edges);
    AcceptsWords(p, edges, []);
    if accept in start {
      NullableIsAmbiguous(p);
      return true;
    }
    ghost var good := (pair: DecoderPair) => Explained(p, edges, pair);
    var initial := DecoderPair(start, start, false);
    StartExplained(p, edges);
    ExplainedLive(p, edges, initial);
    var seen, pending := {initial}, [initial];
    while pending != []
      invariant Searching(good, edges, accept, seen, pending, {})
      decreases Space(|edges|) - seen, |pending|
    {
      var pair := pending[0];
      SearchPop(good, edges, accept, seen, pending);
      GoodNext(p, edges, good, pair);
      ghost var before := seen;
      var hit;
      hit, seen, pending := Expand(good, edges, accept, start, pair, seen, pending[1..]);
      if hit.Some? {
        HitIsAmbiguity(p, edges, pair, hit.value);
        return true;
      }
      SpaceShrinks(edges, before, seen);
    }
    ExhaustedIsUnambiguous(p, edges, seen);
    return false;
  }

  lemma {:induction false} SpaceShrinks<S(!new)>(edges: seq<seq<Edge<S>>>, before: set<DecoderPair>,
                                                 after: set<DecoderPair>)
    requires before <= after && forall pair | pair in after :: Live(edges, pair)
    ensures Space(|edges|) - after <= Space(|edges|) - before
    ensures after != before ==> Space(|edges|) - after < Space(|edges|) - before
  {
    if after != before {
      var pair :| pair in after && pair !in before;
      InSpace(edges, pair);
      assert pair in Space(|edges|) - before && pair !in Space(|edges|) - after;
    }
  }

  lemma {:induction false} GoodNext<S(!new)>(p: Pattern<S>, edges: seq<seq<Edge<S>>>, good: DecoderPair -> bool,
                                             pair: DecoderPair)
    requires Decoder(p, edges) && Explained(p, edges, pair) && Live(edges, pair)
    requires forall x :: good(x) <==> Explained(p, edges, x)
    ensures forall symbol, l, r | Common(edges, pair, symbol) && MayCut(edges, Accept(p, 0), pair.left, symbol, l) &&
            MayCut(edges, Accept(p, 0), pair.right, symbol, r) ::
      good(Next(edges, pair, symbol, l, r))
  {
    forall symbol, l, r | Common(edges, pair, symbol) && MayCut(edges, Accept(p, 0), pair.left, symbol, l) &&
        MayCut(edges, Accept(p, 0), pair.right, symbol, r)
      ensures good(Next(edges, pair, symbol, l, r))
    {
      NextExplained(p, edges, pair, symbol, l, r);
    }
  }

  lemma {:induction false} NullableIsAmbiguous<S(!new)>(p: Pattern<S>)
    requires InLang(p, [])
    ensures TwoWays(p)
  {
    var none: seq<seq<S>> := [];
    var once: seq<seq<S>> := [[]];
    FlattenOne<S>([]);
    assert Factorizes(p, none, Flatten(none)) && Factorizes(p, once, Flatten(none));
  }

  method StartClosure<S(!new)>(edges: seq<seq<Edge<S>>>) returns (start: set<nat>)
    requires InRange(edges) && |edges| > 0
    ensures start == StateSet(edges, [])
  {
    start := Closure(edges, {0});
    forall q | q in start ensures q in StateSet(edges, []) {
      var p :| p in {0} && EpsilonPath(edges, p, q);
    }
    forall q | q in StateSet(edges, []) ensures q in start {
      assert 0 in {0} && EpsilonPath(edges, 0, q);
    }
  }

  lemma {:induction false} StartExplained<S(!new)>(p: Pattern<S>, edges: seq<seq<Edge<S>>>)
    requires |edges| > 0
    ensures Explained(p, edges, Initial(edges))
  {
    StartLive(edges);
    var h: History<S> := History([], []);
    assert Reads(p, edges, h, []) && Initial(edges) == PairOf(edges, h, h);
  }
}
