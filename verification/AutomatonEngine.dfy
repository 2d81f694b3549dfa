/** The automaton matcher: a weighted simulation of the compiled pattern. */
module AutomatonEngine {
  import opened Collections
  import opened Patterns
  import opened Automata
  import opened Compiler
  import opened Matching
  import opened EpsilonClosure

  // ----- what a simulation state stands for -----

  ghost predicate ArrivesBy(edges: Edges, q: Query, t: seq<Step<AstAtom>>, state: nat, m: AstMatch) {
    IsTrace(edges, 0, t, state) && Accepts(q, 0, Word(t)) && m == Run(q, INITIAL, Word(t))
  }

  ghost predicate Arrives(edges: Edges, q: Query, state: nat, m: AstMatch) {
    exists t :: ArrivesBy(edges, q, t, state, m)
  }

  ghost predicate FrontierSound(edges: Edges, q: Query, current: States, position: nat) {
    forall state | state in current ::
      state < |edges| && current[state].pos == position && Arrives(edges, q, state, current[state])
  }

  ghost predicate FreshComplete(edges: Edges, q: Query, current: States, position: nat) {
    forall t: seq<Step<AstAtom>>, state: nat, m: AstMatch | ArrivesBy(edges, q, t, state, m) && m.pos == position &&
        EndsInSymbol(t) :: Held(current, state, m)
  }

  ghost predicate FrontierComplete(edges: Edges, q: Query, current: States, position: nat) {
    forall t: seq<Step<AstAtom>>, state: nat, m: AstMatch | ArrivesBy(edges, q, t, state, m) &&
        m.pos == position :: Held(current, state, m)
  }

  lemma {:induction false} StartFrontier(edges: Edges, q: Query)
    requires |edges| > 0
    ensures FrontierSound(edges, q, map[0 := INITIAL], 0) && FreshComplete(edges, q, map[0 := INITIAL], 0)
  {
    assert ArrivesBy(edges, q, [], 0, INITIAL);
    forall t: seq<Step<AstAtom>>, state: nat, m: AstMatch | ArrivesBy(edges, q, t, state, m) && m.pos == 0 &&
        EndsInSymbol(t) ensures Held(map[0 := INITIAL], state, m) {
      if t != [] {
        SymbolLast(t);
        assert false;
      }
    }
  }

  // ----- closing and consuming a frontier -----

  lemma {:induction false} ClosedSound(edges: Edges, q: Query, seeds: States, closed: States, position: nat)
    requires FrontierSound(edges, q, seeds, position)
    requires forall s | s in closed :: s < |edges| && FromSeed(edges, seeds, s, closed[s])
    ensures FrontierSound(edges, q, closed, position)
  {
    forall s | s in closed ensures closed[s].pos == position && Arrives(edges, q, s, closed[s]) {
      var p :| p in seeds && EpsilonPath(edges, p, s) && closed[s] == seeds[p];
      var u :| IsTrace(edges, p, u, s) && Word(u) == [];
      var t :| ArrivesBy(edges, q, t, p, seeds[p]);
      TraceJoin(edges, 0, t, p, u, s);
      assert Word(t + u) == Word(t);
      assert ArrivesBy(edges, q, t + u, s, closed[s]);
    }
  }

  lemma {:induction false} ClosedComplete(edges: Edges, q: Query, seeds: States, closed: States, position: nat)
    requires FreshComplete(edges, q, seeds, position)
    requires forall p, s | p in seeds && EpsilonPath(edges, p, s) :: Held(closed, s, seeds[p])
    ensures FrontierComplete(edges, q, closed, position)
  {
    forall t: seq<Step<AstAtom>>, state: nat, m: AstMatch | ArrivesBy(edges, q, t, state, m) && m.pos == position
      ensures Held(closed, state, m) {
      var k, mid := LastSymbol(edges, 0, t, state);
      assert ArrivesBy(edges, q, t[..k], mid, m);
      assert EpsilonPath(edges, mid, state);
    }
  }

  /** `m` is the match of a current state advanced over one symbol edge into `target`. */
  ghost predicate Consumes(edges: Edges, q: Query, current: States, state: nat, e: Edge<AstAtom>) {
    && state in current && state < |edges| && e in edges[state] && e.Symbol?
    && current[state].pos < |q.elements| && Fits(e.symbol, q.elements[current[state].pos])
  }

  ghost predicate Consumed(edges: Edges, q: Query, current: States, target: nat, m: AstMatch) {
    exists state, e | Consumes(edges, q, current, state, e) ::
          e.next == target && m == Advance(q, current[state], e.symbol)
  }

  lemma {:induction false} ConsumedSound(edges: Edges, q: Query, current: States, next: States, position: nat)
    requires InRange(edges) && FrontierSound(edges, q, current, position)
    requires forall s | s in next :: Consumed(edges, q, current, s, next[s])
    ensures FrontierSound(edges, q, next, position + 1)
  {
    forall s | s in next ensures s < |edges| && next[s].pos == position + 1 && Arrives(edges, q, s, next[s]) {
      var state, e :| Consumes(edges, q, current, state, e) && e.next == s &&
          next[s] == Advance(q, current[state], e.symbol);
      assert Arrives(edges, q, state, current[state]) && current[state].pos == position;
      ArrivesNext(edges, q, current, state, e);
    }
  }

  lemma {:induction false} ArrivesNext(edges: Edges, q: Query, current: States, state: nat, e: Edge<AstAtom>)
    requires Consumes(edges, q, current, state, e) && Arrives(edges, q, state, current[state])
    ensures Arrives(edges, q, e.next, Advance(q, current[state], e.symbol))
  {
    var t :| ArrivesBy(edges, q, t, state, current[state]);
    OneStep(edges, state, e);
    TraceJoin(edges, 0, t, state, [Step(state, e)], e.next);
    AcceptsSplit(q, 0, Word(t), [e.symbol]);
    RunJoin(q, INITIAL, Word(t), [e.symbol]);
    assert ArrivesBy(edges, q, t + [Step(state, e)], e.next, Advance(q, current[state], e.symbol));
  }

  lemma {:induction false} ConsumedComplete(edges: Edges, q: Query, current: States, next: States, position: nat)
    requires FrontierSound(edges, q, current, position) && FrontierComplete(edges, q, current, position)
    requires forall state, e | Consumes(edges, q, current, state, e) ::
               Held(next, e.next, Advance(q, current[state], e.symbol))
    ensures FreshComplete(edges, q, next, position + 1)
  {
    forall t: seq<Step<AstAtom>>, state: nat, m: AstMatch | ArrivesBy(edges, q, t, state, m) && m.pos == position + 1 &&
        EndsInSymbol(t) ensures Held(next, state, m) {
      var n := |t| - 1;
      var e := t[n].edge;
      SymbolLast(t);
      var mid := TraceSplit(edges, 0, t, state, n);
      assert t[n..] == [t[n]] && t[n..][1..] == [];
      RunJoin(q, INITIAL, Word(t[..n]), [e.symbol]);
      var before := Run(q, INITIAL, Word(t[..n]));
      assert ArrivesBy(edges, q, t[..n], mid, before);
      assert Held(current, mid, before);
      assert Consumes(edges, q, current, mid, e);
      RunMonotone(q, before, current[mid], [e.symbol]);
      assert m == Advance(q, before, e.symbol);
    }
  }

  function SymbolDegree(out: seq<Edge<AstAtom>>): nat {
    if out == [] then 0 else SymbolDegree(out[..|out| - 1]) + if out[|out| - 1].Symbol? then 1 else 0
  }

  function SymbolCount(edges: Edges): nat {
    if edges == [] then 0 else SymbolCount(edges[..|edges| - 1]) + SymbolDegree(edges[|edges| - 1])
  }

  /** One child: every symbol edge of every current state, in state order. */
  method Consume(edges: Edges, q: Query, current: States, position: nat) returns (next: States, work: nat)
    requires forall s | s in current :: s < |edges| && current[s].pos == position
    requires position < |q.elements|
    ensures forall s | s in next :: Consumed(edges, q, current, s, next[s])
    ensures forall state, e | Consumes(edges, q, current, state, e) ::
              Held(next, e.next, Advance(q, current[state], e.symbol))
    ensures work <= SymbolCount(edges)
  {
    next, work := map[], 0;
    for state := 0 to |edges|
      invariant forall s {:trigger Consumed(edges, q, current, s, next[s])} | s in next ::
                  Consumed(edges, q, current, s, next[s])
      invariant forall s: nat, e | s < state && Consumes(edges, q, current, s, e) ::
                  Held(next, e.next, Advance(q, current[s], e.symbol))
      invariant work <= SymbolCount(edges[..state])
    {
      assert edges[..state + 1][..state] == edges[..state];
      if state in current {
        var spent;
        next, spent := ConsumeFrom(edges, q, current, position, state, next);
        work := work + spent;
      }
    }
    assert edges[..|edges|] == edges;
  }

  method ConsumeFrom(edges: Edges, q: Query, current: States, position: nat, state: nat, next0: States)
    returns (next: States, work: nat)
    requires position < |q.elements| && state in current && state < |edges| && current[state].pos == position
    requires forall s {:trigger Consumed(edges, q, current, s, next0[s])} | s in next0 ::
               Consumed(edges, q, current, s, next0[s])
    ensures forall s {:trigger Consumed(edges, q, current, s, next[s])} | s in next ::
              Consumed(edges, q, current, s, next[s])
    ensures forall s, m | Held(next0, s, m) :: Held(next, s, m)
    ensures forall e | Consumes(edges, q, current, state, e) :: Held(next, e.next, Advance(q, current[state], e.symbol))
    ensures work == SymbolDegree(edges[state])
  {
    next, work := next0, 0;
    var out := edges[state];
    for i := 0 to |out|
      invariant forall s {:trigger Consumed(edges, q, current, s, next[s])} | s in next ::
                  Consumed(edges, q, current, s, next[s])
      invariant forall s, m | Held(next0, s, m) :: Held(next, s, m)
      invariant forall j | 0 <= j < i && Consumes(edges, q, current, state, out[j]) ::
        Held(next, out[j].next, Advance(q, current[state], out[j].symbol))
      invariant work == SymbolDegree(out[..i])
    {
      assert out[..i + 1][..i] == out[..i];
      var edge := out[i];
      if edge.Symbol? {
        work := work + 1;
        if Fits(edge.symbol, q.elements[position]) {
          var candidate := Advance(q, current[state], edge.symbol);
          assert Consumes(edges, q, current, state, edge);
          assert Consumed(edges, q, current, edge.next, candidate);
          ghost var before := next;
          var inserted;
          next, inserted := InsertState(next, edge.next, candidate);
          forall s | s in next ensures Consumed(edges, q, current, s, next[s]) {
            if s in before {
              assert Consumed(edges, q, current, s, before[s]);
            }
          }
        }
      }
    }
    assert out[..|out|] == out;
  }

  // ----- the engine -----

  function EdgeCount(edges: Edges): nat {
    Total(EpsilonDegrees(edges)) + SymbolCount(edges)
  }

  lemma {:induction false} TotalSnoc(s: seq<nat>, x: nat)
    ensures Total(s + [x]) == Total(s) + x
  {
    if s == [] {
      assert s + [x] == [x];
    } else {
      TotalSnoc(s[1..], x);
      assert (s + [x])[1..] == s[1..] + [x];
    }
  }

  lemma {:induction false} DegreesSplit(out: seq<Edge<AstAtom>>)
    ensures EpsilonDegree(out) + SymbolDegree(out) == |out|
  {
    if out != [] {
      DegreesSplit(out[..|out| - 1]);
    }
  }

  /** The work bound counts every edge of the automaton once. */
  lemma {:induction false} EdgeCountIsTotal(edges: Edges)
    ensures EdgeCount(edges) == |Flatten(edges)|
  {
    if edges != [] {
      var init, last := edges[..|edges| - 1], edges[|edges| - 1];
      EdgeCountIsTotal(init);
      FlattenSnoc(edges);
      assert EpsilonDegrees(edges) == EpsilonDegrees(init) + [EpsilonDegree(last)];
      TotalSnoc(EpsilonDegrees(init), EpsilonDegree(last));
      DegreesSplit(last);
    }
  }

  /** Matches reported before `position` are exactly the best arrivals at `accept`. */
  ghost predicate Reported(edges: Edges, q: Query, accept: nat, out: seq<AstMatch>, position: nat) {
    && (forall m | m in out :: m.pos < position && Arrives(edges, q, accept, m))
    && (forall m: AstMatch {:trigger Covered(out, m)} | m.pos < position &&
        Arrives(edges, q, accept, m) :: Covered(out, m))
    && Ascending(out)
  }

  lemma {:induction false} ReportNext(edges: Edges, q: Query, accept: nat, out: seq<AstMatch>, out': seq<AstMatch>,
                                      current: States, position: nat)
    requires Reported(edges, q, accept, out, position)
    requires FrontierSound(edges, q, current, position) && FrontierComplete(edges, q, current, position)
    requires out' == if accept in current then out + [current[accept]] else out
    ensures Reported(edges, q, accept, out', position + 1)
  {
    if accept in current {
      AscendingSnoc(out, current[accept]);
    }
    forall m: AstMatch | m.pos < position + 1 && Arrives(edges, q, accept, m) ensures Covered(out', m) {
      if m.pos < position {
        assert Covered(out, m);
      } else {
        assert Held(current, accept, m);
        assert current[accept] in out';
      }
    }
  }

  lemma {:induction false} ReportedAll(p: AstPattern, edges: Edges, q: Query, out: seq<AstMatch>)
    requires Shape(p, edges, 0) && edges[Accept(p, 0)] == []
    requires Reported(edges, q, Accept(p, 0), out, |q.elements| + 1)
    ensures Sound(p, q, [INITIAL], out) && Complete(p, q, [INITIAL], out)
  {
    forall m | m in out ensures Reached(p, q, [INITIAL], m) {
      var t :| ArrivesBy(edges, q, t, Accept(p, 0), m);
      CompilePreservesWords(p, edges, 0, Word(t));
      assert Parses(p, q, INITIAL, Word(t));
      assert From(p, q, INITIAL, m) && INITIAL in [INITIAL];
    }
    forall s, word | s in [INITIAL] && Parses(p, q, s, word) ensures Covered(out, Run(q, s, word)) {
      CompilePreservesWords(p, edges, 0, word);
      var t :| IsTrace(edges, 0, t, Accept(p, 0)) && Word(t) == word;
      assert ArrivesBy(edges, q, t, Accept(p, 0), Run(q, s, word));
      if word != [] {
        AcceptsInRange(q, 0, word);
      }
    }
  }

  method ApplyAutomaton(p: AstPattern, q: Query) returns (out: seq<AstMatch>, work: nat, ghost compiled: Edges)
    ensures Sound(p, q, [INITIAL], out) && Complete(p, q, [INITIAL], out) && Ascending(out)
    ensures Shape(p, compiled, 0) && |compiled| == Width(p) && compiled[Accept(p, 0)] == []
    ensures work <= (|q.elements| + 1) * (|compiled| * |Flatten(compiled)|)
  {
    var automaton := new Automaton(p);
    var edges, accept := automaton.edges, automaton.accept;
    CompiledInRange(p, edges);
    compiled := edges;
    var current: States := map[automaton.start := INITIAL];
    StartFrontier(edges, q);
    out, work := [], 0;
    for position := 0 to |q.elements|
      invariant FrontierSound(edges, q, current, position) && FreshComplete(edges, q, current, position)
      invariant Reported(edges, q, accept, out, position)
      invariant work <= Bound(edges, position)
    {
      var closing, consuming;
      current, out, closing := CloseAndReport(edges, accept, q, current, position, out);
      current, consuming := TakeChild(edges, q, current, position);
      PerPosition(edges, closing, consuming, position, work);
      work := work + closing + consuming;
    }
    var closing;
    current, out, closing := CloseAndReport(edges, accept, q, current, |q.elements|, out);
    PerPosition(edges, closing, 0, |q.elements|, work);
    work := work + closing;
    ReportedAll(p, edges, q, out);
    EdgeCountIsTotal(edges);
  }

  method TakeChild(edges: Edges, q: Query, closed: States, position: nat) returns (next: States, work: nat)
    requires InRange(edges) && position < |q.elements|
    requires FrontierSound(edges, q, closed, position) && FrontierComplete(edges, q, closed, position)
    ensures FrontierSound(edges, q, next, position + 1) && FreshComplete(edges, q, next, position + 1)
    ensures work <= SymbolCount(edges)
  {
    next, work := Consume(edges, q, closed, position);
    ConsumedSound(edges, q, closed, next, position);
    ConsumedComplete(edges, q, closed, next, position);
  }

  /** The work bound after the given number of positions. */
  ghost function Bound(edges: Edges, positions: nat): int {
    positions * (|edges| * EdgeCount(edges))
  }

  lemma {:induction false} PerPosition(edges: Edges, closing: nat, consuming: nat, position: nat, work: nat)
    requires edges != [] && closing <= Total(EpsilonDegrees(edges)) * |edges| && consuming <= SymbolCount(edges)
    requires work <= Bound(edges, position)
    ensures work + closing + consuming <= Bound(edges, position + 1)
  {
    OnePosition(Total(EpsilonDegrees(edges)), SymbolCount(edges), |edges|, closing, consuming);
    NextPosition(position, |edges| * EdgeCount(edges));
  }

  lemma {:induction false} OnePosition(epsilons: nat, symbols: nat, states: nat, closing: nat, consuming: nat)
    requires states >= 1 && closing <= epsilons * states && consuming <= symbols
    ensures closing + consuming <= states * (epsilons + symbols)
  {
    assert symbols <= states * symbols;
    assert states * (epsilons + symbols) == epsilons * states + states * symbols;
  }

  lemma {:induction false} NextPosition(position: nat, perPosition: nat)
    ensures (position + 1) * perPosition == position * perPosition + perPosition
  {
  }

  method CloseAndReport(edges: Edges, accept: nat, q: Query, current: States, position: nat, out0: seq<AstMatch>)
    returns (closed: States, out: seq<AstMatch>, work: nat)
    requires InRange(edges)
    requires FrontierSound(edges, q, current, position) && FreshComplete(edges, q, current, position)
    requires Reported(edges, q, accept, out0, position)
    ensures FrontierSound(edges, q, closed, position) && FrontierComplete(edges, q, closed, position)
    ensures Reported(edges, q, accept, out, position + 1)
    ensures work <= Total(EpsilonDegrees(edges)) * |edges|
  {
    closed, work := Close(edges, current);
    ClosedSound(edges, q, current, closed, position);
    ClosedComplete(edges, q, current, closed, position);
    out := out0;
    if accept in closed {
      out := out + [closed[accept]];
    }
    ReportNext(edges, q, accept, out0, out, closed, position);
    assert current.Keys <= Below(|edges|);
    SubsetSize(current.Keys, Below(|edges|));
    assert |current| == |current.Keys|;
    MultiplyMonotone(Total(EpsilonDegrees(edges)), |current|, |edges|);
  }

}
