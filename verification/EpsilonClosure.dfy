/** The weighted epsilon closure: a worklist that carries the best match along
    epsilon edges, cycles included. */
module EpsilonClosure {
  import opened Collections
  import opened Automata
  import opened Matching

  type Edges = seq<seq<Edge<AstAtom>>>
  type States = map<nat, AstMatch>

  // ----- counting work -----

  function EpsilonDegree(out: seq<Edge<AstAtom>>): nat {
    if out == [] then 0 else EpsilonDegree(out[..|out| - 1]) + if out[|out| - 1].Epsilon? then 1 else 0
  }

  function EpsilonDegrees(edges: Edges): (d: seq<nat>)
    ensures |d| == |edges|
  {
    seq(|edges|, q requires 0 <= q < |edges| => EpsilonDegree(edges[q]))
  }

  ghost function Dot(weights: seq<nat>, loads: seq<nat>): nat
    requires |weights| == |loads|
  {
    if weights == [] then 0 else weights[0] * loads[0] + Dot(weights[1..], loads[1..])
  }

  lemma {:induction false} DotMonotone(weights: seq<nat>, small: seq<nat>, large: seq<nat>)
    requires |weights| == |small| == |large| && forall i | 0 <= i < |small| :: small[i] <= large[i]
    ensures Dot(weights, small) <= Dot(weights, large)
  {
    if weights != [] {
      DotMonotone(weights[1..], small[1..], large[1..]);
      assert weights[0] * small[0] <= weights[0] * large[0];
    }
  }

  lemma {:induction false} DotDrop(weights: seq<nat>, small: seq<nat>, large: seq<nat>, x: nat)
    requires |weights| == |small| == |large| && forall i | 0 <= i < |small| :: small[i] <= large[i]
    requires x < |small| && small[x] + 1 <= large[x]
    ensures Dot(weights, small) + weights[x] <= Dot(weights, large)
  {
    if x == 0 {
      DotMonotone(weights[1..], small[1..], large[1..]);
      assert weights[0] * small[0] + weights[0] == weights[0] * (small[0] + 1) <= weights[0] * large[0];
    } else {
      DotDrop(weights[1..], small[1..], large[1..], x - 1);
      assert weights[0] * small[0] <= weights[0] * large[0];
      assert weights[1..][x - 1] == weights[x];
    }
  }

  function Total(s: seq<nat>): nat {
    if s == [] then 0 else s[0] + Total(s[1..])
  }

  lemma {:induction false} DotUniform(weights: seq<nat>, loads: seq<nat>, k: nat)
    requires |weights| == |loads| && forall i | 0 <= i < |loads| :: loads[i] <= k
    ensures Dot(weights, loads) <= Total(weights) * k
  {
    if weights != [] {
      DotUniform(weights[1..], loads[1..], k);
      assert weights[0] * loads[0] <= weights[0] * k;
      assert (weights[0] + Total(weights[1..])) * k == weights[0] * k + Total(weights[1..]) * k;
    }
  }

  // ----- how often a state can still be expanded -----

  ghost function BetterSeeds(seeds: States, m: AstMatch): set<nat> {
    set p | p in seeds && IsBetter(seeds[p], m)
  }

  /** How many seed matches could still replace the state's match. */
  ghost function Rank(seeds: States, states: States, q: nat): nat {
    if q in states then |BetterSeeds(seeds, states[q])| else |seeds|
  }

  ghost function Load(seeds: States, states: States, pending: seq<nat>, q: nat): nat {
    multiset(pending)[q] + Rank(seeds, states, q)
  }

  ghost function Loads(n: nat, seeds: States, states: States, pending: seq<nat>): (l: seq<nat>)
    ensures |l| == n && forall q | 0 <= q < n :: l[q] == Load(seeds, states, pending, q)
  {
    seq(n, q requires 0 <= q < n => Load(seeds, states, pending, q))
  }

  lemma {:induction false} RankDrops(seeds: States, states: States, target: nat, p: nat)
    requires p in seeds && (target in states ==> IsBetter(seeds[p], states[target]))
    ensures Rank(seeds, states[target := seeds[p]], target) + 1 <= Rank(seeds, states, target)
  {
    var after := BetterSeeds(seeds, seeds[p]);
    var before := if target in states then BetterSeeds(seeds, states[target]) else seeds.Keys;
    assert after <= before && p in before && p !in after;
    SubsetSize(after + {p}, before);
  }

  ghost predicate NotHeavier(n: nat, seeds: States, states: States, pending: seq<nat>, states0: States,
                             pending0: seq<nat>) {
    forall q | 0 <= q < n :: Load(seeds, states, pending, q) <= Load(seeds, states0, pending0, q)
  }

  lemma {:induction false} NotHeavierTrans(n: nat, seeds: States, states2: States, pending2: seq<nat>, states1: States,
                                           pending1: seq<nat>, states0: States, pending0: seq<nat>)
    requires NotHeavier(n, seeds, states2, pending2, states1, pending1) &&
             NotHeavier(n, seeds, states1, pending1, states0, pending0)
    ensures NotHeavier(n, seeds, states2, pending2, states0, pending0)
  {
  }

  /** Popping the front state lightens it; pushing an improved state costs nothing. */
  lemma {:induction false} PopDrops(n: nat, seeds: States, states: States, pending: seq<nat>)
    requires pending != [] && pending[0] < n
    ensures NotHeavier(n, seeds, states, pending[1..], states, pending)
    ensures Load(seeds, states, pending[1..], pending[0]) + 1 <= Load(seeds, states, pending, pending[0])
  {
    assert pending == [pending[0]] + pending[1..];
    assert multiset(pending) == multiset{pending[0]} + multiset(pending[1..]);
  }

  lemma {:induction false} PushKeeps(n: nat, seeds: States, states: States, pending: seq<nat>, target: nat, m: AstMatch)
    requires IsSeed(seeds, m) && (target in states ==> IsBetter(m, states[target]))
    ensures NotHeavier(n, seeds, states[target := m], pending + [target], states, pending)
  {
    var p :| p in seeds && m == seeds[p];
    RankDrops(seeds, states, target, p);
    assert multiset(pending + [target]) == multiset(pending) + multiset{target};
  }

  /** One pop and what it spreads: the potential pays for the popped state. */
  lemma {:induction false} PotentialDrops(weights: seq<nat>, seeds: States, states: States, pending: seq<nat>,
                                          states0: States, pending0: seq<nat>)
    requires pending0 != [] && pending0[0] < |weights|
    requires NotHeavier(|weights|, seeds, states, pending, states0, pending0[1..])
    ensures Dot(weights, Loads(|weights|, seeds, states, pending)) +
            weights[pending0[0]] <= Dot(weights, Loads(|weights|, seeds, states0, pending0))
  {
    PopDrops(|weights|, seeds, states0, pending0);
    NotHeavierTrans(|weights|, seeds, states, pending, states0, pending0[1..], states0, pending0);
    DotDrop(weights, Loads(|weights|, seeds, states, pending), Loads(|weights|, seeds, states0, pending0), pending0[0]);
  }

  lemma {:induction false} StartLoads(n: nat, seeds: States, pending: seq<nat>)
    requires forall q :: multiset(pending)[q] == if q in seeds then 1 else 0
    ensures forall q | 0 <= q < n :: Loads(n, seeds, seeds, pending)[q] <= |seeds|
  {
    forall q | 0 <= q < n ensures Loads(n, seeds, seeds, pending)[q] <= |seeds| {
      if q in seeds {
        var better := BetterSeeds(seeds, seeds[q]);
        assert q !in better && better + {q} <= seeds.Keys;
        SubsetSize(better + {q}, seeds.Keys);
      }
    }
  }

  // ----- the closure -----

  ghost predicate Held(states: States, q: nat, m: AstMatch) {
    q in states && AtMost(m, states[q])
  }

  /** The state has passed its match on along all its epsilon edges. */
  ghost predicate Passed(edges: Edges, states: States, q: nat)
    requires q < |edges| && q in states
  {
    forall e | e in edges[q] && e.Epsilon? :: Held(states, e.next, states[q])
  }

  ghost predicate IsSeed(seeds: States, m: AstMatch) {
    exists p | p in seeds :: m == seeds[p]
  }

  /** The worklist invariant. `carried` says which matches may stand at which state. */
  ghost predicate Spreading(edges: Edges, carried: (nat, AstMatch) -> bool, seeds: States, states: States,
                            pending: seq<nat>, exempt: set<nat>) {
    && (forall q | q in states :: q < |edges| && carried(q, states[q]))
    && (forall q {:trigger IsSeed(seeds, states[q])} | q in states :: IsSeed(seeds, states[q]))
    && (forall p | p in seeds :: Held(states, p, seeds[p]))
    && (forall q | q in pending :: q in states)
    && (forall q | q in states && q !in pending && q !in exempt :: Passed(edges, states, q))
  }

  lemma {:induction false} Inserting(edges: Edges, carried: (nat, AstMatch) -> bool, seeds: States, states: States,
                                     pending: seq<nat>, exempt: set<nat>, target: nat, m: AstMatch)
    requires Spreading(edges, carried, seeds, states, pending, exempt)
    requires target < |edges| && carried(target, m) && IsSeed(seeds, m)
    requires target in states ==> IsBetter(m, states[target])
    ensures Spreading(edges, carried, seeds, states[target := m], pending + [target], exempt)
    ensures forall q, n | Held(states, q, n) :: Held(states[target := m], q, n)
  {
    var after, queue := states[target := m], pending + [target];
    assert forall q | q in queue :: q in pending || q == target;
    forall q | q in after && q !in queue && q !in exempt ensures Passed(edges, after, q) {
      assert target in queue && q !in pending;
      assert Passed(edges, states, q);
    }
  }

  method Keys(states: States, n: nat) returns (keys: seq<nat>)
    requires forall q | q in states :: q < n
    ensures forall q :: multiset(keys)[q] == if q in states then 1 else 0
  {
    keys := [];
    for i := 0 to n
      invariant forall q :: multiset(keys)[q] == if q in states && q < i then 1 else 0
    {
      if i in states {
        keys := keys + [i];
      }
    }
  }

  method InsertState(states0: States, state: nat, candidate: AstMatch) returns (states: States, inserted: bool)
    ensures inserted <==> state !in states0 || !AtMost(candidate, states0[state])
    ensures states == if inserted then states0[state := candidate] else states0
  {
    states, inserted := states0, false;
    if !(state in states && !IsBetter(candidate, states[state])) {
      states, inserted := states[state := candidate], true;
    }
  }

  /** Carries the match of `state` along each of its epsilon edges. */
  method Spread(edges: Edges, ghost carried: (nat, AstMatch) -> bool, ghost seeds: States, states0: States,
                pending0: seq<nat>, state: nat)
    returns (states: States, pending: seq<nat>, work: nat)
    requires InRange(edges) && state in states0
    requires Spreading(edges, carried, seeds, states0, pending0, {state})
    requires forall e, m | e in edges[state] && e.Epsilon? && carried(state, m) :: carried(e.next, m)
    ensures Spreading(edges, carried, seeds, states, pending, {})
    ensures NotHeavier(|edges|, seeds, states, pending, states0, pending0)
    ensures work == EpsilonDegree(edges[state])
  {
    states, pending, work := states0, pending0, 0;
    var matched := states[state];
    var out := edges[state];
    for i := 0 to |out|
      invariant Spreading(edges, carried, seeds, states, pending, {state})
      invariant state in states && states[state] == matched
      invariant forall j | 0 <= j < i && out[j].Epsilon? :: Held(states, out[j].next, matched)
      invariant NotHeavier(|edges|, seeds, states, pending, states0, pending0)
      invariant work == EpsilonDegree(out[..i])
    {
      assert out[..i + 1][..i] == out[..i];
      var edge := out[i];
      if edge.Epsilon? {
        work := work + 1;
        ghost var before, queue := states, pending;
        assert IsSeed(seeds, before[state]);
        var inserted;
        states, inserted := InsertState(states, edge.next, matched);
        if inserted {
          pending := pending + [edge.next];
          Inserting(edges, carried, seeds, before, queue, {state}, edge.next, matched);
          PushKeeps(|edges|, seeds, before, queue, edge.next, matched);
          NotHeavierTrans(|edges|, seeds, states, pending, before, queue, states0, pending0);
        }
      }
    }
    assert out[..|out|] == out;
    assert Passed(edges, states, state);
  }

  // ----- what the closure computes -----

  lemma {:induction false} ClosedCovers(edges: Edges, states: States, from: nat, t: seq<Step<AstAtom>>, to: nat,
                                        m: AstMatch)
    requires forall q | q in states :: q < |edges| && Passed(edges, states, q)
    requires IsTrace(edges, from, t, to) && Word(t) == [] && Held(states, from, m)
    ensures Held(states, to, m)
    decreases |t|
  {
    if t != [] {
      assert Held(states, t[0].edge.next, states[from]);
      ClosedCovers(edges, states, t[0].edge.next, t[1..], to, m);
    }
  }

  /** A seed's match, carried along epsilon edges. */
  ghost predicate FromSeed(edges: Edges, seeds: States, q: nat, m: AstMatch) {
    exists p | p in seeds :: EpsilonPath(edges, p, q) && m == seeds[p]
  }

  lemma {:induction false} SeedStep(edges: Edges, seeds: States, q: nat, e: Edge<AstAtom>, m: AstMatch)
    requires FromSeed(edges, seeds, q, m) && q < |edges| && e in edges[q] && e.Epsilon?
    ensures FromSeed(edges, seeds, e.next, m)
  {
    var p :| p in seeds && EpsilonPath(edges, p, q) && m == seeds[p];
    EpsilonStep(edges, p, q, e);
  }

  /** Terminates despite epsilon cycles and leaves each state with the best match
      over all seeds that reach it, within seeds times epsilon edges of work. */
  method Close(edges: Edges, seeds: States) returns (states: States, work: nat)
    requires InRange(edges) && forall q | q in seeds :: q < |edges|
    ensures forall q | q in states :: q < |edges| && FromSeed(edges, seeds, q, states[q])
    ensures forall p, q | p in seeds && EpsilonPath(edges, p, q) :: Held(states, q, seeds[p])
    ensures work <= Total(EpsilonDegrees(edges)) * |seeds|
  {
    ghost var carried := (q: nat, m: AstMatch) => FromSeed(edges, seeds, q, m);
    forall p | p in seeds ensures carried(p, seeds[p]) && IsSeed(seeds, seeds[p]) {
      assert IsTrace(edges, p, [], p) && Word<AstAtom>([]) == [];
      assert EpsilonPath(edges, p, p);
    }
    forall q: nat, e, m | q < |edges| && e in edges[q] && e.Epsilon? && carried(q, m) ensures carried(e.next, m) {
      SeedStep(edges, seeds, q, e, m);
    }
    states, work := Drain(edges, carried, seeds);
    forall p, q | p in seeds && EpsilonPath(edges, p, q) ensures Held(states, q, seeds[p]) {
      var t :| IsTrace(edges, p, t, q) && Word(t) == [];
      ClosedCovers(edges, states, p, t, q, seeds[p]);
    }
  }

  method Drain(edges: Edges, ghost carried: (nat, AstMatch) -> bool, seeds: States) returns (states: States, work: nat)
    requires InRange(edges) && forall q | q in seeds :: q < |edges|
    requires forall p | p in seeds :: carried(p, seeds[p]) && IsSeed(seeds, seeds[p])
    requires forall q: nat, e, m | q < |edges| && e in edges[q] && e.Epsilon? && carried(q, m) :: carried(e.next, m)
    ensures forall q | q in states :: q < |edges| && carried(q, states[q]) && Passed(edges, states, q)
    ensures forall p | p in seeds :: Held(states, p, seeds[p])
    ensures work <= Total(EpsilonDegrees(edges)) * |seeds|
  {
    states, work := seeds, 0;
    var pending := Keys(seeds, |edges|);
    ghost var n, weights := |edges|, EpsilonDegrees(edges);
    ghost var ones := seq(n, _ => 1);
    StartLoads(n, seeds, pending);
    DotUniform(weights, Loads(n, seeds, states, pending), |seeds|);
    forall q | q in seeds ensures q in pending {
      assert multiset(pending)[q] == 1;
    }
    forall q | q in pending ensures q in seeds {
      assert multiset(pending)[q] > 0;
    }
    while pending != []
      invariant Spreading(edges, carried, seeds, states, pending, {})
      invariant work + Dot(weights, Loads(n, seeds, states, pending)) <= Total(weights) * |seeds|
      decreases Dot(ones, Loads(n, seeds, states, pending))
    {
      var state := pending[0];
      assert state in pending;
      ghost var before, queue := states, pending;
      Popped(edges, carried, seeds, states, pending);
      var more;
      states, pending, more := Spread(edges, carried, seeds, states, pending[1..], state);
      work := work + more;
      PotentialDrops(weights, seeds, states, pending, before, queue);
      PotentialDrops(ones, seeds, states, pending, before, queue);
    }
  }

  lemma {:induction false} Popped(edges: Edges, carried: (nat, AstMatch) -> bool, seeds: States, states: States,
                                  pending: seq<nat>)
    requires pending != [] && Spreading(edges, carried, seeds, states, pending, {})
    ensures Spreading(edges, carried, seeds, states, pending[1..], {pending[0]})
  {
    assert forall q | q in pending[1..] :: q in pending;
    assert forall q | q in pending :: q in pending[1..] || q == pending[0];
  }
}
