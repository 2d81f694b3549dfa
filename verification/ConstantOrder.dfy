/** Ordering constants by their dependencies, or finding a dependency cycle. */
module ConstantOrder {
  import opened Collections
  import opened Digraph

  datatype Ordering = Ordered(order: seq<nat>) | Cyclic(symbols: seq<nat>)

  /** Lists every constant once, after everything it depends on. */
  ghost predicate DependencyOrder(dependencies: Graph<nat>, order: seq<nat>) {
    && NoRepeats(order) && Elements(order) == dependencies.Keys
    && forall i, d | 0 <= i < |order| && d in dependencies[order[i]] :: d in order[..i]
  }

  /** What the ordering loop keeps: the dependencies of each constant that are
      not yet ordered, and those constants that have none left. */
  ghost predicate Peeled(dependencies: Graph<nat>, remaining: Graph<nat>, order: seq<nat>, ready: set<nat>) {
    && NoRepeats(order) && Elements(order) <= dependencies.Keys
    && (forall i, d | 0 <= i < |order| && d in dependencies[order[i]] :: d in order[..i])
    && remaining.Keys == dependencies.Keys
    && (forall c | c in dependencies :: remaining[c] == dependencies[c] - Elements(order))
    && (forall c :: c in ready <==> c in dependencies && c !in order && remaining[c] == {})
  }

  method OrderConstants(dependencies: Graph<nat>) returns (r: Ordering)
    requires Closed(dependencies)
    ensures r.Ordered? <==> Acyclic(dependencies)
    ensures r.Ordered? ==> DependencyOrder(dependencies, r.order)
    ensures r.Cyclic? ==> IsCycle(dependencies, r.symbols) && NoRepeats(r.symbols)
  {
    var remaining := dependencies;
    var ready := set c | c in dependencies && dependencies[c] == {};
    var order: seq<nat> := [];
    while ready != {}
      invariant Peeled(dependencies, remaining, order, ready)
      decreases dependencies.Keys - Elements(order)
    {
      var symbol := First(ready);
      var before := order;
      order := order + [symbol];
      ElementsSnoc(before, symbol);
      remaining, ready := Release(dependencies, remaining, before, ready, symbol);
    }
    if |order| != |dependencies| {
      LeftOver(dependencies, remaining, order);
      var symbols := FindCycle(dependencies, remaining);
      r := Cyclic(symbols);
    } else {
      ElementsSize(order);
      SubsetSize(Elements(order), dependencies.Keys);
      OrderIsAcyclic(dependencies, order);
      r := Ordered(order);
    }
  }

  /** Takes one ordered constant out of every dependency set. */
  method Release(ghost dependencies: Graph<nat>, remaining0: Graph<nat>, order: seq<nat>, ready0: set<nat>, symbol: nat)
    returns (remaining: Graph<nat>, ready: set<nat>)
    requires Peeled(dependencies, remaining0, order, ready0) && symbol in ready0
    ensures Peeled(dependencies, remaining, order + [symbol], ready)
  {
    remaining, ready := remaining0, ready0 - {symbol};
    var rest := remaining.Keys;
    while rest != {}
      invariant rest <= remaining.Keys == dependencies.Keys
      invariant forall c | c in dependencies ::
                  remaining[c] == if c in rest then remaining0[c] else remaining0[c] - {symbol}
      invariant forall c :: c in ready <==> c in dependencies && c !in order && c != symbol && remaining[c] == {}
      decreases rest
    {
      var candidate := First(rest);
      rest := rest - {candidate};
      if symbol in remaining[candidate] {
        remaining := remaining[candidate := remaining[candidate] - {symbol}];
        if remaining[candidate] == {} && candidate !in order + [symbol] {
          ready := ready + {candidate};
        }
      }
    }
    Released(dependencies, remaining0, order, ready0, symbol, remaining, ready);
  }

  lemma {:induction false} Released(dependencies: Graph<nat>, remaining0: Graph<nat>, order: seq<nat>, ready0: set<nat>,
                                    symbol: nat, remaining: Graph<nat>, ready: set<nat>)
    requires Peeled(dependencies, remaining0, order, ready0) && symbol in ready0 && remaining.Keys == dependencies.Keys
    requires forall c | c in dependencies :: remaining[c] == remaining0[c] - {symbol}
    requires forall c :: c in ready <==> c in dependencies && c !in order && c != symbol && remaining[c] == {}
    ensures Peeled(dependencies, remaining, order + [symbol], ready)
  {
    ElementsSnoc(order, symbol);
    var longer := order + [symbol];
    forall i, d | 0 <= i < |longer| && d in dependencies[longer[i]] ensures d in longer[..i] {
      if i < |order| {
        assert longer[i] == order[i] && longer[..i] == order[..i];
      } else {
        assert longer[..i] == order && d !in remaining0[symbol];
        assert d in Elements(order);
      }
    }
  }

  lemma {:induction false} OrderIsAcyclic(dependencies: Graph<nat>, order: seq<nat>)
    requires DependencyOrder(dependencies, order)
    ensures Acyclic(dependencies)
  {
    var rank := RankOf(order);
    forall v, t | v in dependencies && t in dependencies[v] && t in dependencies ensures rank[t] < rank[v] {
      assert v in Elements(order);
      var i :| 0 <= i < |order| && order[i] == v;
      assert t in order[..i];
      var j :| 0 <= j < i && order[j] == t;
    }
    RankIsAcyclic(dependencies, rank);
  }

  ghost function RankOf(order: seq<nat>): (rank: map<nat, int>)
    requires NoRepeats(order)
    ensures rank.Keys == Elements(order) && forall i | 0 <= i < |order| :: rank[order[i]] == i
  {
    if order == [] then map[]
    else
      var n := |order| - 1;
      assert Elements(order) == Elements(order[..n]) + {order[n]};
      RankOf(order[..n])[order[n] := n]
  }

  ghost predicate Waits(remaining: Graph<nat>, c: nat) {
    c in remaining && remaining[c] != {}
  }

  /** Every constant left over still waits for another one left over. */
  ghost predicate Stuck(dependencies: Graph<nat>, remaining: Graph<nat>) {
    && remaining.Keys == dependencies.Keys && (forall c | c in dependencies :: remaining[c] <= dependencies[c])
    && forall c, d {:trigger d in remaining[c], Waits(remaining, d)} | c in remaining &&
       d in remaining[c] :: Waits(remaining, d)
  }

  lemma {:induction false} LeftOver(dependencies: Graph<nat>, remaining: Graph<nat>, order: seq<nat>)
    requires Closed(dependencies) && Peeled(dependencies, remaining, order, {}) && |order| != |dependencies|
    ensures Stuck(dependencies, remaining) && exists c :: Waits(remaining, c)
  {
    forall c | c in dependencies && c !in Elements(order) ensures Waits(remaining, c) {
      assert c !in order;
    }
    ElementsSize(order);
    assert |dependencies| == |dependencies.Keys| && Elements(order) != dependencies.Keys;
    var c :| c in dependencies && c !in Elements(order);
    assert Waits(remaining, c);
  }

  /** The next constant to look at always exists. */
  method NextUnresolved(remaining: Graph<nat>, among: set<nat>) returns (c: nat)
    requires among <= remaining.Keys && exists d | d in among :: Waits(remaining, d)
    ensures c in among && Waits(remaining, c)
  {
    var waiting := set d | d in among && remaining[d] != {};
    ghost var d :| d in among && Waits(remaining, d);
    assert d in waiting;
    c := First(waiting);
  }

  /** Follows unresolved dependencies until a constant repeats. */
  method FindCycle(dependencies: Graph<nat>, remaining: Graph<nat>) returns (symbols: seq<nat>)
    requires Closed(dependencies) && Stuck(dependencies, remaining) && exists c :: Waits(remaining, c)
    ensures IsCycle(dependencies, symbols) && NoRepeats(symbols)
  {
    var trail: seq<nat> := [];
    var positions: map<nat, nat> := map[];
    ghost var some :| Waits(remaining, some);
    var current := NextUnresolved(remaining, remaining.Keys);
    while current !in positions
      invariant Waits(remaining, current) && OnTrail(dependencies, trail, current)
      invariant positions.Keys == Elements(trail)
      invariant forall c | c in positions :: positions[c] < |trail| && trail[positions[c]] == c
      decreases |dependencies.Keys| - |trail|
    {
      TrailGrows(dependencies, trail, current);
      positions := positions[current := |trail|];
      trail := trail + [current];
      FollowsStuck(dependencies, remaining, current);
      current := NextUnresolved(remaining, remaining[current]);
    }
    var position := positions[current];
    symbols := trail[position..];
    TrailCloses(dependencies, trail, current, position);
  }

  /** The trail is a walk without repeats that continues to `current`. */
  ghost predicate OnTrail(dependencies: Graph<nat>, trail: seq<nat>, current: nat) {
    && NoRepeats(trail) && Elements(trail) <= dependencies.Keys
    && (trail == [] || (IsWalk(dependencies, trail) && current in dependencies[trail[|trail| - 1]]))
  }

  lemma {:induction false} FollowsStuck(dependencies: Graph<nat>, remaining: Graph<nat>, current: nat)
    requires Closed(dependencies) && Stuck(dependencies, remaining) && Waits(remaining, current)
    ensures remaining[current] <= remaining.Keys && exists d | d in remaining[current] :: Waits(remaining, d)
  {
    var d :| d in remaining[current];
    assert Waits(remaining, d);
  }

  lemma {:induction false} TrailGrows(dependencies: Graph<nat>, trail: seq<nat>, current: nat)
    requires OnTrail(dependencies, trail, current) && current !in Elements(trail) && current in dependencies
    ensures Elements(trail + [current]) == Elements(trail) + {current}
    ensures |trail| < |dependencies.Keys|
    ensures forall next | next in dependencies[current] :: OnTrail(dependencies, trail + [current], next)
  {
    if trail != [] {
      WalkSnoc(dependencies, trail, current);
    }
    ElementsSnoc(trail, current);
    ElementsSize(trail + [current]);
    SubsetSize(Elements(trail + [current]), dependencies.Keys);
  }

  lemma {:induction false} TrailCloses(dependencies: Graph<nat>, trail: seq<nat>, current: nat, position: nat)
    requires OnTrail(dependencies, trail, current) && position < |trail| && trail[position] == current
    ensures IsCycle(dependencies, trail[position..]) && NoRepeats(trail[position..])
  {
    WalkPart(dependencies, trail, position, |trail|);
    assert trail[position..|trail|] == trail[position..];
  }
}
