/** Directed graphs: walks, cycles, reachability, and the certificates that the
    graph algorithms leave behind. */
module Digraph {
  import opened Collections

  type Graph<V(==)> = map<V, set<V>>

  /** Every edge ends at a node of the graph. */
  ghost predicate Closed<V>(g: Graph<V>) {
    forall v | v in g :: g[v] <= g.Keys
  }

  ghost predicate Linked<V>(g: Graph<V>, walk: seq<V>, i: nat) {
    i + 1 < |walk| && walk[i] in g && walk[i + 1] in g[walk[i]]
  }

  ghost predicate IsWalk<V>(g: Graph<V>, walk: seq<V>) {
    && walk != [] && (forall v | v in walk :: v in g)
    && forall i {:trigger Linked(g, walk, i)} | 0 <= i < |walk| - 1 :: Linked(g, walk, i)
  }

  lemma {:induction false} WalkSnoc<V>(g: Graph<V>, walk: seq<V>, v: V)
    requires IsWalk(g, walk) && v in g && v in g[walk[|walk| - 1]]
    ensures IsWalk(g, walk + [v])
  {
    var longer := walk + [v];
    forall i | 0 <= i < |longer| - 1 ensures Linked(g, longer, i) {
      if i < |walk| - 1 {
        assert Linked(g, walk, i);
      }
    }
  }

  lemma {:induction false} WalkCons<V>(g: Graph<V>, v: V, walk: seq<V>)
    requires IsWalk(g, walk) && v in g && walk[0] in g[v]
    ensures IsWalk(g, [v] + walk)
  {
    var longer := [v] + walk;
    forall i | 0 <= i < |longer| - 1 ensures Linked(g, longer, i) {
      if i > 0 {
        assert Linked(g, walk, i - 1);
      }
    }
  }

  lemma {:induction false} WalkPart<V>(g: Graph<V>, walk: seq<V>, lo: nat, hi: nat)
    requires IsWalk(g, walk) && lo < hi <= |walk|
    ensures IsWalk(g, walk[lo..hi])
  {
    var part := walk[lo..hi];
    forall i | 0 <= i < |part| - 1 ensures Linked(g, part, i) {
      assert Linked(g, walk, lo + i);
    }
  }

  ghost predicate IsCycle<V>(g: Graph<V>, cycle: seq<V>) {
    IsWalk(g, cycle) && cycle[0] in g[cycle[|cycle| - 1]]
  }

  ghost predicate Acyclic<V(!new)>(g: Graph<V>) {
    forall cycle :: !IsCycle(g, cycle)
  }

  ghost predicate Reachable<V(!new)>(g: Graph<V>, from: V, to: V) {
    exists walk :: IsWalk(g, walk) && walk[0] == from && walk[|walk| - 1] == to
  }

  ghost predicate AllReachable<V(!new)>(g: Graph<V>, root: V) {
    forall v | v in g :: Reachable(g, root, v)
  }

  lemma {:induction false} ReachesItself<V(!new)>(g: Graph<V>, v: V)
    requires v in g
    ensures Reachable(g, v, v)
  {
    assert IsWalk(g, [v]);
  }

  lemma {:induction false} ReachesNext<V(!new)>(g: Graph<V>, from: V, v: V, next: V)
    requires Reachable(g, from, v) && v in g && next in g[v] && next in g
    ensures Reachable(g, from, next)
  {
    var walk :| IsWalk(g, walk) && walk[0] == from && walk[|walk| - 1] == v;
    WalkSnoc(g, walk, next);
    assert (walk + [next])[0] == from;
  }

  /** A set that holds the root and is closed under edges holds all that is reachable. */
  lemma {:induction false} StaysInside<V(!new)>(g: Graph<V>, inside: set<V>, root: V, v: V)
    requires root in inside && (forall u | u in inside && u in g :: g[u] <= inside) && Reachable(g, root, v)
    ensures v in inside
  {
    var walk :| IsWalk(g, walk) && walk[0] == root && walk[|walk| - 1] == v;
    for i := 0 to |walk| - 1
      invariant walk[i] in inside
    {
      assert Linked(g, walk, i);
    }
  }

  /** A rank that falls along every edge rules cycles out. */
  lemma {:induction false} RankIsAcyclic<V(!new)>(g: Graph<V>, rank: map<V, int>)
    requires rank.Keys == g.Keys && forall v, t | v in g && t in g[v] && t in g :: rank[t] < rank[v]
    ensures Acyclic(g)
  {
    forall cycle ensures !IsCycle(g, cycle) {
      if IsCycle(g, cycle) {
        RankFalls(g, rank, cycle);
      }
    }
  }

  lemma {:induction false} RankFalls<V(!new)>(g: Graph<V>, rank: map<V, int>, walk: seq<V>)
    requires rank.Keys == g.Keys && forall v, t | v in g && t in g[v] && t in g :: rank[t] < rank[v]
    requires IsWalk(g, walk)
    ensures rank[walk[|walk| - 1]] <= rank[walk[0]]
  {
    for i := 0 to |walk| - 1
      invariant rank[walk[i]] <= rank[walk[0]]
    {
      assert Linked(g, walk, i);
      assert walk[i] in walk && walk[i + 1] in walk;
    }
  }

  ghost predicate NoRepeats<V>(s: seq<V>) {
    forall i, j | 0 <= i < j < |s| :: s[i] != s[j]
  }

  ghost function Elements<V>(s: seq<V>): set<V> {
    set v | v in s
  }

  lemma {:induction false} ElementsSnoc<V>(s: seq<V>, v: V)
    ensures Elements(s + [v]) == Elements(s) + {v}
    ensures NoRepeats(s) && v !in s ==> NoRepeats(s + [v])
  {
  }

  lemma {:induction false} ElementsSize<V>(s: seq<V>)
    requires NoRepeats(s)
    ensures |Elements(s)| == |s|
  {
    if s != [] {
      var n := |s| - 1;
      ElementsSize(s[..n]);
      assert Elements(s) == Elements(s[..n]) + {s[n]};
      assert s[n] !in s[..n];
    }
  }

  /** A non-empty set in which every node has a predecessor holds a cycle. */
  lemma {:induction false} PredecessorsCycle<V(!new)>(g: Graph<V>, left: set<V>)
    requires left != {} && left <= g.Keys
    requires forall v | v in left :: HasPredecessor(g, left, v)
    ensures !Acyclic(g)
  {
    var start :| start in left;
    var trail := [start];
    while true
      invariant IsWalk(g, trail) && NoRepeats(trail) && Elements(trail) <= left
      decreases |left| - |trail|
    {
      assert trail[0] in left && HasPredecessor(g, left, trail[0]);
      var u :| u in left && trail[0] in g[u];
      if u in trail {
        ClosesCycle(g, trail, u);
        return;
      }
      LongerTrail(g, left, trail, u);
      trail := [u] + trail;
    }
  }

  lemma {:induction false} ClosesCycle<V(!new)>(g: Graph<V>, trail: seq<V>, u: V)
    requires IsWalk(g, trail) && u in trail && u in g && trail[0] in g[u]
    ensures !Acyclic(g)
  {
    var k :| 0 <= k < |trail| && trail[k] == u;
    WalkPart(g, trail, 0, k + 1);
    assert IsCycle(g, trail[0..k + 1]);
  }

  lemma {:induction false} LongerTrail<V(!new)>(g: Graph<V>, left: set<V>, trail: seq<V>, u: V)
    requires IsWalk(g, trail) && NoRepeats(trail) && Elements(trail) <= left <= g.Keys && u in left && u !in trail &&
             trail[0] in g[u]
    ensures IsWalk(g, [u] + trail) && NoRepeats([u] + trail) && Elements([u] + trail) <= left && |trail| < |left|
  {
    WalkCons(g, u, trail);
    var longer := [u] + trail;
    assert Elements(longer) == Elements(trail) + {u};
    ElementsSize(longer);
    SubsetSize(Elements(longer), left);
  }

  ghost predicate HasPredecessor<V>(g: Graph<V>, among: set<V>, v: V)
    requires among <= g.Keys
  {
    exists u | u in among :: v in g[u]
  }
}
