/** Validation of a lockfile's package graph: an iterative depth-first search
    with three colours. */
module LockGraph {
  import opened Collections
  import opened Wrappers
  import opened Digraph

  datatype LockError = DependencyCycle | UnreachablePackage

  /** Every package with its dependencies, in order. */
  type Packages = map<string, seq<string>>

  function AsGraph(packages: Packages): Graph<string> {
    map id | id in packages :: set d | d in packages[id]
  }

  // ----- the search -----

  datatype Colour = Active | Complete

  /** A package on the stack and the index of its next dependency. */
  datatype Frame = Frame(identity: string, next: nat)

  ghost function Identities(pending: seq<Frame>): (r: seq<string>)
    ensures |r| == |pending| && forall i | 0 <= i < |pending| :: r[i] == pending[i].identity
  {
    seq(|pending|, i requires 0 <= i < |pending| => pending[i].identity)
  }

  /** The dependencies already passed are complete; under another frame, the last
      one passed is that frame's package. */
  ghost predicate FrameOk(packages: Packages, rank: map<string, int>, pending: seq<Frame>, i: nat) {
    && i < |pending| && pending[i].identity in packages && pending[i].next <= |packages[pending[i].identity]|
    && var dependencies, next := packages[pending[i].identity], pending[i].next;
       if i + 1 < |pending| then
         && next > 0 && dependencies[next - 1] == pending[i + 1].identity
         && forall k | 0 <= k < next - 1 :: dependencies[k] in rank
       else
         forall k | 0 <= k < next :: dependencies[k] in rank
  }

  ghost predicate StackOk(packages: Packages, rank: map<string, int>, pending: seq<Frame>) {
    forall i {:trigger FrameOk(packages, rank, pending, i)} | 0 <= i < |pending| :: FrameOk(packages, rank, pending, i)
  }

  /** Completed packages form a dependency-closed part with a falling rank. */
  ghost predicate RankOk(packages: Packages, rank: map<string, int>) {
    && rank.Keys <= packages.Keys
    && (forall v, d | v in rank && d in packages[v] :: d in rank && rank[d] < rank[v])
    && forall v | v in rank :: rank[v] < |rank|
  }

  ghost function Coloured(colours: map<string, Colour>, colour: Colour): set<string> {
    set v | v in colours && colours[v] == colour
  }

  ghost predicate ColoursOk(g: Graph<string>, root: string, colours: map<string, Colour>, active: seq<string>,
                            complete: set<string>) {
    && root in colours && colours.Keys <= g.Keys
    && Coloured(colours, Complete) == complete && Coloured(colours, Active) == Elements(active) && NoRepeats(active)
    && forall v {:trigger Reachable(g, root, v)} | v in colours :: Reachable(g, root, v)
  }

  ghost predicate Traversal(packages: Packages, root: string, colours: map<string, Colour>, pending: seq<Frame>,
                            rank: map<string, int>) {
    && RankOk(packages, rank) && StackOk(packages, rank, pending)
    && ColoursOk(AsGraph(packages), root, colours, Identities(pending), rank.Keys)
  }

  lemma {:induction false} ColourActive(g: Graph<string>, root: string, colours: map<string, Colour>,
                                        active: seq<string>, complete: set<string>, v: string)
    requires ColoursOk(g, root, colours, active, complete) && v in g && v !in colours && Reachable(g, root, v)
    ensures ColoursOk(g, root, colours[v := Active], active + [v], complete)
  {
    assert v !in Coloured(colours, Active);
    assert v !in Elements(active);
    assert v !in active;
    ElementsSnoc(active, v);
    assert Coloured(colours[v := Active], Active) == Coloured(colours, Active) + {v};
    assert Coloured(colours[v := Active], Complete) == Coloured(colours, Complete);
  }

  lemma {:induction false} ColourComplete(g: Graph<string>, root: string, colours: map<string, Colour>,
                                          active: seq<string>, complete: set<string>, v: string)
    requires ColoursOk(g, root, colours, active + [v], complete)
    ensures v in colours && v !in complete && ColoursOk(g, root, colours[v := Complete], active, complete + {v})
  {
    ElementsSnoc(active, v);
    assert v in Coloured(colours, Active) && v !in Coloured(colours, Complete);
    assert forall i | 0 <= i < |active| :: (active + [v])[i] == active[i] && (active + [v])[|active|] == v;
    assert v !in active;
    assert v !in Elements(active);
    assert Coloured(colours[v := Complete], Active) == Coloured(colours, Active) - {v};
    assert Coloured(colours[v := Complete], Complete) == Coloured(colours, Complete) + {v};
    assert forall i, j | 0 <= i < j < |active| :: active[i] == (active + [v])[i] && active[j] == (active + [v])[j];
  }

  lemma {:induction false} StackIsWalk(packages: Packages, rank: map<string, int>, pending: seq<Frame>)
    requires pending != [] && StackOk(packages, rank, pending)
    ensures IsWalk(AsGraph(packages), Identities(pending))
  {
    var g, ids := AsGraph(packages), Identities(pending);
    forall i | 0 <= i < |ids| - 1 ensures Linked(g, ids, i) {
      assert FrameOk(packages, rank, pending, i);
    }
    forall v | v in ids ensures v in g {
      var i :| 0 <= i < |ids| && ids[i] == v;
      assert FrameOk(packages, rank, pending, i);
    }
  }

  /** A dependency that is still active closes a cycle through the stack. */
  lemma {:induction false} ActiveIsCycle(packages: Packages, root: string, colours: map<string, Colour>,
                                         pending: seq<Frame>, rank: map<string, int>, dependency: string)
    requires pending != [] && Traversal(packages, root, colours, pending, rank)
    requires pending[|pending| - 1].identity in packages && dependency in packages[pending[|pending| - 1].identity]
    requires dependency in colours && colours[dependency] == Active
    ensures !Acyclic(AsGraph(packages))
  {
    var ids := Identities(pending);
    assert dependency in Coloured(colours, Active) && dependency in Elements(ids);
    var j :| 0 <= j < |ids| && ids[j] == dependency;
    StackIsWalk(packages, rank, pending);
    WalkPart(AsGraph(packages), ids, j, |ids|);
    assert IsCycle(AsGraph(packages), ids[j..|ids|]);
  }

  lemma {:induction false} Advanced(packages: Packages, root: string, colours: map<string, Colour>, pending: seq<Frame>,
                                    rank: map<string, int>)
    requires pending != [] && Traversal(packages, root, colours, pending, rank)
    requires var top := pending[|pending| - 1];
             && top.identity in packages && top.next < |packages[top.identity]|
             && packages[top.identity][top.next] in rank
    ensures var top := pending[|pending| - 1];
      Traversal(packages, root, colours, pending[|pending| - 1 := Frame(top.identity, top.next + 1)], rank)
  {
    var n := |pending| - 1;
    var after := pending[n := Frame(pending[n].identity, pending[n].next + 1)];
    forall i | 0 <= i < |after| ensures FrameOk(packages, rank, after, i) {
      assert FrameOk(packages, rank, pending, i);
    }
    assert Identities(after) == Identities(pending);
  }

  lemma {:induction false} Pushed(packages: Packages, root: string, colours: map<string, Colour>, pending: seq<Frame>,
                                  rank: map<string, int>, child: string)
    requires pending != [] && Traversal(packages, root, colours, pending, rank) && child in packages &&
             child !in colours
    requires var top := pending[|pending| - 1];
             top.identity in packages && top.next < |packages[top.identity]| &&
                 packages[top.identity][top.next] == child
    ensures var top := pending[|pending| - 1];
            Traversal(packages, root, colours[child := Active],
                      pending[|pending| - 1 := Frame(top.identity, top.next + 1)] + [Frame(child, 0)], rank)
  {
    var g, n := AsGraph(packages), |pending| - 1;
    var top := pending[n];
    var after := pending[n := Frame(top.identity, top.next + 1)] + [Frame(child, 0)];
    PushedStack(packages, rank, pending, after, child);
    assert Identities(after) == Identities(pending) + [child];
    assert Identities(pending)[n] == top.identity && top.identity in Coloured(colours, Active);
    assert Reachable(g, root, top.identity);
    ReachesNext(g, root, top.identity, child);
    ColourActive(g, root, colours, Identities(pending), rank.Keys, child);
  }

  lemma {:induction false} PushedStack(packages: Packages, rank: map<string, int>, pending: seq<Frame>,
                                       after: seq<Frame>, child: string)
    requires pending != [] && StackOk(packages, rank, pending) && child in packages
    requires var top := pending[|pending| - 1];
             && top.identity in packages && top.next < |packages[top.identity]| &&
                packages[top.identity][top.next] == child
             && after == pending[|pending| - 1 := Frame(top.identity, top.next + 1)] + [Frame(child, 0)]
    ensures StackOk(packages, rank, after)
  {
    forall i | 0 <= i < |after| ensures FrameOk(packages, rank, after, i) {
      if i < |pending| {
        assert FrameOk(packages, rank, pending, i);
      }
    }
  }

  lemma {:induction false} Completed(packages: Packages, root: string, colours: map<string, Colour>,
                                     pending: seq<Frame>, rank: map<string, int>)
    requires pending != [] && Traversal(packages, root, colours, pending, rank)
    requires var top := pending[|pending| - 1]; top.identity in packages && top.next == |packages[top.identity]|
    ensures var top := pending[|pending| - 1];
            && top.identity !in rank && top.identity in colours
            && Traversal(packages, root, colours[top.identity := Complete], pending[..|pending| - 1],
                         rank[top.identity := |rank|])
  {
    var n := |pending| - 1;
    var top := pending[n];
    assert Identities(pending) == Identities(pending[..n]) + [top.identity];
    ColourComplete(AsGraph(packages), root, colours, Identities(pending[..n]), rank.Keys, top.identity);
    assert rank[top.identity := |rank|].Keys == rank.Keys + {top.identity};
    assert FrameOk(packages, rank, pending, n);
    CompletedRank(packages, rank, top.identity);
    CompletedStack(packages, pending, rank);
  }

  lemma {:induction false} CompletedStack(packages: Packages, pending: seq<Frame>, rank: map<string, int>)
    requires pending != [] && StackOk(packages, rank, pending)
    ensures StackOk(packages, rank[pending[|pending| - 1].identity := |rank|], pending[..|pending| - 1])
  {
    var n := |pending| - 1;
    var after, rank' := pending[..n], rank[pending[n].identity := |rank|];
    forall i | 0 <= i < |after| ensures FrameOk(packages, rank', after, i) {
      assert FrameOk(packages, rank, pending, i);
    }
  }

  lemma {:induction false} CompletedRank(packages: Packages, rank: map<string, int>, v: string)
    requires RankOk(packages, rank) && v in packages && v !in rank &&
             forall k | 0 <= k < |packages[v]| :: packages[v][k] in rank
    ensures RankOk(packages, rank[v := |rank|])
  {
    var rank' := rank[v := |rank|];
    assert rank'.Keys == rank.Keys + {v} && |rank'.Keys| == |rank.Keys| + 1 && |rank'| == |rank'.Keys|;
    forall u, d | u in rank' && d in packages[u] ensures d in rank' && rank'[d] < rank'[u] {
      if u == v {
        var k :| 0 <= k < |packages[v]| && packages[v][k] == d;
      }
    }
  }

  method ValidateLockGraph(packages: Packages, root: string) returns (r: Result<(), LockError>)
    requires root in packages && forall id, d | id in packages && d in packages[id] :: d in packages
    ensures r.Ok? <==> Acyclic(AsGraph(packages)) && AllReachable(AsGraph(packages), root)
    ensures r == Err(DependencyCycle) ==> !Acyclic(AsGraph(packages))
    ensures r == Err(UnreachablePackage) ==> !AllReachable(AsGraph(packages), root)
  {
    ghost var g := AsGraph(packages);
    var colours: map<string, Colour> := map[root := Active];
    var pending := [Frame(root, 0)];
    ghost var rank: map<string, int> := map[];
    ReachesItself(g, root);
    assert Identities(pending) == [root];
    while pending != []
      invariant Traversal(packages, root, colours, pending, rank)
      decreases packages.Keys - colours.Keys, packages.Keys - rank.Keys, Left(packages, pending)
    {
      var cycle;
      cycle, colours, pending, rank := Visit(packages, root, colours, pending, rank);
      if cycle {
        return Err(DependencyCycle);
      }
    }
    AllComplete(packages, root, colours, rank);
    if |colours| != |packages| {
      assert colours.Keys != packages.Keys;
      return Err(UnreachablePackage);
    }
    assert |colours.Keys| == |packages.Keys|;
    SubsetSize(colours.Keys, packages.Keys);
    return Ok(());
  }

  /** Dependencies the top frame has still to pass. */
  ghost function Left(packages: Packages, pending: seq<Frame>): int {
    if pending != [] && pending[|pending| - 1].identity in packages then
      |packages[pending[|pending| - 1].identity]| - pending[|pending| - 1].next
    else 0
  }

  /** One turn of the search on the top frame: advance, descend or complete. */
  method Visit(packages: Packages, ghost root: string, colours0: map<string, Colour>, pending0: seq<Frame>,
               ghost rank0: map<string, int>)
    returns (cycle: bool, colours: map<string, Colour>, pending: seq<Frame>, ghost rank: map<string, int>)
    requires pending0 != [] && Traversal(packages, root, colours0, pending0, rank0)
    requires forall id, d | id in packages && d in packages[id] :: d in packages
    ensures cycle ==> !Acyclic(AsGraph(packages))
    ensures !cycle ==> Traversal(packages, root, colours, pending, rank)
    ensures !cycle ==>
      || packages.Keys - colours.Keys < packages.Keys - colours0.Keys
      || (colours.Keys == colours0.Keys && packages.Keys - rank.Keys < packages.Keys - rank0.Keys)
      || (colours.Keys == colours0.Keys && rank == rank0 && Left(packages, pending) < Left(packages, pending0))
    ensures Left(packages, pending0) >= 0
  {
    var n := |pending0| - 1;
    var top := pending0[n];
    assert FrameOk(packages, rank0, pending0, n);
    var dependencies := packages[top.identity];
    cycle, colours, pending, rank := false, colours0, pending0, rank0;
    if top.next < |dependencies| {
      var dependency := dependencies[top.next];
      if dependency in colours && colours[dependency] == Active {
        ActiveIsCycle(packages, root, colours, pending, rank, dependency);
        cycle := true;
      } else if dependency in colours {
        assert dependency in Coloured(colours, Complete);
        Advanced(packages, root, colours, pending, rank);
        pending := pending[n := Frame(top.identity, top.next + 1)];
      } else {
        Pushed(packages, root, colours, pending, rank, dependency);
        pending := pending[n := Frame(top.identity, top.next + 1)] + [Frame(dependency, 0)];
        colours := colours[dependency := Active];
        assert dependency in packages.Keys - colours0.Keys;
      }
    } else {
      Completed(packages, root, colours, pending, rank);
      pending := pending[..n];
      colours := colours[top.identity := Complete];
      rank := rank[top.identity := |rank|];
      assert top.identity in packages.Keys - rank0.Keys;
    }
  }

  lemma {:induction false} AllRanked(g: Graph<string>, root: string, colours: map<string, Colour>,
                                     complete: set<string>)
    requires ColoursOk(g, root, colours, Identities([]), complete)
    ensures forall v | v in colours :: v in complete
  {
    forall v | v in colours ensures v in complete {
      assert v !in Elements(Identities([]));
      assert v in Coloured(colours, Complete) || v in Coloured(colours, Active);
    }
  }

  /** When the stack is empty, what was seen is exactly what is reachable, and it
      is everything exactly if the graph is also free of cycles. */
  lemma {:induction false} AllComplete(packages: Packages, root: string, colours: map<string, Colour>,
                                       rank: map<string, int>)
    requires Traversal(packages, root, colours, [], rank) && forall id, d | id in packages &&
             d in packages[id] :: d in packages
    ensures colours.Keys == packages.Keys <==> AllReachable(AsGraph(packages), root)
    ensures colours.Keys == packages.Keys ==> Acyclic(AsGraph(packages))
  {
    var g := AsGraph(packages);
    AllRanked(g, root, colours, rank.Keys);
    if AllReachable(g, root) {
      SeenEverything(packages, root, rank);
    }
    if colours.Keys == packages.Keys {
      RankIsAcyclic(g, rank);
    }
  }

  /** A dependency-closed part with the root holds whatever the root reaches. */
  lemma {:induction false} SeenEverything(packages: Packages, root: string, rank: map<string, int>)
    requires RankOk(packages, rank) && root in rank && AllReachable(AsGraph(packages), root)
    ensures packages.Keys <= rank.Keys
  {
    var g := AsGraph(packages);
    forall v | v in packages ensures v in rank {
      assert v in g && Reachable(g, root, v);
      StaysInside(g, rank.Keys, root, v);
    }
  }
}
