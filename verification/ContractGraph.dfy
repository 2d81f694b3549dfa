/** Validation of an artifact's package import graph: reachability from the root
    package, then Kahn's algorithm. */
module ContractGraph {
  import opened Collections
  import opened Wrappers
  import opened Digraph

  datatype Import = Import(importer: string, alias: string, target: string, digest: nat)

  datatype ContractError = AliasConflict | DigestConflict | UnreachablePackage | ImportCycle

  // ----- building the graph -----

  function Entry(g: Graph<string>, v: string): set<string> {
    if v in g then g[v] else {}
  }

  function AddImport(g: Graph<string>, imported: Import): Graph<string> {
    var grown := g[imported.importer := Entry(g, imported.importer) + {imported.target}];
    grown[imported.target := Entry(grown, imported.target)]
  }

  function ImportGraph(root: string, imports: seq<Import>): (g: Graph<string>)
    ensures root in g && Closed(g)
  {
    if imports == [] then map[root := {}]
    else AddImport(ImportGraph(root, imports[..|imports| - 1]), imports[|imports| - 1])
  }

  /** The graph has exactly the imported edges. */
  lemma {:induction false} ImportGraphEdges(root: string, imports: seq<Import>, u: string, v: string)
    ensures var g := ImportGraph(root, imports);
            u in g && v in g[u] <==> exists i | i in imports :: i.importer == u && i.target == v
  {
    if imports != [] {
      var n := |imports| - 1;
      ImportGraphEdges(root, imports[..n], u, v);
      assert forall i | i in imports :: i in imports[..n] || i == imports[n];
      assert imports[n] in imports;
      if i :| i in imports[..n] && i.importer == u && i.target == v {
        assert i in imports;
      }
    }
  }

  ghost predicate AliasesAgree(imports: seq<Import>) {
    forall a, b | a in imports && b in imports && a.importer == b.importer && a.alias == b.alias :: a.target == b.target
  }

  ghost predicate DigestsAgree(imports: seq<Import>) {
    forall a, b | a in imports && b in imports && a.target == b.target :: a.digest == b.digest
  }

  /** What the two lookup tables hold after some imports. */
  ghost predicate Tabled(imports: seq<Import>, aliases: map<(string, string), string>, digests: map<string, nat>) {
    && (forall k {:trigger HasAlias(imports, k)} | k in aliases :: HasAlias(imports, k))
    && (forall k {:trigger HasTarget(imports, k)} | k in digests :: HasTarget(imports, k))
    && forall i | i in imports ::
         && (i.importer, i.alias) in aliases && aliases[(i.importer, i.alias)] == i.target
         && i.target in digests && digests[i.target] == i.digest
  }

  ghost predicate HasAlias(imports: seq<Import>, key: (string, string)) {
    exists i | i in imports :: (i.importer, i.alias) == key
  }

  ghost predicate HasTarget(imports: seq<Import>, target: string) {
    exists i | i in imports :: i.target == target
  }

  lemma {:induction false} TabledAgree(imports: seq<Import>, aliases: map<(string, string), string>,
                                       digests: map<string, nat>)
    requires Tabled(imports, aliases, digests)
    ensures AliasesAgree(imports) && DigestsAgree(imports)
  {
  }

  lemma {:induction false} TabledNext(imports: seq<Import>, imported: Import, aliases: map<(string, string), string>,
                                      digests: map<string, nat>)
    requires Tabled(imports, aliases, digests)
    ensures var key := (imported.importer, imported.alias);
            && (key in aliases && aliases[key] != imported.target ==> !AliasesAgree(imports + [imported]))
            && (imported.target in digests && digests[imported.target] != imported.digest ==>
                  !DigestsAgree(imports + [imported]))
    ensures var key := (imported.importer, imported.alias);
            (key in aliases ==> aliases[key] == imported.target) &&
            (imported.target in digests ==> digests[imported.target] == imported.digest) ==>
              Tabled(imports + [imported], aliases[key := imported.target], digests[imported.target := imported.digest])
  {
    var key, all := (imported.importer, imported.alias), imports + [imported];
    assert imported in all && forall i | i in imports :: i in all;
    if key in aliases && aliases[key] != imported.target {
      assert HasAlias(imports, key);
      var i :| i in imports && (i.importer, i.alias) == key;
      assert i in all && i.target != imported.target;
    }
    if imported.target in digests && digests[imported.target] != imported.digest {
      assert HasTarget(imports, imported.target);
      var i :| i in imports && i.target == imported.target;
      assert i in all && i.digest != imported.digest;
    }
    forall k | k in aliases[key := imported.target] ensures HasAlias(all, k) {
      if k != key {
        assert HasAlias(imports, k);
      }
    }
    forall k | k in digests[imported.target := imported.digest] ensures HasTarget(all, k) {
      if k != imported.target {
        assert HasTarget(imports, k);
      }
    }
  }

  lemma {:induction false} PrefixAgrees(imports: seq<Import>, n: nat)
    requires n <= |imports|
    ensures AliasesAgree(imports) ==> AliasesAgree(imports[..n])
    ensures DigestsAgree(imports) ==> DigestsAgree(imports[..n])
  {
    assert forall i | i in imports[..n] :: i in imports;
  }

  method BuildGraph(root: string, imports: seq<Import>) returns (r: Result<Graph<string>, ContractError>)
    ensures r.Ok? <==> AliasesAgree(imports) && DigestsAgree(imports)
    ensures r.Ok? ==> r.value == ImportGraph(root, imports)
    ensures r.Err? ==> r.error == AliasConflict || r.error == DigestConflict
  {
    var g: Graph<string> := map[root := {}];
    var aliases: map<(string, string), string> := map[];
    var digests: map<string, nat> := map[];
    for n := 0 to |imports|
      invariant g == ImportGraph(root, imports[..n])
      invariant Tabled(imports[..n], aliases, digests)
    {
      var imported := imports[n];
      assert imports[..n + 1] == imports[..n] + [imported];
      TabledNext(imports[..n], imported, aliases, digests);
      PrefixAgrees(imports, n + 1);
      g := AddImport(g, imported);
      var key := (imported.importer, imported.alias);
      if key in aliases && aliases[key] != imported.target {
        return Err(AliasConflict);
      }
      aliases := aliases[key := imported.target];
      if imported.target in digests && digests[imported.target] != imported.digest {
        return Err(DigestConflict);
      }
      digests := digests[imported.target := imported.digest];
    }
    assert imports[..|imports|] == imports;
    TabledAgree(imports, aliases, digests);
    return Ok(g);
  }

  // ----- reachability -----

  ghost predicate Exploring(g: Graph<string>, root: string, reachable: set<string>, pending: seq<string>,
                            exempt: set<string>) {
    && root in reachable && reachable <= g.Keys && (forall v | v in pending :: v in reachable)
    && (forall v {:trigger Reachable(g, root, v)} | v in reachable :: Reachable(g, root, v))
    && forall v | v in reachable && v !in pending && v !in exempt :: g[v] <= reachable
  }

  method ReachableFrom(g: Graph<string>, root: string) returns (reachable: set<string>)
    requires Closed(g) && root in g
    ensures reachable <= g.Keys && forall v | v in g :: v in reachable <==> Reachable(g, root, v)
  {
    reachable := {root};
    var pending := [root];
    ReachesItself(g, root);
    while pending != []
      invariant Exploring(g, root, reachable, pending, {})
      decreases g.Keys - reachable, |pending|
    {
      var n := |pending| - 1;
      var package := pending[n];
      assert package in pending && forall v | v in pending :: v in pending[..n] || v == package;
      pending := pending[..n];
      ghost var before, queue := reachable, pending;
      var rest := g[package];
      while rest != {}
        invariant before <= reachable && (reachable == before ==> pending == queue)
        invariant Exploring(g, root, reachable, pending, {package})
        invariant rest <= g[package] <= reachable + rest
        decreases rest
      {
        var target :| target in rest;
        rest := rest - {target};
        if target !in reachable {
          assert Reachable(g, root, package);
          ReachesNext(g, root, package, target);
          reachable := reachable + {target};
          pending := pending + [target];
        }
      }
    }
    forall v | v in g && Reachable(g, root, v) ensures v in reachable {
      StaysInside(g, reachable, root, v);
    }
  }

  // ----- Kahn's algorithm -----

  ghost function Predecessors(g: Graph<string>, among: set<string>, v: string): set<string> {
    set u | u in among && u in g && v in g[u]
  }

  method Indegrees(g: Graph<string>) returns (indegree: map<string, nat>)
    requires Closed(g)
    ensures indegree.Keys == g.Keys && forall v | v in g :: indegree[v] == |Predecessors(g, g.Keys, v)|
  {
    indegree := map v | v in g :: 0;
    var rest := g.Keys;
    while rest != {}
      invariant rest <= g.Keys && indegree.Keys == g.Keys
      invariant forall v | v in g :: indegree[v] == |Predecessors(g, g.Keys - rest, v)|
      decreases rest
    {
      var importer :| importer in rest;
      ghost var counted := g.Keys - rest;
      rest := rest - {importer};
      assert g.Keys - rest == counted + {importer};
      indegree := CountTargets(indegree, g[importer]);
      forall v | v in g ensures indegree[v] == |Predecessors(g, counted + {importer}, v)| {
        OneMore(g, counted, importer, v);
      }
    }
    assert g.Keys - rest == g.Keys;
  }

  method CountTargets(indegree0: map<string, nat>, targets: set<string>) returns (indegree: map<string, nat>)
    requires targets <= indegree0.Keys
    ensures indegree.Keys == indegree0.Keys
    ensures forall v | v in indegree0 :: indegree[v] == indegree0[v] + if v in targets then 1 else 0
  {
    indegree := indegree0;
    var rest := targets;
    while rest != {}
      invariant rest <= targets && indegree.Keys == indegree0.Keys
      invariant forall v | v in indegree0 :: indegree[v] == indegree0[v] + if v in targets && v !in rest then 1 else 0
      decreases rest
    {
      var target :| target in rest;
      rest := rest - {target};
      indegree := indegree[target := indegree[target] + 1];
    }
  }

  lemma {:induction false} OneMore(g: Graph<string>, among: set<string>, u: string, v: string)
    requires u in g && u !in among
    ensures |Predecessors(g, among + {u}, v)| == |Predecessors(g, among, v)| + if v in g[u] then 1 else 0
  {
    if v in g[u] {
      assert Predecessors(g, among + {u}, v) == Predecessors(g, among, v) + {u};
    } else {
      assert Predecessors(g, among + {u}, v) == Predecessors(g, among, v);
    }
  }

  /** Visited packages are ranked downwards, every importer above what it imports. */
  ghost predicate Ranked(g: Graph<string>, rank: map<string, int>) {
    && rank.Keys <= g.Keys && (forall v | v in rank :: rank[v] > -|rank|)
    && forall u, v | v in rank && u in g && v in g[u] :: u in rank && rank[v] < rank[u]
  }

  ghost predicate Counted(g: Graph<string>, indegree: map<string, nat>, unvisited: set<string>) {
    indegree.Keys == g.Keys && forall v | v in g :: indegree[v] == |Predecessors(g, unvisited, v)|
  }

  ghost predicate Ready(indegree: map<string, nat>, unvisited: set<string>, ready: seq<string>) {
    NoRepeats(ready) && Elements(ready) == set v | v in unvisited && v in indegree && indegree[v] == 0
  }

  lemma {:induction false} RankNext(g: Graph<string>, unvisited: set<string>, rank: map<string, int>, v: string)
    requires Ranked(g, rank) && unvisited == g.Keys - rank.Keys && v in unvisited && Predecessors(g, unvisited, v) == {}
    ensures Ranked(g, rank[v := -|rank|])
  {
    var after := rank[v := -|rank|];
    RankGrows(rank, v);
    forall u, t | t in after && u in g && t in g[u] ensures u in after && after[t] < after[u] {
      if t == v {
        assert u !in Predecessors(g, unvisited, v);
      }
    }
  }

  lemma {:induction false} RankGrows(rank: map<string, int>, v: string)
    requires v !in rank
    ensures rank[v := -|rank|].Keys == rank.Keys + {v} && |rank[v := -|rank|]| == |rank| + 1
  {
    var after := rank[v := -|rank|];
    assert after.Keys == rank.Keys + {v} && |after.Keys| == |rank.Keys| + 1 && |after| == |after.Keys|;
  }

  /** Takes a visited package out of the in-degrees of what it imports; no degree
      it lowers is zero. */
  method Visit(g: Graph<string>, indegree0: map<string, nat>, ready0: seq<string>, ghost unvisited: set<string>,
               package: string)
    returns (indegree: map<string, nat>, ready: seq<string>)
    requires Closed(g) && unvisited <= g.Keys && package in unvisited && Counted(g, indegree0, unvisited)
    requires indegree0[package] == 0 && Ready(indegree0, unvisited, ready0 + [package])
    requires forall v | v in g[package] :: v in unvisited
    ensures Counted(g, indegree, unvisited - {package}) && Ready(indegree, unvisited - {package}, ready)
  {
    ghost var left := unvisited - {package};
    assert unvisited == left + {package};
    forall v | v in g ensures indegree0[v] == |Predecessors(g, left, v)| + if v in g[package] then 1 else 0 {
      OneMore(g, left, package, v);
    }
    NotSelf(g, indegree0, unvisited, package);
    ReadyPop(indegree0, unvisited, ready0, package);
    indegree, ready := Lower(indegree0, ready0, left, g[package]);
  }

  method Lower(indegree0: map<string, nat>, ready0: seq<string>, ghost left: set<string>, targets: set<string>)
    returns (indegree: map<string, nat>, ready: seq<string>)
    requires targets <= indegree0.Keys && (forall v | v in targets :: indegree0[v] > 0) &&
             Ready(indegree0, left, ready0)
    requires forall v | v in targets && indegree0[v] == 1 :: v in left
    ensures indegree.Keys == indegree0.Keys && Ready(indegree, left, ready)
    ensures forall v | v in indegree0 :: indegree[v] == indegree0[v] - if v in targets then 1 else 0
  {
    indegree, ready := indegree0, ready0;
    var rest := targets;
    while rest != {}
      invariant rest <= targets && indegree.Keys == indegree0.Keys
      invariant forall v | v in indegree0 :: indegree[v] == indegree0[v] - if v in targets && v !in rest then 1 else 0
      invariant Ready(indegree, left, ready)
      decreases rest
    {
      var target :| target in rest;
      rest := rest - {target};
      ghost var before, queue := indegree, ready;
      indegree := indegree[target := indegree[target] - 1];
      if indegree[target] == 0 {
        ready := ready + [target];
      }
      ReadyPush(before, indegree, left, queue, ready, target);
    }
  }

  lemma {:induction false} NotSelf(g: Graph<string>, indegree: map<string, nat>, unvisited: set<string>,
                                   package: string)
    requires unvisited <= g.Keys && package in unvisited && Counted(g, indegree, unvisited) && indegree[package] == 0
    ensures package !in g[package]
  {
    assert package !in Predecessors(g, unvisited, package);
  }

  lemma {:induction false} ReadyPop(indegree: map<string, nat>, unvisited: set<string>, ready: seq<string>,
                                    package: string)
    requires Ready(indegree, unvisited, ready + [package])
    ensures Ready(indegree, unvisited - {package}, ready)
  {
    ElementsSnoc(ready, package);
    assert forall i | 0 <= i < |ready| :: (ready + [package])[i] == ready[i] && (ready + [package])[|ready|] == package;
    assert package !in Elements(ready);
  }

  lemma {:induction false} ReadyPush(before: map<string, nat>, after: map<string, nat>, left: set<string>,
                                     queue: seq<string>, ready: seq<string>, target: string)
    requires Ready(before, left, queue) && target in before && before[target] > 0 &&
             after == before[target := before[target] - 1]
    requires ready == if after[target] == 0 then queue + [target] else queue
    requires after[target] == 0 ==> target in left
    ensures Ready(after, left, ready)
  {
    assert target !in Elements(queue);
    assert target !in queue;
    ElementsSnoc(queue, target);
  }

  /** What the popped package guarantees. */
  lemma {:induction false} NextVisit(g: Graph<string>, indegree: map<string, nat>, rank: map<string, int>,
                                     ready: seq<string>)
    requires Closed(g) && Ranked(g, rank) && Counted(g, indegree, g.Keys - rank.Keys) &&
             Ready(indegree, g.Keys - rank.Keys, ready) && ready != []
    ensures var package := ready[|ready| - 1];
            && ready == ready[..|ready| - 1] + [package] && package in g && package !in rank && indegree[package] == 0
            && (forall v | v in g[package] :: v in g.Keys - rank.Keys)
            && Ranked(g, rank[package := -|rank|]) && |rank[package := -|rank|]| == |rank| + 1
            && g.Keys - rank[package := -|rank|].Keys == g.Keys - rank.Keys - {package}
  {
    var package := ready[|ready| - 1];
    SplitLast(ready);
    assert package in Elements(ready);
    RankNext(g, g.Keys - rank.Keys, rank, package);
    RankGrows(rank, package);
    forall v | v in g[package] ensures v in g.Keys - rank.Keys {
      assert package !in rank;
    }
  }

  /** Kahn's algorithm visits every package exactly when there is no cycle. */
  method IsAcyclic(g: Graph<string>) returns (acyclic: bool)
    requires Closed(g)
    ensures acyclic <==> Acyclic(g)
  {
    var indegree := Indegrees(g);
    ghost var rank: map<string, int> := map[];
    assert g.Keys - rank.Keys == g.Keys;
    var ready := InitialReady(indegree);
    var visited := 0;
    while ready != []
      invariant visited == |rank| && Ranked(g, rank)
      invariant Counted(g, indegree, g.Keys - rank.Keys) && Ready(indegree, g.Keys - rank.Keys, ready)
      decreases g.Keys - rank.Keys
    {
      var n := |ready| - 1;
      var package := ready[n];
      NextVisit(g, indegree, rank, ready);
      visited := visited + 1;
      indegree, ready := Visit(g, indegree, ready[..n], g.Keys - rank.Keys, package);
      rank := rank[package := -|rank|];
    }
    acyclic := visited == |g|;
    Finished(g, indegree, rank);
  }

  method InitialReady(indegree: map<string, nat>) returns (ready: seq<string>)
    ensures Ready(indegree, indegree.Keys, ready)
  {
    ready := [];
    var rest := indegree.Keys;
    while rest != {}
      invariant rest <= indegree.Keys && Ready(indegree, indegree.Keys - rest, ready)
      decreases rest
    {
      var package :| package in rest;
      ghost var done := indegree.Keys - rest;
      rest := rest - {package};
      assert indegree.Keys - rest == done + {package};
      if indegree[package] == 0 {
        ghost var before := ready;
        assert package !in Elements(before);
        assert package !in before;
        ready := ready + [package];
        ElementsSnoc(before, package);
      }
    }
    assert indegree.Keys - rest == indegree.Keys;
  }

  lemma {:induction false} Finished(g: Graph<string>, indegree: map<string, nat>, rank: map<string, int>)
    requires Closed(g) && Ranked(g, rank) && Counted(g, indegree, g.Keys - rank.Keys) &&
             Ready(indegree, g.Keys - rank.Keys, [])
    ensures |rank| == |g| <==> Acyclic(g)
  {
    var left := g.Keys - rank.Keys;
    SubsetSize(rank.Keys, g.Keys);
    assert |rank| == |rank.Keys| && |g| == |g.Keys|;
    if rank.Keys == g.Keys {
      RankIsAcyclic(g, rank);
    } else {
      forall v | v in left ensures HasPredecessor(g, left, v) {
        assert v !in Elements<string>([]);
        assert indegree[v] != 0;
        var u :| u in Predecessors(g, left, v);
      }
      assert left != {};
      PredecessorsCycle(g, left);
    }
  }

  /** The import graph is accepted exactly when aliases and digests are consistent
      and the graph is acyclic and fully reachable from the root. */
  method ValidateContractGraph(root: string, imports: seq<Import>) returns (r: Result<(), ContractError>)
    ensures var g := ImportGraph(root, imports);
            r.Ok? <==> AliasesAgree(imports) && DigestsAgree(imports) && Acyclic(g) && AllReachable(g, root)
    ensures r == Err(UnreachablePackage) ==> !AllReachable(ImportGraph(root, imports), root)
    ensures r == Err(ImportCycle) ==> !Acyclic(ImportGraph(root, imports))
  {
    var built := BuildGraph(root, imports);
    if built.Err? {
      return Err(built.error);
    }
    var g := built.value;
    var ok := ValidateGraph(g, root);
    return match ok
      case Ok(_) => Ok(())
      case Err(e) => Err(e);
  }

  method ValidateGraph(g: Graph<string>, root: string) returns (r: Result<(), ContractError>)
    requires Closed(g) && root in g
    ensures r.Ok? <==> Acyclic(g) && AllReachable(g, root)
    ensures r.Err? ==> r.error == UnreachablePackage || r.error == ImportCycle
    ensures r == Err(UnreachablePackage) ==> !AllReachable(g, root)
    ensures r == Err(ImportCycle) ==> !Acyclic(g)
  {
    var reachable := ReachableFrom(g, root);
    if !(g.Keys <= reachable) {
      return Err(UnreachablePackage);
    }
    var acyclic := IsAcyclic(g);
    if !acyclic {
      return Err(ImportCycle);
    }
    return Ok(());
  }
}
