/** The lockfile search and the artifact's reachability-plus-Kahn check decide
    the same property of a package graph. */
module GraphAgreement {
  import opened Wrappers
  import opened Digraph
  import LockGraph
  import ContractGraph

  method CheckBoth(packages: LockGraph.Packages, root: string)
    returns (lock: Result<(), LockGraph.LockError>, contract: Result<(), ContractGraph.ContractError>)
    requires root in packages && forall id, d | id in packages && d in packages[id] :: d in packages
    ensures lock.Ok? <==> contract.Ok?
    ensures lock.Ok? <==> Acyclic(LockGraph.AsGraph(packages)) && AllReachable(LockGraph.AsGraph(packages), root)
  {
    lock := LockGraph.ValidateLockGraph(packages, root);
    contract := ContractGraph.ValidateGraph(LockGraph.AsGraph(packages), root);
  }
}
