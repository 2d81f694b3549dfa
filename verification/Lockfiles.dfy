/** The checks of a whole lockfile, in front of and including its package graph. */
module Lockfiles {
  import opened Wrappers
  import opened Digraph
  import opened LockGraph

  datatype LockedDependency = LockedDependency(alias: string, package: string)

  datatype LockedPackage = LockedPackage(name: string, version: string, source: string, digest: string,
                                         dependencies: seq<LockedDependency>)

  datatype Lockfile = Lockfile(lockVersion: nat, language: string, root: string, packages: seq<LockedPackage>)

  datatype LockfileError =
    | BadVersion | BadLanguage | NoPackages | TableLimits | BadRow | Unordered | Duplicate
    | MissingRoot | MissingDependency | BadGraph(error: LockError)

  const LOCK_VERSION := 1
  const SUPPORTED_LANGUAGE := "0.1.1"
  const MAX_LOCK_PACKAGES := 16_384
  const MAX_LOCK_DEPENDENCIES := 65_536

  function Identity(p: LockedPackage): string {
    p.name + "@" + p.version
  }

  // ----- order -----

  /** The order of strings; that of their UTF-8 bytes is the same. */
  predicate StringLess(a: string, b: string) {
    if b == [] then false
    else if a == [] then true
    else if a[0] == b[0] then StringLess(a[1..], b[1..])
    else a[0] < b[0]
  }

  /** `a` ends or falls below `b` at position `k`, up to which they agree. */
  ghost predicate StringLessAt(a: string, b: string, k: nat) {
    k <= |a| && k < |b| && a[..k] == b[..k] && (k == |a| || a[k] < b[k])
  }

  lemma {:induction false} StringAgreeAtFirst(a: string, b: string, k: nat)
    requires StringLessAt(a, b, k)
    ensures k == 0 || (a != [] && a[0] == b[0])
  {
    if k > 0 {
      assert a[..k][0] == a[0] && b[..k][0] == b[0];
    }
  }

  /** Strings are ordered at their first differing character; a proper prefix comes first. */
  lemma {:induction false} StringLessIff(a: string, b: string)
    ensures StringLess(a, b) <==> exists k :: StringLessAt(a, b, k)
    decreases |a|
  {
    if b != [] && (a == [] || a[0] != b[0]) {
      assert StringLess(a, b) ==> StringLessAt(a, b, 0);
      if k: nat :| StringLessAt(a, b, k) {
        StringAgreeAtFirst(a, b, k);
      }
    } else if b != [] {
      StringLessIff(a[1..], b[1..]);
      if k: nat :| StringLessAt(a[1..], b[1..], k) {
        assert a[..k + 1] == [a[0]] + a[1..][..k] && b[..k + 1] == [b[0]] + b[1..][..k];
        assert StringLessAt(a, b, k + 1);
      }
      if k: nat :| StringLessAt(a, b, k) {
        assert k > 0;
        assert a[1..][..k - 1] == a[..k][1..] && b[1..][..k - 1] == b[..k][1..];
        assert StringLessAt(a[1..], b[1..], k - 1);
      }
    }
  }

  lemma {:induction false} StringTotal(a: string, b: string)
    ensures StringLess(a, b) || a == b || StringLess(b, a)
    ensures !(StringLess(a, b) && StringLess(b, a)) && !StringLess(a, a)
    decreases |a|
  {
    if a != [] {
      StringTotal(a[1..], if b != [] then b[1..] else []);
      if b != [] && a[0] == b[0] {
        assert a == [a[0]] + a[1..] && b == [b[0]] + b[1..];
      }
    }
  }

  lemma {:induction false} StringTransitive(a: string, b: string, c: string)
    requires StringLess(a, b) && StringLess(b, c)
    ensures StringLess(a, c)
    decreases |a|
  {
    if a != [] && a[0] == b[0] == c[0] {
      StringTransitive(a[1..], b[1..], c[1..]);
    }
  }

  predicate KeyLess(p: LockedPackage, q: LockedPackage) {
    if p.name != q.name then StringLess(p.name, q.name)
    else if p.version != q.version then StringLess(p.version, q.version)
    else StringLess(p.source, q.source)
  }

  /** Rows are ordered by the first of name, version and source in which they differ:
      a strict total order on these three. */
  lemma {:induction false} KeyOrder(p: LockedPackage, q: LockedPackage, r: LockedPackage)
    ensures !KeyLess(p, p) && !(KeyLess(p, q) && KeyLess(q, p))
    ensures KeyLess(p, q) || KeyLess(q, p) || (p.name, p.version, p.source) == (q.name, q.version, q.source)
    ensures KeyLess(p, q) && KeyLess(q, r) ==> KeyLess(p, r)
    ensures KeyLess(p, q) <==> || StringLess(p.name, q.name)
                               || (p.name == q.name && StringLess(p.version, q.version))
                               || (p.name == q.name && p.version == q.version && StringLess(p.source, q.source))
  {
    StringTotal(p.name, q.name);
    StringTotal(p.version, q.version);
    StringTotal(p.source, q.source);
    if KeyLess(p, q) && KeyLess(q, r) {
      KeyTransitive(p, q, r);
    }
  }

  lemma {:induction false} KeyTransitive(p: LockedPackage, q: LockedPackage, r: LockedPackage)
    requires KeyLess(p, q) && KeyLess(q, r)
    ensures KeyLess(p, r)
  {
    StringTotal(p.name, q.name);
    StringTotal(p.version, q.version);
    if p.name != q.name && q.name != r.name {
      StringTransitive(p.name, q.name, r.name);
    } else if p.name == q.name == r.name && p.version != q.version && q.version != r.version {
      StringTransitive(p.version, q.version, r.version);
    } else if p.name == q.name == r.name && p.version == q.version == r.version {
      StringTransitive(p.source, q.source, r.source);
    }
  }

  predicate AliasesAscend(dependencies: seq<LockedDependency>) {
    forall i | 0 <= i < |dependencies| - 1 :: StringLess(dependencies[i].alias, dependencies[i + 1].alias)
  }

  // ----- what is accepted -----

  function DependencyCount(packages: seq<LockedPackage>): nat {
    if packages == [] then 0 else DependencyCount(packages[..|packages| - 1]) + |packages[|packages| - 1].dependencies|
  }

  ghost predicate RowsOk(packages: seq<LockedPackage>, formOk: LockedPackage -> bool) {
    && (forall p | p in packages :: formOk(p) && AliasesAscend(p.dependencies))
    && (forall i | 0 <= i < |packages| - 1 :: KeyLess(packages[i], packages[i + 1]))
    && forall i, j | 0 <= i < j < |packages| ::
         Identity(packages[i]) != Identity(packages[j]) && packages[i].source != packages[j].source
  }

  /** Accepted rows stand in the order of their keys, not only neighbours. */
  lemma {:induction false} RowsAscend(packages: seq<LockedPackage>, formOk: LockedPackage -> bool, i: nat, j: nat)
    requires RowsOk(packages, formOk) && i < j < |packages|
    ensures KeyLess(packages[i], packages[j])
    decreases j
  {
    if i + 1 < j {
      RowsAscend(packages, formOk, i, j - 1);
      KeyOrder(packages[i], packages[j - 1], packages[j]);
    }
  }

  /** Versions without an at sign make the identity name one name and version. */
  lemma {:induction false} IdentityInjective(p: LockedPackage, q: LockedPackage)
    requires '@' !in p.version && '@' !in q.version && Identity(p) == Identity(q)
    ensures p.name == q.name && p.version == q.version
  {
    var a, b := Identity(p), Identity(q);
    assert a[|p.name|] == '@' && b[|q.name|] == '@';
    assert forall k | |p.name| < k < |a| :: a[k] == p.version[k - |p.name| - 1];
    assert forall k | |q.name| < k < |b| :: b[k] == q.version[k - |q.name| - 1];
    assert p.name == a[..|p.name|] && q.name == b[..|q.name|];
    assert p.version == a[|p.name| + 1..] && q.version == b[|q.name| + 1..];
  }

  ghost predicate Has(packages: seq<LockedPackage>, identity: string) {
    exists p | p in packages :: Identity(p) == identity
  }

  ghost predicate Resolved(packages: seq<LockedPackage>) {
    forall p, d | p in packages && d in p.dependencies :: Has(packages, d.package)
  }

  function Edges(p: LockedPackage): (r: seq<string>)
    ensures |r| == |p.dependencies| && forall i | 0 <= i < |r| :: r[i] == p.dependencies[i].package
  {
    seq(|p.dependencies|, i requires 0 <= i < |p.dependencies| => p.dependencies[i].package)
  }

  /** The lookup table of the package rows. */
  ghost predicate Indexed(packages: seq<LockedPackage>, table: Packages) {
    && (forall id :: id in table <==> Has(packages, id))
    && forall p | p in packages :: table[Identity(p)] == Edges(p)
  }

  ghost predicate GraphOk(lock: Lockfile) {
    forall table | Indexed(lock.packages, table) :: Acyclic(AsGraph(table)) && AllReachable(AsGraph(table), lock.root)
  }

  /** A lockfile is accepted exactly when its header, limits and rows are in order,
      its root and dependencies resolve, and its graph is acyclic and reachable. */
  method ValidateLockfile(lock: Lockfile, formOk: LockedPackage -> bool) returns (r: Result<(), LockfileError>)
    ensures r.Ok? <==>
            && lock.lockVersion == 1 && lock.language == "0.1.1"
            && 0 < |lock.packages| <= 16_384 && DependencyCount(lock.packages) <= 65_536
            && RowsOk(lock.packages, formOk) && Has(lock.packages, lock.root) && Resolved(lock.packages) &&
               GraphOk(lock)
  {
    if lock.lockVersion != LOCK_VERSION {
      return Err(BadVersion);
    }
    if lock.language != SUPPORTED_LANGUAGE {
      return Err(BadLanguage);
    }
    if lock.packages == [] {
      return Err(NoPackages);
    }
    var total := CountDependencies(lock.packages);
    if |lock.packages| > MAX_LOCK_PACKAGES || total > MAX_LOCK_DEPENDENCIES {
      return Err(TableLimits);
    }
    var table := CheckRows(lock.packages, formOk);
    if table.Err? {
      return Err(table.error);
    }
    if lock.root !in table.value {
      return Err(MissingRoot);
    }
    var resolved := CheckResolved(lock.packages, table.value);
    if !resolved {
      return Err(MissingDependency);
    }
    r := CheckGraph(lock, table.value);
  }

  method CountDependencies(packages: seq<LockedPackage>) returns (total: nat)
    ensures total == DependencyCount(packages)
  {
    total := 0;
    for i := 0 to |packages|
      invariant total == DependencyCount(packages[..i])
    {
      total := total + |packages[i].dependencies|;
      assert packages[..i + 1][..i] == packages[..i];
    }
    assert packages[..|packages|] == packages;
  }

  method CheckAliases(dependencies: seq<LockedDependency>) returns (ok: bool)
    ensures ok <==> AliasesAscend(dependencies)
  {
    for i := 0 to |dependencies|
      invariant forall j | 0 <= j < i - 1 :: StringLess(dependencies[j].alias, dependencies[j + 1].alias)
    {
      if i > 0 && !StringLess(dependencies[i - 1].alias, dependencies[i].alias) {
        return false;
      }
    }
    return true;
  }

  /** The rows passed so far, their table and their sources. */
  ghost predicate Passed(packages: seq<LockedPackage>, n: nat, formOk: LockedPackage -> bool, table: Packages,
                         sources: set<string>)
    requires n <= |packages|
  {
    RowsOk(packages[..n], formOk) && Indexed(packages[..n], table) && Sources(packages[..n], sources)
  }

  ghost predicate Sources(packages: seq<LockedPackage>, sources: set<string>) {
    sources == set p | p in packages :: p.source
  }

  method CheckRows(packages: seq<LockedPackage>, formOk: LockedPackage -> bool)
    returns (r: Result<Packages, LockfileError>)
    ensures r.Ok? <==> RowsOk(packages, formOk)
    ensures r.Ok? ==> Indexed(packages, r.value)
  {
    var table: Packages, sources: set<string> := map[], {};
    for i := 0 to |packages|
      invariant Passed(packages, i, formOk, table, sources)
    {
      var p := packages[i];
      assert p in packages;
      var ascend := CheckAliases(p.dependencies);
      if !formOk(p) || !ascend {
        return Err(BadRow);
      }
      if i > 0 && !KeyLess(packages[i - 1], p) {
        return Err(Unordered);
      }
      if Identity(p) in table || p.source in sources {
        Duplicated(packages, i, formOk, table, sources);
        return Err(Duplicate);
      }
      PassedNext(packages, i, formOk, table, sources);
      table := table[Identity(p) := Edges(p)];
      sources := sources + {p.source};
    }
    assert packages[..|packages|] == packages;
    r := Ok(table);
  }

  lemma {:induction false} Duplicated(packages: seq<LockedPackage>, i: nat, formOk: LockedPackage -> bool,
                                      table: Packages, sources: set<string>)
    requires i < |packages| && Passed(packages, i, formOk, table, sources)
    requires Identity(packages[i]) in table || packages[i].source in sources
    ensures !RowsOk(packages, formOk)
  {
    var p :| p in packages[..i] && (Identity(p) == Identity(packages[i]) || p.source == packages[i].source);
    var j :| 0 <= j < i && packages[j] == p;
  }

  lemma {:induction false} PassedNext(packages: seq<LockedPackage>, i: nat, formOk: LockedPackage -> bool,
                                      table: Packages, sources: set<string>)
    requires i < |packages| && Passed(packages, i, formOk, table, sources)
    requires formOk(packages[i]) && AliasesAscend(packages[i].dependencies) &&
             (i > 0 ==> KeyLess(packages[i - 1], packages[i]))
    requires Identity(packages[i]) !in table && packages[i].source !in sources
    ensures Passed(packages, i + 1, formOk, table[Identity(packages[i]) := Edges(packages[i])],
                   sources + {packages[i].source})
  {
    var front, p, more := packages[..i], packages[i], packages[..i + 1];
    assert more == front + [p];
    forall q | q in front ensures Identity(q) != Identity(p) && q.source != p.source {
      assert Has(front, Identity(q));
    }
    RowsNext(front, p, formOk);
    IndexNext(front, p, table);
    SourcesNext(front, p, sources);
  }

  lemma {:induction false} SourcesNext(front: seq<LockedPackage>, p: LockedPackage, sources: set<string>)
    requires Sources(front, sources)
    ensures Sources(front + [p], sources + {p.source})
  {
    assert forall q :: q in front + [p] <==> q in front || q == p;
  }

  lemma {:induction false} RowsNext(front: seq<LockedPackage>, p: LockedPackage, formOk: LockedPackage -> bool)
    requires RowsOk(front, formOk) && formOk(p) && AliasesAscend(p.dependencies) &&
             (front != [] ==> KeyLess(front[|front| - 1], p))
    requires forall q | q in front :: Identity(q) != Identity(p) && q.source != p.source
    ensures RowsOk(front + [p], formOk)
  {
    var more := front + [p];
    forall i, j | 0 <= i < j < |more| ensures Identity(more[i]) != Identity(more[j]) &&
        more[i].source != more[j].source {
      if j == |front| { assert front[i] in front; }
    }
  }

  lemma {:induction false} IndexNext(front: seq<LockedPackage>, p: LockedPackage, table: Packages)
    requires Indexed(front, table) && Identity(p) !in table
    ensures Indexed(front + [p], table[Identity(p) := Edges(p)])
  {
    var more, next := front + [p], table[Identity(p) := Edges(p)];
    assert forall q :: q in more <==> q in front || q == p;
    forall id ensures id in next <==> Has(more, id) {
      if Has(front, id) {
        var q :| q in front && Identity(q) == id;
        assert q in more;
      }
      assert id == Identity(p) ==> p in more;
    }
    forall q | q in more ensures next[Identity(q)] == Edges(q) {
      assert q != p ==> Has(front, Identity(q));
    }
  }

  method CheckResolved(packages: seq<LockedPackage>, table: Packages) returns (ok: bool)
    requires Indexed(packages, table)
    ensures ok <==> Resolved(packages)
  {
    for i := 0 to |packages|
      invariant forall j, d | 0 <= j < i && d in packages[j].dependencies :: Has(packages, d.package)
    {
      var dependencies := packages[i].dependencies;
      for k := 0 to |dependencies|
        invariant forall m | 0 <= m < k :: Has(packages, dependencies[m].package)
      {
        if dependencies[k].package !in table {
          assert packages[i] in packages && dependencies[k] in packages[i].dependencies;
          return false;
        }
      }
    }
    return true;
  }

  method CheckGraph(lock: Lockfile, table: Packages) returns (r: Result<(), LockfileError>)
    requires Indexed(lock.packages, table) && lock.root in table && Resolved(lock.packages)
    ensures r.Ok? <==> GraphOk(lock)
  {
    forall id, d | id in table && d in table[id] ensures d in table {
      var p :| p in lock.packages && Identity(p) == id;
      var k :| 0 <= k < |Edges(p)| && Edges(p)[k] == d;
      assert p.dependencies[k] in p.dependencies;
    }
    forall other | Indexed(lock.packages, other) ensures other == table {
      SameIndex(lock.packages, table, other);
    }
    var graph := ValidateLockGraph(table, lock.root);
    r := if graph.Err? then Err(BadGraph(graph.error)) else Ok(());
  }

  lemma {:induction false} SameIndex(packages: seq<LockedPackage>, a: Packages, b: Packages)
    requires Indexed(packages, a) && Indexed(packages, b)
    ensures a == b
  {
    forall id | id in a ensures id in b && a[id] == b[id] {
      var p :| p in packages && Identity(p) == id;
    }
    forall id | id in b ensures id in a {
      assert Has(packages, id);
    }
  }
}
