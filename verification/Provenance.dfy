/** Entry-boundary provenance: which record of a schema carries which nominal
    invariant, as computed by the compiler and checked by the artifact loader. */
module Provenance {
  import opened Wrappers
  import opened Collections
  import opened ValueTypes
  import opened TextOrder
  import opened RecordPaths
  import opened RecordPathLaws
  import opened PathCollection
  import opened EntryContracts
  import ContractDigest

  datatype RecordProvenance = RecordProvenance(path: Path, identity: Option<Text>)

  datatype SiteError =
    | BadPaths(error: PathError) | InvariantOutOfRange | IncompleteProvenance | InvalidIdentity
    | UnsortedSites | SitesDiffer | BadTarget | BadDigest

  /** The check on adjacent pairs. */
  predicate SortedDefinitions(definitions: seq<InvariantDefinition>) {
    forall i | 0 <= i < |definitions| - 1 :: TextLess(definitions[i].identity, definitions[i + 1].identity)
  }

  lemma {:induction false} SortedPairs(definitions: seq<InvariantDefinition>, i: nat, j: nat)
    requires SortedDefinitions(definitions) && i < j < |definitions|
    ensures TextLess(definitions[i].identity, definitions[j].identity)
  {
    assert Identities(definitions)[i] == definitions[i].identity &&
           Identities(definitions)[j] == definitions[j].identity;
    SortedTextPairs(Identities(definitions), i, j);
  }

  function Identities(definitions: seq<InvariantDefinition>): (r: seq<Text>)
    ensures |r| == |definitions| && forall i | 0 <= i < |r| :: r[i] == definitions[i].identity
  {
    seq(|definitions|, i requires 0 <= i < |definitions| => definitions[i].identity)
  }

  ghost predicate Names(definitions: seq<InvariantDefinition>, identity: Text, i: nat) {
    i < |definitions| && definitions[i].identity == identity
  }

  /** The position of an identity in the sorted table. */
  method SearchIdentity(definitions: seq<InvariantDefinition>, identity: Text) returns (r: Option<nat>)
    requires SortedDefinitions(definitions)
    ensures r.Some? ==> Names(definitions, identity, r.value)
    ensures r.None? ==> forall i: nat :: !Names(definitions, identity, i)
  {
    r := Search(Identities(definitions), identity);
    forall i: nat | r.None? ensures !Names(definitions, identity, i) {
      if i < |definitions| {
        assert Identities(definitions)[i] == definitions[i].identity;
      }
    }
  }

  lemma {:induction false} UniqueName(definitions: seq<InvariantDefinition>, identity: Text, i: nat, j: nat)
    requires SortedDefinitions(definitions) && Names(definitions, identity, i) && Names(definitions, identity, j)
    ensures i == j
  {
    if i < j {
      SortedPairs(definitions, i, j);
      TextIrreflexive(identity);
    } else if j < i {
      SortedPairs(definitions, j, i);
      TextIrreflexive(identity);
    }
  }

  // ----- computing provenance -----

  function SiteAt(sites: seq<Site>, path: Path): (r: Option<Site>)
    ensures r.Some? ==> r.value in sites && r.value.path == path
    ensures r.None? ==> forall s | s in sites :: s.path != path
  {
    if sites == [] then None
    else if sites[0].path == path then Some(sites[0])
    else SiteAt(sites[1..], path)
  }

  lemma {:induction false} FirstSite(sites: seq<Site>, i: nat, path: Path)
    requires i < |sites| && sites[i].path == path && forall j | 0 <= j < i :: sites[j].path != path
    ensures SiteAt(sites, path) == Some(sites[i])
  {
    if i > 0 {
      assert sites[0].path != path;
      assert forall j | 0 <= j < i - 1 :: sites[1..][j] == sites[j + 1];
      FirstSite(sites[1..], i - 1, path);
    }
  }

  method RecordPathsOf(schema: ValueType, enums: seq<EnumDefinition>) returns (r: Result<seq<Path>, PathError>)
    ensures r == Collected(schema, enums, {})
    ensures r.Ok? <==> Collectable(schema, enums, {})
    ensures r.Ok? ==> RecordsOf(schema, enums, r.value)
  {
    CollectsIff(schema, enums, {});
    var collector := new PathCollector(enums);
    var collected := collector.Collect(schema);
    if collected.Err? {
      return Err(collected.error);
    }
    ghost var found := Collected(schema, enums, {}).value;
    assert Under([], found) == found by {
      assert forall i | 0 <= i < |found| :: [] + found[i] == found[i];
    }
    assert [] + found == found;
    FoundAre(schema, enums);
    return Ok(collector.paths);
  }

  method ComputeProvenance(schema: ValueType, enums: seq<EnumDefinition>, sites: seq<Site>,
                           definitions: seq<InvariantDefinition>)
    returns (r: Result<seq<RecordProvenance>, SiteError>)
    ensures r.Ok? <==>
            Collected(schema, enums, {}).Ok? && forall p | p in Collected(schema, enums, {}).value ::
                  SiteInRange(sites, p, definitions)
    ensures r.Ok? ==> Labels(r.value, Collected(schema, enums, {}).value, sites, definitions)
    // one row for every record of the schema
    ensures r.Ok? ==> RecordsOf(schema, enums, PathsOf(r.value))
  {
    var collected := RecordPathsOf(schema, enums);
    if collected.Err? {
      return Err(BadPaths(collected.error));
    }
    var paths := collected.value;
    var out: seq<RecordProvenance> := [];
    for i := 0 to |paths|
      invariant |out| == i && forall j | 0 <= j < i :: Labelled(out[j], paths[j], sites, definitions)
      invariant forall j | 0 <= j < i :: SiteInRange(sites, paths[j], definitions)
    {
      var site := SiteAt(sites, paths[i]);
      assert paths[i] in paths;
      if site.None? {
        out := out + [RecordProvenance(paths[i], None)];
      } else if site.value.definition < |definitions| {
        out := out + [RecordProvenance(paths[i], Some(definitions[site.value.definition].identity))];
      } else {
        return Err(InvariantOutOfRange);
      }
    }
    assert PathsOf(out) == paths;
    return Ok(out);
  }

  /** The first site at the path, if there is one, names a definition. */
  predicate SiteInRange(sites: seq<Site>, path: Path, definitions: seq<InvariantDefinition>) {
    SiteAt(sites, path).Some? ==> SiteAt(sites, path).value.definition < |definitions|
  }

  ghost predicate Labelled(record: RecordProvenance, path: Path, sites: seq<Site>,
                           definitions: seq<InvariantDefinition>) {
    && record.path == path
    && var site := SiteAt(sites, path);
       if site.None? then record.identity == None
       else
         && site.value.definition < |definitions|
         && record.identity == Some(definitions[site.value.definition].identity)
  }

  ghost predicate Labels(provenance: seq<RecordProvenance>, paths: seq<Path>, sites: seq<Site>,
                         definitions: seq<InvariantDefinition>) {
    |provenance| == |paths| && forall i | 0 <= i < |paths| :: Labelled(provenance[i], paths[i], sites, definitions)
  }

  // ----- validating provenance -----

  /** The sites that provenance demands: each record whose identity is defined. */
  ghost predicate Required(provenance: seq<RecordProvenance>, definitions: seq<InvariantDefinition>, sites: seq<Site>)
    decreases |provenance|
  {
    if provenance == [] then sites == []
    else
      var last, rest := provenance[|provenance| - 1], provenance[..|provenance| - 1];
      if last.identity.Some? && exists i: nat :: Names(definitions, last.identity.value, i) then
        && sites != [] && sites[|sites| - 1].path == last.path &&
           Names(definitions, last.identity.value, sites[|sites| - 1].definition)
        && Required(rest, definitions, sites[..|sites| - 1])
      else Required(rest, definitions, sites)
  }

  predicate SiteLess(a: Site, b: Site) {
    PathLess(a.path, b.path) || (a.path == b.path && a.definition < b.definition)
  }

  predicate SortedSites(sites: seq<Site>) {
    forall i | 0 <= i < |sites| - 1 :: SiteLess(sites[i], sites[i + 1])
  }

  lemma {:induction false} PathTransitive(a: Path, b: Path, c: Path)
    requires PathLess(a, b) && PathLess(b, c)
    ensures PathLess(a, c)
    decreases |a|
  {
    if a != [] && a[0] == b[0] == c[0] {
      PathTransitive(a[1..], b[1..], c[1..]);
    }
  }

  ghost predicate SitesAscend(sites: seq<Site>) {
    forall i, j | 0 <= i < j < |sites| :: SiteBefore(sites[i], sites[j])
  }

  /** By path and, at one path, by invariant. */
  ghost predicate SiteBefore(a: Site, b: Site) {
    PathLess(a.path, b.path) || (a.path == b.path && a.definition < b.definition)
  }

  lemma {:induction false} SortedSitesIff(sites: seq<Site>)
    ensures SortedSites(sites) <==> SitesAscend(sites)
  {
    if SortedSites(sites) {
      forall i, j | 0 <= i < j < |sites| ensures SiteBefore(sites[i], sites[j]) {
        SitesIncrease(sites, i, j);
      }
    }
    if SitesAscend(sites) {
      forall i | 0 <= i < |sites| - 1 ensures SiteLess(sites[i], sites[i + 1]) {
        assert SiteBefore(sites[i], sites[i + 1]);
      }
    }
  }

  /** Sorted sites increase pairwise, not only next to each other. */
  lemma {:induction false} SitesIncrease(sites: seq<Site>, i: nat, j: nat)
    requires SortedSites(sites) && i < j < |sites|
    ensures SiteBefore(sites[i], sites[j])
    decreases j
  {
    if i + 1 < j {
      SitesIncrease(sites, i, j - 1);
      assert SiteLess(sites[j - 1], sites[j - 1 + 1]);
      var a, b, c := sites[i].path, sites[j - 1].path, sites[j].path;
      if PathLess(a, b) && PathLess(b, c) {
        PathTransitive(a, b, c);
      }
    }
  }

  ghost predicate Targets(schema: ValueType, enums: seq<EnumDefinition>, definitions: seq<InvariantDefinition>,
                          site: Site) {
    site.definition < |definitions| &&
    LiesAt(schema, site.path, RecordType(definitions[site.definition].fields), enums)
  }

  /** What the loader accepts. */
  ghost predicate Acceptable(sites: seq<Site>, provenance: seq<RecordProvenance>, schema: ValueType,
                             enums: seq<EnumDefinition>,
                             definitions: seq<InvariantDefinition>, wellFormed: Text -> bool) {
    && Collected(schema, enums, {}).Ok?
    && PathsOf(provenance) == Collected(schema, enums, {}).value
    && (forall r | r in provenance && r.identity.Some? :: wellFormed(r.identity.value))
    && SitesAscend(sites) && Required(provenance, definitions, sites)
    && forall s | s in sites :: Targets(schema, enums, definitions, s)
  }

  function PathsOf(provenance: seq<RecordProvenance>): (r: seq<Path>)
    ensures |r| == |provenance| && forall i | 0 <= i < |provenance| :: r[i] == provenance[i].path
  {
    seq(|provenance|, i requires 0 <= i < |provenance| => provenance[i].path)
  }

  method RequiredSites(provenance: seq<RecordProvenance>, definitions: seq<InvariantDefinition>,
                       wellFormed: Text -> bool) returns (r: Result<seq<Site>, SiteError>)
    requires SortedDefinitions(definitions) && |definitions| <= 0x1_0000_0000
    ensures r.Ok? <==> forall p | p in provenance && p.identity.Some? :: wellFormed(p.identity.value)
    ensures r.Ok? ==> Required(provenance, definitions, r.value)
  {
    var sites: seq<Site> := [];
    for n := 0 to |provenance|
      invariant Required(provenance[..n], definitions, sites)
      invariant forall p | p in provenance[..n] && p.identity.Some? :: wellFormed(p.identity.value)
    {
      var record := provenance[n];
      assert provenance[..n + 1] == provenance[..n] + [record];
      assert provenance[..n + 1][..n] == provenance[..n];
      if record.identity.Some? {
        if !wellFormed(record.identity.value) {
          assert record in provenance;
          return Err(InvalidIdentity);
        }
        var found := SearchIdentity(definitions, record.identity.value);
        if found.Some? {
          ghost var before := sites;
          sites := sites + [Site(record.path, found.value)];
          assert sites[..|sites| - 1] == before;
        }
      }
    }
    assert provenance[..|provenance|] == provenance;
    return Ok(sites);
  }

  /** Two lists that satisfy the demand are the same. */
  lemma {:induction false} RequiredUnique(provenance: seq<RecordProvenance>, definitions: seq<InvariantDefinition>,
                                          a: seq<Site>, b: seq<Site>)
    requires SortedDefinitions(definitions) && Required(provenance, definitions, a) &&
             Required(provenance, definitions, b)
    ensures a == b
    decreases |provenance|
  {
    if provenance != [] {
      var last, rest := provenance[|provenance| - 1], provenance[..|provenance| - 1];
      if last.identity.Some? && exists i: nat :: Names(definitions, last.identity.value, i) {
        UniqueName(definitions, last.identity.value, a[|a| - 1].definition, b[|b| - 1].definition);
        RequiredUnique(rest, definitions, a[..|a| - 1], b[..|b| - 1]);
        SplitLast(a);
        SplitLast(b);
      } else {
        RequiredUnique(rest, definitions, a, b);
      }
    }
  }

  /** What the loader accepts, the digest included. */
  ghost predicate Accepted<D>(sites: seq<Site>, provenance: seq<RecordProvenance>, schema: ValueType,
                              enums: seq<EnumDefinition>,
                              definitions: seq<InvariantDefinition>, wellFormed: Text -> bool, digest: D,
                                  hash: seq<byte> -> D)
    requires ContractDigest.ContractFits(schema, sites, definitions)
  {
    && Acceptable(sites, provenance, schema, enums, definitions, wellFormed)
    && digest == hash(ContractDigest.Preimage(schema, sites, definitions))
  }

  method ValidateSites<D(==)>(sites: seq<Site>, provenance: seq<RecordProvenance>, schema: ValueType,
                              enums: seq<EnumDefinition>,
                              definitions: seq<InvariantDefinition>, wellFormed: Text -> bool, digest: D,
                                  hash: seq<byte> -> D)
    returns (r: Result<(), SiteError>)
    requires SortedDefinitions(definitions) && |definitions| <= 0x1_0000_0000
    requires ContractDigest.ContractFits(schema, sites, definitions)
    ensures r.Ok? <==> Accepted(sites, provenance, schema, enums, definitions, wellFormed, digest, hash)
  {
    r := CheckSites(sites, provenance, schema, enums, definitions, wellFormed);
    if r.Err? {
      return;
    }
    var preimage := ContractDigest.BuildPreimage(schema, sites, definitions);
    if digest != hash(preimage) {
      return Err(BadDigest);
    }
  }

  method CheckPaths(provenance: seq<RecordProvenance>, schema: ValueType, enums: seq<EnumDefinition>)
    returns (r: Result<(), SiteError>)
    ensures r.Ok? <==> Collected(schema, enums, {}).Ok? && PathsOf(provenance) == Collected(schema, enums, {}).value
  {
    var collected := RecordPathsOf(schema, enums);
    if collected.Err? {
      return Err(BadPaths(collected.error));
    }
    if PathsOf(provenance) != collected.value {
      return Err(IncompleteProvenance);
    }
    return Ok(());
  }

  /** Everything but the digest. */
  method CheckSites(sites: seq<Site>, provenance: seq<RecordProvenance>, schema: ValueType, enums: seq<EnumDefinition>,
                    definitions: seq<InvariantDefinition>, wellFormed: Text -> bool)
    returns (r: Result<(), SiteError>)
    requires SortedDefinitions(definitions) && |definitions| <= 0x1_0000_0000
    ensures r.Ok? <==> Acceptable(sites, provenance, schema, enums, definitions, wellFormed)
  {
    r := CheckPaths(provenance, schema, enums);
    if r.Err? {
      return;
    }
    var required := RequiredSites(provenance, definitions, wellFormed);
    if required.Err? {
      return Err(required.error);
    }
    SortedSitesIff(sites);
    if !SortedSites(sites) {
      return Err(UnsortedSites);
    }
    if sites != required.value {
      if Required(provenance, definitions, sites) {
        RequiredUnique(provenance, definitions, sites, required.value);
      }
      return Err(SitesDiffer);
    }
    var targets := CheckTargets(sites, schema, enums, definitions);
    if targets.Err? {
      return targets;
    }
    return Ok(());
  }

  method CheckTargets(sites: seq<Site>, schema: ValueType, enums: seq<EnumDefinition>,
                      definitions: seq<InvariantDefinition>) returns (r: Result<(), SiteError>)
    ensures r.Ok? <==> forall s | s in sites :: Targets(schema, enums, definitions, s)
  {
    for i := 0 to |sites|
      invariant forall j | 0 <= j < i :: Targets(schema, enums, definitions, sites[j])
    {
      assert sites[i] in sites;
      if sites[i].definition >= |definitions| {
        return Err(InvariantOutOfRange);
      }
      var target := ValidatorPathType(schema, sites[i].path, enums);
      if target != Some(RecordType(definitions[sites[i].definition].fields)) {
        return Err(BadTarget);
      }
    }
    return Ok(());
  }

  // ----- computed provenance is accepted -----

  lemma {:induction false} PathAsymmetric(a: Path, b: Path)
    ensures !(PathLess(a, b) && PathLess(b, a))
    decreases |a|
  {
    if a != [] && b != [] && a[0] == b[0] {
      PathAsymmetric(a[1..], b[1..]);
    }
  }

  /** Among the good paths of the list, earlier ones are less. */
  ghost predicate GoodAscend(paths: seq<Path>, good: Path -> bool) {
    forall i, j | 0 <= i < j < |paths| && good(paths[i]) && good(paths[j]) :: PathLess(paths[i], paths[j])
  }

  ghost predicate AscendingSites(sites: seq<Site>) {
    forall i, j | 0 <= i < j < |sites| :: PathLess(sites[i].path, sites[j].path)
  }

  /** The sites whose path is among the first `n` are the first `m`. */
  ghost predicate Covers(paths: seq<Path>, n: nat, sites: seq<Site>, m: nat)
    requires n <= |paths| && m <= |sites|
  {
    && (forall i | 0 <= i < m :: sites[i].path in paths[..n])
    && forall i | m <= i < |sites| :: sites[i].path !in paths[..n]
  }

  lemma {:induction false} LastSite(paths: seq<Path>, n: nat, sites: seq<Site>, m: nat, j: nat, good: Path -> bool)
    requires 0 < n <= |paths| && m <= |sites| && AscendingSites(sites) && Covers(paths, n, sites, m)
    requires GoodAscend(paths, good) && forall i | 0 <= i < |sites| :: good(sites[i].path)
    requires j < |sites| && sites[j].path == paths[n - 1]
    ensures j == m - 1 && Covers(paths, n - 1, sites, m - 1)
  {
    assert paths[n - 1] in paths[..n];
    assert paths[..n] == paths[..n - 1] + [paths[n - 1]];
    if j < m - 1 {
      var k :| 0 <= k < n && paths[k] == sites[m - 1].path;
      PathAsymmetric(sites[j].path, sites[m - 1].path);
    }
    forall i | 0 <= i < m - 1 ensures sites[i].path in paths[..n - 1] {
      PathAsymmetric(sites[i].path, sites[m - 1].path);
    }
    forall i | m - 1 <= i < |sites| ensures sites[i].path !in paths[..n - 1] {
      if i == m - 1 && sites[i].path in paths[..n - 1] {
        var k :| 0 <= k < n - 1 && paths[k] == paths[n - 1];
        PathAsymmetric(paths[k], paths[n - 1]);
      }
    }
  }

  lemma {:induction false} NoneCovered(paths: seq<Path>, sites: seq<Site>, m: nat)
    requires m <= |sites| && Covers(paths, 0, sites, m)
    ensures m == 0
  {
    var first := if sites == [] then None else Some(sites[0].path);
    if m > 0 {
      assert false;
    }
  }

  lemma {:induction false} RequiredHolds(provenance: seq<RecordProvenance>, paths: seq<Path>, n: nat,
                                         definitions: seq<InvariantDefinition>, sites: seq<Site>, m: nat,
                                             good: Path -> bool)
    requires Labels(provenance, paths, sites, definitions) && n <= |paths| && m <= |sites|
    requires GoodAscend(paths, good) && forall i | 0 <= i < |sites| :: good(sites[i].path)
    requires AscendingSites(sites) && Covers(paths, n, sites, m)
    ensures Required(provenance[..n], definitions, sites[..m])
    decreases n
  {
    if n == 0 {
      NoneCovered(paths, sites, m);
    } else {
      var path := paths[n - 1];
      LabelAt(provenance, paths, n - 1, sites, definitions);
      var site := SiteAt(sites, path);
      if site.None? {
        NotLast(paths, n, sites, m);
        RequiredHolds(provenance, paths, n - 1, definitions, sites, m, good);
        RequiredSkips(provenance, n, definitions, sites[..m]);
      } else {
        var j :| 0 <= j < |sites| && sites[j] == site.value;
        LastSite(paths, n, sites, m, j, good);
        LabelNames(provenance[n - 1], path, sites, definitions);
        RequiredHolds(provenance, paths, n - 1, definitions, sites, m - 1, good);
        RequiredTakes(provenance, n, definitions, sites, m);
      }
    }
  }

  lemma {:induction false} LabelAt(provenance: seq<RecordProvenance>, paths: seq<Path>, i: nat, sites: seq<Site>,
                                   definitions: seq<InvariantDefinition>)
    requires Labels(provenance, paths, sites, definitions) && i < |paths|
    ensures i < |provenance| && Labelled(provenance[i], paths[i], sites, definitions)
    ensures SiteAt(sites, paths[i]).None? ==> provenance[i].identity.None?
  {
  }

  lemma {:induction false} LabelNames(record: RecordProvenance, path: Path, sites: seq<Site>,
                                      definitions: seq<InvariantDefinition>)
    requires Labelled(record, path, sites, definitions) && SiteAt(sites, path).Some?
    ensures record.path == path && record.identity.Some?
    ensures Names(definitions, record.identity.value, SiteAt(sites, path).value.definition)
  {
  }

  lemma {:induction false} NotLast(paths: seq<Path>, n: nat, sites: seq<Site>, m: nat)
    requires 0 < n <= |paths| && m <= |sites| && Covers(paths, n, sites, m) &&
             forall s | s in sites :: s.path != paths[n - 1]
    ensures Covers(paths, n - 1, sites, m)
  {
    assert paths[..n] == paths[..n - 1] + [paths[n - 1]];
    forall i | 0 <= i < m ensures sites[i].path in paths[..n - 1] {
      assert sites[i] in sites;
    }
  }

  lemma {:induction false} RequiredSkips(provenance: seq<RecordProvenance>, n: nat,
                                         definitions: seq<InvariantDefinition>, sites: seq<Site>)
    requires 0 < n <= |provenance| && provenance[n - 1].identity.None? &&
             Required(provenance[..n - 1], definitions, sites)
    ensures Required(provenance[..n], definitions, sites)
  {
    assert provenance[..n][..n - 1] == provenance[..n - 1];
  }

  lemma {:induction false} RequiredTakes(provenance: seq<RecordProvenance>, n: nat,
                                         definitions: seq<InvariantDefinition>, sites: seq<Site>, m: nat)
    requires 0 < n <= |provenance| && 0 < m <= |sites| && Required(provenance[..n - 1], definitions, sites[..m - 1])
    requires provenance[n - 1].identity.Some? && provenance[n - 1].path == sites[m - 1].path
    requires Names(definitions, provenance[n - 1].identity.value, sites[m - 1].definition)
    ensures Required(provenance[..n], definitions, sites[..m])
  {
    assert provenance[..n][..n - 1] == provenance[..n - 1];
    assert sites[..m][..m - 1] == sites[..m - 1];
  }

  lemma {:induction false} TargetIsFound(schema: ValueType, enums: seq<EnumDefinition>,
                                         definitions: seq<InvariantDefinition>, site: Site)
    requires Collected(schema, enums, {}).Ok? && Targets(schema, enums, definitions, site)
    ensures RecordAt(schema, site.path, enums) && site.path in Collected(schema, enums, {}).value
  {
    ResolvingIsEmitted(schema, enums, {}, site.path);
  }

  lemma {:induction false} IdentitiesFormed(provenance: seq<RecordProvenance>, paths: seq<Path>, sites: seq<Site>,
                                            definitions: seq<InvariantDefinition>, wellFormed: Text -> bool)
    requires Labels(provenance, paths, sites, definitions) && forall d | d in definitions :: wellFormed(d.identity)
    ensures forall r | r in provenance && r.identity.Some? :: wellFormed(r.identity.value)
  {
    forall r | r in provenance && r.identity.Some? ensures wellFormed(r.identity.value) {
      var i :| 0 <= i < |provenance| && provenance[i] == r;
      assert Labelled(provenance[i], paths[i], sites, definitions);
    }
  }

  /** Provenance computed from sites that increase by path and resolve to their
      invariant's fields is what the loader accepts, whatever the schema. */
  lemma {:induction false} ComputedIsAcceptable(provenance: seq<RecordProvenance>, sites: seq<Site>, schema: ValueType,
                                                enums: seq<EnumDefinition>, definitions: seq<InvariantDefinition>,
                                                wellFormed: Text -> bool)
    requires Collected(schema, enums, {}).Ok?
    requires Labels(provenance, Collected(schema, enums, {}).value, sites, definitions)
    requires forall d | d in definitions :: wellFormed(d.identity)
    requires AscendingSites(sites) && forall s | s in sites :: Targets(schema, enums, definitions, s)
    ensures Acceptable(sites, provenance, schema, enums, definitions, wellFormed)
  {
    var paths := Collected(schema, enums, {}).value;
    assert PathsOf(provenance) == paths;
    IdentitiesFormed(provenance, paths, sites, definitions, wellFormed);
    var good := p => RecordAt(schema, p, enums);
    forall i | 0 <= i < |sites| ensures sites[i].path in paths[..|paths|] && good(sites[i].path) {
      TargetIsFound(schema, enums, definitions, sites[i]);
    }
    ResolvingPathsAscend(schema, enums, {});
    assert GoodAscend(paths, good);
    RequiredHolds(provenance, paths, |paths|, definitions, sites, |sites|, good);
    assert provenance[..|provenance|] == provenance && sites[..|sites|] == sites;
  }

  lemma {:induction false} TargetInRange(schema: ValueType, enums: seq<EnumDefinition>, sites: seq<Site>,
                                         definitions: seq<InvariantDefinition>, path: Path)
    requires forall s | s in sites :: Targets(schema, enums, definitions, s)
    ensures SiteInRange(sites, path, definitions)
  {
    if SiteAt(sites, path).Some? {
      assert Targets(schema, enums, definitions, SiteAt(sites, path).value);
    }
  }

  /** Computing an entry's provenance and digest and then loading them succeeds. */
  method BuildEntryContract<D(==)>(schema: ValueType, enums: seq<EnumDefinition>, sites: seq<Site>,
                                   definitions: seq<InvariantDefinition>, wellFormed: Text -> bool,
                                       hash: seq<byte> -> D)
    returns (provenance: Result<seq<RecordProvenance>, SiteError>, digest: D, accepted: Result<(), SiteError>)
    requires SortedDefinitions(definitions) && |definitions| <= 0x1_0000_0000
    requires ContractDigest.ContractFits(schema, sites, definitions)
    requires Collected(schema, enums, {}).Ok? && forall d | d in definitions :: wellFormed(d.identity)
    requires AscendingSites(sites) && forall s | s in sites :: Targets(schema, enums, definitions, s)
    ensures provenance.Ok? && accepted.Ok?
    ensures Accepted(sites, provenance.value, schema, enums, definitions, wellFormed, digest, hash)
  {
    forall p ensures SiteInRange(sites, p, definitions) {
      TargetInRange(schema, enums, sites, definitions, p);
    }
    provenance := ComputeProvenance(schema, enums, sites, definitions);
    var preimage := ContractDigest.BuildPreimage(schema, sites, definitions);
    digest := hash(preimage);
    ComputedIsAcceptable(provenance.value, sites, schema, enums, definitions, wellFormed);
    accepted := ValidateSites(sites, provenance.value, schema, enums, definitions, wellFormed, digest, hash);
  }

  /** A collision-free digest identifies the contract: two accepted contracts with
      one digest have the same schema and the same invariant at each site, even in
      artifacts with different invariant and enum tables. */
  lemma {:induction false} DigestIdentifies<D(!new)>(
    a: seq<Site>, p: seq<RecordProvenance>, t: ValueType, f: seq<EnumDefinition>, ds: seq<InvariantDefinition>,
    b: seq<Site>, q: seq<RecordProvenance>, u: ValueType, g: seq<EnumDefinition>, es: seq<InvariantDefinition>,
    wellFormed: Text -> bool, digest: D, hash: seq<byte> -> D)
    requires forall x, y | hash(x) == hash(y) :: x == y
    requires ContractDigest.ContractFits(t, a, ds) && Accepted(a, p, t, f, ds, wellFormed, digest, hash)
    requires ContractDigest.ContractFits(u, b, es) && Accepted(b, q, u, g, es, wellFormed, digest, hash)
    ensures t == u && |a| == |b| && forall i | 0 <= i < |a| :: ContractDigest.SameClause(a[i], ds, b[i], es)
  {
    forall i | 0 <= i < |a| ensures a[i].definition < |ds| {
      assert Targets(t, f, ds, a[i]);
    }
    forall i | 0 <= i < |b| ensures b[i].definition < |es| {
      assert Targets(u, g, es, b[i]);
    }
    ContractDigest.PreimageDecodes(t, a, ds, u, b, es);
  }
}
