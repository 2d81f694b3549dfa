/** The bytes hashed into an entry contract's digest: a schema type, and for every
    validator site its path and the whole invariant it names. */
module ContractDigest {
  import opened ValueTypes
  import opened Validators
  import opened RecordPaths
  import opened EntryContracts
  import opened TypeCodec

  // ----- paths -----

  function PutSegment(s: Segment): (r: seq<byte>)
    requires SegmentFits(s)
    ensures r != [] && r[0] == Ordinal(s)
  {
    match s
    case Field(index) => [0] + LittleEndian(index, 4)
    case ListElement => [1]
    case MapKey => [2]
    case MapValue => [3]
    case TupleElement(index) => [4] + LittleEndian(index, 4)
    case OptionSome => [5]
    case ResultOk => [6]
    case ResultError => [7]
    case EnumPayload(variant, element) => [8] + (LittleEndian(variant, 4) + LittleEndian(element, 4))
    case NewtypeValue => [9]
  }

  predicate PathFits(path: Path) {
    forall i | 0 <= i < |path| :: SegmentFits(path[i])
  }

  function PutPath(path: Path): seq<byte>
    requires PathFits(path)
  {
    if path == [] then [] else PutSegment(path[0]) + PutPath(path[1..])
  }

  lemma {:induction false} SegmentPrefixFree(a: Segment, r: seq<byte>, b: Segment, s: seq<byte>)
    requires SegmentFits(a) && SegmentFits(b) && PutSegment(a) + r == PutSegment(b) + s
    ensures a == b && r == s
  {
    Capacities();
    assert (PutSegment(a) + r)[0] == Ordinal(a) && (PutSegment(b) + s)[0] == Ordinal(b);
    match a
    case Field(i) =>
      TagPrefixFree(0, LittleEndian(i, 4), r, 0, LittleEndian(b.index, 4), s);
      NumberPrefixFree(i, b.index, 4, r, s);
    case TupleElement(i) =>
      TagPrefixFree(4, LittleEndian(i, 4), r, 4, LittleEndian(b.index, 4), s);
      NumberPrefixFree(i, b.index, 4, r, s);
    case EnumPayload(v, e) =>
      var w, f := LittleEndian(b.variant, 4), LittleEndian(b.element, 4);
      TagPrefixFree(8, LittleEndian(v, 4) + LittleEndian(e, 4), r, 8, w + f, s);
      Assoc(LittleEndian(v, 4), LittleEndian(e, 4), r);
      Assoc(w, f, s);
      NumberPrefixFree(v, b.variant, 4, LittleEndian(e, 4) + r, f + s);
      NumberPrefixFree(e, b.element, 4, r, s);
    case _ => SplitEqual(PutSegment(a), r, PutSegment(b), s);
  }

  lemma {:induction false} PathPrefixFree(a: Path, r: seq<byte>, b: Path, s: seq<byte>)
    requires PathFits(a) && PathFits(b) && |a| == |b| && PutPath(a) + r == PutPath(b) + s
    ensures a == b && r == s
    decreases |a|
  {
    if a == [] {
      assert [] + r == r && [] + s == s;
    } else {
      Assoc(PutSegment(a[0]), PutPath(a[1..]), r);
      Assoc(PutSegment(b[0]), PutPath(b[1..]), s);
      SegmentPrefixFree(a[0], PutPath(a[1..]) + r, b[0], PutPath(b[1..]) + s);
      PathPrefixFree(a[1..], r, b[1..], s);
      assert a == [a[0]] + a[1..] && b == [b[0]] + b[1..];
    }
  }

  // ----- validator expressions -----

  predicate ExprFits(x: ValidatorExpr) {
    match x
    case BoolConst(_) => true
    case FieldRef(_, t) => Encodable(Canonical, t)
    case Not(operand) => ExprFits(operand)
    case BoolBinary(_, left, right) => ExprFits(left) && ExprFits(right)
    case Compare(_, left, right) => ExprFits(left) && ExprFits(right)
  }

  function PutExpr(x: ValidatorExpr): (r: seq<byte>)
    requires ExprFits(x)
    ensures r != [] && r[0] == ExprTag(x)
  {
    match x
    case BoolConst(value) => [0] + [BoolTag(value)]
    case FieldRef(field, t) => [1] + (LittleEndian(field, 4) + Encode(Canonical, t))
    case Not(operand) => [2] + PutExpr(operand)
    case BoolBinary(op, left, right) => [3] + ([BoolOpTag(op)] + (PutExpr(left) + PutExpr(right)))
    case Compare(op, left, right) => [4] + ([CompareTag(op)] + (PutExpr(left) + PutExpr(right)))
  }

  lemma {:induction false} ExprPrefixFree(x: ValidatorExpr, r: seq<byte>, y: ValidatorExpr, s: seq<byte>)
    requires ExprFits(x) && ExprFits(y) && PutExpr(x) + r == PutExpr(y) + s
    ensures x == y && r == s
    decreases NodeCount(x), 1
  {
    assert (PutExpr(x) + r)[0] == ExprTag(x) && (PutExpr(y) + s)[0] == ExprTag(y);
    match x
    case BoolConst(v) =>
      TagPrefixFree(0, [BoolTag(v)], r, 0, [BoolTag(y.value)], s);
      SplitEqual([BoolTag(v)], r, [BoolTag(y.value)], s);
    case FieldRef(i, t) =>
      Capacities();
      var m, n, a, b := LittleEndian(i, 4), LittleEndian(y.field, 4), Encode(Canonical, t),
          Encode(Canonical, y.valueType);
      TagPrefixFree(1, m + a, r, 1, n + b, s);
      Assoc(m, a, r);
      Assoc(n, b, s);
      NumberPrefixFree(i, y.field, 4, a + r, b + s);
      TypePrefixFree(Canonical, t, r, y.valueType, s);
    case Not(operand) =>
      TagPrefixFree(2, PutExpr(operand), r, 2, PutExpr(y.operand), s);
      ExprPrefixFree(operand, r, y.operand, s);
    case BoolBinary(op, left, right) =>
      PairPrefixFree(3, BoolOpTag(op), left, right, r, BoolOpTag(y.boolOp), y.left, y.right, s);
    case Compare(op, left, right) =>
      PairPrefixFree(4, CompareTag(op), left, right, r, CompareTag(y.compareOp), y.left, y.right, s);
  }

  lemma {:induction false} PairPrefixFree(tag: byte, op: byte, a: ValidatorExpr, b: ValidatorExpr, r: seq<byte>,
                                          q: byte, c: ValidatorExpr, d: ValidatorExpr, s: seq<byte>)
    requires ExprFits(a) && ExprFits(b) && ExprFits(c) && ExprFits(d)
    requires ([tag] + ([op] + (PutExpr(a) + PutExpr(b)))) + r == ([tag] + ([q] + (PutExpr(c) + PutExpr(d)))) + s
    ensures op == q && a == c && b == d && r == s
    decreases NodeCount(a) + NodeCount(b), 0
  {
    var v, w, x, y := PutExpr(a), PutExpr(b), PutExpr(c), PutExpr(d);
    TagPrefixFree(tag, [op] + (v + w), r, tag, [q] + (x + y), s);
    TagPrefixFree(op, v + w, r, q, x + y, s);
    Assoc(v, w, r);
    Assoc(x, y, s);
    ExprPrefixFree(a, w + r, c, y + s);
    ExprPrefixFree(b, r, d, s);
  }

  // ----- invariant definitions and sites -----

  predicate DefinitionFits(d: InvariantDefinition) {
    NameFits(Canonical, d.identity) && CountFits(Canonical, |d.fields|) && EncodableFields(Canonical, d.fields) &&
        ExprFits(d.condition)
  }

  function PutDefinition(d: InvariantDefinition): seq<byte>
    requires DefinitionFits(d)
  {
    PutName(Canonical, d.identity) + (PutCount(Canonical, |d.fields|) +
                                      (EncodeFields(Canonical, d.fields) + PutExpr(d.condition)))
  }

  lemma {:induction false} DefinitionPrefixFree(a: InvariantDefinition, r: seq<byte>, b: InvariantDefinition,
                                                s: seq<byte>)
    requires DefinitionFits(a) && DefinitionFits(b) && PutDefinition(a) + r == PutDefinition(b) + s
    ensures a == b && r == s
  {
    var m, n, x, y := PutCount(Canonical, |a.fields|), PutCount(Canonical, |b.fields|),
        EncodeFields(Canonical, a.fields), EncodeFields(Canonical, b.fields);
    var v, w := PutExpr(a.condition), PutExpr(b.condition);
    Assoc(PutName(Canonical, a.identity), m + (x + v), r);
    Assoc(PutName(Canonical, b.identity), n + (y + w), s);
    NamePrefixFree(Canonical, a.identity, b.identity, (m + (x + v)) + r, (n + (y + w)) + s);
    Assoc(m, x + v, r);
    Assoc(n, y + w, s);
    CountPrefixFree(Canonical, |a.fields|, |b.fields|, (x + v) + r, (y + w) + s);
    Assoc(x, v, r);
    Assoc(y, w, s);
    AllFieldsPrefixFree(Canonical, a.fields, v + r, b.fields, w + s);
    ExprPrefixFree(a.condition, r, b.condition, s);
  }

  /** The site's path fits, and so does the definition it names if there is one. */
  predicate SiteFits(site: Site, definitions: seq<InvariantDefinition>) {
    PathFits(site.path) && CountFits(Canonical, |site.path|) &&
    (site.definition < |definitions| ==> DefinitionFits(definitions[site.definition]))
  }

  /** The definition a site names, or a marker when its index is out of range. */
  function PutTarget(site: Site, definitions: seq<InvariantDefinition>): seq<byte>
    requires SiteFits(site, definitions)
  {
    if site.definition < |definitions| then PutDefinition(definitions[site.definition]) else [0xff]
  }

  function PutSite(site: Site, definitions: seq<InvariantDefinition>): seq<byte>
    requires SiteFits(site, definitions)
  {
    PutCount(Canonical, |site.path|) + (PutPath(site.path) + PutTarget(site, definitions))
  }

  predicate SitesFit(sites: seq<Site>, definitions: seq<InvariantDefinition>) {
    forall i | 0 <= i < |sites| :: SiteFits(sites[i], definitions)
  }

  function PutSites(sites: seq<Site>, definitions: seq<InvariantDefinition>): seq<byte>
    requires SitesFit(sites, definitions)
  {
    if sites == [] then [] else PutSite(sites[0], definitions) + PutSites(sites[1..], definitions)
  }

  /** Both sites name a definition, with the same path and the same invariant. */
  predicate SameClause(a: Site, ds: seq<InvariantDefinition>, b: Site, es: seq<InvariantDefinition>) {
    a.definition < |ds| && b.definition < |es| && a.path == b.path && ds[a.definition] == es[b.definition]
  }

  lemma {:induction false} SitePrefixFree(a: Site, ds: seq<InvariantDefinition>, r: seq<byte>, b: Site,
                                          es: seq<InvariantDefinition>, s: seq<byte>)
    requires SiteFits(a, ds) && SiteFits(b, es) && a.definition < |ds| && b.definition < |es|
    requires PutSite(a, ds) + r == PutSite(b, es) + s
    ensures SameClause(a, ds, b, es) && r == s
  {
    var p, q, x, y := PutPath(a.path), PutPath(b.path), PutDefinition(ds[a.definition]),
        PutDefinition(es[b.definition]);
    Assoc(PutCount(Canonical, |a.path|), p + x, r);
    Assoc(PutCount(Canonical, |b.path|), q + y, s);
    CountPrefixFree(Canonical, |a.path|, |b.path|, (p + x) + r, (q + y) + s);
    Assoc(p, x, r);
    Assoc(q, y, s);
    PathPrefixFree(a.path, x + r, b.path, y + s);
    DefinitionPrefixFree(ds[a.definition], r, es[b.definition], s);
  }

  ghost predicate SitesInRange(sites: seq<Site>, definitions: seq<InvariantDefinition>) {
    forall i | 0 <= i < |sites| :: sites[i].definition < |definitions|
  }

  lemma {:induction false} SitesPrefixFree(a: seq<Site>, ds: seq<InvariantDefinition>, r: seq<byte>, b: seq<Site>,
                                           es: seq<InvariantDefinition>, s: seq<byte>)
    requires SitesFit(a, ds) && SitesFit(b, es) && SitesInRange(a, ds) && SitesInRange(b, es) && |a| == |b|
    requires PutSites(a, ds) + r == PutSites(b, es) + s
    ensures r == s && forall i | 0 <= i < |a| :: SameClause(a[i], ds, b[i], es)
    decreases |a|
  {
    if a == [] {
      assert [] + r == r && [] + s == s;
    } else {
      var x, y := PutSites(a[1..], ds), PutSites(b[1..], es);
      Assoc(PutSite(a[0], ds), x, r);
      Assoc(PutSite(b[0], es), y, s);
      SitePrefixFree(a[0], ds, x + r, b[0], es, y + s);
      SitesPrefixFree(a[1..], ds, r, b[1..], es, s);
      forall i | 0 <= i < |a| ensures SameClause(a[i], ds, b[i], es) {
        if i > 0 { assert a[i] == a[1..][i - 1] && b[i] == b[1..][i - 1]; }
      }
    }
  }

  // ----- the preimage -----

  const CONTRACT_MAGIC: seq<byte> :=
    [0x41, 0x4c, 0x4c, 0x45, 0x4e, 0x2d, 0x45, 0x4e, 0x54, 0x52, 0x59, 0x2d, 0x43, 0x4f, 0x4e, 0x54, 0x52, 0x41, 0x43,
     0x54, 0x00, 0x01]

  const TYPE_MAGIC: seq<byte> :=
    [0x41, 0x4c, 0x4c, 0x45, 0x4e, 0x2d, 0x56, 0x41, 0x4c, 0x55, 0x45, 0x2d, 0x54, 0x59, 0x50, 0x45, 0x00, 0x01]

  function TypeBytes(schema: ValueType): seq<byte>
    requires Encodable(Canonical, schema)
  {
    TYPE_MAGIC + Encode(Canonical, schema)
  }

  /** Every length fits a machine word and every index 32 bits, as in memory they do. */
  predicate ContractFits(schema: ValueType, sites: seq<Site>, definitions: seq<InvariantDefinition>) {
    Encodable(Canonical, schema) && CountFits(Canonical, |TypeBytes(schema)|) && CountFits(Canonical, |sites|) &&
        SitesFit(sites, definitions)
  }

  function Preimage(schema: ValueType, sites: seq<Site>, definitions: seq<InvariantDefinition>): seq<byte>
    requires ContractFits(schema, sites, definitions)
  {
    CONTRACT_MAGIC + (PutName(Canonical, TypeBytes(schema)) +
                      (PutCount(Canonical, |sites|) + PutSites(sites, definitions)))
  }

  /** Builds the preimage by appending, site by site. */
  method BuildPreimage(schema: ValueType, sites: seq<Site>, definitions: seq<InvariantDefinition>)
    returns (output: seq<byte>)
    requires ContractFits(schema, sites, definitions)
    ensures output == Preimage(schema, sites, definitions)
  {
    output := CONTRACT_MAGIC;
    var ty := TypeBytes(schema);
    output := output + PutCount(Canonical, |ty|);
    output := output + ty;
    output := output + PutCount(Canonical, |sites|);
    HeaderLayout(PutCount(Canonical, |ty|), ty, PutCount(Canonical, |sites|), PutSites(sites, definitions));
    assert sites[0..] == sites;
    for i := 0 to |sites|
      invariant SitesPut(Preimage(schema, sites, definitions), sites, definitions, i, output)
    {
      var site := sites[i];
      SitePut(Preimage(schema, sites, definitions), sites, definitions, i, output);
      output := output + PutCount(Canonical, |site.path|);
      output := output + PutPath(site.path);
      if site.definition < |definitions| {
        output := output + PutDefinition(definitions[site.definition]);
      } else {
        output := output + [0xff];
      }
    }
    assert output + [] == output;
  }

  /** The first i sites are appended. */
  ghost predicate SitesPut(whole: seq<byte>, sites: seq<Site>, definitions: seq<InvariantDefinition>, i: nat,
                           output: seq<byte>)
    requires i <= |sites| && SitesFit(sites, definitions)
  {
    output + PutSites(sites[i..], definitions) == whole
  }

  lemma {:induction false} SitePut(whole: seq<byte>, sites: seq<Site>, definitions: seq<InvariantDefinition>, i: nat,
                                   output: seq<byte>)
    requires i < |sites| && SitesFit(sites, definitions) && SitesPut(whole, sites, definitions, i, output)
    ensures SiteFits(sites[i], definitions)
    ensures SitesPut(whole, sites, definitions, i + 1,
                     ((output + PutCount(Canonical, |sites[i].path|)) + PutPath(sites[i].path)) +
                         PutTarget(sites[i], definitions))
  {
    var site := sites[i];
    assert sites[i..][1..] == sites[i + 1..];
    SiteLayout(output, PutCount(Canonical, |site.path|), PutPath(site.path), PutTarget(site, definitions),
               PutSites(sites[i + 1..], definitions));
  }

  lemma {:induction false} HeaderLayout(size: seq<byte>, ty: seq<byte>, count: seq<byte>, all: seq<byte>)
    ensures CONTRACT_MAGIC + ((size + ty) + (count + all)) == (((CONTRACT_MAGIC + size) + ty) + count) + all
  {
  }

  lemma {:induction false} SiteLayout(before: seq<byte>, count: seq<byte>, path: seq<byte>, target: seq<byte>,
                                      more: seq<byte>)
    ensures (((before + count) + path) + target) + more == before + ((count + (path + target)) + more)
  {
  }

  /** Equal preimages describe the same contract. */
  lemma {:induction false} PreimageDecodes(t: ValueType, a: seq<Site>, ds: seq<InvariantDefinition>, u: ValueType,
                                           b: seq<Site>, es: seq<InvariantDefinition>)
    requires ContractFits(t, a, ds) && ContractFits(u, b, es) && SitesInRange(a, ds) && SitesInRange(b, es)
    requires Preimage(t, a, ds) == Preimage(u, b, es)
    ensures t == u && |a| == |b| && forall i | 0 <= i < |a| :: SameClause(a[i], ds, b[i], es)
  {
    var p, q, m, n := PutName(Canonical, TypeBytes(t)), PutName(Canonical, TypeBytes(u)), PutCount(Canonical, |a|),
        PutCount(Canonical, |b|);
    var x, y := PutSites(a, ds), PutSites(b, es);
    SplitEqual(CONTRACT_MAGIC, p + (m + x), CONTRACT_MAGIC, q + (n + y));
    NamePrefixFree(Canonical, TypeBytes(t), TypeBytes(u), m + x, n + y);
    SplitEqual(TYPE_MAGIC, Encode(Canonical, t), TYPE_MAGIC, Encode(Canonical, u));
    assert Encode(Canonical, t) + [] == Encode(Canonical, u) + [];
    TypePrefixFree(Canonical, t, [], u, []);
    CountPrefixFree(Canonical, |a|, |b|, x, y);
    assert x + [] == x && y + [] == y;
    SitesPrefixFree(a, ds, [], b, es, []);
  }

  /** Out-of-range sites must be excluded: which missing invariant a site names is
      not part of the preimage. */
  lemma {:induction false} OutOfRangeIsLost()
    ensures var a, b := [Site([], 5)], [Site([], 7)];
            && a != b && ContractFits(UnitType, a, []) && ContractFits(UnitType, b, [])
            && !SitesInRange(a, []) && !SitesInRange(b, []) && Preimage(UnitType, a, []) == Preimage(UnitType, b, [])
  {
    var a, b := [Site([], 5)], [Site([], 7)];
    assert a[0].definition == 5 && b[0].definition == 7;
    assert Encodable(Canonical, UnitType) && Encode(Canonical, UnitType) == [5];
    assert |TypeBytes(UnitType)| == |TYPE_MAGIC| + 1;
    assert a[1..] == [] && b[1..] == [];
    assert PutSite(a[0], []) == PutSite(b[0], []);
    assert PutSites(a, []) == PutSites(b, []);
  }
}
