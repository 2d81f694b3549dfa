/** Enumerating the paths of an entry schema that end at a record, and resolving
    one such path. */
module RecordPaths {
  import opened Wrappers
  import opened Collections
  import opened ValueTypes

  datatype Segment =
    | Field(index: nat)
    | ListElement
    | MapKey
    | MapValue
    | TupleElement(index: nat)
    | OptionSome
    | ResultOk
    | ResultError
    | EnumPayload(variant: nat, element: nat)
    | NewtypeValue

  type Path = seq<Segment>

  datatype PathError = RecursiveEnum | EnumOutOfRange | TableLimit

  const U32_MAX := 0xFFFF_FFFF

  // ----- the derived order -----

  function Ordinal(s: Segment): nat {
    match s
    case Field(_) => 0
    case ListElement => 1
    case MapKey => 2
    case MapValue => 3
    case TupleElement(_) => 4
    case OptionSome => 5
    case ResultOk => 6
    case ResultError => 7
    case EnumPayload(_, _) => 8
    case NewtypeValue => 9
  }

  predicate SegmentLess(a: Segment, b: Segment) {
    if Ordinal(a) != Ordinal(b) then Ordinal(a) < Ordinal(b)
    else
      match (a, b)
      case (Field(i), Field(j)) => i < j
      case (TupleElement(i), TupleElement(j)) => i < j
      case (EnumPayload(v, e), EnumPayload(w, f)) => v < w || (v == w && e < f)
      case _ => false
  }

  predicate PathLess(a: Path, b: Path) {
    if b == [] then false
    else if a == [] then true
    else if a[0] == b[0] then PathLess(a[1..], b[1..])
    else SegmentLess(a[0], b[0])
  }

  ghost predicate Ascending(paths: seq<Path>) {
    forall i, j | 0 <= i < j < |paths| :: PathLess(paths[i], paths[j])
  }

  // ----- what lies at a path -----

  /** Segment `s` leads from a value of type `t` to a component of type `part`. */
  ghost predicate Holds(t: ValueType, s: Segment, part: ValueType, enums: seq<EnumDefinition>) {
    match t
    case RecordType(fs) => s.Field? && s.index < |fs| && fs[s.index].valueType == part
    case ListType(e) => s == ListElement && e == part
    case MapType(k, v) => (s == MapKey && k == part) || (s == MapValue && v == part)
    case TupleType(es) => s.TupleElement? && s.index < |es| && es[s.index] == part
    case OptionType(e) => s == OptionSome && e == part
    case ResultType(o, e) => (s == ResultOk && o == part) || (s == ResultError && e == part)
    case NewtypeType(_, u) => s == NewtypeValue && u == part
    case EnumRef(id) =>
      && s.EnumPayload? && id < |enums| && s.variant < |enums[id].variants|
      && match enums[id].variants[s.variant].payload {
           case UnitPayload => false
           case TuplePayload(es) => s.element < |es| && es[s.element] == part
           case RecordPayload(fs) => s.element < |fs| && fs[s.element].valueType == part
         }
    case _ => false
  }

  /** A type that paths do not enter, with one of the types it is made of. */
  ghost predicate Wraps(t: ValueType, inner: ValueType) {
    match t
    case FutureType(e) => e == inner
    case TaskType(e) => e == inner
    case SequenceType(e) => e == inner
    case FunctionType(ps, r, _) => inner in ps || r == inner
    case _ => false
  }

  /** Following the path from a value of type `t` leads to one of type `u`. */
  ghost predicate LiesAt(t: ValueType, path: Path, u: ValueType, enums: seq<EnumDefinition>)
    decreases |path|
  {
    if path == [] then t == u
    else exists part | Holds(t, path[0], part, enums) :: LiesAt(part, path[1..], u, enums)
  }

  /** A record lies at the path. */
  ghost predicate RecordAt(t: ValueType, path: Path, enums: seq<EnumDefinition>) {
    exists fields :: LiesAt(t, path, RecordType(fields), enums)
  }

  // ----- children in traversal order -----

  /** A component of a type; without a segment it shares its parent's path. */
  datatype Child = Child(segment: Option<Segment>, valueType: ValueType)

  function Plain(ts: seq<ValueType>): (r: seq<Child>)
    ensures |r| == |ts| && forall i | 0 <= i < |ts| :: r[i] == Child(None, ts[i])
  {
    seq(|ts|, i requires 0 <= i < |ts| => Child(None, ts[i]))
  }

  /** The components of a type that are part of the type itself. */
  function Parts(t: ValueType): (r: seq<Child>)
    ensures forall i | 0 <= i < |r| :: TypeSize(r[i].valueType) < TypeSize(t)
  {
    match t
    case RecordType(fs) => seq(|fs|, i requires 0 <= i < |fs| => Child(Some(Field(i)), fs[i].valueType))
    case ListType(e) => [Child(Some(ListElement), e)]
    case MapType(k, v) => [Child(Some(MapKey), k), Child(Some(MapValue), v)]
    case TupleType(es) => seq(|es|, i requires 0 <= i < |es| => Child(Some(TupleElement(i)), es[i]))
    case NewtypeType(_, u) => [Child(Some(NewtypeValue), u)]
    case OptionType(e) => [Child(Some(OptionSome), e)]
    case ResultType(o, e) => [Child(Some(ResultOk), o), Child(Some(ResultError), e)]
    case FutureType(e) => [Child(None, e)]
    case TaskType(e) => [Child(None, e)]
    case SequenceType(e) => [Child(None, e)]
    case FunctionType(ps, r, _) => Plain(ps) + [Child(None, r)]
    case _ => []
  }

  function PayloadTypes(payload: EnumPayloadType): (r: seq<ValueType>) {
    match payload
    case UnitPayload => []
    case TuplePayload(es) => es
    case RecordPayload(fs) => seq(|fs|, i requires 0 <= i < |fs| => fs[i].valueType)
  }

  function VariantChildren(variant: EnumVariant, v: nat): (r: seq<Child>)
    ensures |r| == |PayloadTypes(variant.payload)|
    ensures forall i | 0 <= i < |r| :: r[i] == Child(Some(EnumPayload(v, i)), PayloadTypes(variant.payload)[i])
  {
    var ts := PayloadTypes(variant.payload);
    seq(|ts|, i requires 0 <= i < |ts| => Child(Some(EnumPayload(v, i)), ts[i]))
  }

  function EnumChildren(variants: seq<EnumVariant>): seq<Child> {
    if variants == [] then []
    else EnumChildren(variants[..|variants| - 1]) + VariantChildren(variants[|variants| - 1], |variants| - 1)
  }

  /** All components, through the enum table where needed. */
  function Children(t: ValueType, enums: seq<EnumDefinition>): seq<Child> {
    if t.EnumRef? then (if t.id < |enums| then EnumChildren(enums[t.id].variants) else []) else Parts(t)
  }

  // ----- resolving a path -----

  function StepType(t: ValueType, s: Segment, enums: seq<EnumDefinition>): Option<ValueType> {
    match (s, t)
    case (Field(i), RecordType(fs)) => if i < |fs| then Some(fs[i].valueType) else None
    case (ListElement, ListType(e)) => Some(e)
    case (MapKey, MapType(k, _)) => Some(k)
    case (MapValue, MapType(_, v)) => Some(v)
    case (TupleElement(i), TupleType(es)) => if i < |es| then Some(es[i]) else None
    case (OptionSome, OptionType(e)) => Some(e)
    case (ResultOk, ResultType(o, _)) => Some(o)
    case (ResultError, ResultType(_, e)) => Some(e)
    case (NewtypeValue, NewtypeType(_, u)) => Some(u)
    case (EnumPayload(v, e), EnumRef(id)) =>
      if id < |enums| && v < |enums[id].variants| then
        var ts := PayloadTypes(enums[id].variants[v].payload);
        if e < |ts| then Some(ts[e]) else None
      else None
    case _ => None
  }

  method ValidatorPathType(root: ValueType, path: Path, enums: seq<EnumDefinition>) returns (r: Option<ValueType>)
    ensures forall u :: LiesAt(root, path, u, enums) <==> r == Some(u)
  {
    var current := root;
    for i := 0 to |path|
      invariant forall u :: LiesAt(root, path, u, enums) <==> LiesAt(current, path[i..], u, enums)
    {
      assert path[i..][0] == path[i] && path[i..][1..] == path[i + 1..];
      forall part ensures Holds(current, path[i], part, enums) <==> StepType(current, path[i], enums) == Some(part) {
        StepHolds(current, path[i], enums, part);
      }
      var next := StepType(current, path[i], enums);
      if next.None? {
        return None;
      }
      current := next.value;
    }
    return Some(current);
  }

  /** One step of the resolver leads exactly to the component held there. */
  lemma {:induction false} StepHolds(t: ValueType, s: Segment, enums: seq<EnumDefinition>, part: ValueType)
    ensures StepType(t, s, enums) == Some(part) <==> Holds(t, s, part, enums)
  {
    if t.EnumRef? && t.id < |enums| && s.EnumPayload? && s.variant < |enums[t.id].variants| {
      PayloadHolds(enums[t.id].variants[s.variant].payload, s.element, part);
    }
  }

  lemma {:induction false} PayloadHolds(payload: EnumPayloadType, e: nat, part: ValueType)
    ensures e < |PayloadTypes(payload)| && PayloadTypes(payload)[e] == part <==>
            match payload
            case UnitPayload => false
            case TuplePayload(es) => e < |es| && es[e] == part
            case RecordPayload(fs) => e < |fs| && fs[e].valueType == part
  {
  }

  // ----- children and steps agree -----

  ghost predicate SegmentsAscend(children: seq<Child>) {
    forall i, j | 0 <= i < j < |children| && children[i].segment.Some? && children[j].segment.Some? ::
      SegmentLess(children[i].segment.value, children[j].segment.value)
  }

  lemma {:induction false} EnumChildAt(variants: seq<EnumVariant>, v: nat, e: nat)
    requires v < |variants| && e < |PayloadTypes(variants[v].payload)|
    ensures Child(Some(EnumPayload(v, e)), PayloadTypes(variants[v].payload)[e]) in EnumChildren(variants)
  {
    var n := |variants| - 1;
    if v == n {
      var last := VariantChildren(variants[n], n);
      assert last[e] in last;
    } else {
      assert variants[..n][v] == variants[v];
      EnumChildAt(variants[..n], v, e);
    }
  }

  lemma {:induction false} EnumChildrenShape(variants: seq<EnumVariant>)
    ensures SegmentsAscend(EnumChildren(variants))
    ensures forall c | c in EnumChildren(variants) :: IsPayload(variants, c)
  {
    if variants != [] {
      var n := |variants| - 1;
      EnumChildrenShape(variants[..n]);
      var before, last := EnumChildren(variants[..n]), VariantChildren(variants[n], n);
      forall c | c in before ensures IsPayload(variants, c) {
        assert IsPayload(variants[..n], c);
      }
      var all := before + last;
      forall i, j | 0 <= i < j < |all| && all[i].segment.Some? && all[j].segment.Some?
        ensures SegmentLess(all[i].segment.value, all[j].segment.value)
      {
        if i < |before| {
          assert before[i] in before && IsPayload(variants[..n], before[i]);
        }
        if j < |before| {
          assert all[i] == before[i] && all[j] == before[j];
        } else {
          assert all[j] == last[j - |before|];
        }
      }
    }
  }

  ghost predicate IsPayload(variants: seq<EnumVariant>, c: Child) {
    && c.segment.Some? && c.segment.value.EnumPayload? && c.segment.value.variant < |variants|
    && c.segment.value.element < |PayloadTypes(variants[c.segment.value.variant].payload)|
    && c.valueType == PayloadTypes(variants[c.segment.value.variant].payload)[c.segment.value.element]
  }

  /** The children of a type are its components under their segments, and without a
      segment what a wrapper is made of. */
  lemma {:induction false} StepIsChild(t: ValueType, s: Segment, enums: seq<EnumDefinition>, c: ValueType)
    ensures Holds(t, s, c, enums) <==> Child(Some(s), c) in Children(t, enums)
  {
    var children := Children(t, enums);
    if t.EnumRef? && t.id < |enums| {
      EnumChildHolds(t, s, enums, c);
    } else if t.RecordType? || t.TupleType? {
      if Holds(t, s, c, enums) {
        assert children[s.index] == Child(Some(s), c);
      }
    }
  }

  lemma {:induction false} EnumChildHolds(t: ValueType, s: Segment, enums: seq<EnumDefinition>, c: ValueType)
    requires t.EnumRef? && t.id < |enums|
    ensures Holds(t, s, c, enums) <==> Child(Some(s), c) in EnumChildren(enums[t.id].variants)
  {
    var variants := enums[t.id].variants;
    EnumChildrenShape(variants);
    if s.EnumPayload? && s.variant < |variants| {
      PayloadHolds(variants[s.variant].payload, s.element, c);
    }
    if Holds(t, s, c, enums) {
      EnumChildAt(variants, s.variant, s.element);
    }
    if Child(Some(s), c) in EnumChildren(variants) {
      assert IsPayload(variants, Child(Some(s), c));
    }
  }

  lemma {:induction false} WrapIsChild(t: ValueType, enums: seq<EnumDefinition>, c: ValueType)
    ensures Wraps(t, c) <==> Child(None, c) in Children(t, enums)
  {
    var children := Children(t, enums);
    if t.EnumRef? && t.id < |enums| {
      EnumChildrenShape(enums[t.id].variants);
    } else if t.FunctionType? {
      assert children == Plain(t.parameters) + [Child(None, t.returnType)];
      if i :| 0 <= i < |t.parameters| && t.parameters[i] == c {
        assert children[i] == Child(None, c);
      }
      if c == t.returnType {
        assert children[|t.parameters|] == Child(None, c);
      }
      if i :| 0 <= i < |children| && children[i] == Child(None, c) {
        assert i < |t.parameters| ==> t.parameters[i] == c;
      }
    }
  }

  lemma {:induction false} ChildrenAscend(t: ValueType, enums: seq<EnumDefinition>)
    ensures SegmentsAscend(Children(t, enums))
  {
    if t.EnumRef? && t.id < |enums| {
      EnumChildrenShape(enums[t.id].variants);
    }
  }

  predicate IsWrapper(t: ValueType) {
    t.FutureType? || t.TaskType? || t.SequenceType? || t.FunctionType?
  }

  lemma {:induction false} ChildSegments(t: ValueType, enums: seq<EnumDefinition>, c: Child)
    requires c in Children(t, enums)
    ensures c.segment.None? <==> IsWrapper(t)
  {
    if t.EnumRef? && t.id < |enums| {
      EnumChildrenShape(enums[t.id].variants);
      assert IsPayload(enums[t.id].variants, c);
    }
  }

  // ----- enumerating record paths -----

  /** Enums not yet on the way down. */
  ghost function Unvisited(enums: seq<EnumDefinition>, active: set<nat>): nat {
    |Below(|enums|) - active|
  }

  lemma {:induction false} VisitShrinks(enums: seq<EnumDefinition>, active: set<nat>, id: nat)
    requires id < |enums| && id !in active
    ensures Unvisited(enums, active + {id}) < Unvisited(enums, active)
  {
    var before, after := Below(|enums|) - active, Below(|enums|) - (active + {id});
    assert before == after + {id};
  }

  function SizeBound(children: seq<Child>): (n: nat)
    ensures forall i | 0 <= i < |children| :: TypeSize(children[i].valueType) < n
  {
    if children == [] then 1
    else
      var rest := SizeBound(children[1..]);
      if TypeSize(children[0].valueType) < rest then rest else TypeSize(children[0].valueType) + 1
  }

  /** Indices are 32-bit. */
  predicate SegmentFits(segment: Segment) {
    match segment
    case Field(i) => i <= U32_MAX
    case TupleElement(i) => i <= U32_MAX
    case EnumPayload(v, e) => v <= U32_MAX && e <= U32_MAX
    case _ => true
  }

  function Prefixed(segment: Option<Segment>, paths: seq<Path>): (r: seq<Path>)
    ensures |r| == |paths|
    ensures forall i | 0 <= i < |paths| :: r[i] == (if segment.Some? then [segment.value] + paths[i] else paths[i])
  {
    if segment.None? then paths else seq(|paths|, i requires 0 <= i < |paths| => [segment.value] + paths[i])
  }

  ghost function ActiveBelow(t: ValueType, active: set<nat>): set<nat> {
    if t.EnumRef? then active + {t.id} else active
  }

  /** The paths to all records of a type, relative to it, in traversal order. */
  ghost function Collected(t: ValueType, enums: seq<EnumDefinition>, active: set<nat>): Result<seq<Path>, PathError>
    decreases Unvisited(enums, active), TypeSize(t), 1
  {
    if t.EnumRef? then
      if t.id in active then Err(RecursiveEnum)
      else if t.id >= |enums| then Err(EnumOutOfRange)
      else
        var children := Children(t, enums);
        VisitShrinks(enums, active, t.id);
        CollectedAll(children, |children|, enums, active + {t.id}, SizeBound(children))
    else
      var children := Children(t, enums);
      var below := CollectedAll(children, |children|, enums, active, TypeSize(t));
      if t.RecordType? && below.Ok? then Ok([[]] + below.value) else below
  }

  ghost function CollectedAll(children: seq<Child>, n: nat, enums: seq<EnumDefinition>, active: set<nat>,
                              bound: nat): Result<seq<Path>, PathError>
    requires n <= |children| && forall i | 0 <= i < |children| :: TypeSize(children[i].valueType) < bound
    decreases Unvisited(enums, active), bound, 0, n
  {
    if n == 0 then Ok([])
    else
      var before := CollectedAll(children, n - 1, enums, active, bound);
      if before.Err? then before
      else
        var below := CollectedChild(children[n - 1], enums, active);
        if below.Err? then below else Ok(before.value + below.value)
  }

  ghost function CollectedChild(child: Child, enums: seq<EnumDefinition>,
                                active: set<nat>): Result<seq<Path>, PathError>
    decreases Unvisited(enums, active), TypeSize(child.valueType), 2
  {
    if child.segment.Some? && !SegmentFits(child.segment.value) then Err(TableLimit)
    else
      var below := Collected(child.valueType, enums, active);
      if below.Err? then below else Ok(Prefixed(child.segment, below.value))
  }

  /** The traversal, with the current path, the enums on it and the paths found. */
  class PathCollector {
    const enums: seq<EnumDefinition>
    var path: Path
    var active: set<nat>
    var paths: seq<Path>

    constructor (enums: seq<EnumDefinition>)
      ensures this.enums == enums && path == [] && active == {} && paths == []
    {
      this.enums := enums;
      path, active, paths := [], {}, [];
    }

    /** Appends the record paths below the current path and restores the rest. */
    method Collect(t: ValueType) returns (r: Result<(), PathError>)
      modifies this
      ensures Appended(r, Collected(t, enums, old(active)), old(path), old(active), old(paths))
      decreases Unvisited(enums, active), TypeSize(t), 1
    {
      if t.EnumRef? {
        r := CollectEnum(t);
      } else if t.RecordType? {
        r := CollectRecord(t);
      } else {
        r := CollectChildren(Children(t, enums), TypeSize(t));
      }
    }

    method CollectRecord(t: ValueType) returns (r: Result<(), PathError>)
      requires t.RecordType?
      modifies this
      ensures Appended(r, Collected(t, enums, old(active)), old(path), old(active), old(paths))
      decreases Unvisited(enums, active), TypeSize(t), 0, 1
    {
      paths := paths + [path];
      var children := Children(t, enums);
      r := CollectChildren(children, TypeSize(t));
      if r.Ok? {
        UnderRoot(path);
        UnderJoin(path, [[]], CollectedAll(children, |children|, enums, active, TypeSize(t)).value);
      }
    }

    /** What a traversal step has done to the collector. */
    ghost predicate Appended(r: Result<(), PathError>, spec: Result<seq<Path>, PathError>, path0: Path,
                             active0: set<nat>, paths0: seq<Path>)
      reads this
    {
      match r
      case Ok(_) => spec.Ok? && path == path0 && active == active0 && paths == paths0 + Under(path0, spec.value)
      case Err(e) => spec == Err(e)
    }

    method CollectEnum(t: ValueType) returns (r: Result<(), PathError>)
      requires t.EnumRef?
      modifies this
      ensures Appended(r, Collected(t, enums, old(active)), old(path), old(active), old(paths))
      decreases Unvisited(enums, active), TypeSize(t), 0
    {
      if t.id in active {
        return Err(RecursiveEnum);
      }
      ghost var before := active;
      active := active + {t.id};
      if t.id >= |enums| {
        return Err(EnumOutOfRange);
      }
      VisitShrinks(enums, before, t.id);
      var children := Children(t, enums);
      r := CollectChildren(children, SizeBound(children));
      if r.Ok? {
        active := active - {t.id};
        assert active == before;
      }
    }

    method CollectChildren(children: seq<Child>, bound: nat) returns (r: Result<(), PathError>)
      requires forall i | 0 <= i < |children| :: TypeSize(children[i].valueType) < bound
      modifies this
      ensures Appended(r, CollectedAll(children, |children|, enums, old(active), bound), old(path), old(active),
                       old(paths))
      decreases Unvisited(enums, active), bound, 0, 0
    {
      r := Ok(());
      ghost var found: seq<Path> := [];
      for i := 0 to |children|
        invariant r.Ok? && AllFound(children, i, enums, old(active), bound, Ok(found))
        invariant Appended(r, Ok(found), old(path), old(active), old(paths))
      {
        ghost var below := CollectedChild(children[i], enums, old(active));
        FoundNext(children, i, enums, old(active), bound, found, below);
        r := CollectChild(children[i]);
        if r.Err? { return; }
        UnderMore(old(paths), old(path), found, below.value);
        found := found + below.value;
      }
    }

    method CollectChild(child: Child) returns (r: Result<(), PathError>)
      modifies this
      ensures Appended(r, CollectedChild(child, enums, old(active)), old(path), old(active), old(paths))
      decreases Unvisited(enums, active), TypeSize(child.valueType), 2
    {
      if child.segment.Some? && !SegmentFits(child.segment.value) {
        return Err(TableLimit);
      }
      if child.segment.Some? {
        path := path + [child.segment.value];
      }
      r := Collect(child.valueType);
      if r.Ok? {
        UnderPrefixed(old(path), child.segment, Collected(child.valueType, enums, active).value);
        if child.segment.Some? {
          path := path[..|path| - 1];
        }
      }
    }
  }

  /** What the first n children give. */
  ghost predicate AllFound(children: seq<Child>, n: nat, enums: seq<EnumDefinition>, active: set<nat>, bound: nat,
                           found: Result<seq<Path>, PathError>)
    requires n <= |children| && forall i | 0 <= i < |children| :: TypeSize(children[i].valueType) < bound
  {
    CollectedAll(children, n, enums, active, bound) == found
  }

  lemma {:induction false} FoundNext(children: seq<Child>, n: nat, enums: seq<EnumDefinition>, active: set<nat>,
                                     bound: nat, found: seq<Path>, below: Result<seq<Path>, PathError>)
    requires n < |children| && forall i | 0 <= i < |children| :: TypeSize(children[i].valueType) < bound
    requires AllFound(children, n, enums, active, bound, Ok(found)) &&
             below == CollectedChild(children[n], enums, active)
    ensures below.Ok? ==> AllFound(children, n + 1, enums, active, bound, Ok(found + below.value))
    ensures below.Err? ==> AllFound(children, |children|, enums, active, bound, below)
  {
    if below.Err? {
      ErrorStays(children, n + 1, |children|, enums, active, bound);
    }
  }

  /** Absolute paths of relative ones. */
  ghost function Under(path: Path, paths: seq<Path>): (r: seq<Path>)
    ensures |r| == |paths| && forall i | 0 <= i < |paths| :: r[i] == path + paths[i]
  {
    seq(|paths|, i requires 0 <= i < |paths| => path + paths[i])
  }

  lemma {:induction false} UnderRoot(path: Path)
    ensures Under(path, [[]]) == [path]
  {
    assert path + [] == path;
  }

  lemma {:induction false} UnderJoin(path: Path, a: seq<Path>, b: seq<Path>)
    ensures Under(path, a + b) == Under(path, a) + Under(path, b)
  {
  }

  lemma {:induction false} UnderMore(before: seq<Path>, path: Path, a: seq<Path>, b: seq<Path>)
    ensures (before + Under(path, a)) + Under(path, b) == before + Under(path, a + b)
  {
    UnderJoin(path, a, b);
    assert (before + Under(path, a)) + Under(path, b) == before + (Under(path, a) + Under(path, b));
  }

  lemma {:induction false} UnderPrefixed(path: Path, segment: Option<Segment>, paths: seq<Path>)
    ensures Under(path, Prefixed(segment, paths)) ==
            Under(if segment.Some? then path + [segment.value] else path, paths)
  {
    if segment.Some? {
      forall i | 0 <= i < |paths| ensures path + ([segment.value] + paths[i]) == path + [segment.value] + paths[i] {
      }
    }
  }

  lemma {:induction false} ErrorStays(children: seq<Child>, m: nat, n: nat, enums: seq<EnumDefinition>,
                                      active: set<nat>, bound: nat)
    requires m <= n <= |children| && forall i | 0 <= i < |children| :: TypeSize(children[i].valueType) < bound
    requires CollectedAll(children, m, enums, active, bound).Err?
    ensures CollectedAll(children, n, enums, active, bound) == CollectedAll(children, m, enums, active, bound)
    decreases n
  {
    if m < n {
      ErrorStays(children, m, n - 1, enums, active, bound);
    }
  }
}
