/** The enumerated record paths are exactly the ones that resolve to a record, in
    strictly increasing order, unless a record hides beneath a type that paths
    cannot enter. */
module RecordPathLaws {
  import opened Wrappers
  import opened Collections
  import opened ValueTypes
  import opened RecordPaths

  /** A record lies at the path, when the path need not enter a Future, Task, Sequence
      or Function to come to what it is made of. */
  ghost predicate RecordBelow(t: ValueType, path: Path, enums: seq<EnumDefinition>)
    decreases |path|, TypeSize(t)
  {
    || (t.RecordType? && path == [])
    || (exists inner | Wraps(t, inner) :: RecordBelow(inner, path, enums))
    || (path != [] && exists part | Holds(t, path[0], part, enums) :: RecordBelow(part, path[1..], enums))
  }

  /** Some path leads to a Future, Task, Sequence or Function with a record beneath it. */
  ghost predicate HidesRecord(t: ValueType, enums: seq<EnumDefinition>) {
    exists p, wrapper, q | LiesAt(t, p, wrapper, enums) && IsWrapper(wrapper) :: RecordBelow(wrapper, q, enums)
  }

  /** A child met on the way down, with the enums active there. */
  ghost predicate Below(t: ValueType, enums: seq<EnumDefinition>, active: set<nat>, c: Child) {
    Collected(t, enums, active).Ok? && c in Children(t, enums)
  }

  lemma {:induction false} BelowShrinks(t: ValueType, enums: seq<EnumDefinition>, active: set<nat>, c: Child)
    requires Below(t, enums, active, c)
    ensures Unvisited(enums, ActiveBelow(t, active)) < Unvisited(enums, active) ||
            (ActiveBelow(t, active) == active && TypeSize(c.valueType) < TypeSize(t))
  {
    if t.EnumRef? {
      VisitShrinks(enums, active, t.id);
    }
  }

  // ----- what is emitted -----

  ghost predicate InSome(children: seq<Child>, n: nat, enums: seq<EnumDefinition>, active: set<nat>, p: Path)
    requires n <= |children| && forall i | 0 <= i < n :: CollectedChild(children[i], enums, active).Ok?
  {
    exists i | 0 <= i < n :: p in CollectedChild(children[i], enums, active).value
  }

  lemma {:induction false} AllOk(children: seq<Child>, n: nat, enums: seq<EnumDefinition>, active: set<nat>, bound: nat)
    requires n <= |children| && forall i | 0 <= i < |children| :: TypeSize(children[i].valueType) < bound
    requires CollectedAll(children, n, enums, active, bound).Ok?
    ensures forall i | 0 <= i < n :: CollectedChild(children[i], enums, active).Ok?
    decreases n
  {
    if n > 0 {
      AllOk(children, n - 1, enums, active, bound);
    }
  }

  lemma {:induction false} InAll(children: seq<Child>, n: nat, enums: seq<EnumDefinition>, active: set<nat>, bound: nat,
                                 p: Path)
    requires n <= |children| && forall i | 0 <= i < |children| :: TypeSize(children[i].valueType) < bound
    requires CollectedAll(children, n, enums, active, bound).Ok?
    ensures forall i | 0 <= i < n :: CollectedChild(children[i], enums, active).Ok?
    ensures p in CollectedAll(children, n, enums, active, bound).value <==> InSome(children, n, enums, active, p)
    decreases n
  {
    AllOk(children, n, enums, active, bound);
    if n > 0 {
      InAll(children, n - 1, enums, active, bound, p);
      var before := CollectedAll(children, n - 1, enums, active, bound).value;
      var last := CollectedChild(children[n - 1], enums, active).value;
      assert CollectedAll(children, n, enums, active, bound).value == before + last;
      InSomeNext(children, n, enums, active, p);
    }
  }

  lemma {:induction false} InSomeNext(children: seq<Child>, n: nat, enums: seq<EnumDefinition>, active: set<nat>,
                                      p: Path)
    requires 0 < n <= |children| && forall i | 0 <= i < n :: CollectedChild(children[i], enums, active).Ok?
    ensures InSome(children, n, enums, active, p) <==>
            InSome(children, n - 1, enums, active, p) || p in CollectedChild(children[n - 1], enums, active).value
  {
  }

  /** The emitted paths: the type itself if it is a record, then its children's. */
  lemma {:induction false} EmittedAre(t: ValueType, enums: seq<EnumDefinition>, active: set<nat>, p: Path)
    requires Collected(t, enums, active).Ok?
    ensures forall c | c in Children(t, enums) :: CollectedChild(c, enums, ActiveBelow(t, active)).Ok?
    ensures p in Collected(t, enums, active).value <==>
            (t.RecordType? && p == []) || exists c | c in Children(t, enums) ::
                  p in CollectedChild(c, enums, ActiveBelow(t, active)).value
  {
    var children := Children(t, enums);
    var bound := if t.EnumRef? then SizeBound(children) else TypeSize(t);
    if t.EnumRef? {
      VisitShrinks(enums, active, t.id);
    }
    InAll(children, |children|, enums, ActiveBelow(t, active), bound, p);
    forall c | c in children ensures CollectedChild(c, enums, ActiveBelow(t, active)).Ok? {
      var i :| 0 <= i < |children| && children[i] == c;
    }
    if c :| c in children && p in CollectedChild(c, enums, ActiveBelow(t, active)).value {
      var i :| 0 <= i < |children| && children[i] == c;
    }
  }

  lemma {:induction false} ChildPaths(c: Child, enums: seq<EnumDefinition>, active: set<nat>, p: Path)
    requires CollectedChild(c, enums, active).Ok?
    ensures Collected(c.valueType, enums, active).Ok?
    ensures p in CollectedChild(c, enums, active).value <==>
            if c.segment.Some? then p != [] && p[0] == c.segment.value && p[1..] in Collected(c.valueType, enums,
                active).value
            else p in Collected(c.valueType, enums, active).value
  {
    var paths := Collected(c.valueType, enums, active).value;
    if c.segment.Some? && p != [] && p[0] == c.segment.value && p[1..] in paths {
      var i :| 0 <= i < |paths| && paths[i] == p[1..];
      assert Prefixed(c.segment, paths)[i] == [p[0]] + p[1..] == p;
    }
    if c.segment.Some? && p in Prefixed(c.segment, paths) {
      var i :| 0 <= i < |paths| && Prefixed(c.segment, paths)[i] == p;
      assert p == [c.segment.value] + paths[i] && p[1..] == paths[i];
    }
  }

  /** Whatever the schema hides: the emitted paths are exactly those below which a
      record lies. */
  lemma {:induction false} EmittedIff(t: ValueType, enums: seq<EnumDefinition>, active: set<nat>, p: Path)
    requires Collected(t, enums, active).Ok?
    ensures p in Collected(t, enums, active).value <==> RecordBelow(t, p, enums)
    decreases |p|, TypeSize(t)
  {
    var below := ActiveBelow(t, active);
    EmittedAre(t, enums, active, p);
    if c :| c in Children(t, enums) && p in CollectedChild(c, enums, below).value {
      EmittedBelow(t, enums, active, p, c);
    }
    if RecordBelow(t, p, enums) {
      BelowEmitted(t, enums, active, p);
    }
  }

  lemma {:induction false} BelowEmitted(t: ValueType, enums: seq<EnumDefinition>, active: set<nat>, p: Path)
    requires Collected(t, enums, active).Ok? && RecordBelow(t, p, enums)
    ensures p in Collected(t, enums, active).value
    decreases |p|, TypeSize(t), 0
  {
    var below := ActiveBelow(t, active);
    EmittedAre(t, enums, active, p);
    if t.RecordType? && p == [] {
    } else if inner :| Wraps(t, inner) && RecordBelow(inner, p, enums) {
      WrapIsChild(t, enums, inner);
      ChildPaths(Child(None, inner), enums, below, p);
      EmittedIff(inner, enums, below, p);
    } else {
      var part :| Holds(t, p[0], part, enums) && RecordBelow(part, p[1..], enums);
      StepIsChild(t, p[0], enums, part);
      ChildPaths(Child(Some(p[0]), part), enums, below, p);
      EmittedIff(part, enums, below, p[1..]);
    }
  }

  lemma {:induction false} EmittedBelow(t: ValueType, enums: seq<EnumDefinition>, active: set<nat>, p: Path, c: Child)
    requires Collected(t, enums, active).Ok? && c in Children(t, enums)
    requires CollectedChild(c, enums, ActiveBelow(t, active)).Ok?
    requires p in CollectedChild(c, enums, ActiveBelow(t, active)).value
    ensures RecordBelow(t, p, enums)
    decreases |p|, TypeSize(t), 0
  {
    var below := ActiveBelow(t, active);
    ChildPaths(c, enums, below, p);
    if c.segment.None? {
      WrapIsChild(t, enums, c.valueType);
      EmittedIff(c.valueType, enums, below, p);
    } else {
      StepIsChild(t, p[0], enums, c.valueType);
      EmittedIff(c.valueType, enums, below, p[1..]);
    }
  }

  // ----- exactness -----

  lemma {:induction false} RecordAtStep(t: ValueType, p: Path, enums: seq<EnumDefinition>, c: ValueType)
    requires p != [] && Holds(t, p[0], c, enums)
    ensures RecordAt(t, p, enums) <==> RecordAt(c, p[1..], enums)
  {
    HoldsOne(t, p[0], enums, c);
  }

  lemma {:induction false} HoldsOne(t: ValueType, s: Segment, enums: seq<EnumDefinition>, c: ValueType)
    requires Holds(t, s, c, enums)
    ensures forall d | Holds(t, s, d, enums) :: d == c
  {
  }

  /** Whatever resolves to a record is emitted, hidden records or not. */
  lemma {:induction false} ResolvingIsEmitted(t: ValueType, enums: seq<EnumDefinition>, active: set<nat>, p: Path)
    requires Collected(t, enums, active).Ok? && RecordAt(t, p, enums)
    ensures p in Collected(t, enums, active).value
  {
    RecordAtIsBelow(t, enums, p);
    EmittedIff(t, enums, active, p);
  }

  lemma {:induction false} RecordAtIsBelow(t: ValueType, enums: seq<EnumDefinition>, p: Path)
    requires RecordAt(t, p, enums)
    ensures RecordBelow(t, p, enums)
    decreases |p|
  {
    var fields :| LiesAt(t, p, RecordType(fields), enums);
    if p != [] {
      var part :| Holds(t, p[0], part, enums) && LiesAt(part, p[1..], RecordType(fields), enums);
      RecordAtIsBelow(part, enums, p[1..]);
    }
  }

  /** A path below which a record lies leads to it, unless the record is hidden. */
  lemma {:induction false} BelowIsAt(t: ValueType, enums: seq<EnumDefinition>, p: Path)
    requires RecordBelow(t, p, enums)
    ensures RecordAt(t, p, enums) || HidesRecord(t, enums)
    decreases |p|
  {
    if t.RecordType? && p == [] {
      assert LiesAt(t, p, RecordType(t.fields), enums);
    } else if inner :| Wraps(t, inner) && RecordBelow(inner, p, enums) {
      assert LiesAt(t, [], t, enums) && IsWrapper(t) && RecordBelow(t, p, enums);
    } else {
      var part :| Holds(t, p[0], part, enums) && RecordBelow(part, p[1..], enums);
      BelowIsAt(part, enums, p[1..]);
      HiddenAbove(t, p[0], enums, part);
      RecordAtStep(t, p, enums, part);
    }
  }

  lemma {:induction false} HiddenAbove(t: ValueType, s: Segment, enums: seq<EnumDefinition>, part: ValueType)
    requires Holds(t, s, part, enums)
    ensures HidesRecord(part, enums) ==> HidesRecord(t, enums)
  {
    if HidesRecord(part, enums) {
      var p, wrapper, q :| LiesAt(part, p, wrapper, enums) && IsWrapper(wrapper) && RecordBelow(wrapper, q, enums);
      LiesBelow(t, s, enums, part, p, wrapper);
    }
  }

  lemma {:induction false} LiesBelow(t: ValueType, s: Segment, enums: seq<EnumDefinition>, part: ValueType, p: Path,
                                     u: ValueType)
    requires Holds(t, s, part, enums) && LiesAt(part, p, u, enums)
    ensures LiesAt(t, [s] + p, u, enums)
  {
    assert ([s] + p)[1..] == p;
  }

  /** The emitted paths are exactly the ones at which a record lies. */
  lemma {:induction false} ExactPath(t: ValueType, enums: seq<EnumDefinition>, active: set<nat>, p: Path)
    requires Collected(t, enums, active).Ok? && !HidesRecord(t, enums)
    ensures p in Collected(t, enums, active).value <==> RecordAt(t, p, enums)
  {
    EmittedIff(t, enums, active, p);
    if RecordBelow(t, p, enums) {
      BelowIsAt(t, enums, p);
    }
    if RecordAt(t, p, enums) {
      RecordAtIsBelow(t, enums, p);
    }
  }

  // ----- order -----

  /** `a` ends or falls below `b` at position `k`, up to which they agree. */
  ghost predicate PathLessAt(a: Path, b: Path, k: nat) {
    k <= |a| && k < |b| && a[..k] == b[..k] && (k == |a| || (a[k] != b[k] && SegmentLess(a[k], b[k])))
  }

  lemma {:induction false} PathAgreeAtFirst(a: Path, b: Path, k: nat)
    requires PathLessAt(a, b, k)
    ensures k == 0 || (a != [] && a[0] == b[0])
  {
    if k > 0 {
      assert a[..k][0] == a[0] && b[..k][0] == b[0];
    }
  }

  /** Paths are ordered at their first difference; a proper prefix comes first. */
  lemma {:induction false} PathLessIff(a: Path, b: Path)
    ensures PathLess(a, b) <==> exists k :: PathLessAt(a, b, k)
    decreases |a|
  {
    if b != [] && (a == [] || a[0] != b[0]) {
      assert PathLess(a, b) ==> PathLessAt(a, b, 0);
      if k: nat :| PathLessAt(a, b, k) {
        PathAgreeAtFirst(a, b, k);
      }
    } else if b != [] {
      PathLessIff(a[1..], b[1..]);
      if k: nat :| PathLessAt(a[1..], b[1..], k) {
        assert a[..k + 1] == [a[0]] + a[1..][..k] && b[..k + 1] == [b[0]] + b[1..][..k];
        assert PathLessAt(a, b, k + 1);
      }
      if k: nat :| PathLessAt(a, b, k) {
        assert k > 0;
        assert a[1..][..k - 1] == a[..k][1..] && b[1..][..k - 1] == b[..k][1..];
        assert PathLessAt(a[1..], b[1..], k - 1);
      }
    }
  }

  /** Among the paths of the list that resolve, earlier ones are less. */
  ghost predicate ResolvingAscend(paths: seq<Path>, t: ValueType, enums: seq<EnumDefinition>) {
    forall i, j | 0 <= i < j < |paths| && RecordAt(t, paths[i], enums) && RecordAt(t, paths[j], enums) ::
      PathLess(paths[i], paths[j])
  }

  lemma {:induction false} ResolvingJoin(a: seq<Path>, b: seq<Path>, t: ValueType, enums: seq<EnumDefinition>)
    requires ResolvingAscend(a, t, enums) && ResolvingAscend(b, t, enums)
    requires forall p, q | p in a && q in b :: PathLess(p, q)
    ensures ResolvingAscend(a + b, t, enums)
  {
    var all := a + b;
    forall i, j | 0 <= i < j < |all| && RecordAt(t, all[i], enums) && RecordAt(t, all[j], enums)
      ensures PathLess(all[i], all[j])
    {
      if i < |a| <= j {
        assert a[i] in a && b[j - |a|] in b;
      }
    }
  }

  /** Paths below one named child keep their order. */
  lemma {:induction false} PrefixedAscends(t: ValueType, enums: seq<EnumDefinition>, c: Child, paths: seq<Path>)
    requires c in Children(t, enums) && c.segment.Some? && ResolvingAscend(paths, c.valueType, enums)
    ensures ResolvingAscend(Prefixed(c.segment, paths), t, enums)
  {
    var r := Prefixed(c.segment, paths);
    StepIsChild(t, c.segment.value, enums, c.valueType);
    forall i, j | 0 <= i < j < |r| && RecordAt(t, r[i], enums) && RecordAt(t, r[j], enums)
      ensures PathLess(r[i], r[j])
    {
      assert r[i][1..] == paths[i] && r[j][1..] == paths[j];
      RecordAtStep(t, r[i], enums, c.valueType);
      RecordAtStep(t, r[j], enums, c.valueType);
    }
  }

  /** Paths below an earlier child come before paths below a later one. */
  lemma {:induction false} ChildrenLess(children: seq<Child>, i: nat, j: nat, enums: seq<EnumDefinition>,
                                        active: set<nat>,
                                        p: Path, q: Path)
    requires i < j < |children| && SegmentsAscend(children)
    requires CollectedChild(children[i], enums, active).Ok? && CollectedChild(children[j], enums, active).Ok?
    requires p in CollectedChild(children[i], enums, active).value
    requires q in CollectedChild(children[j], enums, active).value
    requires children[i].segment.Some? && children[j].segment.Some?
    ensures PathLess(p, q)
  {
    ChildPaths(children[i], enums, active, p);
    ChildPaths(children[j], enums, active, q);
    assert SegmentLess(children[i].segment.value, children[j].segment.value);
  }

  /** The child a collected path comes from. */
  lemma {:induction false} SourceChild(children: seq<Child>, n: nat, enums: seq<EnumDefinition>, active: set<nat>,
                                       bound: nat,
                                       p: Path)
    returns (i: nat)
    requires n <= |children| && forall i | 0 <= i < |children| :: TypeSize(children[i].valueType) < bound
    requires CollectedAll(children, n, enums, active, bound).Ok?
    requires p in CollectedAll(children, n, enums, active, bound).value
    ensures i < n && CollectedChild(children[i], enums, active).Ok? &&
            p in CollectedChild(children[i], enums, active).value
  {
    InAll(children, n, enums, active, bound, p);
    i :| 0 <= i < n && p in CollectedChild(children[i], enums, active).value;
  }

  ghost predicate ChildAscends(t: ValueType, c: Child, enums: seq<EnumDefinition>, active: set<nat>) {
    CollectedChild(c, enums, active).Ok? ==>
      c.segment.Some? && ResolvingAscend(CollectedChild(c, enums, active).value, t, enums)
  }

  lemma {:induction false} AllAscend(t: ValueType, children: seq<Child>, n: nat, enums: seq<EnumDefinition>,
                                     active: set<nat>,
                                     bound: nat)
    requires n <= |children| && forall i | 0 <= i < |children| :: TypeSize(children[i].valueType) < bound
    requires CollectedAll(children, n, enums, active, bound).Ok? && SegmentsAscend(children)
    requires forall i | 0 <= i < n :: ChildAscends(t, children[i], enums, active)
    ensures ResolvingAscend(CollectedAll(children, n, enums, active, bound).value, t, enums)
    decreases n
  {
    if n > 0 {
      AllAscend(t, children, n - 1, enums, active, bound);
      var before := CollectedAll(children, n - 1, enums, active, bound).value;
      var last := CollectedChild(children[n - 1], enums, active).value;
      assert ChildAscends(t, children[n - 1], enums, active);
      forall p, q | p in before && q in last ensures PathLess(p, q) {
        var i := SourceChild(children, n - 1, enums, active, bound, p);
        assert ChildAscends(t, children[i], enums, active);
        ChildrenLess(children, i, n - 1, enums, active, p, q);
      }
      ResolvingJoin(before, last, t, enums);
    }
  }

  /** Nothing resolves through a Future, Task, Sequence or Function. */
  lemma {:induction false} WrapperBlocks(t: ValueType, p: Path, enums: seq<EnumDefinition>)
    requires IsWrapper(t)
    ensures !RecordAt(t, p, enums)
  {
  }

  /** The emitted paths that resolve strictly increase, hidden records or not. */
  lemma {:induction false} ResolvingPathsAscend(t: ValueType, enums: seq<EnumDefinition>, active: set<nat>)
    requires Collected(t, enums, active).Ok?
    ensures ResolvingAscend(Collected(t, enums, active).value, t, enums)
    decreases Unvisited(enums, active), TypeSize(t)
  {
    var children, below := Children(t, enums), ActiveBelow(t, active);
    var bound := if t.EnumRef? then SizeBound(children) else TypeSize(t);
    if t.EnumRef? {
      VisitShrinks(enums, active, t.id);
    }
    if IsWrapper(t) {
      var paths := Collected(t, enums, active).value;
      forall i | 0 <= i < |paths| ensures !RecordAt(t, paths[i], enums) {
        WrapperBlocks(t, paths[i], enums);
      }
    } else {
      forall i | 0 <= i < |children| ensures ChildAscends(t, children[i], enums, below) {
        var c := children[i];
        ChildSegments(t, enums, c);
        if CollectedChild(c, enums, below).Ok? {
          BelowShrinks(t, enums, active, c);
          ResolvingPathsAscend(c.valueType, enums, below);
          PrefixedAscends(t, enums, c, Collected(c.valueType, enums, below).value);
        }
      }
      ChildrenAscend(t, enums);
      AllAscend(t, children, |children|, enums, below, bound);
      if t.RecordType? {
        RootFirst(t, children, enums, below, bound);
      }
    }
  }

  /** A record's own path comes before its components' paths. */
  lemma {:induction false} RootFirst(t: ValueType, children: seq<Child>, enums: seq<EnumDefinition>, active: set<nat>,
                                     bound: nat)
    requires forall i | 0 <= i < |children| :: TypeSize(children[i].valueType) < bound
    requires CollectedAll(children, |children|, enums, active, bound).Ok?
    requires ResolvingAscend(CollectedAll(children, |children|, enums, active, bound).value, t, enums)
    requires forall i | 0 <= i < |children| :: ChildAscends(t, children[i], enums, active)
    ensures ResolvingAscend([[]] + CollectedAll(children, |children|, enums, active, bound).value, t, enums)
  {
    var all, root: seq<Path> := CollectedAll(children, |children|, enums, active, bound).value, [[]];
    forall q | q in all ensures PathLess([], q) {
      var i := SourceChild(children, |children|, enums, active, bound, q);
      assert ChildAscends(t, children[i], enums, active);
      ChildPaths(children[i], enums, active, q);
    }
    ResolvingJoin(root, all, t, enums);
  }

  /** Without hidden records every emitted path resolves, so all of them increase. */
  lemma {:induction false} EmittedAscend(t: ValueType, enums: seq<EnumDefinition>, active: set<nat>)
    requires Collected(t, enums, active).Ok? && !HidesRecord(t, enums)
    ensures Ascending(Collected(t, enums, active).value)
  {
    var paths := Collected(t, enums, active).value;
    ResolvingPathsAscend(t, enums, active);
    forall i, j | 0 <= i < j < |paths| ensures PathLess(paths[i], paths[j]) {
      ExactPath(t, enums, active, paths[i]);
      ExactPath(t, enums, active, paths[j]);
    }
  }

  // ----- the exact condition -----

  /** Paths do not enter a wrapper, so none through it leads to a record. */
  lemma {:induction false} BeyondWrapper(t: ValueType, enums: seq<EnumDefinition>, p: Path, wrapper: ValueType, q: Path)
    requires LiesAt(t, p, wrapper, enums) && IsWrapper(wrapper)
    ensures !RecordAt(t, p + q, enums)
    decreases |p|
  {
    if p == [] {
      assert p + q == q;
      WrapperBlocks(t, q, enums);
    } else {
      var part :| Holds(t, p[0], part, enums) && LiesAt(part, p[1..], wrapper, enums);
      BeyondWrapper(part, enums, p[1..], wrapper, q);
      assert (p + q)[0] == p[0] && (p + q)[1..] == p[1..] + q;
      RecordAtStep(t, p + q, enums, part);
    }
  }

  lemma {:induction false} BelowJoin(t: ValueType, enums: seq<EnumDefinition>, p: Path, u: ValueType, q: Path)
    requires LiesAt(t, p, u, enums) && RecordBelow(u, q, enums)
    ensures RecordBelow(t, p + q, enums)
    decreases |p|
  {
    if p == [] {
      assert p + q == q;
    } else {
      var part :| Holds(t, p[0], part, enums) && LiesAt(part, p[1..], u, enums);
      BelowJoin(part, enums, p[1..], u, q);
      assert (p + q)[0] == p[0] && (p + q)[1..] == p[1..] + q;
    }
  }

  /** A hidden record is emitted under a path at which no record lies. */
  lemma {:induction false} HiddenIsEmitted(t: ValueType, enums: seq<EnumDefinition>, active: set<nat>) returns (p: Path)
    requires Collected(t, enums, active).Ok? && HidesRecord(t, enums)
    ensures p in Collected(t, enums, active).value && !RecordAt(t, p, enums)
  {
    var way, wrapper, q :| LiesAt(t, way, wrapper, enums) && IsWrapper(wrapper) && RecordBelow(wrapper, q, enums);
    p := way + q;
    BeyondWrapper(t, enums, way, wrapper, q);
    BelowJoin(t, enums, way, wrapper, q);
    EmittedIff(t, enums, active, p);
  }

  /** Whenever the traversal succeeds, it emits exactly the resolving paths, in
      strictly increasing order, if and only if no record is hidden. */
  lemma {:induction false} PathsAreExactIff(t: ValueType, enums: seq<EnumDefinition>)
    requires Collected(t, enums, {}).Ok?
    ensures var paths := Collected(t, enums, {}).value;
            !HidesRecord(t, enums) <==> (Ascending(paths) && forall p :: p in paths <==> RecordAt(t, p, enums))
  {
    var paths := Collected(t, enums, {}).value;
    if !HidesRecord(t, enums) {
      EmittedAscend(t, enums, {});
      forall p ensures p in paths <==> RecordAt(t, p, enums) {
        ExactPath(t, enums, {}, p);
      }
    } else {
      var p := HiddenIsEmitted(t, enums, {});
    }
  }

  /** The paths list every record of the schema, and when none is hidden they are
      the paths at which a record lies, in strictly increasing order. */
  ghost predicate RecordsOf(t: ValueType, enums: seq<EnumDefinition>, paths: seq<Path>) {
    && (forall p :: p in paths <==> RecordBelow(t, p, enums))
    && (!HidesRecord(t, enums) <==> (Ascending(paths) && forall p :: p in paths <==> RecordAt(t, p, enums)))
  }

  lemma {:induction false} FoundAre(t: ValueType, enums: seq<EnumDefinition>)
    requires Collected(t, enums, {}).Ok?
    ensures RecordsOf(t, enums, Collected(t, enums, {}).value)
  {
    forall p ensures p in Collected(t, enums, {}).value <==> RecordBelow(t, p, enums) {
      EmittedIff(t, enums, {}, p);
    }
    PathsAreExactIff(t, enums);
  }

  /** The results of the first n parameters, one after the other. */
  ghost predicate InTurn(ps: seq<ValueType>, n: nat, enums: seq<EnumDefinition>, active: set<nat>, paths: seq<Path>)
    requires n <= |ps|
  {
    if n == 0 then paths == []
    else exists before, last ::
      paths == before + last && InTurn(ps, n - 1, enums, active, before) &&
      Collected(ps[n - 1], enums, active) == Ok(last)
  }

  lemma {:induction false} ParametersInTurn(children: seq<Child>, ps: seq<ValueType>, n: nat,
                                            enums: seq<EnumDefinition>, active: set<nat>, bound: nat)
    requires n <= |ps| < |children| && forall i | 0 <= i < |children| :: TypeSize(children[i].valueType) < bound
    requires forall i | 0 <= i < |ps| :: children[i] == Child(None, ps[i])
    requires CollectedAll(children, n, enums, active, bound).Ok?
    ensures InTurn(ps, n, enums, active, CollectedAll(children, n, enums, active, bound).value)
    decreases n
  {
    if n > 0 {
      LastPlain(children, n - 1, ps[n - 1], enums, active, bound);
      ParametersInTurn(children, ps, n - 1, enums, active, bound);
    }
  }

  /** A function type emits what its parameters hold, in their order, and then what its
      result holds. */
  lemma {:induction false} FunctionInTurn(t: ValueType, enums: seq<EnumDefinition>, active: set<nat>)
    returns (before: seq<Path>, last: seq<Path>)
    requires t.FunctionType? && Collected(t, enums, active).Ok?
    ensures Collected(t, enums, active).value == before + last
    ensures InTurn(t.parameters, |t.parameters|, enums, active, before)
    ensures Collected(t.returnType, enums, active) == Ok(last)
  {
    var children, n := Children(t, enums), |t.parameters|;
    FunctionChildren(t, enums);
    assert Collected(t, enums, active) == CollectedAll(children, n + 1, enums, active, TypeSize(t));
    LastPlain(children, n, t.returnType, enums, active, TypeSize(t));
    before := CollectedAll(children, n, enums, active, TypeSize(t)).value;
    last := Collected(t.returnType, enums, active).value;
    ParametersInTurn(children, t.parameters, n, enums, active, TypeSize(t));
  }

  lemma {:induction false} FunctionChildren(t: ValueType, enums: seq<EnumDefinition>)
    requires t.FunctionType?
    ensures |Children(t, enums)| == |t.parameters| + 1
    ensures Children(t, enums)[|t.parameters|] == Child(None, t.returnType)
    ensures forall i | 0 <= i < |t.parameters| :: Children(t, enums)[i] == Child(None, t.parameters[i])
  {
  }

  lemma {:induction false} LastPlain(children: seq<Child>, n: nat, u: ValueType, enums: seq<EnumDefinition>,
                                     active: set<nat>, bound: nat)
    requires n < |children| && forall i | 0 <= i < |children| :: TypeSize(children[i].valueType) < bound
    requires children[n] == Child(None, u) && CollectedAll(children, n + 1, enums, active, bound).Ok?
    ensures CollectedAll(children, n, enums, active, bound).Ok? && Collected(u, enums, active).Ok?
    ensures CollectedAll(children, n + 1, enums, active, bound).value ==
            CollectedAll(children, n, enums, active, bound).value + Collected(u, enums, active).value
  {
  }

  /** A record that an entry schema can hide: the boundary check does not look into
      enums, so a variant may carry a future of an empty record. */
  lemma {:induction false} HiddenRecordExample()
    ensures var enums := [EnumDefinition([], [EnumVariant([], TuplePayload([FutureType(RecordType([]))]))])];
            var p := [EnumPayload(0, 0)];
            Collected(EnumRef(0), enums, {}) == Ok([p]) && !RecordAt(EnumRef(0), p, enums) &&
                HidesRecord(EnumRef(0), enums)
  {
    var future := FutureType(RecordType([]));
    var enums := [EnumDefinition([], [EnumVariant([], TuplePayload([future]))])];
    FutureOfRecord(enums, {0});
    EnumOfOne(enums, future);
    WrapperBlocks(future, [], enums);
    EmittedUnresolved(EnumRef(0), enums, [EnumPayload(0, 0)]);
  }

  /** An emitted path that does not resolve betrays a hidden record. */
  lemma {:induction false} EmittedUnresolved(t: ValueType, enums: seq<EnumDefinition>, p: Path)
    requires Collected(t, enums, {}).Ok? && p in Collected(t, enums, {}).value && !RecordAt(t, p, enums)
    ensures HidesRecord(t, enums)
  {
    if !HidesRecord(t, enums) { ExactPath(t, enums, {}, p); }
  }

  /** An enum with a single variant of one component, which emits its own path. */
  lemma {:induction false} EnumOfOne(enums: seq<EnumDefinition>, t: ValueType)
    requires |enums| == 1 && enums[0].variants == [EnumVariant([], TuplePayload([t]))] &&
             Collected(t, enums, {0}) == Ok([[]])
    ensures Collected(EnumRef(0), enums, {}) == Ok([[EnumPayload(0, 0)]])
    ensures RecordAt(EnumRef(0), [EnumPayload(0, 0)], enums) <==> RecordAt(t, [], enums)
  {
    var s, variants := EnumPayload(0, 0), enums[0].variants;
    var child := Child(Some(s), t);
    assert variants[..0] == [];
    assert EnumChildren(variants) == [child];
    NamedChild(s, t, enums, {0});
    OnlyChild(child, enums, {0}, SizeBound([child]));
    assert {} + {0} == {0};
    assert [s][1..] == [] && StepType(EnumRef(0), s, enums) == Some(t);
  }

  lemma {:induction false} NamedChild(s: Segment, t: ValueType, enums: seq<EnumDefinition>, active: set<nat>)
    requires SegmentFits(s) && Collected(t, enums, active) == Ok([[]])
    ensures CollectedChild(Child(Some(s), t), enums, active) == Ok([[s]])
  {
    var root: seq<Path> := [[]];
    var r := Prefixed(Some(s), root);
    assert r[0] == [s] + [] == [s];
    assert r == [[s]];
  }

  lemma {:induction false} OnlyChild(c: Child, enums: seq<EnumDefinition>, active: set<nat>, bound: nat)
    requires TypeSize(c.valueType) < bound && CollectedChild(c, enums, active).Ok?
    ensures CollectedAll([c], 1, enums, active, bound) == CollectedChild(c, enums, active)
  {
    assert CollectedAll([c], 0, enums, active, bound) == Ok([]);
    assert [] + CollectedChild(c, enums, active).value == CollectedChild(c, enums, active).value;
  }

  /** A future of an empty record emits its own path. */
  lemma {:induction false} FutureOfRecord(enums: seq<EnumDefinition>, active: set<nat>)
    ensures Collected(FutureType(RecordType([])), enums, active) == Ok([[]])
  {
    var inner := RecordType([]);
    var child, root: seq<Path> := Child(None, inner), [[]];
    assert Children(inner, enums) == [] && root + [] == root;
    assert Collected(inner, enums, active) == Ok(root);
    assert CollectedChild(child, enums, active) == Ok(root);
    OnlyChild(child, enums, active, TypeSize(FutureType(inner)));
    assert Children(FutureType(inner), enums) == [child];
  }
}
