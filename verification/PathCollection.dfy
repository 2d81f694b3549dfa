/** When enumerating the record paths of a schema succeeds: the traversal follows every
    chain of types each directly made of the next. */
module PathCollection {
  import opened Wrappers
  import opened Collections
  import opened ValueTypes
  import opened RecordPaths
  import opened RecordPathLaws

  ghost predicate Component(t: ValueType, u: ValueType, enums: seq<EnumDefinition>) {
    Wraps(t, u) || exists s :: Holds(t, s, u, enums)
  }

  /** Types from `t` down, each directly made of the next. */
  ghost predicate Chain(t: ValueType, chain: seq<ValueType>, enums: seq<EnumDefinition>)
    decreases |chain|
  {
    && chain != [] && chain[0] == t
    && (|chain| == 1 || (Component(t, chain[1], enums) && Chain(chain[1], chain[1..], enums)))
  }

  ghost predicate Index32(s: Segment) {
    && (s.Field? || s.TupleElement? ==> s.index < 0x1_0000_0000)
    && (s.EnumPayload? ==> s.variant < 0x1_0000_0000 && s.element < 0x1_0000_0000)
  }

  /** An enum in range, and components numbered by 32-bit indices. */
  ghost predicate Numbered(t: ValueType, enums: seq<EnumDefinition>) {
    && (t.EnumRef? ==> t.id < |enums|)
    && forall s, u | Holds(t, s, u, enums) :: Index32(s)
  }

  /** Every type on the chain is numbered, and no enum comes back. */
  ghost predicate GoodChain(chain: seq<ValueType>, enums: seq<EnumDefinition>, active: set<nat>) {
    && (forall i | 0 <= i < |chain| :: Numbered(chain[i], enums))
    && (forall i | 0 <= i < |chain| && chain[i].EnumRef? :: chain[i].id !in active)
    && forall i, j | 0 <= i < j < |chain| && chain[j].EnumRef? :: chain[i] != chain[j]
  }

  ghost predicate Collectable(t: ValueType, enums: seq<EnumDefinition>, active: set<nat>) {
    forall chain | Chain(t, chain, enums) :: GoodChain(chain, enums, active)
  }

  // ----- one level -----

  lemma {:induction false} AllOkIff(children: seq<Child>, n: nat, enums: seq<EnumDefinition>, active: set<nat>,
                                    bound: nat)
    requires n <= |children| && forall i | 0 <= i < |children| :: TypeSize(children[i].valueType) < bound
    ensures CollectedAll(children, n, enums, active, bound).Ok? <==>
            forall i | 0 <= i < n :: CollectedChild(children[i], enums, active).Ok?
    decreases n
  {
    if n > 0 {
      AllOkIff(children, n - 1, enums, active, bound);
    }
  }

  /** The enum is not on the way down, and exists. */
  ghost predicate Enterable(t: ValueType, enums: seq<EnumDefinition>, active: set<nat>) {
    t.EnumRef? ==> t.id !in active && t.id < |enums|
  }

  lemma {:induction false} OkIff(t: ValueType, enums: seq<EnumDefinition>, active: set<nat>)
    ensures Collected(t, enums, active).Ok? <==>
            && Enterable(t, enums, active)
            && forall c | c in Children(t, enums) :: CollectedChild(c, enums, ActiveBelow(t, active)).Ok?
  {
    if Enterable(t, enums, active) {
      var children := Children(t, enums);
      if t.EnumRef? {
        VisitShrinks(enums, active, t.id);
      }
      AllOkIff(children, |children|, enums, ActiveBelow(t, active),
               if t.EnumRef? then SizeBound(children) else TypeSize(t));
    }
  }

  lemma {:induction false} ComponentIsChild(t: ValueType, enums: seq<EnumDefinition>, u: ValueType)
    ensures Component(t, u, enums) <==> exists c | c in Children(t, enums) :: c.valueType == u
  {
    WrapIsChild(t, enums, u);
    if s :| Holds(t, s, u, enums) {
      StepIsChild(t, s, enums, u);
    }
    if c :| c in Children(t, enums) && c.valueType == u && c.segment.Some? {
      StepIsChild(t, c.segment.value, enums, u);
    }
    if c :| c in Children(t, enums) && c.valueType == u && c.segment.None? {
      assert c == Child(None, u);
    }
  }

  lemma {:induction false} NumberedIff(t: ValueType, enums: seq<EnumDefinition>)
    ensures Numbered(t, enums) <==>
            && (t.EnumRef? ==> t.id < |enums|)
            && forall c | c in Children(t, enums) && c.segment.Some? :: SegmentFits(c.segment.value)
  {
    forall s, u ensures Holds(t, s, u, enums) <==> Child(Some(s), u) in Children(t, enums) {
      StepIsChild(t, s, enums, u);
    }
    forall s ensures Index32(s) <==> SegmentFits(s) {
    }
    if Numbered(t, enums) {
      forall c | c in Children(t, enums) && c.segment.Some? ensures SegmentFits(c.segment.value) {
        assert c == Child(Some(c.segment.value), c.valueType);
        assert Holds(t, c.segment.value, c.valueType, enums);
      }
    }
  }

  // ----- chains -----

  lemma {:induction false} ChainMore(t: ValueType, u: ValueType, chain: seq<ValueType>, enums: seq<EnumDefinition>)
    requires Component(t, u, enums) && Chain(u, chain, enums)
    ensures Chain(t, [t] + chain, enums)
  {
    assert ([t] + chain)[1..] == chain;
  }

  lemma {:induction false} GoodMore(t: ValueType, chain: seq<ValueType>, enums: seq<EnumDefinition>, active: set<nat>)
    requires chain != []
    ensures GoodChain([t] + chain, enums, active) <==>
            Numbered(t, enums) && (t.EnumRef? ==> t.id !in active) && GoodChain(chain, enums, ActiveBelow(t, active))
  {
    var all := [t] + chain;
    assert all[0] == t && forall i | 0 <= i < |chain| :: chain[i] == all[i + 1];
    if GoodChain(all, enums, active) {
      forall i | 0 <= i < |chain| && chain[i].EnumRef? ensures chain[i].id !in ActiveBelow(t, active) {
        assert all[0] != all[i + 1];
      }
      forall i, j | 0 <= i < j < |chain| && chain[j].EnumRef? ensures chain[i] != chain[j] {
        assert all[i + 1] != all[j + 1];
      }
    }
    if Numbered(t, enums) && (t.EnumRef? ==> t.id !in active) && GoodChain(chain, enums, ActiveBelow(t, active)) {
      forall i, j | 0 <= i < j < |all| && all[j].EnumRef? ensures all[i] != all[j] {
        assert all[j] == chain[j - 1];
        assert i > 0 ==> all[i] == chain[i - 1];
      }
    }
  }

  lemma {:induction false} Shrinks(t: ValueType, enums: seq<EnumDefinition>, active: set<nat>, c: Child)
    requires Enterable(t, enums, active) && c in Children(t, enums)
    ensures Unvisited(enums, ActiveBelow(t, active)) < Unvisited(enums, active) ||
            (ActiveBelow(t, active) == active && TypeSize(c.valueType) < TypeSize(t))
  {
    if t.EnumRef? {
      VisitShrinks(enums, active, t.id);
    }
  }

  /** The enumeration succeeds exactly when, along every chain of the schema, enums
      exist, none comes back and components are numbered by 32-bit indices. */
  lemma {:induction false} CollectsIff(t: ValueType, enums: seq<EnumDefinition>, active: set<nat>)
    ensures Collected(t, enums, active).Ok? <==> Collectable(t, enums, active)
    decreases Unvisited(enums, active), TypeSize(t)
  {
    var below := ActiveBelow(t, active);
    OkIff(t, enums, active);
    NumberedIff(t, enums);
    if Enterable(t, enums, active) {
      forall c | c in Children(t, enums)
        ensures Collected(c.valueType, enums, below).Ok? <==> Collectable(c.valueType, enums, below)
      {
        Shrinks(t, enums, active, c);
        CollectsIff(c.valueType, enums, below);
      }
    }
    if Collected(t, enums, active).Ok? {
      ChainsAreGood(t, enums, active);
    }
    if Collectable(t, enums, active) {
      RootIsGood(t, enums, active);
      forall c | c in Children(t, enums) ensures CollectedChild(c, enums, below).Ok? {
        ComponentIsChild(t, enums, c.valueType);
        RestIsGood(t, c.valueType, enums, active);
      }
    }
  }

  lemma {:induction false} RootIsGood(t: ValueType, enums: seq<EnumDefinition>, active: set<nat>)
    requires Collectable(t, enums, active)
    ensures Numbered(t, enums) && Enterable(t, enums, active)
  {
    assert Chain(t, [t], enums);
    assert [t][0] == t;
  }

  lemma {:induction false} RestIsGood(t: ValueType, u: ValueType, enums: seq<EnumDefinition>, active: set<nat>)
    requires Collectable(t, enums, active) && Component(t, u, enums)
    ensures Collectable(u, enums, ActiveBelow(t, active))
  {
    forall chain | Chain(u, chain, enums) ensures GoodChain(chain, enums, ActiveBelow(t, active)) {
      ChainMore(t, u, chain, enums);
      GoodMore(t, chain, enums, active);
    }
  }

  lemma {:induction false} ChainsAreGood(t: ValueType, enums: seq<EnumDefinition>, active: set<nat>)
    requires Enterable(t, enums, active) && Numbered(t, enums)
    requires forall c | c in Children(t, enums) :: Collectable(c.valueType, enums, ActiveBelow(t, active))
    ensures Collectable(t, enums, active)
  {
    forall chain | Chain(t, chain, enums) ensures GoodChain(chain, enums, active) {
      if |chain| > 1 {
        ComponentIsChild(t, enums, chain[1]);
        assert chain == [t] + chain[1..];
        GoodMore(t, chain[1..], enums, active);
      }
    }
  }
}
