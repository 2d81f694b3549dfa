/** The artifact's string and type tables: every collected type is stored once,
    ordered by its encoded key, and referred to by its position. */
module Interning {
  import opened Wrappers
  import opened Collections
  import opened ValueTypes
  import opened TextOrder
  import opened TypeCodec
  import opened TypeReader

  datatype KeyedType = KeyedType(key: seq<byte>, valueType: ValueType)

  datatype TypeTable = TypeTable(types: seq<ValueType>, ids: map<seq<byte>, u32>)

  datatype InternError = NotEncodable | TableLimit | NodeLimit

  // ----- strings -----

  /** Numbers the string table, unless a position does not fit 32 bits. */
  method StringIds(strings: seq<Text>) returns (r: Option<map<Text, u32>>)
    requires forall i, j | 0 <= i < j < |strings| :: strings[i] != strings[j]
    ensures r.Some? <==> |strings| <= 0x1_0000_0000
    ensures r.Some? ==> SameStrings(r.value, strings) && Injective(Wire(r.value))
    ensures r.Some? ==> forall i | 0 <= i < |strings| :: strings[i] in r.value && r.value[strings[i]] == i
  {
    if |strings| > 0x1_0000_0000 { return None; }
    var ids: map<Text, u32> := map[];
    for i := 0 to |strings|
      invariant SameStrings(ids, strings)
      invariant forall j | 0 <= j < i :: strings[j] in ids && ids[strings[j]] == j
    {
      ids := ids[strings[i] := i];
    }
    forall a, b | a in ids && b in ids && ids[a] == ids[b] ensures a == b {
      assert strings[ids[a]] == a && strings[ids[b]] == b;
    }
    r := Some(ids);
  }

  // ----- sorting by key -----

  ghost predicate Sorted(items: seq<KeyedType>) {
    forall i, j | 0 <= i < j < |items| :: !TextLess(items[j].key, items[i].key)
  }

  ghost predicate StrictlySorted(items: seq<KeyedType>) {
    forall i, j | 0 <= i < j < |items| :: TextLess(items[i].key, items[j].key)
  }

  lemma {:induction false} NotLessTransitive(a: Text, b: Text, c: Text)
    requires !TextLess(b, a) && !TextLess(c, b)
    ensures !TextLess(c, a)
  {
    TextTotal(a, b);
    TextTotal(b, c);
    TextIrreflexive(a);
    if TextLess(c, a) && a != b && b != c {
      TextTransitive(a, b, c);
      TextTotal(a, c);
    }
  }

  /** Places one item behind every item whose key is not greater. */
  method Insert(sorted: seq<KeyedType>, item: KeyedType) returns (r: seq<KeyedType>)
    requires Sorted(sorted)
    ensures Sorted(r) && multiset(r) == multiset(sorted) + multiset{item}
  {
    var k := |sorted|;
    while k > 0 && TextLess(item.key, sorted[k - 1].key)
      invariant 0 <= k <= |sorted|
      invariant forall i | k <= i < |sorted| :: TextLess(item.key, sorted[i].key)
    {
      k := k - 1;
    }
    r := sorted[..k] + [item] + sorted[k..];
    InsertKeeps(sorted, item, k);
    InsertSorted(sorted, item, k);
  }

  lemma {:induction false} InsertKeeps(sorted: seq<KeyedType>, item: KeyedType, k: nat)
    requires k <= |sorted|
    ensures multiset(sorted[..k] + [item] + sorted[k..]) == multiset(sorted) + multiset{item}
  {
    assert sorted == sorted[..k] + sorted[k..];
  }

  lemma {:induction false} InsertSorted(sorted: seq<KeyedType>, item: KeyedType, k: nat)
    requires Sorted(sorted) && k <= |sorted|
    requires k > 0 ==> !TextLess(item.key, sorted[k - 1].key)
    requires forall i | k <= i < |sorted| :: TextLess(item.key, sorted[i].key)
    ensures Sorted(sorted[..k] + [item] + sorted[k..])
  {
    var r := sorted[..k] + [item] + sorted[k..];
    forall i, j | 0 <= i < j < |r| ensures !TextLess(r[j].key, r[i].key) {
      if j == k {
        if i < k - 1 { NotLessTransitive(sorted[i].key, sorted[k - 1].key, item.key); }
      } else if i == k {
        TextTotal(item.key, r[j].key);
      }
    }
  }

  method Sort(items: seq<KeyedType>) returns (sorted: seq<KeyedType>)
    ensures Sorted(sorted) && multiset(sorted) == multiset(items)
  {
    sorted := [];
    for i := 0 to |items|
      invariant Sorted(sorted) && multiset(sorted) == multiset(items[..i])
    {
      sorted := Insert(sorted, items[i]);
      assert items[..i + 1] == items[..i] + [items[i]];
    }
    assert items[..|items|] == items;
  }

  ghost predicate HasKey(items: seq<KeyedType>, key: seq<byte>) {
    exists i | 0 <= i < |items| :: items[i].key == key
  }

  /** Keeps the first item of every run of equal keys. */
  method DedupByKey(sorted: seq<KeyedType>) returns (r: seq<KeyedType>)
    requires Sorted(sorted)
    ensures StrictlySorted(r) && forall x | x in r :: x in sorted
    ensures forall i | 0 <= i < |sorted| :: HasKey(r, sorted[i].key)
  {
    r := [];
    for i := 0 to |sorted|
      invariant StrictlySorted(r) && forall x | x in r :: x in sorted
      invariant i > 0 ==> r != [] && r[|r| - 1].key == sorted[i - 1].key
      invariant i == 0 ==> r == []
      invariant forall j | 0 <= j < i :: HasKey(r, sorted[j].key)
    {
      ghost var before := r;
      if r == [] || r[|r| - 1].key != sorted[i].key {
        if r != [] {
          TextTotal(r[|r| - 1].key, sorted[i].key);
          Extends(r, sorted[i]);
        }
        r := r + [sorted[i]];
      }
      forall j | 0 <= j < i + 1 ensures HasKey(r, sorted[j].key) {
        if j < i {
          var k :| 0 <= k < |before| && before[k].key == sorted[j].key;
          assert r[k].key == sorted[j].key;
        } else {
          assert r[|r| - 1].key == sorted[j].key;
        }
      }
    }
  }

  lemma {:induction false} Extends(r: seq<KeyedType>, item: KeyedType)
    requires StrictlySorted(r) && r != [] && TextLess(r[|r| - 1].key, item.key)
    ensures StrictlySorted(r + [item])
  {
    var s := r + [item];
    forall i, j | 0 <= i < j < |s| ensures TextLess(s[i].key, s[j].key) {
      if j == |r| && i < |r| - 1 { TextTransitive(r[i].key, r[|r| - 1].key, item.key); }
    }
  }

  // ----- the type table -----

  /** The table holds exactly the collected types, by strictly increasing key, and
      the identifiers are the positions. */
  ghost predicate IsTable(strings: map<Text, u32>, collected: seq<ValueType>, table: TypeTable) {
    && (forall t | t in table.types :: t in collected && Encodable(Wire(strings), t))
    && (forall t | t in collected :: t in table.types)
    && (forall i, j | 0 <= i < j < |table.types| ::
          TextLess(Encode(Wire(strings), table.types[i]), Encode(Wire(strings), table.types[j])))
    && Numbered(strings, table)
  }

  ghost predicate Numbered(strings: map<Text, u32>, table: TypeTable)
    requires forall t | t in table.types :: Encodable(Wire(strings), t)
  {
    && (forall i | 0 <= i < |table.types| ::
          Encode(Wire(strings), table.types[i]) in table.ids && table.ids[Encode(Wire(strings), table.types[i])] == i)
    && (forall key | key in table.ids ::
          table.ids[key] < |table.types| && Encode(Wire(strings), table.types[table.ids[key]]) == key)
  }

  function TypeId(strings: map<Text, u32>, ids: map<seq<byte>, u32>, t: ValueType): Option<u32> {
    var key := EncodeType(Wire(strings), t);
    if key.None? || key.value !in ids then None else Some(ids[key.value])
  }

  method KeyTypes(strings: map<Text, u32>, collected: seq<ValueType>) returns (r: Option<seq<KeyedType>>)
    ensures r.Some? <==> forall t | t in collected :: Encodable(Wire(strings), t)
    ensures r.Some? ==>
              |r.value| == |collected| && forall i | 0 <= i < |collected| ::
                r.value[i].valueType == collected[i] && Keyed(strings, r.value[i])
  {
    var keyed: seq<KeyedType> := [];
    for i := 0 to |collected|
      invariant |keyed| == i
      invariant forall j | 0 <= j < i :: keyed[j].valueType == collected[j] && Keyed(strings, keyed[j])
    {
      assert collected[i] in collected;
      var key := EncodeType(Wire(strings), collected[i]);
      if key.None? { return None; }
      keyed := keyed + [KeyedType(key.value, collected[i])];
    }
    r := Some(keyed);
  }

  // ----- expanded nodes -----

  /** The nodes the encoder counts; it does not look into sequences. */
  function TypeNodes(t: ValueType): nat
    decreases TypeSize(t), 0
  {
    1 +
    match t
    case ListType(e) => TypeNodes(e)
    case OptionType(e) => TypeNodes(e)
    case FutureType(e) => TypeNodes(e)
    case TaskType(e) => TypeNodes(e)
    case NewtypeType(_, u) => TypeNodes(u)
    case MapType(k, v) => TypeNodes(k) + TypeNodes(v)
    case ResultType(o, e) => TypeNodes(o) + TypeNodes(e)
    case TupleType(es) => AllNodes(es)
    case RecordType(fs) => FieldNodes(fs)
    case FunctionType(ps, r, _) => TypeNodes(r) + AllNodes(ps)
    case _ => 0
  }

  function AllNodes(ts: seq<ValueType>): nat
    decreases TypeSizes(ts), 1, |ts|
  {
    if ts == [] then 0 else TypeNodes(ts[0]) + AllNodes(ts[1..])
  }

  function FieldNodes(fs: seq<RecordField>): nat
    decreases FieldSizes(fs), 1, |fs|
  {
    if fs == [] then 0 else TypeNodes(fs[0].valueType) + FieldNodes(fs[1..])
  }

  /** The nodes of a set of types, each counted once. */
  ghost function SetNodes(s: set<ValueType>): nat {
    SumOver(NodeWeight(), s)
  }

  function NodeWeight(): ValueType -> nat {
    t => TypeNodes(t)
  }

  method CountNodes(strings: map<Text, u32>, items: seq<KeyedType>) returns (total: nat)
    requires StrictlySorted(items) && forall x | x in items :: Keyed(strings, x)
    ensures total == SetNodes(TypesOf(items))
  {
    total := 0;
    assert TypesOf(items[..0]) == {};
    for i := 0 to |items|
      invariant total == SetNodes(TypesOf(items[..i]))
    {
      CountedNext(strings, items, i);
      total := total + TypeNodes(items[i].valueType);
    }
    assert items[..|items|] == items;
  }

  lemma {:induction false} CountedNext(strings: map<Text, u32>, items: seq<KeyedType>, i: nat)
    requires i < |items| && StrictlySorted(items) && forall x | x in items :: Keyed(strings, x)
    ensures SetNodes(TypesOf(items[..i + 1])) == SetNodes(TypesOf(items[..i])) + TypeNodes(items[i].valueType)
  {
    var front, t := items[..i], items[i].valueType;
    assert items[..i + 1] == front + [items[i]] && items[..i + 1][..i] == front;
    TypesSnoc(front, items[i]);
    NewType(strings, items[..i + 1]);
    SumTake(NodeWeight(), TypesOf(front) + {t}, t);
    assert TypesOf(front) + {t} - {t} == TypesOf(front);
  }

  ghost predicate Keyed(strings: map<Text, u32>, x: KeyedType) {
    Encodable(Wire(strings), x.valueType) && x.key == Encode(Wire(strings), x.valueType)
  }

  method Number(strings: map<Text, u32>, items: seq<KeyedType>) returns (table: TypeTable)
    requires |items| <= 0x1_0000_0000 && StrictlySorted(items) && forall x | x in items :: Keyed(strings, x)
    ensures |table.types| == |items| && (forall i | 0 <= i < |items| ::
                                           table.types[i] == items[i].valueType && Keyed(strings, items[i]))
    ensures (forall t | t in table.types :: Encodable(Wire(strings), t)) && Numbered(strings, table)
  {
    var types: seq<ValueType>, ids: map<seq<byte>, u32> := [], map[];
    for i := 0 to |items|
      invariant |types| == i && forall j | 0 <= j < i :: types[j] == items[j].valueType && Keyed(strings, items[j])
      invariant forall j | 0 <= j < i :: items[j].key in ids && ids[items[j].key] == j
      invariant forall key | key in ids :: ids[key] < i && items[ids[key]].key == key
    {
      forall j | 0 <= j < i ensures items[j].key != items[i].key {
        TextIrreflexive(items[j].key);
      }
      types := types + [items[i].valueType];
      ids := ids[items[i].key := i];
    }
    table := TypeTable(types, ids);
  }

  /** Builds the table, or fails exactly when a type has no encoding or there are
      more distinct types than the table, or 32-bit identifiers, may hold, or they
      have too many nodes. */
  method Intern(strings: map<Text, u32>, collected: seq<ValueType>, tableEntries: nat, expandedNodes: nat)
    returns (r: Result<TypeTable, InternError>)
    requires Injective(Wire(strings))
    ensures r.Ok? ==> IsTable(strings, collected, r.value)
    ensures var distinct := set t | t in collected;
            r.Ok? <==> && (forall t | t in collected :: Encodable(Wire(strings), t))
                       && |distinct| <= tableEntries && |distinct| <= 0x1_0000_0000 &&
                          SetNodes(distinct) <= expandedNodes
  {
    var keyed := KeyTypes(strings, collected);
    if keyed.None? { return Err(NotEncodable); }
    var sorted := Sort(keyed.value);
    SameMembers(sorted, keyed.value);
    var items := DedupByKey(sorted);
    forall x | x in items ensures Keyed(strings, x) && x.valueType in collected {
      assert x in keyed.value;
    }
    Deduplicated(strings, collected, keyed.value, items);
    if |items| > tableEntries || |items| > 0x1_0000_0000 {
      return Err(TableLimit);
    }
    var nodes := CountNodes(strings, items);
    if nodes > expandedNodes {
      return Err(NodeLimit);
    }
    var table := Number(strings, items);
    Tabled(strings, collected, items, table);
    r := Ok(table);
  }

  lemma {:induction false} SameMembers(a: seq<KeyedType>, b: seq<KeyedType>)
    requires multiset(a) == multiset(b)
    ensures forall x :: x in a <==> x in b
  {
    forall x ensures x in a <==> x in b {
      assert x in a <==> x in multiset(a);
      assert x in b <==> x in multiset(b);
    }
  }

  /** Keys determine types, so dropping equal keys drops no type. */
  lemma {:induction false} Deduplicated(strings: map<Text, u32>, collected: seq<ValueType>, keyed: seq<KeyedType>,
                                        items: seq<KeyedType>)
    requires Injective(Wire(strings)) && StrictlySorted(items) && |keyed| == |collected|
    requires forall i | 0 <= i < |collected| :: keyed[i].valueType == collected[i] && Keyed(strings, keyed[i])
    requires forall x | x in items :: Keyed(strings, x) && x.valueType in collected
    requires forall x | x in keyed :: HasKey(items, x.key)
    ensures forall t | t in collected :: exists i | 0 <= i < |items| :: items[i].valueType == t
    ensures |items| == |set t | t in collected| && TypesOf(items) == set t | t in collected
  {
    forall t | t in collected ensures exists i | 0 <= i < |items| :: items[i].valueType == t {
      var k :| 0 <= k < |collected| && collected[k] == t;
      assert keyed[k] in keyed;
      var i :| 0 <= i < |items| && items[i].key == keyed[k].key;
      assert items[i] in items;
      KeyInjective(strings, t, items[i].valueType);
    }
    DistinctTypes(strings, items);
    assert TypesOf(items) == set t | t in collected;
  }

  lemma {:induction false} KeyInjective(strings: map<Text, u32>, t: ValueType, u: ValueType)
    requires Injective(Wire(strings)) && Encodable(Wire(strings), t) && Encodable(Wire(strings), u) &&
             Encode(Wire(strings), t) == Encode(Wire(strings), u)
    ensures t == u
  {
    assert Encode(Wire(strings), t) + [] == Encode(Wire(strings), u) + [];
    TypePrefixFree(Wire(strings), t, [], u, []);
  }

  ghost function TypesOf(items: seq<KeyedType>): set<ValueType> {
    set x | x in items :: x.valueType
  }

  lemma {:induction false} TypesSnoc(items: seq<KeyedType>, last: KeyedType)
    ensures TypesOf(items + [last]) == TypesOf(items) + {last.valueType}
  {
    var all := items + [last];
    assert forall x :: x in all <==> x in items || x == last;
  }

  lemma {:induction false} DistinctTypes(strings: map<Text, u32>, items: seq<KeyedType>)
    requires StrictlySorted(items) && forall x | x in items :: Keyed(strings, x)
    ensures |TypesOf(items)| == |items|
    decreases |items|
  {
    if items == [] {
      assert TypesOf(items) == {};
    } else {
      var front, last := items[..|items| - 1], items[|items| - 1];
      assert items == front + [last];
      DistinctTypes(strings, front);
      TypesSnoc(front, last);
      NewType(strings, items);
    }
  }

  /** The last of strictly sorted items has a type of its own. */
  lemma {:induction false} NewType(strings: map<Text, u32>, items: seq<KeyedType>)
    requires items != [] && StrictlySorted(items) && forall x | x in items :: Keyed(strings, x)
    ensures items[|items| - 1].valueType !in TypesOf(items[..|items| - 1])
  {
    var n := |items| - 1;
    forall x | x in items[..n] ensures x.valueType != items[n].valueType {
      var i :| 0 <= i < n && items[i] == x;
      assert Keyed(strings, items[i]) && Keyed(strings, items[n]) && TextLess(items[i].key, items[n].key);
      TextIrreflexive(items[i].key);
    }
  }

  lemma {:induction false} Tabled(strings: map<Text, u32>, collected: seq<ValueType>, items: seq<KeyedType>,
                                  table: TypeTable)
    requires StrictlySorted(items) && |table.types| == |items|
    requires forall i | 0 <= i < |items| :: table.types[i] == items[i].valueType && Keyed(strings, items[i])
    requires forall x | x in items :: x.valueType in collected
    requires forall t | t in collected :: exists i | 0 <= i < |items| :: items[i].valueType == t
    requires (forall t | t in table.types :: Encodable(Wire(strings), t)) && Numbered(strings, table)
    ensures IsTable(strings, collected, table)
  {
    forall t | t in table.types ensures t in collected {
      var i :| 0 <= i < |items| && table.types[i] == t;
      assert items[i] in items;
    }
    forall t | t in collected ensures t in table.types {
      var i :| 0 <= i < |items| && items[i].valueType == t;
      assert table.types[i] == t;
    }
  }

  /** Interning loses nothing: an identifier is given to the collected types alone,
      and the table holds the type at its identifier. */
  lemma {:induction false} InterningIsLossless(strings: map<Text, u32>, collected: seq<ValueType>, table: TypeTable,
                                               t: ValueType)
    requires Injective(Wire(strings)) && IsTable(strings, collected, table)
    ensures TypeId(strings, table.ids, t).Some? <==> t in collected
    ensures TypeId(strings, table.ids, t).Some? ==>
              var id := TypeId(strings, table.ids, t).value; id < |table.types| && table.types[id] == t
  {
    if TypeId(strings, table.ids, t).Some? {
      var key := Encode(Wire(strings), t);
      var u := table.types[table.ids[key]];
      assert u in table.types;
      KeyInjective(strings, t, u);
    }
    if t in collected {
      var i :| 0 <= i < |table.types| && table.types[i] == t;
      assert Encode(Wire(strings), table.types[i]) in table.ids;
    }
  }
}
