/** Reading value types back from the wire, within depth, table and budget limits. */
module TypeReader {
  import opened Wrappers
  import opened ValueTypes
  import opened TypeCodec

  /** The limits a type meets, and the model sizes the reader charges. */
  datatype Limits = Limits(typeDepth: nat, tableEntries: nat, typeBytes: nat, fieldBytes: nat)

  datatype Budget = Budget(bytes: nat, nodes: nat)

  datatype ReadError = Truncated | OverLimit | InvalidScalar

  /** What was read, the bytes behind it, and the budget left. */
  datatype Parsed<+T> = Parsed(value: T, rest: seq<byte>, budget: Budget)

  // ----- scalars -----

  function ReadU32(input: seq<byte>, budget: Budget): (r: Result<Parsed<u32>, ReadError>)
    ensures r.Ok? ==> |r.value.rest| < |input| && r.value.budget == budget
  {
    if |input| < 4 then Err(Truncated)
    else
      NumberInRange(input[..4]);
      var x: u32 := FromLittleEndian(input[..4]);
      Ok(Parsed(x, input[4..], budget))
  }

  lemma {:induction false} NumberInRange(bytes: seq<byte>)
    requires |bytes| == 4
    ensures FromLittleEndian(bytes) < 0x1_0000_0000
  {
    var a, b, c := bytes[1..], bytes[2..], bytes[3..];
    assert a[1..] == b && b[1..] == c && c[1..] == [];
    assert FromLittleEndian(c) == c[0] + 0x100 * FromLittleEndian(c[1..]) < 0x100;
    assert FromLittleEndian(b) == b[0] + 0x100 * FromLittleEndian(c) < 0x1_0000;
    assert FromLittleEndian(a) == a[0] + 0x100 * FromLittleEndian(b) < 0x100_0000;
  }

  lemma {:induction false} ReadsNumber(x: u32, rest: seq<byte>, budget: Budget)
    ensures ReadU32(LittleEndian(x, 4) + rest, budget) == Ok(Parsed(x, rest, budget))
  {
    Capacities();
    var input := LittleEndian(x, 4) + rest;
    assert input[..4] == LittleEndian(x, 4) && input[4..] == rest;
    LittleEndianInverts(x, 4);
  }

  function Charge(budget: Budget, bytes: nat): Result<Budget, ReadError> {
    if budget.bytes < bytes then Err(OverLimit) else Ok(budget.(bytes := budget.bytes - bytes))
  }

  function ReadCount(input: seq<byte>, limits: Limits, itemBytes: nat,
                     budget: Budget): (r: Result<Parsed<nat>, ReadError>)
    ensures r.Ok? ==> |r.value.rest| < |input|
  {
    var n := ReadU32(input, budget);
    if n.Err? then Err(n.error)
    else if n.value.value > limits.tableEntries then Err(OverLimit)
    else
      var left := Charge(budget, n.value.value * itemBytes);
      if left.Err? then Err(left.error) else Ok(Parsed(n.value.value, n.value.rest, left.value))
  }

  function ReadName(input: seq<byte>, strings: seq<Text>, budget: Budget): (r: Result<Parsed<Text>, ReadError>)
    ensures r.Ok? ==> |r.value.rest| < |input|
  {
    var id := ReadU32(input, budget);
    if id.Err? then Err(id.error)
    else if id.value.value >= |strings| then Err(InvalidScalar)
    else
      var name := strings[id.value.value];
      var left := Charge(budget, |name|);
      if left.Err? then Err(left.error) else Ok(Parsed(name, id.value.rest, left.value))
  }

  // ----- types -----

  /** The node and its model bytes are charged before the tag is read. */
  function ReadTag(input: seq<byte>, limits: Limits, depth: nat, budget: Budget): (r: Result<Parsed<byte>, ReadError>)
    ensures r.Ok? ==> |r.value.rest| < |input|
  {
    if depth > limits.typeDepth || budget.nodes == 0 then Err(OverLimit)
    else
      var left := Charge(budget.(nodes := budget.nodes - 1), limits.typeBytes);
      if left.Err? then Err(left.error)
      else if input == [] then Err(Truncated)
      else Ok(Parsed(input[0], input[1..], left.value))
  }

  function ReadType(input: seq<byte>, strings: seq<Text>, limits: Limits, depth: nat,
                    budget: Budget): (r: Result<Parsed<ValueType>, ReadError>)
    ensures r.Ok? ==> |r.value.rest| < |input|
    decreases |input|, 1
  {
    var tag := ReadTag(input, limits, depth, budget);
    if tag.Err? then Err(tag.error)
    else ReadBody(tag.value.value, tag.value.rest, strings, limits, depth, tag.value.budget)
  }

  function ReadBody(tag: byte, input: seq<byte>, strings: seq<Text>, limits: Limits, depth: nat,
                    budget: Budget): (r: Result<Parsed<ValueType>, ReadError>)
    ensures r.Ok? ==> |r.value.rest| <= |input|
    decreases |input|, 2
  {
    if LeafType(tag).Some? then Ok(Parsed(LeafType(tag).value, input, budget))
    else if IsUnary(tag) then
      var x := ReadType(input, strings, limits, depth + 1, budget);
      if x.Err? then x else Ok(x.value.(value := UnaryType(tag, x.value.value)))
    else if IsBinary(tag) then
      var x := ReadType(input, strings, limits, depth + 1, budget);
      if x.Err? then x
      else
        var y := ReadType(x.value.rest, strings, limits, depth + 1, x.value.budget);
        if y.Err? then y else Ok(y.value.(value := BinaryType(tag, x.value.value, y.value.value)))
    else if tag == 9 then
      var es := ReadTypes(input, strings, limits, depth + 1, budget);
      if es.Err? then Err(es.error) else Ok(Parsed(TupleType(es.value.value), es.value.rest, es.value.budget))
    else if tag == 10 then
      var fs := ReadFields(input, strings, limits, depth + 1, budget);
      if fs.Err? then Err(fs.error) else Ok(Parsed(RecordType(fs.value.value), fs.value.rest, fs.value.budget))
    else if tag == 11 then
      var id := ReadU32(input, budget);
      if id.Err? then Err(id.error) else Ok(Parsed(EnumRef(id.value.value), id.value.rest, id.value.budget))
    else if tag == 21 then
      var name := ReadName(input, strings, budget);
      if name.Err? then Err(name.error)
      else
        var x := ReadType(name.value.rest, strings, limits, depth + 1, name.value.budget);
        if x.Err? then x else Ok(x.value.(value := NewtypeType(name.value.value, x.value.value)))
    else if tag == 14 then
      var ps := ReadTypes(input, strings, limits, depth + 1, budget);
      if ps.Err? then Err(ps.error)
      else
        var x := ReadType(ps.value.rest, strings, limits, depth + 1, ps.value.budget);
        if x.Err? then x
        else
          var effects := ReadU32(x.value.rest, x.value.budget);
          if effects.Err? then Err(effects.error)
          else Ok(Parsed(FunctionType(ps.value.value, x.value.value, effects.value.value), effects.value.rest,
                         effects.value.budget))
    else Err(InvalidScalar)
  }

  function ReadTypes(input: seq<byte>, strings: seq<Text>, limits: Limits, depth: nat,
                     budget: Budget): (r: Result<Parsed<seq<ValueType>>, ReadError>)
    ensures r.Ok? ==> |r.value.rest| < |input|
    decreases |input|, 1
  {
    var n := ReadCount(input, limits, limits.typeBytes, budget);
    if n.Err? then Err(n.error)
    else ReadTypeList(n.value.value, n.value.rest, strings, limits, depth, n.value.budget)
  }

  function ReadFields(input: seq<byte>, strings: seq<Text>, limits: Limits, depth: nat,
                      budget: Budget): (r: Result<Parsed<seq<RecordField>>, ReadError>)
    ensures r.Ok? ==> |r.value.rest| < |input|
    decreases |input|, 1
  {
    var n := ReadCount(input, limits, limits.fieldBytes, budget);
    if n.Err? then Err(n.error)
    else ReadFieldList(n.value.value, n.value.rest, strings, limits, depth, n.value.budget)
  }

  function ReadTypeList(n: nat, input: seq<byte>, strings: seq<Text>, limits: Limits, depth: nat,
                        budget: Budget): (r: Result<Parsed<seq<ValueType>>, ReadError>)
    ensures r.Ok? ==> |r.value.rest| <= |input|
    decreases |input|, 2, n
  {
    if n == 0 then Ok(Parsed([], input, budget))
    else
      var x := ReadType(input, strings, limits, depth, budget);
      if x.Err? then Err(x.error)
      else
        var xs := ReadTypeList(n - 1, x.value.rest, strings, limits, depth, x.value.budget);
        if xs.Err? then xs else Ok(xs.value.(value := [x.value.value] + xs.value.value))
  }

  function ReadField(input: seq<byte>, strings: seq<Text>, limits: Limits, depth: nat,
                     budget: Budget): (r: Result<Parsed<RecordField>, ReadError>)
    ensures r.Ok? ==> |r.value.rest| < |input|
    decreases |input|, 2
  {
    var name := ReadName(input, strings, budget);
    if name.Err? then Err(name.error)
    else
      var x := ReadType(name.value.rest, strings, limits, depth, name.value.budget);
      if x.Err? then Err(x.error) else Ok(Parsed(RecordField(name.value.value, x.value.value), x.value.rest,
                                                 x.value.budget))
  }

  function ReadFieldList(n: nat, input: seq<byte>, strings: seq<Text>, limits: Limits, depth: nat,
                         budget: Budget): (r: Result<Parsed<seq<RecordField>>, ReadError>)
    ensures r.Ok? ==> |r.value.rest| <= |input|
    decreases |input|, 3, n
  {
    if n == 0 then Ok(Parsed([], input, budget))
    else
      var x := ReadField(input, strings, limits, depth, budget);
      if x.Err? then Err(x.error)
      else
        var xs := ReadFieldList(n - 1, x.value.rest, strings, limits, depth, x.value.budget);
        if xs.Err? then xs else Ok(xs.value.(value := [x.value.value] + xs.value.value))
  }

  // ----- references into the type table -----

  /** The model bytes a copy of the type is charged. */
  function OwnedBytes(limits: Limits, t: ValueType): nat
    decreases TypeSize(t), 0
  {
    limits.typeBytes +
    match t
    case ListType(e) => OwnedBytes(limits, e)
    case OptionType(e) => OwnedBytes(limits, e)
    case FutureType(e) => OwnedBytes(limits, e)
    case TaskType(e) => OwnedBytes(limits, e)
    case NewtypeType(name, u) => |name| + OwnedBytes(limits, u)
    case MapType(k, v) => OwnedBytes(limits, k) + OwnedBytes(limits, v)
    case ResultType(o, e) => OwnedBytes(limits, o) + OwnedBytes(limits, e)
    case TupleType(es) => AllOwnedBytes(limits, es)
    case RecordType(fs) => FieldsOwnedBytes(limits, fs)
    case FunctionType(ps, r, _) => OwnedBytes(limits, r) + AllOwnedBytes(limits, ps)
    case _ => 0
  }

  function AllOwnedBytes(limits: Limits, ts: seq<ValueType>): nat
    decreases TypeSizes(ts), 1, |ts|
  {
    if ts == [] then 0 else OwnedBytes(limits, ts[0]) + AllOwnedBytes(limits, ts[1..])
  }

  function FieldsOwnedBytes(limits: Limits, fs: seq<RecordField>): nat
    decreases FieldSizes(fs), 1, |fs|
  {
    if fs == [] then 0
    else limits.fieldBytes + |fs[0].name| + OwnedBytes(limits, fs[0].valueType) + FieldsOwnedBytes(limits, fs[1..])
  }

  function ReadTypeRef(input: seq<byte>, types: seq<ValueType>, limits: Limits,
                       budget: Budget): (r: Result<Parsed<ValueType>, ReadError>)
    ensures r.Ok? ==> |r.value.rest| < |input|
  {
    var id := ReadU32(input, budget);
    if id.Err? then Err(id.error)
    else if id.value.value >= |types| then Err(InvalidScalar)
    else
      var t := types[id.value.value];
      var left := Charge(budget, OwnedBytes(limits, t));
      if left.Err? then Err(left.error) else Ok(Parsed(t, id.value.rest, left.value))
  }

  lemma {:induction false} ReadsTypeRef(id: u32, types: seq<ValueType>, limits: Limits, rest: seq<byte>, after: Budget)
    requires id < |types|
    ensures ReadTypeRef(LittleEndian(id, 4) + rest, types, limits,
                        Plus(Budget(OwnedBytes(limits, types[id]), 0), after)) == Ok(Parsed(types[id], rest, after))
  {
    ReadsNumber(id, rest, Plus(Budget(OwnedBytes(limits, types[id]), 0), after));
  }

  // ----- what a type needs -----

  /** Depth as the reader counts it, and every table within its limit. */
  predicate WithinLimits(limits: Limits, depth: nat, t: ValueType)
    decreases TypeSize(t), 0
  {
    depth <= limits.typeDepth &&
    match ShapeOf(t)
    case LeafShape(_) => true
    case UnaryShape(_, x) => WithinLimits(limits, depth + 1, x)
    case BinaryShape(_, x, y) => WithinLimits(limits, depth + 1, x) && WithinLimits(limits, depth + 1, y)
    case ManyShape(es) => |es| <= limits.tableEntries && AllWithin(limits, depth + 1, es)
    case FieldsShape(fs) => |fs| <= limits.tableEntries && FieldsWithin(limits, depth + 1, fs)
    case RefShape(_) => true
    case NamedShape(_, x) => WithinLimits(limits, depth + 1, x)
    case FunctionShape(ps, r, _) =>
      |ps| <= limits.tableEntries && AllWithin(limits, depth + 1, ps) && WithinLimits(limits, depth + 1, r)
  }

  predicate AllWithin(limits: Limits, depth: nat, ts: seq<ValueType>)
    decreases TypeSizes(ts), 1, |ts|
  {
    ts == [] || (WithinLimits(limits, depth, ts[0]) && AllWithin(limits, depth, ts[1..]))
  }

  predicate FieldsWithin(limits: Limits, depth: nat, fs: seq<RecordField>)
    decreases FieldSizes(fs), 1, |fs|
  {
    fs == [] || (WithinLimits(limits, depth, fs[0].valueType) && FieldsWithin(limits, depth, fs[1..]))
  }

  function Plus(a: Budget, b: Budget): Budget {
    Budget(a.bytes + b.bytes, a.nodes + b.nodes)
  }

  /** What reading the type costs: its own node, then its body. */
  function Cost(limits: Limits, t: ValueType): Budget
    decreases TypeSize(t), 1
  {
    Plus(Budget(limits.typeBytes, 1), BodyCost(limits, t))
  }

  function BodyCost(limits: Limits, t: ValueType): Budget
    decreases TypeSize(t), 0
  {
    match ShapeOf(t)
    case LeafShape(_) => Budget(0, 0)
    case UnaryShape(_, x) => Cost(limits, x)
    case BinaryShape(_, x, y) => Plus(Cost(limits, x), Cost(limits, y))
    case ManyShape(es) => Plus(Items(|es|, limits.typeBytes), AllCost(limits, es))
    case FieldsShape(fs) => Plus(Items(|fs|, limits.fieldBytes), FieldsCost(limits, fs))
    case RefShape(_) => Budget(0, 0)
    case NamedShape(name, x) => Plus(Budget(|name|, 0), Cost(limits, x))
    case FunctionShape(ps, r, _) => Plus(Plus(Items(|ps|, limits.typeBytes), AllCost(limits, ps)), Cost(limits, r))
  }

  function Items(n: nat, itemBytes: nat): Budget {
    Budget(n * itemBytes, 0)
  }

  function AllCost(limits: Limits, ts: seq<ValueType>): Budget
    decreases TypeSizes(ts), 2, |ts|
  {
    if ts == [] then Budget(0, 0) else Plus(Cost(limits, ts[0]), AllCost(limits, ts[1..]))
  }

  function FieldsCost(limits: Limits, fs: seq<RecordField>): Budget
    decreases FieldSizes(fs), 2, |fs|
  {
    if fs == [] then Budget(0, 0)
    else Plus(Plus(Budget(|fs[0].name|, 0), Cost(limits, fs[0].valueType)), FieldsCost(limits, fs[1..]))
  }

  // ----- round trips -----

  /** The writer's table and the reader's list hold the same strings. */
  ghost predicate SameStrings(table: map<Text, u32>, strings: seq<Text>) {
    forall name | name in table :: table[name] < |strings| && strings[table[name]] == name
  }

  lemma {:induction false} ReadsName(table: map<Text, u32>, strings: seq<Text>, name: Text, rest: seq<byte>,
                                     after: Budget)
    requires SameStrings(table, strings) && name in table
    ensures ReadName(PutName(Wire(table), name) + rest, strings, Plus(Budget(|name|, 0), after)) ==
            Ok(Parsed(name, rest, after))
  {
    ReadsNumber(table[name], rest, Plus(Budget(|name|, 0), after));
  }

  lemma {:induction false} ReadsCount(table: map<Text, u32>, n: nat, limits: Limits, itemBytes: nat, rest: seq<byte>,
                                      after: Budget)
    requires n < 0x1_0000_0000 && n <= limits.tableEntries
    ensures ReadCount(PutCount(Wire(table), n) + rest, limits, itemBytes, Plus(Items(n, itemBytes), after)) ==
            Ok(Parsed(n, rest, after))
  {
    ReadsNumber(n, rest, Plus(Items(n, itemBytes), after));
  }

  lemma {:induction false} ReadsTag(tag: byte, body: seq<byte>, rest: seq<byte>, limits: Limits, depth: nat,
                                    after: Budget)
    requires depth <= limits.typeDepth
    ensures ReadTag(([tag] + body) + rest, limits, depth, Plus(Budget(limits.typeBytes, 1), after)) ==
            Ok(Parsed(tag, body + rest, after))
  {
    Assoc([tag], body, rest);
    assert ([tag] + (body + rest))[1..] == body + rest;
  }

  lemma {:induction false} PlusAssoc(a: Budget, b: Budget, c: Budget)
    ensures Plus(Plus(a, b), c) == Plus(a, Plus(b, c))
  {
  }

  /** The bytes behind the tag of a type's encoding. */
  function Body(style: Style, t: ValueType): seq<byte>
    requires Encodable(style, t)
  {
    Encode(style, t)[1..]
  }

  /** Reading an encoded type returns it, stops at its end whatever follows, and
      leaves the budget beyond the type's cost. */
  lemma {:induction false} ReadsType(table: map<Text, u32>, strings: seq<Text>, limits: Limits, depth: nat,
                                     t: ValueType, rest: seq<byte>, after: Budget)
    requires SameStrings(table, strings) && Encodable(Wire(table), t) && WithinLimits(limits, depth, t)
    ensures ReadType(Encode(Wire(table), t) + rest, strings, limits, depth, Plus(Cost(limits, t), after)) ==
            Ok(Parsed(t, rest, after))
    decreases TypeSize(t), 1
  {
    var tag, body, own, inner := TagOf(ShapeOf(t)), Body(Wire(table), t), Budget(limits.typeBytes, 1),
        BodyCost(limits, t);
    assert Encode(Wire(table), t) == [tag] + body;
    PlusAssoc(own, inner, after);
    ReadsBody(table, strings, limits, depth, t, rest, after);
    TypeStep(tag, body, strings, limits, depth, rest, Plus(inner, after));
  }

  lemma {:induction false} TypeStep(tag: byte, body: seq<byte>, strings: seq<Text>, limits: Limits, depth: nat,
                                    rest: seq<byte>, budget: Budget)
    requires depth <= limits.typeDepth
    ensures ReadType(([tag] + body) + rest, strings, limits, depth, Plus(Budget(limits.typeBytes, 1), budget)) ==
            ReadBody(tag, body + rest, strings, limits, depth, budget)
  {
    ReadsTag(tag, body, rest, limits, depth, budget);
  }

  ghost predicate BodyReads(tag: byte, body: seq<byte>, strings: seq<Text>, limits: Limits, depth: nat, cost: Budget,
                            t: ValueType, rest: seq<byte>, after: Budget)
  {
    ReadBody(tag, body + rest, strings, limits, depth, Plus(cost, after)) == Ok(Parsed(t, rest, after))
  }

  lemma {:induction false} ReadsBody(table: map<Text, u32>, strings: seq<Text>, limits: Limits, depth: nat,
                                     t: ValueType, rest: seq<byte>, after: Budget)
    requires SameStrings(table, strings) && Encodable(Wire(table), t) && WithinLimits(limits, depth, t)
    ensures BodyReads(TagOf(ShapeOf(t)), Body(Wire(table), t), strings, limits, depth, BodyCost(limits, t), t, rest,
                      after)
    decreases TypeSize(t), 0
  {
    var style := Wire(table);
    ShapeBuilds(t);
    match ShapeOf(t)
    case LeafShape(_) => assert Body(style, t) + rest == rest;
    case UnaryShape(_, x) =>
      assert Body(style, t) == Encode(style, x);
      ReadsType(table, strings, limits, depth + 1, x, rest, after);
    case BinaryShape(tag, x, y) =>
      assert Body(style, t) == Encode(style, x) + Encode(style, y);
      ReadsBinary(table, strings, limits, depth, tag, x, y, rest, after);
    case ManyShape(es) =>
      assert Body(style, t) == PutCount(style, |es|) + EncodeAll(style, es);
      ReadsTuple(table, strings, limits, depth, es, rest, after);
    case FieldsShape(fs) =>
      assert Body(style, t) == PutCount(style, |fs|) + EncodeFields(style, fs);
      ReadsRecord(table, strings, limits, depth, fs, rest, after);
    case RefShape(id) =>
      assert Body(style, t) == LittleEndian(id, 4);
      ReadsNumber(id, rest, after);
    case NamedShape(name, x) =>
      assert Body(style, t) == PutName(style, name) + Encode(style, x);
      ReadsNewtype(table, strings, limits, depth, name, x, rest, after);
    case FunctionShape(ps, r, effects) =>
      FunctionBytes(table, ps, r, effects, rest);
      ReadsFunction(table, strings, limits, depth, ps, r, effects, PutCount(style, |ps|) + EncodeAll(style, ps),
                    Encode(style, r),
                    Plus(Items(|ps|, limits.typeBytes), AllCost(limits, ps)), Cost(limits, r), rest, after);
  }

  lemma {:induction false} ReadsBinary(table: map<Text, u32>, strings: seq<Text>, limits: Limits, depth: nat, tag: byte,
                                       x: ValueType, y: ValueType, rest: seq<byte>, after: Budget)
    requires SameStrings(table, strings) && IsBinary(tag) && Encodable(Wire(table), x) && Encodable(Wire(table), y)
    requires WithinLimits(limits, depth + 1, x) && WithinLimits(limits, depth + 1, y)
    ensures BodyReads(tag, Encode(Wire(table), x) + Encode(Wire(table), y), strings, limits, depth,
                      Plus(Cost(limits, x), Cost(limits, y)), BinaryType(tag, x, y), rest, after)
    decreases TypeSize(x) + TypeSize(y), 0
  {
    var a, b := Encode(Wire(table), x), Encode(Wire(table), y);
    Assoc(a, b, rest);
    PlusAssoc(Cost(limits, x), Cost(limits, y), after);
    ReadsType(table, strings, limits, depth + 1, x, b + rest, Plus(Cost(limits, y), after));
    ReadsType(table, strings, limits, depth + 1, y, rest, after);
    BinaryStep(tag, a + (b + rest), strings, limits, depth, Plus(Cost(limits, x), Plus(Cost(limits, y), after)),
               Parsed(x, b + rest, Plus(Cost(limits, y), after)), Parsed(y, rest, after));
  }

  lemma {:induction false} BinaryStep(tag: byte, input: seq<byte>, strings: seq<Text>, limits: Limits, depth: nat,
                                      budget: Budget, x: Parsed<ValueType>, y: Parsed<ValueType>)
    requires IsBinary(tag) && ReadType(input, strings, limits, depth + 1, budget) == Ok(x)
    requires ReadType(x.rest, strings, limits, depth + 1, x.budget) == Ok(y)
    ensures ReadBody(tag, input, strings, limits, depth, budget) ==
            Ok(Parsed(BinaryType(tag, x.value, y.value), y.rest, y.budget))
  {
  }

  lemma {:induction false} ReadsTuple(table: map<Text, u32>, strings: seq<Text>, limits: Limits, depth: nat,
                                      es: seq<ValueType>, rest: seq<byte>, after: Budget)
    requires SameStrings(table, strings) && |es| < 0x1_0000_0000 && EncodableAll(Wire(table), es)
    requires |es| <= limits.tableEntries && AllWithin(limits, depth + 1, es)
    ensures BodyReads(MANY, PutCount(Wire(table), |es|) + EncodeAll(Wire(table), es), strings, limits, depth,
                      Plus(Items(|es|, limits.typeBytes), AllCost(limits, es)), TupleType(es), rest, after)
    decreases TypeSizes(es), 4
  {
    ReadsTypes(table, strings, limits, depth + 1, es, rest, after);
    TupleStep(PutCount(Wire(table), |es|) + EncodeAll(Wire(table), es), strings, limits, depth,
              Plus(Items(|es|, limits.typeBytes), AllCost(limits, es)), es, rest, after);
  }

  lemma {:induction false} TupleStep(body: seq<byte>, strings: seq<Text>, limits: Limits, depth: nat, cost: Budget,
                                     es: seq<ValueType>, rest: seq<byte>, after: Budget)
    requires ReadTypes(body + rest, strings, limits, depth + 1, Plus(cost, after)) == Ok(Parsed(es, rest, after))
    ensures BodyReads(MANY, body, strings, limits, depth, cost, TupleType(es), rest, after)
  {
  }

  lemma {:induction false} ReadsRecord(table: map<Text, u32>, strings: seq<Text>, limits: Limits, depth: nat,
                                       fs: seq<RecordField>, rest: seq<byte>, after: Budget)
    requires SameStrings(table, strings) && |fs| < 0x1_0000_0000 && EncodableFields(Wire(table), fs)
    requires |fs| <= limits.tableEntries && FieldsWithin(limits, depth + 1, fs)
    ensures BodyReads(FIELDS, PutCount(Wire(table), |fs|) + EncodeFields(Wire(table), fs), strings, limits, depth,
                      Plus(Items(|fs|, limits.fieldBytes), FieldsCost(limits, fs)), RecordType(fs), rest, after)
    decreases FieldSizes(fs), 4
  {
    ReadsFieldList(table, strings, limits, depth + 1, fs, rest, after);
    RecordStep(table, strings, limits, depth, EncodeFields(Wire(table), fs), FieldsCost(limits, fs), fs, rest, after);
  }

  lemma {:induction false} RecordStep(table: map<Text, u32>, strings: seq<Text>, limits: Limits, depth: nat,
                                      all: seq<byte>, cost: Budget,
                                      fs: seq<RecordField>, rest: seq<byte>, after: Budget)
    requires |fs| < 0x1_0000_0000 && |fs| <= limits.tableEntries
    requires ReadFieldList(|fs|, all + rest, strings, limits, depth + 1, Plus(cost, after)) ==
             Ok(Parsed(fs, rest, after))
    ensures BodyReads(FIELDS, PutCount(Wire(table), |fs|) + all, strings, limits, depth,
                      Plus(Items(|fs|, limits.fieldBytes), cost), RecordType(fs), rest, after)
  {
    Assoc(PutCount(Wire(table), |fs|), all, rest);
    PlusAssoc(Items(|fs|, limits.fieldBytes), cost, after);
    ReadsCount(table, |fs|, limits, limits.fieldBytes, all + rest, Plus(cost, after));
  }

  lemma {:induction false} ReadsNewtype(table: map<Text, u32>, strings: seq<Text>, limits: Limits, depth: nat,
                                        name: Text, x: ValueType, rest: seq<byte>, after: Budget)
    requires SameStrings(table, strings) && name in table && Encodable(Wire(table), x) &&
             WithinLimits(limits, depth + 1, x)
    ensures BodyReads(NAMED, PutName(Wire(table), name) + Encode(Wire(table), x), strings, limits, depth,
                      Plus(Budget(|name|, 0), Cost(limits, x)), NewtypeType(name, x), rest, after)
    decreases TypeSize(x), 2
  {
    ReadsType(table, strings, limits, depth + 1, x, rest, after);
    NamedStep(table, strings, limits, depth, name, Encode(Wire(table), x), Cost(limits, x), x, rest, after);
  }

  lemma {:induction false} NamedStep(table: map<Text, u32>, strings: seq<Text>, limits: Limits, depth: nat, name: Text,
                                     inner: seq<byte>, cost: Budget,
                                     x: ValueType, rest: seq<byte>, after: Budget)
    requires SameStrings(table, strings) && name in table
    requires ReadType(inner + rest, strings, limits, depth + 1, Plus(cost, after)) == Ok(Parsed(x, rest, after))
    ensures BodyReads(NAMED, PutName(Wire(table), name) + inner, strings, limits, depth, Plus(Budget(|name|, 0), cost),
                      NewtypeType(name, x), rest, after)
  {
    Assoc(PutName(Wire(table), name), inner, rest);
    PlusAssoc(Budget(|name|, 0), cost, after);
    ReadsName(table, strings, name, inner + rest, Plus(cost, after));
  }

  lemma {:induction false} ReadsFunction(table: map<Text, u32>, strings: seq<Text>, limits: Limits, depth: nat,
                                         ps: seq<ValueType>, r: ValueType, effects: u32,
                                         list: seq<byte>, ret: seq<byte>, spent: Budget, cost: Budget, rest: seq<byte>,
                                             after: Budget)
    requires SameStrings(table, strings) && |ps| < 0x1_0000_0000 && EncodableAll(Wire(table), ps) &&
             Encodable(Wire(table), r)
    requires |ps| <= limits.tableEntries && AllWithin(limits, depth + 1, ps) && WithinLimits(limits, depth + 1, r)
    requires list == PutCount(Wire(table), |ps|) + EncodeAll(Wire(table), ps) && ret == Encode(Wire(table), r)
    requires spent == Plus(Items(|ps|, limits.typeBytes), AllCost(limits, ps)) && cost == Cost(limits, r)
    ensures ReadBody(FUNCTION, list + (ret + (LittleEndian(effects, 4) + rest)), strings, limits, depth,
                     Plus(Plus(spent, cost), after)) ==
            Ok(Parsed(FunctionType(ps, r, effects), rest, after))
    decreases TypeSizes(ps) + TypeSize(r), 4
  {
    var tail := LittleEndian(effects, 4) + rest;
    ReadsTypes(table, strings, limits, depth + 1, ps, ret + tail, Plus(cost, after));
    ReadsType(table, strings, limits, depth + 1, r, tail, after);
    FunctionStep(strings, limits, depth, ps, r, effects, list, ret, spent, cost, rest, after);
  }

  lemma {:induction false} FunctionBytes(table: map<Text, u32>, ps: seq<ValueType>, r: ValueType, effects: u32,
                                         rest: seq<byte>)
    requires Encodable(Wire(table), FunctionType(ps, r, effects))
    ensures Body(Wire(table), FunctionType(ps, r, effects)) + rest ==
            (PutCount(Wire(table), |ps|) + EncodeAll(Wire(table), ps)) +
                (Encode(Wire(table), r) + (LittleEndian(effects, 4) + rest))
  {
    var style := Wire(table);
    var count, all, ret, eff := PutCount(style, |ps|), EncodeAll(style, ps), Encode(style, r), LittleEndian(effects, 4);
    assert Body(style, FunctionType(ps, r, effects)) == count + (all + (ret + eff));
    Assoc(count, all + (ret + eff), rest);
    Assoc(all, ret + eff, rest);
    Assoc(ret, eff, rest);
    Assoc(count, all, ret + (eff + rest));
  }

  lemma {:induction false} FunctionStep(strings: seq<Text>, limits: Limits, depth: nat, ps: seq<ValueType>,
                                        r: ValueType, effects: u32,
                                        list: seq<byte>, ret: seq<byte>, spent: Budget, cost: Budget, rest: seq<byte>,
                                            after: Budget)
    requires var tail := LittleEndian(effects, 4) + rest;
             && ReadTypes(list + (ret + tail), strings, limits, depth + 1, Plus(spent, Plus(cost, after))) ==
                Ok(Parsed(ps, ret + tail, Plus(cost, after)))
             && ReadType(ret + tail, strings, limits, depth + 1, Plus(cost, after)) == Ok(Parsed(r, tail, after))
    ensures ReadBody(FUNCTION, list + (ret + (LittleEndian(effects, 4) + rest)), strings, limits, depth,
                     Plus(Plus(spent, cost), after)) ==
            Ok(Parsed(FunctionType(ps, r, effects), rest, after))
  {
    PlusAssoc(spent, cost, after);
    ReadsNumber(effects, rest, after);
  }

  lemma {:induction false} ReadsTypes(table: map<Text, u32>, strings: seq<Text>, limits: Limits, depth: nat,
                                      ts: seq<ValueType>, rest: seq<byte>, after: Budget)
    requires SameStrings(table, strings) && |ts| < 0x1_0000_0000 && EncodableAll(Wire(table), ts) &&
             |ts| <= limits.tableEntries && AllWithin(limits, depth, ts)
    ensures ReadTypes((PutCount(Wire(table), |ts|) + EncodeAll(Wire(table), ts)) + rest, strings, limits, depth,
                      Plus(Plus(Items(|ts|, limits.typeBytes), AllCost(limits, ts)), after)) ==
                          Ok(Parsed(ts, rest, after))
    decreases TypeSizes(ts), 3
  {
    ReadsList(table, strings, limits, depth, ts, rest, after);
    TypesStep(table, strings, limits, depth, EncodeAll(Wire(table), ts), AllCost(limits, ts), ts, rest, after);
  }

  lemma {:induction false} TypesStep(table: map<Text, u32>, strings: seq<Text>, limits: Limits, depth: nat,
                                     all: seq<byte>, cost: Budget,
                                     ts: seq<ValueType>, rest: seq<byte>, after: Budget)
    requires |ts| < 0x1_0000_0000 && |ts| <= limits.tableEntries
    requires ReadTypeList(|ts|, all + rest, strings, limits, depth, Plus(cost, after)) == Ok(Parsed(ts, rest, after))
    ensures ReadTypes((PutCount(Wire(table), |ts|) + all) + rest, strings, limits, depth,
                      Plus(Plus(Items(|ts|, limits.typeBytes), cost), after)) ==
            Ok(Parsed(ts, rest, after))
  {
    Assoc(PutCount(Wire(table), |ts|), all, rest);
    PlusAssoc(Items(|ts|, limits.typeBytes), cost, after);
    ReadsCount(table, |ts|, limits, limits.typeBytes, all + rest, Plus(cost, after));
  }

  lemma {:induction false} ReadsList(table: map<Text, u32>, strings: seq<Text>, limits: Limits, depth: nat,
                                     ts: seq<ValueType>, rest: seq<byte>, after: Budget)
    requires SameStrings(table, strings) && EncodableAll(Wire(table), ts) && AllWithin(limits, depth, ts)
    ensures ReadTypeList(|ts|, EncodeAll(Wire(table), ts) + rest, strings, limits, depth,
                         Plus(AllCost(limits, ts), after)) == Ok(Parsed(ts, rest, after))
    decreases TypeSizes(ts), 2, |ts|
  {
    var style := Wire(table);
    if ts == [] {
      assert EncodeAll(style, ts) + rest == rest;
    } else {
      var head, tail := Encode(style, ts[0]), EncodeAll(style, ts[1..]);
      var cost, more := Cost(limits, ts[0]), AllCost(limits, ts[1..]);
      ReadsType(table, strings, limits, depth, ts[0], tail + rest, Plus(more, after));
      ReadsList(table, strings, limits, depth, ts[1..], rest, after);
      ListStep(strings, limits, depth, ts, head, tail, cost, more, rest, after);
    }
  }

  lemma {:induction false} ListStep(strings: seq<Text>, limits: Limits, depth: nat, ts: seq<ValueType>,
                                    x: seq<byte>, tail: seq<byte>, cost: Budget, more: Budget, rest: seq<byte>,
                                    after: Budget)
    requires ts != []
    requires ReadType(x + (tail + rest), strings, limits, depth, Plus(cost, Plus(more, after))) ==
             Ok(Parsed(ts[0], tail + rest, Plus(more, after)))
    requires ReadTypeList(|ts| - 1, tail + rest, strings, limits, depth, Plus(more, after)) ==
             Ok(Parsed(ts[1..], rest, after))
    ensures ReadTypeList(|ts|, (x + tail) + rest, strings, limits, depth, Plus(Plus(cost, more), after)) ==
            Ok(Parsed(ts, rest, after))
  {
    Assoc(x, tail, rest);
    PlusAssoc(cost, more, after);
    assert ts == [ts[0]] + ts[1..];
  }

  lemma {:induction false} ReadsFieldList(table: map<Text, u32>, strings: seq<Text>, limits: Limits, depth: nat,
                                          fs: seq<RecordField>, rest: seq<byte>, after: Budget)
    requires SameStrings(table, strings) && EncodableFields(Wire(table), fs) && FieldsWithin(limits, depth, fs)
    ensures ReadFieldList(|fs|, EncodeFields(Wire(table), fs) + rest, strings, limits, depth,
                          Plus(FieldsCost(limits, fs), after)) == Ok(Parsed(fs, rest, after))
    decreases FieldSizes(fs), 2, |fs|
  {
    var style := Wire(table);
    if fs == [] {
      assert EncodeFields(style, fs) + rest == rest;
    } else {
      var x, tail := Encode(style, fs[0].valueType), EncodeFields(style, fs[1..]);
      var cost, more := Cost(limits, fs[0].valueType), FieldsCost(limits, fs[1..]);
      ReadsType(table, strings, limits, depth, fs[0].valueType, tail + rest, Plus(more, after));
      ReadsFieldList(table, strings, limits, depth, fs[1..], rest, after);
      FieldStep(table, strings, limits, depth, fs, x, tail, cost, more, rest, after);
    }
  }

  lemma {:induction false} FieldStep(table: map<Text, u32>, strings: seq<Text>, limits: Limits, depth: nat,
                                     fs: seq<RecordField>,
                                     x: seq<byte>, tail: seq<byte>, cost: Budget, more: Budget, rest: seq<byte>,
                                         after: Budget)
    requires SameStrings(table, strings) && fs != [] && fs[0].name in table
    requires ReadType(x + (tail + rest), strings, limits, depth, Plus(cost, Plus(more, after))) ==
             Ok(Parsed(fs[0].valueType, tail + rest, Plus(more, after)))
    requires ReadFieldList(|fs| - 1, tail + rest, strings, limits, depth, Plus(more, after)) ==
             Ok(Parsed(fs[1..], rest, after))
    ensures ReadFieldList(|fs|, (PutName(Wire(table), fs[0].name) + (x + tail)) + rest, strings, limits, depth,
                          Plus(Plus(Plus(Budget(|fs[0].name|, 0), cost), more), after)) == Ok(Parsed(fs, rest, after))
  {
    var name, paid := PutName(Wire(table), fs[0].name), Budget(|fs[0].name|, 0);
    Assoc(name, x + tail, rest);
    Assoc(x, tail, rest);
    PlusAssoc(Plus(paid, cost), more, after);
    PlusAssoc(paid, cost, Plus(more, after));
    ReadsName(table, strings, fs[0].name, x + (tail + rest), Plus(cost, Plus(more, after)));
    assert fs == [RecordField(fs[0].name, fs[0].valueType)] + fs[1..];
  }
}
