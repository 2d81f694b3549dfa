/** Validator expressions on the wire: types by table reference, nodes counted
    against the cap while reading. */
module ValidatorCodec {
  import opened Wrappers
  import opened ValueTypes
  import opened Validators
  import opened TypeCodec
  import opened TypeReader
  import opened WireReader
  import opened Interning

  // ----- writing -----

  /** Every field type of the expression has an identifier. */
  predicate Interned(idOf: ValueType -> Option<u32>, x: ValidatorExpr) {
    match x
    case BoolConst(_) => true
    case FieldRef(_, t) => idOf(t).Some?
    case Not(operand) => Interned(idOf, operand)
    case BoolBinary(_, left, right) => Interned(idOf, left) && Interned(idOf, right)
    case Compare(_, left, right) => Interned(idOf, left) && Interned(idOf, right)
  }

  function WriteExpr(idOf: ValueType -> Option<u32>, x: ValidatorExpr): seq<byte>
    requires Interned(idOf, x)
  {
    match x
    case BoolConst(value) => [0] + [BoolTag(value)]
    case FieldRef(field, t) => [1] + (LittleEndian(field, 4) + LittleEndian(idOf(t).value, 4))
    case Not(operand) => [2] + WriteExpr(idOf, operand)
    case BoolBinary(op, left, right) => [3] + ([BoolOpTag(op)] + (WriteExpr(idOf, left) + WriteExpr(idOf, right)))
    case Compare(op, left, right) => [4] + ([CompareTag(op)] + (WriteExpr(idOf, left) + WriteExpr(idOf, right)))
  }

  // ----- reading -----

  /** An expression and the nodes counted so far. */
  datatype Counted = Counted(expr: ValidatorExpr, nodes: nat)

  function ReadByte(input: seq<byte>, budget: Budget): Result<Parsed<byte>, ReadError> {
    if input == [] then Err(Truncated) else Ok(Parsed(input[0], input[1..], budget))
  }

  function BoolFrom(tag: byte): Option<bool> {
    match tag
    case 0 => Some(false)
    case 1 => Some(true)
    case _ => None
  }

  function BoolOpFrom(tag: byte): Option<BoolBinaryOp> {
    match tag
    case 0 => Some(And)
    case 1 => Some(Or)
    case _ => None
  }

  function CompareFrom(tag: byte): Option<CompareOp> {
    match tag
    case 0 => Some(Equal)
    case 1 => Some(NotEqual)
    case 2 => Some(Less)
    case 3 => Some(LessEqual)
    case 4 => Some(Greater)
    case 5 => Some(GreaterEqual)
    case _ => None
  }

  /** The node built over two operands, if the operation's tag is known. */
  function Binary(tag: byte, op: byte, left: ValidatorExpr, right: ValidatorExpr): ValidatorExpr
    requires KnownOp(tag, op)
  {
    if tag == 3 then BoolBinary(BoolOpFrom(op).value, left, right) else Compare(CompareFrom(op).value, left, right)
  }

  predicate KnownOp(tag: byte, op: byte) {
    if tag == 3 then BoolOpFrom(op).Some? else CompareFrom(op).Some?
  }

  function ReadExpr(input: seq<byte>, types: seq<ValueType>, limits: Limits, nodes0: nat,
                    budget: Budget): (r: Result<Parsed<Counted>, ReadError>)
    ensures r.Ok? ==> |r.value.rest| < |input|
    decreases |input|, 0
  {
    var nodes := nodes0 + 1;
    if nodes > MAX_NODES then Err(OverLimit)
    else
      var tag := ReadByte(input, budget);
      if tag.Err? then Err(tag.error) else ReadNode(tag.value.value, tag.value.rest, types, limits, nodes, budget)
  }

  /** The expression behind its tag, its own node being counted. */
  function ReadNode(tag: byte, input: seq<byte>, types: seq<ValueType>, limits: Limits, nodes: nat,
                    budget: Budget): (r: Result<Parsed<Counted>, ReadError>)
    ensures r.Ok? ==> |r.value.rest| < |input|
    decreases |input|, 2
  {
    if tag == 0 then ReadConst(input, nodes, budget)
    else if tag == 1 then ReadFieldRef(input, types, limits, nodes, budget)
    else if tag == 2 then
      var x := ReadExpr(input, types, limits, nodes, budget);
      if x.Err? then x else Ok(x.value.(value := Counted(Not(x.value.value.expr), x.value.value.nodes)))
    else if tag == 3 || tag == 4 then ReadBinary(tag, input, types, limits, nodes, budget)
    else Err(InvalidScalar)
  }

  function ReadConst(input: seq<byte>, nodes: nat, budget: Budget): (r: Result<Parsed<Counted>, ReadError>)
    ensures r.Ok? ==> |r.value.rest| < |input|
  {
    var value := ReadByte(input, budget);
    if value.Err? then Err(value.error)
    else if BoolFrom(value.value.value).None? then Err(InvalidScalar)
    else Ok(Parsed(Counted(BoolConst(BoolFrom(value.value.value).value), nodes), value.value.rest, budget))
  }

  function ReadFieldRef(input: seq<byte>, types: seq<ValueType>, limits: Limits, nodes: nat,
                        budget: Budget): (r: Result<Parsed<Counted>, ReadError>)
    ensures r.Ok? ==> |r.value.rest| < |input|
  {
    var field := ReadU32(input, budget);
    if field.Err? then Err(field.error)
    else
      var t := ReadTypeRef(field.value.rest, types, limits, budget);
      if t.Err? then Err(t.error) else Ok(Parsed(Counted(FieldRef(field.value.value, t.value.value), nodes),
                                                 t.value.rest, t.value.budget))
  }

  function ReadBinary(tag: byte, input: seq<byte>, types: seq<ValueType>, limits: Limits, nodes: nat,
                      budget: Budget): (r: Result<Parsed<Counted>, ReadError>)
    ensures r.Ok? ==> |r.value.rest| < |input|
    decreases |input|, 1
  {
    var op := ReadByte(input, budget);
    if op.Err? then Err(op.error)
    else if !KnownOp(tag, op.value.value) then Err(InvalidScalar)
    else
      var x := ReadExpr(op.value.rest, types, limits, nodes, budget);
      if x.Err? then x
      else
        var y := ReadExpr(x.value.rest, types, limits, x.value.value.nodes, x.value.budget);
        if y.Err? then y
        else Ok(y.value.(value := Counted(Binary(tag, op.value.value, x.value.value.expr, y.value.value.expr),
                                          y.value.value.nodes)))
  }

  /** Reads one expression, adding its nodes to the count. */
  method DecodeExpr(reader: Reader, types: seq<ValueType>, nodes0: nat)
    returns (r: Result<ValidatorExpr, ReadError>, nodes: nat)
    requires reader.Valid()
    modifies reader`offset, reader`budget
    ensures reader.Valid() && reader.offset >= old(reader.offset)
    ensures Agrees(ReadExpr(old(reader.Ahead()), types, reader.limits, nodes0, old(reader.budget)),
                   if r.Err? then Err(r.error) else Ok(Counted(r.value, nodes)), reader.Ahead(), reader.budget)
    ensures r.Ok? ==> reader.offset > old(reader.offset)
    decreases |reader.bytes| - reader.offset, 0
  {
    nodes := nodes0 + 1;
    if nodes > MAX_NODES { return Err(OverLimit), nodes; }
    var tag := reader.U8();
    if tag.Err? { return Err(tag.error), nodes; }
    match tag.value
    case 0 =>
      var value := reader.U8();
      if value.Err? { return Err(value.error), nodes; }
      if BoolFrom(value.value).None? { return Err(InvalidScalar), nodes; }
      r := Ok(BoolConst(BoolFrom(value.value).value));
    case 1 =>
      var field := reader.U32();
      if field.Err? { return Err(field.error), nodes; }
      var t := reader.TypeRef(types);
      if t.Err? { return Err(t.error), nodes; }
      r := Ok(FieldRef(field.value, t.value));
    case 2 =>
      r, nodes := DecodeExpr(reader, types, nodes);
      if r.Ok? { r := Ok(Not(r.value)); }
    case _ =>
      if tag.value == 3 || tag.value == 4 {
        r, nodes := DecodeBinary(reader, tag.value, types, nodes);
      } else {
        r := Err(InvalidScalar);
      }
  }

  method DecodeBinary(reader: Reader, tag: byte, types: seq<ValueType>, nodes0: nat)
    returns (r: Result<ValidatorExpr, ReadError>, nodes: nat)
    requires reader.Valid()
    modifies reader`offset, reader`budget
    ensures reader.Valid() && reader.offset >= old(reader.offset)
    ensures Agrees(ReadBinary(tag, old(reader.Ahead()), types, reader.limits, nodes0, old(reader.budget)),
                   if r.Err? then Err(r.error) else Ok(Counted(r.value, nodes)), reader.Ahead(), reader.budget)
    decreases |reader.bytes| - reader.offset, 1
  {
    nodes := nodes0;
    var op := reader.U8();
    if op.Err? { return Err(op.error), nodes; }
    if !KnownOp(tag, op.value) { return Err(InvalidScalar), nodes; }
    var x;
    x, nodes := DecodeExpr(reader, types, nodes);
    if x.Err? { return x, nodes; }
    r, nodes := DecodeExpr(reader, types, nodes);
    if r.Ok? { r := Ok(Binary(tag, op.value, x.value, r.value)); }
  }

  // ----- the round trip -----

  /** What reading the expression charges for its field types. */
  function ExprCost(limits: Limits, x: ValidatorExpr): Budget {
    match x
    case BoolConst(_) => Budget(0, 0)
    case FieldRef(_, t) => Budget(OwnedBytes(limits, t), 0)
    case Not(operand) => ExprCost(limits, operand)
    case BoolBinary(_, left, right) => Plus(ExprCost(limits, left), ExprCost(limits, right))
    case Compare(_, left, right) => Plus(ExprCost(limits, left), ExprCost(limits, right))
  }

  /** The outcome of reading back `x`: itself, or the cap. */
  function ReadBackResult(x: ValidatorExpr, nodes0: nat, rest: seq<byte>,
                          after: Budget): Result<Parsed<Counted>, ReadError> {
    if nodes0 + NodeCount(x) <= MAX_NODES then Ok(Parsed(Counted(x, nodes0 + NodeCount(x)), rest, after))
    else Err(OverLimit)
  }

  /** Every identifier leads back to its type. */
  ghost predicate Lossless(idOf: ValueType -> Option<u32>, types: seq<ValueType>) {
    forall t | idOf(t).Some? :: FindsType(idOf, types, t)
  }

  predicate FindsType(idOf: ValueType -> Option<u32>, types: seq<ValueType>, t: ValueType)
    requires idOf(t).Some?
  {
    idOf(t).value < |types| && types[idOf(t).value] == t
  }

  ghost predicate ReadsBack(types: seq<ValueType>, limits: Limits, bytes: seq<byte>, cost: Budget, x: ValidatorExpr,
                            nodes0: nat, rest: seq<byte>, after: Budget) {
    ReadExpr(bytes + rest, types, limits, nodes0, Plus(cost, after)) == ReadBackResult(x, nodes0, rest, after)
  }

  /** The bytes read back as the expression from any node count, whatever follows. */
  ghost predicate Readable(types: seq<ValueType>, limits: Limits, bytes: seq<byte>, cost: Budget, x: ValidatorExpr) {
    forall nodes0: nat, rest: seq<byte>, after: Budget {:trigger ReadsBack(types, limits, bytes, cost, x, nodes0, rest,
        after)} ::
      ReadsBack(types, limits, bytes, cost, x, nodes0, rest, after)
  }

  /** Reading a written expression returns it exactly when its nodes fit the cap. */
  lemma {:induction false} ReadsExpr(idOf: ValueType -> Option<u32>, types: seq<ValueType>, limits: Limits,
                                     x: ValidatorExpr)
    requires Lossless(idOf, types) && Interned(idOf, x)
    ensures Readable(types, limits, WriteExpr(idOf, x), ExprCost(limits, x), x)
    decreases x
  {
    match x
    case BoolConst(v) => ReadsConst(types, limits, v);
    case FieldRef(field, t) => ReadsFieldRef(types, limits, field, idOf(t).value);
    case Not(operand) =>
      ReadsExpr(idOf, types, limits, operand);
      ReadsNot(types, limits, operand, WriteExpr(idOf, operand), ExprCost(limits, operand));
    case BoolBinary(op, left, right) =>
      ReadsExpr(idOf, types, limits, left);
      ReadsExpr(idOf, types, limits, right);
      ReadsBinary(types, limits, 3, BoolOpTag(op), left, right, WriteExpr(idOf, left), WriteExpr(idOf, right),
                  ExprCost(limits, left), ExprCost(limits, right));
      assert Binary(3, BoolOpTag(op), left, right) == x;
    case Compare(op, left, right) =>
      ReadsExpr(idOf, types, limits, left);
      ReadsExpr(idOf, types, limits, right);
      ReadsBinary(types, limits, 4, CompareTag(op), left, right, WriteExpr(idOf, left), WriteExpr(idOf, right),
                  ExprCost(limits, left), ExprCost(limits, right));
      assert Binary(4, CompareTag(op), left, right) == x;
  }

  lemma {:induction false} NodeStep(tag: byte, body: seq<byte>, types: seq<ValueType>, limits: Limits, nodes0: nat,
                                    rest: seq<byte>, budget: Budget)
    requires nodes0 + 1 <= MAX_NODES
    ensures ReadExpr(([tag] + body) + rest, types, limits, nodes0, budget) ==
            ReadNode(tag, body + rest, types, limits, nodes0 + 1, budget)
  {
    ByteStep(tag, body, rest, budget);
  }

  lemma {:induction false} ReadsNot(types: seq<ValueType>, limits: Limits, operand: ValidatorExpr, body: seq<byte>,
                                    cost: Budget)
    requires Readable(types, limits, body, cost, operand)
    ensures Readable(types, limits, [2] + body, cost, Not(operand))
  {
    forall nodes0: nat, rest: seq<byte>, after: Budget
      ensures ReadsBack(types, limits, [2] + body, cost, Not(operand), nodes0, rest, after) {
      if nodes0 + 1 <= MAX_NODES {
        NodeStep(2, body, types, limits, nodes0, rest, Plus(cost, after));
        assert ReadsBack(types, limits, body, cost, operand, nodes0 + 1, rest, after);
      }
    }
  }

  lemma {:induction false} ByteStep(tag: byte, body: seq<byte>, rest: seq<byte>, budget: Budget)
    ensures ReadByte(([tag] + body) + rest, budget) == Ok(Parsed(tag, body + rest, budget))
  {
    Assoc([tag], body, rest);
    assert ([tag] + (body + rest))[1..] == body + rest;
  }

  lemma {:induction false} ReadsConst(types: seq<ValueType>, limits: Limits, v: bool)
    ensures Readable(types, limits, [0] + [BoolTag(v)], Budget(0, 0), BoolConst(v))
  {
    var bytes := [0] + [BoolTag(v)];
    forall nodes0: nat, rest: seq<byte>, after: Budget
      ensures ReadsBack(types, limits, bytes, Budget(0, 0), BoolConst(v), nodes0, rest, after) {
      if nodes0 + 1 <= MAX_NODES {
        NodeStep(0, [BoolTag(v)], types, limits, nodes0, rest, after);
        assert [BoolTag(v)] + [] == [BoolTag(v)] && [] + rest == rest;
        ByteStep(BoolTag(v), [], rest, after);
      }
    }
  }

  lemma {:induction false} ReadsFieldRef(types: seq<ValueType>, limits: Limits, field: u32, id: u32)
    requires id < |types|
    ensures Readable(types, limits, [1] + (LittleEndian(field, 4) + LittleEndian(id, 4)),
                     Budget(OwnedBytes(limits, types[id]), 0), FieldRef(field, types[id]))
  {
    var a, b, cost := LittleEndian(field, 4), LittleEndian(id, 4), Budget(OwnedBytes(limits, types[id]), 0);
    forall nodes0: nat, rest: seq<byte>, after: Budget
      ensures ReadsBack(types, limits, [1] + (a + b), cost, FieldRef(field, types[id]), nodes0, rest, after) {
      if nodes0 + 1 <= MAX_NODES {
        NodeStep(1, a + b, types, limits, nodes0, rest, Plus(cost, after));
        Assoc(a, b, rest);
        ReadsNumber(field, b + rest, Plus(cost, after));
        ReadsTypeRef(id, types, limits, rest, after);
      }
    }
  }

  lemma {:induction false} ReadsBinary(types: seq<ValueType>, limits: Limits, tag: byte, op: byte, left: ValidatorExpr,
                                       right: ValidatorExpr,
                                       a: seq<byte>, b: seq<byte>, l: Budget, r: Budget)
    requires (tag == 3 || tag == 4) && KnownOp(tag, op) && Readable(types, limits, a, l, left) &&
             Readable(types, limits, b, r, right)
    ensures Readable(types, limits, [tag] + ([op] + (a + b)), Plus(l, r), Binary(tag, op, left, right))
  {
    var bytes, x := [tag] + ([op] + (a + b)), Binary(tag, op, left, right);
    forall nodes0: nat, rest: seq<byte>, after: Budget
      ensures ReadsBack(types, limits, bytes, Plus(l, r), x, nodes0, rest, after) {
      if nodes0 + 1 <= MAX_NODES {
        PlusAssoc(l, r, after);
        NodeStep(tag, [op] + (a + b), types, limits, nodes0, rest, Plus(l, Plus(r, after)));
        assert ReadsBack(types, limits, a, l, left, nodes0 + 1, b + rest, Plus(r, after));
        assert ReadsBack(types, limits, b, r, right, nodes0 + 1 + NodeCount(left), rest, after);
        OperandsStep(types, limits, tag, op, left, right, a, b, l, r, nodes0 + 1, rest, after);
      }
    }
  }

  lemma {:induction false} OperandsStep(types: seq<ValueType>, limits: Limits, tag: byte, op: byte, left: ValidatorExpr,
                                        right: ValidatorExpr,
                                        a: seq<byte>, b: seq<byte>, l: Budget, r: Budget, nodes: nat, rest: seq<byte>,
                                            after: Budget)
    requires (tag == 3 || tag == 4) && KnownOp(tag, op)
    requires ReadsBack(types, limits, a, l, left, nodes, b + rest, Plus(r, after))
    requires ReadsBack(types, limits, b, r, right, nodes + NodeCount(left), rest, after)
    ensures var total := nodes + NodeCount(left) + NodeCount(right);
            ReadBinary(tag, ([op] + (a + b)) + rest, types, limits, nodes, Plus(l, Plus(r, after))) ==
            if total <= MAX_NODES then Ok(Parsed(Counted(Binary(tag, op, left, right), total), rest, after))
            else Err(OverLimit)
  {
    ByteStep(op, a + b, rest, Plus(l, Plus(r, after)));
    Assoc(a, b, rest);
  }

  /** Every field type of the expression was collected. */
  predicate Collected(collected: seq<ValueType>, x: ValidatorExpr) {
    match x
    case BoolConst(_) => true
    case FieldRef(_, t) => t in collected
    case Not(operand) => Collected(collected, operand)
    case BoolBinary(_, left, right) => Collected(collected, left) && Collected(collected, right)
    case Compare(_, left, right) => Collected(collected, left) && Collected(collected, right)
  }

  /** The identifiers the table gives. */
  function IdOf(strings: map<Text, u32>, table: TypeTable): ValueType -> Option<u32> {
    t => TypeId(strings, table.ids, t)
  }

  lemma {:induction false} CollectedIsInterned(strings: map<Text, u32>, collected: seq<ValueType>, table: TypeTable,
                                               x: ValidatorExpr)
    requires Injective(Wire(strings)) && IsTable(strings, collected, table) && Collected(collected, x)
    ensures Interned(IdOf(strings, table), x)
    decreases x
  {
    match x
    case BoolConst(_) =>
    case FieldRef(_, t) => InterningIsLossless(strings, collected, table, t);
    case Not(operand) => CollectedIsInterned(strings, collected, table, operand);
    case BoolBinary(_, left, right) =>
      CollectedIsInterned(strings, collected, table, left);
      CollectedIsInterned(strings, collected, table, right);
    case Compare(_, left, right) =>
      CollectedIsInterned(strings, collected, table, left);
      CollectedIsInterned(strings, collected, table, right);
  }

  /** A predicate the compiler accepts survives the artifact: written and read back
      it is the same expression, and re-types to the compiler's type. */
  lemma {:induction false} LoweredSurvives(e: SourceExpr, fields: seq<RecordField>, lowered: Lowered,
                                           strings: map<Text, u32>, collected: seq<ValueType>, table: TypeTable,
                                           limits: Limits, rest: seq<byte>, after: Budget)
    requires |fields| <= 0x1_0000_0000 && Lower(e, fields, 0) == Ok(lowered)
    requires Injective(Wire(strings)) && IsTable(strings, collected, table) && Collected(collected, lowered.expr)
    ensures Interned(IdOf(strings, table), lowered.expr)
    ensures ReadExpr(WriteExpr(IdOf(strings, table), lowered.expr) + rest, table.types, limits, 0,
                     Plus(ExprCost(limits, lowered.expr), after)) ==
            Ok(Parsed(Counted(lowered.expr, lowered.nodes), rest, after))
    ensures TypeExpr(lowered.expr, fields, 0) == Ok(Typed(lowered.valueType, lowered.nodes))
  {
    LoweredRetypes(e, fields, 0);
    CollectedIsInterned(strings, collected, table, lowered.expr);
    forall t | IdOf(strings, table)(t).Some? ensures FindsType(IdOf(strings, table), table.types, t) {
      InterningIsLossless(strings, collected, table, t);
    }
    ReadsExpr(IdOf(strings, table), table.types, limits, lowered.expr);
    assert ReadsBack(table.types, limits, WriteExpr(IdOf(strings, table), lowered.expr), ExprCost(limits, lowered.expr),
                     lowered.expr, 0, rest, after);
  }
}
