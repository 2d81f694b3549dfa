/** The converse of reading back a validator expression: whatever the reader accepts
    over a table without duplicates is a written expression, at exactly its cost. */
module ValidatorReadLaws {
  import opened Wrappers
  import opened ValueTypes
  import opened Validators
  import opened TypeCodec
  import opened TypeReader
  import opened ReaderLaws
  import opened Interning
  import opened ValidatorCodec

  /** The identifiers are the positions of a table without duplicates. */
  ghost predicate Positions(idOf: ValueType -> Option<u32>, types: seq<ValueType>) {
    && Lossless(idOf, types)
    && forall i | 0 <= i < |types| :: idOf(types[i]).Some? && idOf(types[i]).value == i
  }

  /** The bytes read are the expression as written, and its cost and nodes were counted. */
  ghost predicate Explains(idOf: ValueType -> Option<u32>, limits: Limits, input: seq<byte>, nodes0: nat,
                           budget: Budget,
                           p: Parsed<Counted>)
  {
    var x := p.value.expr;
    && Interned(idOf, x) && input == WriteExpr(idOf, x) + p.rest
    && budget == Plus(ExprCost(limits, x), p.budget) && p.value.nodes == nodes0 + NodeCount(x) <= MAX_NODES
  }

  /** The same behind the tag and with the own node counted. */
  ghost predicate NodeExplains(idOf: ValueType -> Option<u32>, limits: Limits, tag: byte, input: seq<byte>, nodes: nat,
                               budget: Budget, p: Parsed<Counted>)
  {
    var x := p.value.expr;
    && Interned(idOf, x) && [tag] + input == WriteExpr(idOf, x) + p.rest
    && budget == Plus(ExprCost(limits, x), p.budget) && p.value.nodes + 1 == nodes + NodeCount(x) &&
       p.value.nodes <= MAX_NODES
  }

  lemma {:induction false} ReadExprIsWritten(idOf: ValueType -> Option<u32>, types: seq<ValueType>, limits: Limits,
                                             input: seq<byte>, nodes0: nat, budget: Budget)
    requires Positions(idOf, types) && ReadExpr(input, types, limits, nodes0, budget).Ok?
    ensures Explains(idOf, limits, input, nodes0, budget, ReadExpr(input, types, limits, nodes0, budget).value)
    decreases |input|, 0
  {
    var tag, rest := input[0], input[1..];
    assert input == [tag] + rest;
    ReadNodeIsWritten(idOf, types, limits, tag, rest, nodes0 + 1, budget);
  }

  lemma {:induction false} ReadNodeIsWritten(idOf: ValueType -> Option<u32>, types: seq<ValueType>, limits: Limits,
                                             tag: byte,
                                             input: seq<byte>, nodes: nat, budget: Budget)
    requires Positions(idOf, types) && nodes <= MAX_NODES && ReadNode(tag, input, types, limits, nodes, budget).Ok?
    ensures NodeExplains(idOf, limits, tag, input, nodes, budget,
                         ReadNode(tag, input, types, limits, nodes, budget).value)
    decreases |input|, 2
  {
    if tag == 0 {
      ConstExplains(idOf, limits, input, nodes, budget);
    } else if tag == 1 {
      FieldExplains(idOf, types, limits, input, nodes, budget);
    } else if tag == 2 {
      ReadExprIsWritten(idOf, types, limits, input, nodes, budget);
      NotExplains(idOf, limits, input, nodes, budget, ReadExpr(input, types, limits, nodes, budget).value);
    } else {
      ReadBinaryIsWritten(idOf, types, limits, tag, input, nodes, budget);
    }
  }

  lemma {:induction false} ConstExplains(idOf: ValueType -> Option<u32>, limits: Limits, input: seq<byte>, nodes: nat,
                                         budget: Budget)
    requires nodes <= MAX_NODES && ReadConst(input, nodes, budget).Ok?
    ensures NodeExplains(idOf, limits, 0, input, nodes, budget, ReadConst(input, nodes, budget).value)
  {
    var p := ReadConst(input, nodes, budget).value;
    assert input == [input[0]] + p.rest && BoolTag(p.value.expr.value) == input[0];
    Assoc([0], [input[0]], p.rest);
  }

  lemma {:induction false} FieldExplains(idOf: ValueType -> Option<u32>, types: seq<ValueType>, limits: Limits,
                                         input: seq<byte>,
                                         nodes: nat, budget: Budget)
    requires Positions(idOf, types) && nodes <= MAX_NODES && ReadFieldRef(input, types, limits, nodes, budget).Ok?
    ensures NodeExplains(idOf, limits, 1, input, nodes, budget, ReadFieldRef(input, types, limits, nodes, budget).value)
  {
    var field := ReadU32(input, budget).value;
    ReadU32IsEncoded(input, budget);
    var t := ReadTypeRef(field.rest, types, limits, budget).value;
    ReadU32IsEncoded(field.rest, budget);
    var id := ReadU32(field.rest, budget).value.value;
    assert idOf(types[id]).value == id;
    var a, b := LittleEndian(field.value, 4), LittleEndian(id, 4);
    Assoc(a, b, t.rest);
    Assoc([1], a + b, t.rest);
  }

  lemma {:induction false} NotExplains(idOf: ValueType -> Option<u32>, limits: Limits, input: seq<byte>, nodes: nat,
                                       budget: Budget,
                                       x: Parsed<Counted>)
    requires Explains(idOf, limits, input, nodes, budget, x)
    ensures NodeExplains(idOf, limits, 2, input, nodes, budget, x.(value := Counted(Not(x.value.expr), x.value.nodes)))
  {
    Assoc([2], WriteExpr(idOf, x.value.expr), x.rest);
  }

  lemma {:induction false} ReadBinaryIsWritten(idOf: ValueType -> Option<u32>, types: seq<ValueType>, limits: Limits,
                                               tag: byte,
                                               input: seq<byte>, nodes: nat, budget: Budget)
    requires Positions(idOf, types) && (tag == 3 || tag == 4) &&
             ReadBinary(tag, input, types, limits, nodes, budget).Ok?
    ensures NodeExplains(idOf, limits, tag, input, nodes, budget,
                         ReadBinary(tag, input, types, limits, nodes, budget).value)
    decreases |input|, 1
  {
    var op, rest := input[0], input[1..];
    assert input == [op] + rest;
    var x := ReadExpr(rest, types, limits, nodes, budget).value;
    var y := ReadExpr(x.rest, types, limits, x.value.nodes, x.budget).value;
    ReadExprIsWritten(idOf, types, limits, rest, nodes, budget);
    ReadExprIsWritten(idOf, types, limits, x.rest, x.value.nodes, x.budget);
    PairExplains(idOf, limits, tag, op, rest, nodes, budget, x, y);
  }

  lemma {:induction false} PairExplains(idOf: ValueType -> Option<u32>, limits: Limits, tag: byte, op: byte,
                                        rest: seq<byte>,
                                        nodes: nat, budget: Budget, x: Parsed<Counted>, y: Parsed<Counted>)
    requires (tag == 3 || tag == 4) && KnownOp(tag, op)
    requires Explains(idOf, limits, rest, nodes, budget, x) &&
             Explains(idOf, limits, x.rest, x.value.nodes, x.budget, y)
    ensures NodeExplains(idOf, limits, tag, [op] + rest, nodes, budget,
                         y.(value := Counted(Binary(tag, op, x.value.expr, y.value.expr), y.value.nodes)))
  {
    var l, r := x.value.expr, y.value.expr;
    PairFrom(idOf, limits, tag, op, l, r, WriteExpr(idOf, l), WriteExpr(idOf, r), ExprCost(limits, l),
             ExprCost(limits, r),
             nodes, y.value.nodes, y.rest, y.budget);
    PlusAssoc(ExprCost(limits, l), ExprCost(limits, r), y.budget);
  }

  lemma {:induction false} PairFrom(idOf: ValueType -> Option<u32>, limits: Limits, tag: byte, op: byte,
                                    l: ValidatorExpr, r: ValidatorExpr,
                                    a: seq<byte>, b: seq<byte>, c: Budget, d: Budget, nodes: nat, total: nat,
                                        rest: seq<byte>, after: Budget)
    requires (tag == 3 || tag == 4) && KnownOp(tag, op) && Interned(idOf, l) && Interned(idOf, r)
    requires a == WriteExpr(idOf, l) && b == WriteExpr(idOf, r) && c == ExprCost(limits, l) && d == ExprCost(limits, r)
    requires total == nodes + NodeCount(l) + NodeCount(r) <= MAX_NODES
    ensures NodeExplains(idOf, limits, tag, [op] + (a + (b + rest)), nodes, Plus(Plus(c, d), after),
                         Parsed(Counted(Binary(tag, op, l, r), total), rest, after))
  {
    BinaryIsWritten(idOf, limits, tag, op, l, r, a, b, c, d);
    PairBytes(tag, op, a, b, rest);
  }

  lemma {:induction false} PairBytes(tag: byte, op: byte, a: seq<byte>, b: seq<byte>, rest: seq<byte>)
    ensures [tag] + ([op] + (a + (b + rest))) == ([tag] + ([op] + (a + b))) + rest
  {
    Assoc(a, b, rest);
    Assoc([op], a + b, rest);
    Assoc([tag], [op] + (a + b), rest);
  }

  /** The operator tags are inverted by the operators read from them. */
  lemma {:induction false} BinaryIsWritten(idOf: ValueType -> Option<u32>, limits: Limits, tag: byte, op: byte,
                                           l: ValidatorExpr, r: ValidatorExpr, a: seq<byte>, b: seq<byte>, c: Budget,
                                               d: Budget)
    requires (tag == 3 || tag == 4) && KnownOp(tag, op) && Interned(idOf, l) && Interned(idOf, r)
    requires a == WriteExpr(idOf, l) && b == WriteExpr(idOf, r) && c == ExprCost(limits, l) && d == ExprCost(limits, r)
    ensures var x := Binary(tag, op, l, r);
            && Interned(idOf, x) && WriteExpr(idOf, x) == [tag] + ([op] + (a + b))
            && ExprCost(limits, x) == Plus(c, d) && NodeCount(x) == 1 + NodeCount(l) + NodeCount(r)
  {
    if tag == 3 {
      assert BoolOpTag(BoolOpFrom(op).value) == op;
    } else {
      assert CompareTag(CompareFrom(op).value) == op;
    }
  }

  // ----- exactly what is readable -----

  /** No two expressions are written alike, whatever follows them. */
  lemma {:induction false} WrittenIsUnique(idOf: ValueType -> Option<u32>, types: seq<ValueType>,
                                           x: ValidatorExpr, r: seq<byte>, y: ValidatorExpr, s: seq<byte>)
    requires Lossless(idOf, types) && Interned(idOf, x) && Interned(idOf, y) &&
             WriteExpr(idOf, x) + r == WriteExpr(idOf, y) + s
    ensures x == y && r == s
    decreases x
  {
    match x
    case BoolConst(v) =>
      WrittenTags(idOf, x, r, y, s);
      TagPrefixFree(0, [BoolTag(v)], r, 0, [BoolTag(y.value)], s);
      SplitEqual([BoolTag(v)], r, [BoolTag(y.value)], s);
    case FieldRef(field, t) =>
      WrittenTags(idOf, x, r, y, s);
      FieldIsUnique(idOf, types, x, r, y, s);
    case Not(operand) =>
      WrittenTags(idOf, x, r, y, s);
      TagPrefixFree(2, WriteExpr(idOf, operand), r, 2, WriteExpr(idOf, y.operand), s);
      WrittenIsUnique(idOf, types, operand, r, y.operand, s);
    case BoolBinary(op, left, right) =>
      WrittenTags(idOf, x, r, y, s);
      var c, d := WriteExpr(idOf, y.left), WriteExpr(idOf, y.right);
      PairSplits(3, BoolOpTag(op), WriteExpr(idOf, left), WriteExpr(idOf, right), r, BoolOpTag(y.boolOp), c, d, s);
      WrittenIsUnique(idOf, types, left, WriteExpr(idOf, right) + r, y.left, d + s);
      WrittenIsUnique(idOf, types, right, r, y.right, s);
    case Compare(op, left, right) =>
      WrittenTags(idOf, x, r, y, s);
      var c, d := WriteExpr(idOf, y.left), WriteExpr(idOf, y.right);
      PairSplits(4, CompareTag(op), WriteExpr(idOf, left), WriteExpr(idOf, right), r, CompareTag(y.compareOp), c, d, s);
      WrittenIsUnique(idOf, types, left, WriteExpr(idOf, right) + r, y.left, d + s);
      WrittenIsUnique(idOf, types, right, r, y.right, s);
  }

  lemma {:induction false} WrittenTags(idOf: ValueType -> Option<u32>, x: ValidatorExpr, r: seq<byte>, y: ValidatorExpr,
                                       s: seq<byte>)
    requires Interned(idOf, x) && Interned(idOf, y) && WriteExpr(idOf, x) + r == WriteExpr(idOf, y) + s
    ensures ExprTag(x) == ExprTag(y)
  {
    assert (WriteExpr(idOf, x) + r)[0] == ExprTag(x) && (WriteExpr(idOf, y) + s)[0] == ExprTag(y);
  }

  lemma {:induction false} FieldIsUnique(idOf: ValueType -> Option<u32>, types: seq<ValueType>, x: ValidatorExpr,
                                         r: seq<byte>,
                                         y: ValidatorExpr, s: seq<byte>)
    requires Lossless(idOf, types) && Interned(idOf, x) && Interned(idOf, y) &&
             WriteExpr(idOf, x) + r == WriteExpr(idOf, y) + s
    requires x.FieldRef? && y.FieldRef?
    ensures x == y && r == s
  {
    Capacities();
    var i, j := idOf(x.valueType).value, idOf(y.valueType).value;
    var m, n, a, b := LittleEndian(x.field, 4), LittleEndian(y.field, 4), LittleEndian(i, 4), LittleEndian(j, 4);
    TagPrefixFree(1, m + a, r, 1, n + b, s);
    Assoc(m, a, r);
    Assoc(n, b, s);
    NumberPrefixFree(x.field, y.field, 4, a + r, b + s);
    NumberPrefixFree(i, j, 4, r, s);
    assert FindsType(idOf, types, x.valueType) && FindsType(idOf, types, y.valueType);
  }

  lemma {:induction false} PairSplits(tag: byte, op: byte, a: seq<byte>, b: seq<byte>, r: seq<byte>,
                                      q: byte, c: seq<byte>, d: seq<byte>, s: seq<byte>)
    requires ([tag] + ([op] + (a + b))) + r == ([tag] + ([q] + (c + d))) + s
    ensures op == q && a + (b + r) == c + (d + s)
  {
    TagPrefixFree(tag, [op] + (a + b), r, tag, [q] + (c + d), s);
    TagPrefixFree(op, a + b, r, q, c + d, s);
    Assoc(a, b, r);
    Assoc(c, d, s);
  }

  /** A written expression can be read exactly when its nodes fit the cap and the
      budget covers its field types; then it is read back exactly. */
  lemma {:induction false} ExprReadableIff(idOf: ValueType -> Option<u32>, types: seq<ValueType>, limits: Limits,
                                           x: ValidatorExpr, nodes0: nat, rest: seq<byte>, budget: Budget)
    requires Positions(idOf, types) && Interned(idOf, x)
    ensures var r := ReadExpr(WriteExpr(idOf, x) + rest, types, limits, nodes0, budget);
            && (r.Ok? <==> nodes0 + NodeCount(x) <= MAX_NODES && Affords(budget, ExprCost(limits, x)))
            && (r.Ok? ==> r.value.value == Counted(x, nodes0 + NodeCount(x)) && r.value.rest == rest &&
                          budget == Plus(ExprCost(limits, x), r.value.budget))
  {
    ReadsExpr(idOf, types, limits, x);
    ReadableFrom(idOf, types, limits, x, WriteExpr(idOf, x), ExprCost(limits, x), nodes0, rest, budget);
  }

  lemma {:induction false} ReadableFrom(idOf: ValueType -> Option<u32>, types: seq<ValueType>, limits: Limits,
                                        x: ValidatorExpr,
                                        bytes: seq<byte>, cost: Budget, nodes0: nat, rest: seq<byte>, budget: Budget)
    requires Positions(idOf, types) && Interned(idOf, x) && bytes == WriteExpr(idOf, x) && cost == ExprCost(limits, x)
    requires Readable(types, limits, bytes, cost, x)
    ensures var r := ReadExpr(bytes + rest, types, limits, nodes0, budget);
            && (r.Ok? <==> nodes0 + NodeCount(x) <= MAX_NODES && Affords(budget, cost))
            && (r.Ok? ==>
                  r.value.value == Counted(x, nodes0 + NodeCount(x)) && r.value.rest == rest &&
                  budget == Plus(cost, r.value.budget))
  {
    var r := ReadExpr(bytes + rest, types, limits, nodes0, budget);
    if r.Ok? {
      ReadExprIsWritten(idOf, types, limits, bytes + rest, nodes0, budget);
      SameExpr(idOf, types, limits, x, bytes, cost, nodes0, rest, budget, r.value);
    }
    if nodes0 + NodeCount(x) <= MAX_NODES && Affords(budget, cost) {
      ReadsWithin(types, limits, bytes, cost, x, nodes0, rest, budget);
    }
  }

  lemma {:induction false} SameExpr(idOf: ValueType -> Option<u32>, types: seq<ValueType>, limits: Limits,
                                    x: ValidatorExpr,
                                    bytes: seq<byte>, cost: Budget, nodes0: nat, rest: seq<byte>, budget: Budget,
                                        p: Parsed<Counted>)
    requires Lossless(idOf, types) && Interned(idOf, x) && bytes == WriteExpr(idOf, x) && cost == ExprCost(limits, x)
    requires Explains(idOf, limits, bytes + rest, nodes0, budget, p)
    ensures p.value == Counted(x, nodes0 + NodeCount(x)) && p.rest == rest && budget == Plus(cost, p.budget)
    ensures nodes0 + NodeCount(x) <= MAX_NODES && Affords(budget, cost)
  {
    WrittenIsUnique(idOf, types, x, rest, p.value.expr, p.rest);
  }

  lemma {:induction false} ReadsWithin(types: seq<ValueType>, limits: Limits, bytes: seq<byte>, cost: Budget,
                                       x: ValidatorExpr,
                                       nodes0: nat, rest: seq<byte>, budget: Budget)
    requires Readable(types, limits, bytes, cost, x) && nodes0 + NodeCount(x) <= MAX_NODES && Affords(budget, cost)
    ensures ReadExpr(bytes + rest, types, limits, nodes0, budget).Ok?
  {
    var after := Budget(budget.bytes - cost.bytes, budget.nodes - cost.nodes);
    assert budget == Plus(cost, after);
    assert ReadsBack(types, limits, bytes, cost, x, nodes0, rest, after);
  }

  /** The artifact's own type table is such a table. */
  lemma {:induction false} TablePositions(strings: map<Text, u32>, collected: seq<ValueType>, table: TypeTable)
    requires Injective(Wire(strings)) && IsTable(strings, collected, table)
    ensures Positions(IdOf(strings, table), table.types)
  {
    forall t | IdOf(strings, table)(t).Some? ensures FindsType(IdOf(strings, table), table.types, t) {
      InterningIsLossless(strings, collected, table, t);
    }
    forall i | 0 <= i < |table.types|
      ensures IdOf(strings, table)(table.types[i]).Some? && IdOf(strings, table)(table.types[i]).value == i
    {
      assert table.types[i] in table.types;
      assert Encode(Wire(strings), table.types[i]) in table.ids;
    }
  }
}
