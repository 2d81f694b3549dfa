/** Record invariants: lowering a source predicate to a bounded validator
    expression, and the artifact's independent re-typing of it. */
module Validators {
  import opened Wrappers
  import opened ValueTypes

  datatype BoolBinaryOp = And | Or
  datatype CompareOp = Equal | NotEqual | Less | LessEqual | Greater | GreaterEqual

  datatype ValidatorExpr =
    | BoolConst(value: bool)
    | FieldRef(field: u32, valueType: ValueType)
    | Not(operand: ValidatorExpr)
    | BoolBinary(boolOp: BoolBinaryOp, left: ValidatorExpr, right: ValidatorExpr)
    | Compare(compareOp: CompareOp, left: ValidatorExpr, right: ValidatorExpr)

  /** The source operators a predicate may use, and all the others. */
  datatype SourceOp = AndOp | OrOp | EqualOp | NotEqualOp | LessOp | LessEqualOp | GreaterOp | GreaterEqualOp | OtherOp

  datatype SourceExpr =
    | BoolLiteral(value: bool)
    | Variable(name: Text)
    | NotExpr(operand: SourceExpr)
    | BinaryExpr(op: SourceOp, left: SourceExpr, right: SourceExpr)
    | OtherExpr

  datatype ExprError =
    | TooManyNodes | UnknownField | NotScalar | NotBool | BadComparison | NotPermitted | FieldOutOfRange | BadFieldType

  const MAX_NODES := 256

  predicate ScalarType(t: ValueType) {
    match t
    case BoolType => true
    case IntType => true
    case FloatType => true
    case StringType => true
    case BytesType => true
    case NewtypeType(_, u) => ScalarType(u)
    case _ => false
  }

  predicate IsOrdered(t: ValueType) {
    match t
    case IntType => true
    case FloatType => true
    case StringType => true
    case BytesType => true
    case NewtypeType(_, u) => IsOrdered(u)
    case _ => false
  }

  // ----- lowering -----

  /** The first field with the name. */
  function FindField(fields: seq<RecordField>, name: Text): (r: Option<nat>)
    ensures r.Some? ==>
              r.value < |fields| && fields[r.value].name == name &&
              forall i | 0 <= i < r.value :: fields[i].name != name
    ensures r.None? ==> forall i | 0 <= i < |fields| :: fields[i].name != name
  {
    if fields == [] then None
    else if fields[0].name == name then Some(0)
    else
      var r := FindField(fields[1..], name);
      if r.None? then None else Some(r.value + 1)
  }

  function AsCompare(op: SourceOp): Option<CompareOp> {
    match op
    case EqualOp => Some(Equal)
    case NotEqualOp => Some(NotEqual)
    case LessOp => Some(Less)
    case LessEqualOp => Some(LessEqual)
    case GreaterOp => Some(Greater)
    case GreaterEqualOp => Some(GreaterEqual)
    case _ => None
  }

  predicate NeedsOrder(op: CompareOp) {
    op == Less || op == LessEqual || op == Greater || op == GreaterEqual
  }

  /** A lowered expression, its type, and the nodes counted so far. */
  datatype Lowered = Lowered(expr: ValidatorExpr, valueType: ValueType, nodes: nat)

  function Lower(e: SourceExpr, fields: seq<RecordField>, nodes0: nat): Result<Lowered, ExprError>
    requires |fields| <= 0x1_0000_0000
  {
    var nodes := nodes0 + 1;
    if nodes > MAX_NODES then Err(TooManyNodes)
    else
      match e
      case BoolLiteral(value) => Ok(Lowered(BoolConst(value), BoolType, nodes))
      case Variable(name) =>
        (var found := FindField(fields, name);
         if found.None? then Err(UnknownField)
         else
           var t := fields[found.value].valueType;
           if !ScalarType(t) then Err(NotScalar) else Ok(Lowered(FieldRef(found.value, t), t, nodes)))
      case NotExpr(operand) =>
        (var r := Lower(operand, fields, nodes);
         if r.Err? then r
         else if r.value.valueType != BoolType then Err(NotBool)
         else Ok(Lowered(Not(r.value.expr), BoolType, r.value.nodes)))
      case BinaryExpr(op, left, right) =>
        (var l := Lower(left, fields, nodes);
         if l.Err? then l
         else
           var r := Lower(right, fields, l.value.nodes);
           if r.Err? then r else LowerBinary(op, l.value, r.value))
      case OtherExpr => Err(NotPermitted)
  }

  function LowerBinary(op: SourceOp, l: Lowered, r: Lowered): Result<Lowered, ExprError> {
    if op == AndOp || op == OrOp then
      if l.valueType != BoolType || r.valueType != BoolType then Err(NotBool)
      else Ok(Lowered(BoolBinary(if op == AndOp then And else Or, l.expr, r.expr), BoolType, r.nodes))
    else
      var compare := AsCompare(op);
      if compare.None? then Err(NotPermitted)
      else if l.valueType != r.valueType || !ScalarType(l.valueType) || (NeedsOrder(compare.value) &&
          !IsOrdered(l.valueType)) then Err(BadComparison)
      else Ok(Lowered(Compare(compare.value, l.expr, r.expr), BoolType, r.nodes))
  }

  // ----- re-typing -----

  datatype Typed = Typed(valueType: ValueType, nodes: nat)

  function TypeExpr(x: ValidatorExpr, fields: seq<RecordField>, nodes0: nat): Result<Typed, ExprError> {
    var nodes := nodes0 + 1;
    if nodes > MAX_NODES then Err(TooManyNodes)
    else
      match x
      case BoolConst(_) => Ok(Typed(BoolType, nodes))
      case FieldRef(field, t) =>
        if field >= |fields| then Err(FieldOutOfRange)
        else if fields[field].valueType != t || !ScalarType(t) then Err(BadFieldType)
        else Ok(Typed(t, nodes))
      case Not(operand) =>
        (var r := TypeExpr(operand, fields, nodes);
         if r.Err? then r
         else if r.value.valueType != BoolType then Err(NotBool)
         else Ok(Typed(BoolType, r.value.nodes)))
      case BoolBinary(_, left, right) =>
        (var l := TypeExpr(left, fields, nodes);
         if l.Err? then l
         else if l.value.valueType != BoolType then Err(NotBool)
         else
           var r := TypeExpr(right, fields, l.value.nodes);
           if r.Err? then r
           else if r.value.valueType != BoolType then Err(NotBool)
           else Ok(Typed(BoolType, r.value.nodes)))
      case Compare(op, left, right) =>
        (var l := TypeExpr(left, fields, nodes);
         if l.Err? then l
         else
           var r := TypeExpr(right, fields, l.value.nodes);
           if r.Err? then r
           else if l.value.valueType != r.value.valueType || !ScalarType(l.value.valueType) || (NeedsOrder(op) &&
               !IsOrdered(l.value.valueType)) then
             Err(BadComparison)
           else Ok(Typed(BoolType, r.value.nodes)))
  }

  function NodeCount(x: ValidatorExpr): (n: nat)
    ensures n > 0
  {
    match x
    case BoolConst(_) => 1
    case FieldRef(_, _) => 1
    case Not(operand) => 1 + NodeCount(operand)
    case BoolBinary(_, left, right) => 1 + NodeCount(left) + NodeCount(right)
    case Compare(_, left, right) => 1 + NodeCount(left) + NodeCount(right)
  }

  lemma {:induction false} BinaryRetypes(op: SourceOp, l: Lowered, r: Lowered, fields: seq<RecordField>, nodes: nat)
    requires nodes < MAX_NODES && LowerBinary(op, l, r).Ok?
    requires TypeExpr(l.expr, fields, nodes + 1) == Ok(Typed(l.valueType, l.nodes)) &&
             l.nodes == nodes + 1 + NodeCount(l.expr)
    requires TypeExpr(r.expr, fields, l.nodes) == Ok(Typed(r.valueType, r.nodes)) &&
             r.nodes == l.nodes + NodeCount(r.expr)
    ensures var b := LowerBinary(op, l, r).value;
            TypeExpr(b.expr, fields, nodes) == Ok(Typed(b.valueType, b.nodes)) &&
                b.nodes == nodes + NodeCount(b.expr) && b.nodes == r.nodes
  {
  }

  /** Whatever the compiler lowers, the artifact checker re-types to the same type
      after counting the same nodes. */
  lemma {:induction false} LoweredRetypes(e: SourceExpr, fields: seq<RecordField>, nodes: nat)
    requires |fields| <= 0x1_0000_0000 && Lower(e, fields, nodes).Ok?
    ensures var l := Lower(e, fields, nodes).value;
            && TypeExpr(l.expr, fields, nodes) == Ok(Typed(l.valueType, l.nodes))
            && l.nodes == nodes + NodeCount(l.expr) && l.nodes <= MAX_NODES
    decreases e
  {
    match e
    case BoolLiteral(_) =>
    case Variable(_) =>
    case NotExpr(operand) => LoweredRetypes(operand, fields, nodes + 1);
    case BinaryExpr(op, left, right) =>
      LoweredRetypes(left, fields, nodes + 1);
      var l := Lower(left, fields, nodes + 1).value;
      LoweredRetypes(right, fields, l.nodes);
      BinaryRetypes(op, l, Lower(right, fields, l.nodes).value, fields, nodes);
    case OtherExpr =>
  }

  // ----- meaning -----

  /** A float; both zeros are the finite zero. */
  datatype Float = NotANumber | NegativeInfinity | Finite(r: real) | PositiveInfinity

  /** The values a record's fields may hold; the rest cannot occur in a predicate. */
  datatype Value =
    | BoolValue(b: bool)
    | IntValue(i: int)
    | FloatValue(f: Float)
    | StringValue(text: Text)
    | BytesValue(bytes: Text)
    | NewtypeValue(identity: Text, inner: Value)
    | OtherValue

  /** How two scalars are compared. */
  datatype Comparison = Comparison(equal: (Value, Value) -> bool, less: (Value, Value) -> bool)

  function IsTrue(v: Value): bool {
    v == BoolValue(true)
  }

  function EvalSource(e: SourceExpr, fields: seq<RecordField>, record: seq<Value>, c: Comparison): Value
    requires |record| == |fields|
  {
    match e
    case BoolLiteral(value) => BoolValue(value)
    case Variable(name) =>
      (var found := FindField(fields, name);
       if found.Some? then record[found.value] else BoolValue(false))
    case NotExpr(operand) => BoolValue(!IsTrue(EvalSource(operand, fields, record, c)))
    case BinaryExpr(op, left, right) =>
      (var l, r := EvalSource(left, fields, record, c), EvalSource(right, fields, record, c);
       match op
       case AndOp => BoolValue(IsTrue(l) && IsTrue(r))
       case OrOp => BoolValue(IsTrue(l) || IsTrue(r))
       case EqualOp => BoolValue(c.equal(l, r))
       case NotEqualOp => BoolValue(!c.equal(l, r))
       case LessOp => BoolValue(c.less(l, r))
       case LessEqualOp => BoolValue(c.less(l, r) || c.equal(l, r))
       case GreaterOp => BoolValue(c.less(r, l))
       case GreaterEqualOp => BoolValue(c.less(r, l) || c.equal(r, l))
       case OtherOp => BoolValue(false))
    case OtherExpr => BoolValue(false)
  }

  /** One lowered operator means what the source operator means. */
  lemma {:induction false} BinaryMeaning(op: SourceOp, l: Lowered, r: Lowered, left: SourceExpr, right: SourceExpr,
                                         fields: seq<RecordField>, record: seq<Value>, c: Comparison)
    requires |record| == |fields| && LowerBinary(op, l, r).Ok?
    requires EvalExpr(l.expr, record, c) == EvalSource(left, fields, record, c) &&
             EvalExpr(r.expr, record, c) == EvalSource(right, fields, record, c)
    ensures EvalExpr(LowerBinary(op, l, r).value.expr, record, c) ==
            EvalSource(BinaryExpr(op, left, right), fields, record, c)
  {
  }

  function EvalExpr(x: ValidatorExpr, record: seq<Value>, c: Comparison): Value {
    match x
    case BoolConst(value) => BoolValue(value)
    case FieldRef(field, _) => if field < |record| then record[field] else BoolValue(false)
    case Not(operand) => BoolValue(!IsTrue(EvalExpr(operand, record, c)))
    case BoolBinary(op, left, right) =>
      (var l, r := IsTrue(EvalExpr(left, record, c)), IsTrue(EvalExpr(right, record, c));
       BoolValue(if op == And then l && r else l || r))
    case Compare(op, left, right) =>
      (var l, r := EvalExpr(left, record, c), EvalExpr(right, record, c);
       match op
       case Equal => BoolValue(c.equal(l, r))
       case NotEqual => BoolValue(!c.equal(l, r))
       case Less => BoolValue(c.less(l, r))
       case LessEqual => BoolValue(c.less(l, r) || c.equal(l, r))
       case Greater => BoolValue(c.less(r, l))
       case GreaterEqual => BoolValue(c.less(r, l) || c.equal(r, l)))
  }

  /** Lowering keeps the predicate's value for every record and comparison. */
  lemma {:induction false} LoweringKeepsMeaning(e: SourceExpr, fields: seq<RecordField>, nodes: nat, record: seq<Value>,
                                                c: Comparison)
    requires |fields| <= 0x1_0000_0000 && Lower(e, fields, nodes).Ok? && |record| == |fields|
    ensures EvalExpr(Lower(e, fields, nodes).value.expr, record, c) == EvalSource(e, fields, record, c)
    decreases e
  {
    match e
    case BoolLiteral(_) =>
    case Variable(_) =>
    case NotExpr(operand) => LoweringKeepsMeaning(operand, fields, nodes + 1, record, c);
    case BinaryExpr(op, left, right) =>
      LoweringKeepsMeaning(left, fields, nodes + 1, record, c);
      var l := Lower(left, fields, nodes + 1).value;
      LoweringKeepsMeaning(right, fields, l.nodes, record, c);
      BinaryMeaning(op, l, Lower(right, fields, l.nodes).value, left, right, fields, record, c);
    case OtherExpr =>
  }

  // ----- tags, in the wire and the digest form alike -----

  function BoolTag(value: bool): byte {
    if value then 1 else 0
  }

  function BoolOpTag(op: BoolBinaryOp): byte {
    match op
    case And => 0
    case Or => 1
  }

  function CompareTag(op: CompareOp): byte {
    match op
    case Equal => 0
    case NotEqual => 1
    case Less => 2
    case LessEqual => 3
    case Greater => 4
    case GreaterEqual => 5
  }

  function ExprTag(x: ValidatorExpr): byte {
    match x
    case BoolConst(_) => 0
    case FieldRef(_, _) => 1
    case Not(_) => 2
    case BoolBinary(_, _, _) => 3
    case Compare(_, _, _) => 4
  }
}
