/** Evaluating a validator expression at an entry boundary. The evaluator compares only
    constants and fields and does not order NaN, so it can fail on expressions that
    were accepted before. */
module ValidatorRuntime {
  import opened Wrappers
  import opened ValueTypes
  import opened TextOrder
  import opened Validators

  // ----- comparing fields -----

  datatype Ordering = Lt | Eq | Gt

  function CompareInts(a: int, b: int): Ordering {
    if a < b then Lt else if a == b then Eq else Gt
  }

  function CompareTexts(a: Text, b: Text): Ordering {
    if a == b then Eq else if TextLess(a, b) then Lt else Gt
  }

  function CompareFloats(a: Float, b: Float): Option<Ordering> {
    if a.NotANumber? || b.NotANumber? then None
    else if a == b then Some(Eq)
    else if a.NegativeInfinity? || b.PositiveInfinity? then Some(Lt)
    else if a.PositiveInfinity? || b.NegativeInfinity? then Some(Gt)
    else Some(if a.r < b.r then Lt else Gt)
  }

  predicate FieldEqual(a: Value, b: Value) {
    match (a, b)
    case (BoolValue(x), BoolValue(y)) => x == y
    case (IntValue(x), IntValue(y)) => x == y
    case (FloatValue(x), FloatValue(y)) => !x.NotANumber? && x == y
    case (StringValue(x), StringValue(y)) => x == y
    case (BytesValue(x), BytesValue(y)) => x == y
    case (NewtypeValue(m, x), NewtypeValue(n, y)) => m == n && FieldEqual(x, y)
    case _ => false
  }

  function CompareFields(a: Value, b: Value): Option<Ordering> {
    match (a, b)
    case (IntValue(x), IntValue(y)) => Some(CompareInts(x, y))
    case (FloatValue(x), FloatValue(y)) => CompareFloats(x, y)
    case (StringValue(x), StringValue(y)) => Some(CompareTexts(x, y))
    case (BytesValue(x), BytesValue(y)) => Some(CompareTexts(x, y))
    case (NewtypeValue(m, x), NewtypeValue(n, y)) => if m == n then CompareFields(x, y) else None
    case _ => None
  }

  /** The comparison that predicates mean. */
  function RuntimeComparison(): Comparison {
    Comparison((a, b) => FieldEqual(a, b), (a, b) => CompareFields(a, b) == Some(Lt))
  }

  // ----- the evaluator -----

  datatype Operand = Constant(b: bool) | Held(v: Value)

  function OperandOf(x: ValidatorExpr, record: seq<Value>): Option<Operand> {
    match x
    case BoolConst(value) => Some(Constant(value))
    case FieldRef(field, _) => if field < |record| then Some(Held(record[field])) else None
    case _ => None
  }

  function BoolOperand(o: Operand): Option<bool> {
    match o
    case Constant(b) => Some(b)
    case Held(BoolValue(b)) => Some(b)
    case _ => None
  }

  predicate OperandsEqual(l: Operand, r: Operand) {
    if BoolOperand(l).Some? && BoolOperand(r).Some? then BoolOperand(l) == BoolOperand(r)
    else l.Held? && r.Held? && FieldEqual(l.v, r.v)
  }

  function OrderOperands(l: Operand, r: Operand): Option<Ordering> {
    if l.Held? && r.Held? then CompareFields(l.v, r.v) else None
  }

  /** None where the runtime reports an invalid expression. */
  function Evaluate(x: ValidatorExpr, record: seq<Value>): Option<bool> {
    match x
    case BoolConst(value) => Some(value)
    case FieldRef(field, _) => if field < |record| then BoolField(record[field]) else None
    case Not(operand) =>
      (var v := Evaluate(operand, record);
       if v.None? then None else Some(!v.value))
    case BoolBinary(op, left, right) =>
      (var l := Evaluate(left, record);
       if l.None? || l.value == (op == Or) then l else Evaluate(right, record))
    case Compare(op, left, right) => EvaluateCompare(op, OperandOf(left, record), OperandOf(right, record))
  }

  function BoolField(v: Value): Option<bool> {
    match v
    case BoolValue(b) => Some(b)
    case NewtypeValue(_, BoolValue(b)) => Some(b)
    case _ => None
  }

  /** A field counts as a truth value when it is one or directly wraps one. */
  lemma {:induction false} FieldReads(field: u32, t: ValueType, record: seq<Value>, b: bool)
    ensures Evaluate(FieldRef(field, t), record) == Some(b) <==>
            && field < |record|
            && (record[field] == BoolValue(b) || exists name :: record[field] == NewtypeValue(name, BoolValue(b)))
  {
    if field < |record| && record[field].NewtypeValue? {
      assert record[field] == NewtypeValue(record[field].identity, record[field].inner);
    }
  }

  function EvaluateCompare(op: CompareOp, l: Option<Operand>, r: Option<Operand>): Option<bool> {
    if l.None? || r.None? then None
    else if op == Equal then Some(OperandsEqual(l.value, r.value))
    else if op == NotEqual then Some(!OperandsEqual(l.value, r.value))
    else
      var order := OrderOperands(l.value, r.value);
      if order.None? then None
      else Some(if op == Less then order.value == Lt
                else if op == LessEqual then order.value != Gt
                else if op == Greater then order.value == Gt
                else order.value != Lt)
  }

  // ----- typed records -----

  predicate HasType(v: Value, t: ValueType) {
    match t
    case BoolType => v.BoolValue?
    case IntType => v.IntValue?
    case FloatType => v.FloatValue?
    case StringType => v.StringValue?
    case BytesType => v.BytesValue?
    case NewtypeType(name, u) => v.NewtypeValue? && v.identity == name && HasType(v.inner, u)
    case _ => true
  }

  predicate RecordHasTypes(record: seq<Value>, fields: seq<RecordField>) {
    |record| == |fields| && forall i | 0 <= i < |record| :: HasType(record[i], fields[i].valueType)
  }

  predicate IsNaN(v: Value) {
    match v
    case FloatValue(f) => f.NotANumber?
    case NewtypeValue(_, inner) => IsNaN(inner)
    case _ => false
  }

  lemma {:induction false} TextsCompare(a: Text, b: Text)
    ensures CompareTexts(a, b) == Gt <==> CompareTexts(b, a) == Lt
  {
    TextTotal(a, b);
  }

  /** Values of one ordered type compare unless one is NaN, and then the comparison is
      a total order that agrees with equality. */
  lemma {:induction false} OrderedCompare(a: Value, b: Value, t: ValueType)
    requires IsOrdered(t) && HasType(a, t) && HasType(b, t)
    ensures CompareFields(a, b).Some? <==> !IsNaN(a) && !IsNaN(b)
    ensures CompareFields(a, b) == Some(Eq) <==> FieldEqual(a, b)
    ensures CompareFields(a, b) == Some(Gt) <==> CompareFields(b, a) == Some(Lt)
    ensures FieldEqual(a, b) <==> FieldEqual(b, a)
    decreases t
  {
    match t
    case NewtypeType(_, u) => OrderedCompare(a.inner, b.inner, u);
    case StringType => TextsCompare(a.text, b.text);
    case BytesType => TextsCompare(a.bytes, b.bytes);
    case _ =>
  }

  /** What it means for one value to be less than another: numbers by size, with the
      infinities at the ends, texts at their first difference, newtypes by what they wrap. */
  ghost predicate ValueLess(a: Value, b: Value) {
    match (a, b)
    case (IntValue(x), IntValue(y)) => y - x > 0
    case (FloatValue(Finite(x)), FloatValue(Finite(y))) => y - x > 0.0
    case (FloatValue(NegativeInfinity), FloatValue(y)) => y.Finite? || y.PositiveInfinity?
    case (FloatValue(Finite(_)), FloatValue(y)) => y.PositiveInfinity?
    case (StringValue(x), StringValue(y)) => exists k: nat :: TextLessAt(x, y, k)
    case (BytesValue(x), BytesValue(y)) => exists k: nat :: TextLessAt(x, y, k)
    case (NewtypeValue(m, x), NewtypeValue(n, y)) => m == n && ValueLess(x, y)
    case _ => false
  }

  /** The runtime's orderings are this relation and its converse. */
  lemma {:induction false} ComparesByValue(a: Value, b: Value)
    ensures CompareFields(a, b) == Some(Lt) <==> ValueLess(a, b)
    ensures CompareFields(a, b) == Some(Gt) <==> ValueLess(b, a)
    decreases a
  {
    match (a, b)
    case (StringValue(x), StringValue(y)) =>
      TextsCompare(x, y);
      TextLessIff(x, y);
      TextLessIff(y, x);
      TextIrreflexive(x);
    case (BytesValue(x), BytesValue(y)) =>
      TextsCompare(x, y);
      TextLessIff(x, y);
      TextLessIff(y, x);
      TextIrreflexive(x);
    case (NewtypeValue(_, x), NewtypeValue(_, y)) => ComparesByValue(x, y);
    case _ =>
  }

  /** A value no predicate can mention. */
  predicate IsOther(v: Value) {
    v.OtherValue? || (v.NewtypeValue? && IsOther(v.inner))
  }

  /** Scalars are equal when they are the same, except that NaN equals nothing. */
  lemma {:induction false} EqualIff(a: Value, b: Value)
    ensures FieldEqual(a, b) <==> a == b && !IsNaN(a) && !IsOther(a)
    decreases a
  {
    if a.NewtypeValue? && b.NewtypeValue? {
      EqualIff(a.inner, b.inner);
    }
  }

  // ----- when evaluation succeeds -----

  predicate IsOperand(x: ValidatorExpr) {
    x.BoolConst? || x.FieldRef?
  }

  /** Evaluation reaches no comparison of anything but constants and fields, and no
      ordering of NaN. */
  predicate Runs(x: ValidatorExpr, record: seq<Value>) {
    var c := RuntimeComparison();
    match x
    case BoolConst(_) => true
    case FieldRef(_, _) => true
    case Not(operand) => Runs(operand, record)
    case BoolBinary(op, left, right) =>
      Runs(left, record) && (IsTrue(EvalExpr(left, record, c)) == (op == And) ==> Runs(right, record))
    case Compare(op, left, right) =>
      IsOperand(left) && IsOperand(right) &&
      (NeedsOrder(op) ==> !IsNaN(EvalExpr(left, record, c)) && !IsNaN(EvalExpr(right, record, c)))
  }

  /** On a well-typed record a re-typed predicate evaluates to its meaning if and only
      if evaluation runs. */
  lemma {:induction false} EvaluatesIff(x: ValidatorExpr, fields: seq<RecordField>, nodes: nat, record: seq<Value>)
    requires TypeExpr(x, fields, nodes).Ok? && TypeExpr(x, fields, nodes).value.valueType == BoolType
    requires RecordHasTypes(record, fields)
    ensures Evaluate(x, record) == if Runs(x, record) then Some(IsTrue(EvalExpr(x, record,
            RuntimeComparison()))) else None
    decreases x
  {
    match x
    case BoolConst(_) =>
    case FieldRef(_, _) =>
    case Not(operand) => EvaluatesIff(operand, fields, nodes + 1, record);
    case BoolBinary(_, left, right) =>
      EvaluatesIff(left, fields, nodes + 1, record);
      EvaluatesIff(right, fields, TypeExpr(left, fields, nodes + 1).value.nodes, record);
    case Compare(op, left, right) =>
      var l := TypeExpr(left, fields, nodes + 1).value;
      CompareEvaluates(op, left, right, fields, nodes + 1, l.nodes, record);
  }

  lemma {:induction false} TypedOperand(x: ValidatorExpr, fields: seq<RecordField>, nodes: nat, record: seq<Value>)
    requires IsOperand(x) && TypeExpr(x, fields, nodes).Ok? && RecordHasTypes(record, fields)
    ensures var v := EvalExpr(x, record, RuntimeComparison());
            && HasType(v, TypeExpr(x, fields, nodes).value.valueType)
            && OperandOf(x, record) == Some(if x.BoolConst? then Constant(x.value) else Held(v))
            && (x.BoolConst? ==> v == BoolValue(x.value))
  {
  }

  lemma {:induction false} CompareEvaluates(op: CompareOp, left: ValidatorExpr, right: ValidatorExpr,
                                            fields: seq<RecordField>,
                                            m: nat, n: nat, record: seq<Value>)
    requires TypeExpr(left, fields, m).Ok? && TypeExpr(right, fields, n).Ok? && RecordHasTypes(record, fields)
    requires var t := TypeExpr(left, fields, m).value.valueType;
             TypeExpr(right, fields, n).value.valueType == t && (NeedsOrder(op) ==> IsOrdered(t))
    ensures var x := Compare(op, left, right);
            Evaluate(x, record) == if Runs(x, record) then Some(IsTrue(EvalExpr(x, record,
                RuntimeComparison()))) else None
  {
    if IsOperand(left) && IsOperand(right) {
      TypedOperand(left, fields, m, record);
      TypedOperand(right, fields, n, record);
      var a, b := EvalExpr(left, record, RuntimeComparison()), EvalExpr(right, record, RuntimeComparison());
      if NeedsOrder(op) {
        OrderedCompare(a, b, TypeExpr(left, fields, m).value.valueType);
        OrderEvaluates(op, a, b);
      }
    }
  }

  lemma {:induction false} OrderEvaluates(op: CompareOp, a: Value, b: Value)
    requires NeedsOrder(op)
    requires CompareFields(a, b) == Some(Eq) <==> FieldEqual(a, b)
    requires CompareFields(a, b) == Some(Gt) <==> CompareFields(b, a) == Some(Lt)
    requires FieldEqual(a, b) <==> FieldEqual(b, a)
    ensures var c := RuntimeComparison();
            CompareFields(a, b).Some? ==>
              EvaluateCompare(op, Some(Held(a)), Some(Held(b))) ==
              Some(match op
                   case Less => c.less(a, b)
                   case LessEqual => c.less(a, b) || c.equal(a, b)
                   case Greater => c.less(b, a)
                   case _ => c.less(b, a) || c.equal(b, a))
  {
  }

  // ----- predicates that always evaluate -----

  /** Only literals and variables are compared. */
  predicate ComparesScalars(e: SourceExpr) {
    match e
    case NotExpr(operand) => ComparesScalars(operand)
    case BinaryExpr(op, left, right) =>
      if op == AndOp || op == OrOp then ComparesScalars(left) && ComparesScalars(right)
      else IsScalar(left) && IsScalar(right)
    case _ => true
  }

  predicate IsScalar(e: SourceExpr) {
    e.BoolLiteral? || e.Variable?
  }

  lemma {:induction false} ScalarsRun(e: SourceExpr, fields: seq<RecordField>, nodes: nat, record: seq<Value>)
    requires |fields| <= 0x1_0000_0000 && Lower(e, fields, nodes).Ok? && ComparesScalars(e)
    requires forall v | v in record :: !IsNaN(v)
    ensures Runs(Lower(e, fields, nodes).value.expr, record)
    decreases e
  {
    match e
    case NotExpr(operand) => ScalarsRun(operand, fields, nodes + 1, record);
    case BinaryExpr(op, left, right) =>
      var l := Lower(left, fields, nodes + 1).value;
      var r := Lower(right, fields, l.nodes).value;
      if op == AndOp || op == OrOp {
        ScalarsRun(left, fields, nodes + 1, record);
        ScalarsRun(right, fields, l.nodes, record);
        assert Lower(e, fields, nodes).value.expr == BoolBinary(if op == AndOp then And else Or, l.expr, r.expr);
      } else {
        ScalarLowered(left, fields, nodes + 1);
        ScalarLowered(right, fields, l.nodes);
        CompareRuns(AsCompare(op).value, l.expr, r.expr, record);
      }
    case _ =>
  }

  lemma {:induction false} ScalarLowered(e: SourceExpr, fields: seq<RecordField>, nodes: nat)
    requires |fields| <= 0x1_0000_0000 && Lower(e, fields, nodes).Ok? && IsScalar(e)
    ensures IsOperand(Lower(e, fields, nodes).value.expr)
  {
  }

  lemma {:induction false} CompareRuns(op: CompareOp, left: ValidatorExpr, right: ValidatorExpr, record: seq<Value>)
    requires IsOperand(left) && IsOperand(right) && forall v | v in record :: !IsNaN(v)
    ensures Runs(Compare(op, left, right), record)
  {
  }

  /** A source predicate that compares only literals and fields is evaluated to its
      meaning at the boundary, on every well-typed record without NaN. */
  lemma {:induction false} BoundaryKeepsMeaning(e: SourceExpr, fields: seq<RecordField>, lowered: Lowered,
                                                record: seq<Value>)
    requires |fields| <= 0x1_0000_0000 && Lower(e, fields, 0) == Ok(lowered) && lowered.valueType == BoolType
    requires ComparesScalars(e) && RecordHasTypes(record, fields) && forall v | v in record :: !IsNaN(v)
    ensures Evaluate(lowered.expr, record) == Some(IsTrue(EvalSource(e, fields, record, RuntimeComparison())))
  {
    LoweredRetypes(e, fields, 0);
    LoweringKeepsMeaning(e, fields, 0, record, RuntimeComparison());
    ScalarsRun(e, fields, 0, record);
    EvaluatesIff(lowered.expr, fields, 0, record);
  }

  /** The restriction is needed: `(flag == true) == true` is lowered and re-typed, and
      the evaluator rejects it on every record. */
  lemma {:induction false} NestedComparisonFails(name: Text, flag: bool)
    ensures var fields := [RecordField(name, BoolType)];
            var e := BinaryExpr(EqualOp, BinaryExpr(EqualOp, Variable(name), BoolLiteral(true)), BoolLiteral(true));
            && Lower(e, fields, 0).Ok? && Lower(e, fields, 0).value.valueType == BoolType
            && TypeExpr(Lower(e, fields, 0).value.expr, fields, 0).Ok? && RecordHasTypes([BoolValue(flag)], fields)
            && Evaluate(Lower(e, fields, 0).value.expr, [BoolValue(flag)]) == None
  {
    var fields := [RecordField(name, BoolType)];
    var inner := BinaryExpr(EqualOp, Variable(name), BoolLiteral(true));
    var e := BinaryExpr(EqualOp, inner, BoolLiteral(true));
    assert FindField(fields, name) == Some(0);
    assert Lower(Variable(name), fields, 2) == Ok(Lowered(FieldRef(0, BoolType), BoolType, 3));
    assert Lower(inner, fields, 1) == Ok(Lowered(Compare(Equal, FieldRef(0, BoolType), BoolConst(true)), BoolType, 4));
    assert Lower(e, fields, 0).Ok?;
    LoweredRetypes(e, fields, 0);
  }

  /** Nor is an ordering of NaN evaluated, though it was accepted. */
  lemma {:induction false} UnorderedComparisonFails(name: Text)
    ensures var fields := [RecordField(name, FloatType)];
            var e, record := BinaryExpr(LessEqualOp, Variable(name), Variable(name)), [FloatValue(NotANumber)];
            && Lower(e, fields, 0).Ok? && Lower(e, fields, 0).value.valueType == BoolType &&
               RecordHasTypes(record, fields)
            && Evaluate(Lower(e, fields, 0).value.expr, record) == None
  {
    var fields := [RecordField(name, FloatType)];
    assert FindField(fields, name) == Some(0);
    assert Lower(Variable(name), fields, 1) == Ok(Lowered(FieldRef(0, FloatType), FloatType, 2));
    assert Lower(Variable(name), fields, 2) == Ok(Lowered(FieldRef(0, FloatType), FloatType, 3));
  }
}
