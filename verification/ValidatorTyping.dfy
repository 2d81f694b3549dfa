/** Which predicates are accepted: typing rules for source predicates and for validator
    expressions, and the node limit. */
module ValidatorTyping {
  import opened Wrappers
  import opened ValueTypes
  import opened Validators

  /** A type without the newtypes around it. */
  function Base(t: ValueType): ValueType {
    if t.NewtypeType? then Base(t.underlying) else t
  }

  ghost predicate IsScalarBase(t: ValueType) {
    Base(t) in {BoolType, IntType, FloatType, StringType, BytesType}
  }

  ghost predicate IsOrderedBase(t: ValueType) {
    Base(t) in {IntType, FloatType, StringType, BytesType}
  }

  lemma {:induction false} BaseDecides(t: ValueType)
    ensures ScalarType(t) <==> IsScalarBase(t)
    ensures IsOrdered(t) <==> IsOrderedBase(t)
  {
    if t.NewtypeType? {
      BaseDecides(t.underlying);
    }
  }

  // ----- source predicates -----

  /** A name stands for the first field that bears it. */
  ghost predicate Denotes(fields: seq<RecordField>, name: Text, i: nat) {
    i < |fields| && fields[i].name == name && forall j | 0 <= j < i :: fields[j].name != name
  }

  ghost predicate HasSourceType(e: SourceExpr, fields: seq<RecordField>, t: ValueType) {
    match e
    case BoolLiteral(_) => t == BoolType
    case Variable(name) => exists i: nat :: Denotes(fields, name, i) && fields[i].valueType == t && IsScalarBase(t)
    case NotExpr(operand) => t == BoolType && HasSourceType(operand, fields, BoolType)
    case BinaryExpr(op, left, right) =>
      t == BoolType && (
        match op
        case AndOp => HasSourceType(left, fields, BoolType) && HasSourceType(right, fields, BoolType)
        case OrOp => HasSourceType(left, fields, BoolType) && HasSourceType(right, fields, BoolType)
        case EqualOp => exists u :: HasSourceType(left, fields, u) && HasSourceType(right, fields, u)
        case NotEqualOp => exists u :: HasSourceType(left, fields, u) && HasSourceType(right, fields, u)
        case OtherOp => false
        case _ => exists u :: HasSourceType(left, fields, u) && HasSourceType(right, fields, u) && IsOrderedBase(u))
    case OtherExpr => false
  }

  function SourceNodes(e: SourceExpr): (n: nat)
    ensures n > 0
  {
    match e
    case NotExpr(operand) => SourceNodes(operand) + 1
    case BinaryExpr(_, left, right) => SourceNodes(left) + SourceNodes(right) + 1
    case _ => 1
  }

  /** The result says whether the predicate has a type and fits the node limit, and
      if so its only type and the nodes counted so far. */
  ghost predicate Decides(r: Result<Lowered, ExprError>, e: SourceExpr, fields: seq<RecordField>, nodes: nat) {
    match r
    case Ok(l) =>
      && HasSourceType(e, fields, l.valueType) && (forall t | HasSourceType(e, fields, t) :: t == l.valueType)
      && IsScalarBase(l.valueType) && l.nodes == nodes + SourceNodes(e) <= 256
    case Err(_) => nodes + SourceNodes(e) > 256 || forall t :: !HasSourceType(e, fields, t)
  }

  lemma {:induction false} LoweringDecides(e: SourceExpr, fields: seq<RecordField>, nodes: nat)
    requires |fields| <= 0x1_0000_0000
    ensures Decides(Lower(e, fields, nodes), e, fields, nodes)
    decreases e
  {
    match e
    case BoolLiteral(_) =>
    case Variable(name) => VariableDecides(name, fields, nodes);
    case NotExpr(operand) => LoweringDecides(operand, fields, nodes + 1);
    case BinaryExpr(op, left, right) =>
      if nodes + 1 <= 256 {
        var l := Lower(left, fields, nodes + 1);
        LoweringDecides(left, fields, nodes + 1);
        if l.Ok? {
          LoweringDecides(right, fields, l.value.nodes);
          var r := Lower(right, fields, l.value.nodes);
          if r.Ok? {
            BinaryDecides(op, left, right, fields, nodes, l.value, r.value);
          }
        }
      }
    case OtherExpr =>
  }

  lemma {:induction false} VariableDecides(name: Text, fields: seq<RecordField>, nodes: nat)
    requires |fields| <= 0x1_0000_0000
    ensures Decides(Lower(Variable(name), fields, nodes), Variable(name), fields, nodes)
  {
    var found := FindField(fields, name);
    if found.Some? {
      BaseDecides(fields[found.value].valueType);
      assert Denotes(fields, name, found.value);
      forall i: nat | Denotes(fields, name, i) ensures i == found.value {
      }
    }
  }

  lemma {:induction false} BinaryDecides(op: SourceOp, left: SourceExpr, right: SourceExpr, fields: seq<RecordField>,
                                         nodes: nat, l: Lowered, r: Lowered)
    requires Decides(Ok(l), left, fields, nodes + 1) && Decides(Ok(r), right, fields, l.nodes)
    ensures Decides(LowerBinary(op, l, r), BinaryExpr(op, left, right), fields, nodes)
  {
    BaseDecides(l.valueType);
  }

  /** Lowering succeeds exactly on well-typed predicates within the node limit. */
  lemma {:induction false} LowersIff(e: SourceExpr, fields: seq<RecordField>, nodes: nat)
    requires |fields| <= 0x1_0000_0000
    ensures Lower(e, fields, nodes).Ok? <==> (exists t :: HasSourceType(e, fields, t)) && nodes + SourceNodes(e) <= 256
    ensures Lower(e, fields, nodes).Ok? ==>
              && Lower(e, fields, nodes).value.nodes == nodes + SourceNodes(e)
              && forall t :: HasSourceType(e, fields, t) <==> t == Lower(e, fields, nodes).value.valueType
  {
    LoweringDecides(e, fields, nodes);
    var r := Lower(e, fields, nodes);
    if r.Ok? {
      assert HasSourceType(e, fields, r.value.valueType);
    }
  }

  // ----- validator expressions -----

  ghost predicate HasExprType(x: ValidatorExpr, fields: seq<RecordField>, t: ValueType) {
    match x
    case BoolConst(_) => t == BoolType
    case FieldRef(i, u) => t == u && IsScalarBase(u) && i < |fields| && fields[i].valueType == u
    case Not(operand) => t == BoolType && HasExprType(operand, fields, BoolType)
    case BoolBinary(_, left, right) =>
      t == BoolType && HasExprType(left, fields, BoolType) && HasExprType(right, fields, BoolType)
    case Compare(op, left, right) =>
      && t == BoolType
      && exists u :: HasExprType(left, fields, u) && HasExprType(right, fields, u) &&
                     (op in {Equal, NotEqual} || IsOrderedBase(u))
  }

  ghost predicate Decided(x: ValidatorExpr, fields: seq<RecordField>, nodes: nat) {
    match TypeExpr(x, fields, nodes)
    case Ok(l) =>
      && HasExprType(x, fields, l.valueType) && (forall t | HasExprType(x, fields, t) :: t == l.valueType)
      && IsScalarBase(l.valueType) && l.nodes == nodes + NodeCount(x) <= 256
    case Err(_) => nodes + NodeCount(x) > 256 || forall t :: !HasExprType(x, fields, t)
  }

  lemma {:induction false} TypingDecides(x: ValidatorExpr, fields: seq<RecordField>, nodes: nat)
    ensures Decided(x, fields, nodes)
    decreases x, 1
  {
    match x
    case BoolConst(_) =>
    case FieldRef(_, u) => BaseDecides(u);
    case Not(_) => NotDecides(x, fields, nodes);
    case BoolBinary(_, _, _) => BoolDecides(x, fields, nodes);
    case Compare(_, _, _) => CompareDecides(x, fields, nodes);
  }

  lemma {:induction false} NotDecides(x: ValidatorExpr, fields: seq<RecordField>, nodes: nat)
    requires x.Not?
    ensures Decided(x, fields, nodes)
    decreases x, 0
  {
    TypingDecides(x.operand, fields, nodes + 1);
  }

  lemma {:induction false} BoolDecides(x: ValidatorExpr, fields: seq<RecordField>, nodes: nat)
    requires x.BoolBinary?
    ensures Decided(x, fields, nodes)
    decreases x, 0
  {
    TypingDecides(x.left, fields, nodes + 1);
    TypingDecides(x.right, fields, nodes + 1 + NodeCount(x.left));
  }

  lemma {:induction false} CompareDecides(x: ValidatorExpr, fields: seq<RecordField>, nodes: nat)
    requires x.Compare?
    ensures Decided(x, fields, nodes)
    decreases x, 0
  {
    TypingDecides(x.left, fields, nodes + 1);
    TypingDecides(x.right, fields, nodes + 1 + NodeCount(x.left));
    if TypeExpr(x.left, fields, nodes + 1).Ok? {
      BaseDecides(TypeExpr(x.left, fields, nodes + 1).value.valueType);
    }
  }

  /** The artifact checker accepts exactly the well-typed expressions within the limit. */
  lemma {:induction false} TypesIff(x: ValidatorExpr, fields: seq<RecordField>, nodes: nat)
    ensures TypeExpr(x, fields, nodes).Ok? <==> (exists t :: HasExprType(x, fields, t)) && nodes + NodeCount(x) <= 256
    ensures TypeExpr(x, fields, nodes).Ok? ==>
              && TypeExpr(x, fields, nodes).value.nodes == nodes + NodeCount(x)
              && forall t :: HasExprType(x, fields, t) <==> t == TypeExpr(x, fields, nodes).value.valueType
  {
    TypingDecides(x, fields, nodes);
    var r := TypeExpr(x, fields, nodes);
    if r.Ok? {
      assert HasExprType(x, fields, r.value.valueType);
    }
  }
}
