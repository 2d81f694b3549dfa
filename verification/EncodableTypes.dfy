/** Which types have an encoding: the code refuses only names that are not in the string
    table and lists too long to count. */
module EncodableTypes {
  import opened Wrappers
  import opened ValueTypes
  import opened RecordPaths
  import opened PathCollection
  import opened TypeCodec

  ghost predicate NameCodes(style: Style, name: Text) {
    match style
    case Wire(strings) => name in strings
    case Canonical => |name| < 0x1_0000_0000_0000_0000
  }

  ghost predicate CountCodes(style: Style, n: nat) {
    match style
    case Wire(_) => n < 0x1_0000_0000
    case Canonical => n < 0x1_0000_0000_0000_0000
  }

  /** The type's own names and counts have an encoding. */
  ghost predicate NodeCodes(style: Style, t: ValueType) {
    match t
    case TupleType(es) => CountCodes(style, |es|)
    case RecordType(fs) => CountCodes(style, |fs|) && forall i | 0 <= i < |fs| :: NameCodes(style, fs[i].name)
    case NewtypeType(name, _) => NameCodes(style, name)
    case FunctionType(ps, _, _) => CountCodes(style, |ps|)
    case _ => true
  }

  /** `u` is one of the types that `t` is directly made of; enums are only referred to. */
  ghost predicate MadeOf(t: ValueType, u: ValueType) {
    Component(t, u, [])
  }

  lemma {:induction false} AllParts(t: ValueType)
    ensures Children(t, []) == Parts(t)
  {
  }

  lemma {:induction false} AllIff(style: Style, ts: seq<ValueType>)
    ensures EncodableAll(style, ts) <==> forall i | 0 <= i < |ts| :: Encodable(style, ts[i])
    decreases |ts|
  {
    if ts != [] {
      AllIff(style, ts[1..]);
      assert forall i | 0 < i < |ts| :: ts[i] == ts[1..][i - 1];
      assert forall i | 0 <= i < |ts| - 1 :: ts[1..][i] == ts[i + 1];
    }
  }

  lemma {:induction false} FieldsIff(style: Style, fs: seq<RecordField>)
    ensures EncodableFields(style, fs) <==>
            forall i | 0 <= i < |fs| :: NameFits(style, fs[i].name) && Encodable(style, fs[i].valueType)
    decreases |fs|
  {
    if fs != [] {
      FieldsIff(style, fs[1..]);
      assert forall i | 0 < i < |fs| :: fs[i] == fs[1..][i - 1];
      assert forall i | 0 <= i < |fs| - 1 :: fs[1..][i] == fs[i + 1];
    }
  }

  /** Every type that `t` is directly made of has an encoding. */
  ghost predicate PartsCode(style: Style, t: ValueType) {
    forall c | c in Parts(t) :: Encodable(style, c.valueType)
  }

  lemma {:induction false} EncodableStep(style: Style, t: ValueType)
    ensures Encodable(style, t) <==> NodeCodes(style, t) && PartsCode(style, t)
  {
    match ShapeOf(t)
    case LeafShape(_) =>
    case RefShape(_) =>
    case UnaryShape(_, x) => OnePart(style, t, x);
    case NamedShape(_, x) => OnePart(style, t, x);
    case BinaryShape(_, x, y) => TwoParts(style, t, x, y);
    case ManyShape(_) => ManyParts(style, t);
    case FieldsShape(_) => FieldParts(style, t);
    case FunctionShape(_, _, _) => FunctionParts(style, t);
  }

  lemma {:induction false} OnePart(style: Style, t: ValueType, x: ValueType)
    requires (ShapeOf(t).UnaryShape? || ShapeOf(t).NamedShape?) && ShapeOf(t).inner == x
    ensures PartsCode(style, t) <==> Encodable(style, x)
  {
    assert Parts(t)[0] in Parts(t);
  }

  lemma {:induction false} TwoParts(style: Style, t: ValueType, x: ValueType, y: ValueType)
    requires ShapeOf(t).BinaryShape? && ShapeOf(t).first == x && ShapeOf(t).second == y
    ensures PartsCode(style, t) <==> Encodable(style, x) && Encodable(style, y)
  {
    assert Parts(t)[0] in Parts(t) && Parts(t)[1] in Parts(t);
  }

  lemma {:induction false} ManyParts(style: Style, t: ValueType)
    requires t.TupleType?
    ensures PartsCode(style, t) <==> EncodableAll(style, t.elements)
  {
    AllIff(style, t.elements);
    assert forall i | 0 <= i < |t.elements| :: Parts(t)[i] in Parts(t) && Parts(t)[i].valueType == t.elements[i];
  }

  lemma {:induction false} FieldParts(style: Style, t: ValueType)
    requires t.RecordType?
    ensures NodeCodes(style, t) && PartsCode(style, t) <==>
            CountFits(style, |t.fields|) && EncodableFields(style, t.fields)
  {
    FieldsIff(style, t.fields);
    assert forall i | 0 <= i < |t.fields| :: Parts(t)[i] in Parts(t) && Parts(t)[i].valueType == t.fields[i].valueType;
  }

  lemma {:induction false} FunctionParts(style: Style, t: ValueType)
    requires t.FunctionType?
    ensures PartsCode(style, t) <==> EncodableAll(style, t.parameters) && Encodable(style, t.returnType)
  {
    AllIff(style, t.parameters);
    var ps, parts := t.parameters, Parts(t);
    assert forall i | 0 <= i < |ps| :: parts[i] in parts && parts[i].valueType == ps[i];
    assert parts[|ps|] in parts && parts[|ps|].valueType == t.returnType && |parts| == |ps| + 1;
  }

  ghost predicate Inside(style: Style, t: ValueType) {
    forall chain | Chain(t, chain, []) :: NodeCodes(style, chain[|chain| - 1])
  }

  /** A type has an encoding if and only if every type inside it has encodable names and
      counts: names in the string table and 32-bit counts on the wire, 64-bit lengths
      in the canonical form. */
  lemma {:induction false} EncodableIff(style: Style, t: ValueType)
    ensures Encodable(style, t) <==> Inside(style, t)
    decreases TypeSize(t)
  {
    EncodableStep(style, t);
    forall c | c in Parts(t) ensures Encodable(style, c.valueType) <==> Inside(style, c.valueType) {
      var i :| 0 <= i < |Parts(t)| && Parts(t)[i] == c;
      EncodableIff(style, c.valueType);
    }
    InsideStep(style, t);
    AllParts(t);
  }

  lemma {:induction false} InsideStep(style: Style, t: ValueType)
    ensures Inside(style, t) <==> NodeCodes(style, t) && forall c | c in Children(t, []) :: Inside(style, c.valueType)
  {
    if Inside(style, t) {
      InsideRoot(style, t);
      forall c | c in Children(t, []) ensures Inside(style, c.valueType) {
        ComponentIsChild(t, [], c.valueType);
        InsidePart(style, t, c.valueType);
      }
    }
    if NodeCodes(style, t) && forall c | c in Children(t, []) :: Inside(style, c.valueType) {
      forall u | MadeOf(t, u) ensures Inside(style, u) {
        ComponentIsChild(t, [], u);
      }
      InsideWhole(style, t);
    }
  }

  lemma {:induction false} InsideRoot(style: Style, t: ValueType)
    requires Inside(style, t)
    ensures NodeCodes(style, t)
  {
    assert Chain(t, [t], []);
    assert [t][0] == t;
  }

  lemma {:induction false} InsideWhole(style: Style, t: ValueType)
    requires NodeCodes(style, t) && forall u | MadeOf(t, u) :: Inside(style, u)
    ensures Inside(style, t)
  {
    forall chain | Chain(t, chain, []) ensures NodeCodes(style, chain[|chain| - 1]) {
      if |chain| > 1 {
        assert MadeOf(t, chain[1]);
        assert chain[1..][|chain| - 2] == chain[|chain| - 1];
      }
    }
  }

  lemma {:induction false} InsidePart(style: Style, t: ValueType, u: ValueType)
    requires Inside(style, t) && MadeOf(t, u)
    ensures Inside(style, u)
  {
    forall chain | Chain(u, chain, []) ensures NodeCodes(style, chain[|chain| - 1]) {
      ChainMore(t, u, chain, []);
      assert ([t] + chain)[|chain|] == chain[|chain| - 1];
    }
  }
}
