/** The bytecode's value types and the structures built on them. A Rust string
    is modelled by its UTF-8 bytes. */
module ValueTypes {
  type byte = x: nat | x < 0x100
  type u32 = x: nat | x < 0x1_0000_0000
  type Text = seq<byte>

  /** The bytes are those of an ASCII text. */
  ghost predicate Spells(bytes: Text, text: string) {
    |bytes| == |text| && forall i | 0 <= i < |bytes| :: bytes[i] == text[i] as int
  }

  datatype ValueType =
    | IntType | BoolType | FloatType | StringType | BytesType | RangeType | UnitType | NeverType
    | ListType(element: ValueType)
    | MapType(key: ValueType, value: ValueType)
    | TupleType(elements: seq<ValueType>)
    | RecordType(fields: seq<RecordField>)
    | EnumRef(id: u32)
    | NewtypeType(name: Text, underlying: ValueType)
    | OptionType(inner: ValueType)
    | ResultType(ok: ValueType, error: ValueType)
    | FutureType(inner: ValueType)
    | TaskType(inner: ValueType)
    | SequenceType(inner: ValueType)
    | WorkspaceType | ExternalFsAccessType | SubAgentType
    | FunctionType(parameters: seq<ValueType>, returnType: ValueType, effects: u32)
    | UnknownType

  datatype RecordField = RecordField(name: Text, valueType: ValueType)

  datatype EnumPayloadType =
    | UnitPayload | TuplePayload(elements: seq<ValueType>) | RecordPayload(fields: seq<RecordField>)

  datatype EnumVariant = EnumVariant(name: Text, payload: EnumPayloadType)

  datatype EnumDefinition = EnumDefinition(name: Text, variants: seq<EnumVariant>)

  // ----- size -----

  function TypeSize(t: ValueType): (n: nat)
    ensures n > 0
    decreases t
  {
    match t
    case ListType(e) => 1 + TypeSize(e)
    case MapType(k, v) => 1 + TypeSize(k) + TypeSize(v)
    case TupleType(es) => 1 + TypeSizes(es)
    case RecordType(fs) => 1 + FieldSizes(fs)
    case NewtypeType(_, u) => 1 + TypeSize(u)
    case OptionType(e) => 1 + TypeSize(e)
    case ResultType(o, e) => 1 + TypeSize(o) + TypeSize(e)
    case FutureType(e) => 1 + TypeSize(e)
    case TaskType(e) => 1 + TypeSize(e)
    case SequenceType(e) => 1 + TypeSize(e)
    case FunctionType(ps, r, _) => 1 + TypeSizes(ps) + TypeSize(r)
    case _ => 1
  }

  function TypeSizes(ts: seq<ValueType>): (n: nat)
    ensures forall i | 0 <= i < |ts| :: TypeSize(ts[i]) <= n
    decreases ts
  {
    if ts == [] then 0 else TypeSize(ts[0]) + TypeSizes(ts[1..])
  }

  function FieldSizes(fs: seq<RecordField>): (n: nat)
    ensures forall i | 0 <= i < |fs| :: TypeSize(fs[i].valueType) <= n
    decreases fs
  {
    if fs == [] then 0 else TypeSize(fs[0].valueType) + FieldSizes(fs[1..])
  }
}
