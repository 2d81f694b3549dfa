/** The self-delimiting encodings of value types: the artifact's wire form, with
    names in a string table, and the canonical form used for digests, with names
    inline. */
module TypeCodec {
  import opened Wrappers
  import opened ValueTypes

  // ----- little-endian numbers -----

  function Capacity(width: nat): nat {
    if width == 0 then 1 else 0x100 * Capacity(width - 1)
  }

  function LittleEndian(x: nat, width: nat): (r: seq<byte>)
    ensures |r| == width
  {
    if width == 0 then [] else [x % 0x100] + LittleEndian(x / 0x100, width - 1)
  }

  function FromLittleEndian(bytes: seq<byte>): nat {
    if bytes == [] then 0 else bytes[0] + 0x100 * FromLittleEndian(bytes[1..])
  }

  lemma {:induction false} LittleEndianInverts(x: nat, width: nat)
    requires x < Capacity(width)
    ensures FromLittleEndian(LittleEndian(x, width)) == x
  {
    if width > 0 {
      LittleEndianInverts(x / 0x100, width - 1);
      assert LittleEndian(x, width)[1..] == LittleEndian(x / 0x100, width - 1);
    }
  }

  lemma {:induction false} Capacities()
    ensures Capacity(4) == 0x1_0000_0000 && Capacity(8) == 0x1_0000_0000_0000_0000
  {
    assert Capacity(2) == 0x1_0000;
    assert Capacity(4) == 0x1_0000 * Capacity(2);
    assert Capacity(6) == 0x1_0000 * Capacity(4);
    assert Capacity(8) == 0x1_0000 * Capacity(6);
  }

  lemma {:induction false} Assoc<T>(a: seq<T>, b: seq<T>, c: seq<T>)
    ensures (a + b) + c == a + (b + c)
  {
  }

  /** Equal concatenations of equally long fronts split equally. */
  lemma {:induction false} SplitEqual<T>(a: seq<T>, r: seq<T>, b: seq<T>, s: seq<T>)
    requires a + r == b + s && |a| == |b|
    ensures a == b && r == s
  {
    assert a == (a + r)[..|a|] && b == (b + s)[..|b|];
    assert r == (a + r)[|a|..] && s == (b + s)[|b|..];
  }

  lemma {:induction false} NumberPrefixFree(x: nat, y: nat, width: nat, r: seq<byte>, s: seq<byte>)
    requires x < Capacity(width) && y < Capacity(width)
    requires LittleEndian(x, width) + r == LittleEndian(y, width) + s
    ensures x == y && r == s
  {
    SplitEqual(LittleEndian(x, width), r, LittleEndian(y, width), s);
    LittleEndianInverts(x, width);
    LittleEndianInverts(y, width);
  }

  // ----- the shape of a type's encoding -----

  datatype Shape =
    | LeafShape(tag: byte)
    | UnaryShape(tag: byte, inner: ValueType)
    | BinaryShape(tag: byte, first: ValueType, second: ValueType)
    | ManyShape(elements: seq<ValueType>)
    | FieldsShape(fields: seq<RecordField>)
    | RefShape(id: u32)
    | NamedShape(name: Text, inner: ValueType)
    | FunctionShape(parameters: seq<ValueType>, returnType: ValueType, effects: u32)

  const MANY: byte := 9
  const FIELDS: byte := 10
  const REF: byte := 11
  const FUNCTION: byte := 14
  const NAMED: byte := 21

  /** The size of what a shape holds. */
  function ShapeSize(s: Shape): nat {
    match s
    case UnaryShape(_, x) => TypeSize(x)
    case BinaryShape(_, x, y) => TypeSize(x) + TypeSize(y)
    case ManyShape(es) => TypeSizes(es)
    case FieldsShape(fs) => FieldSizes(fs)
    case NamedShape(_, x) => TypeSize(x)
    case FunctionShape(ps, r, _) => TypeSizes(ps) + TypeSize(r)
    case _ => 0
  }

  function ShapeOf(t: ValueType): (s: Shape)
    ensures ShapeSize(s) < TypeSize(t)
  {
    match t
    case IntType => LeafShape(0)
    case BoolType => LeafShape(1)
    case FloatType => LeafShape(2)
    case StringType => LeafShape(3)
    case BytesType => LeafShape(4)
    case UnitType => LeafShape(5)
    case NeverType => LeafShape(6)
    case ListType(e) => UnaryShape(7, e)
    case MapType(k, v) => BinaryShape(8, k, v)
    case TupleType(es) => ManyShape(es)
    case RecordType(fs) => FieldsShape(fs)
    case EnumRef(id) => RefShape(id)
    case OptionType(e) => UnaryShape(12, e)
    case ResultType(o, e) => BinaryShape(13, o, e)
    case FunctionType(ps, r, effects) => FunctionShape(ps, r, effects)
    case UnknownType => LeafShape(15)
    case FutureType(e) => UnaryShape(16, e)
    case TaskType(e) => UnaryShape(17, e)
    case WorkspaceType => LeafShape(18)
    case ExternalFsAccessType => LeafShape(19)
    case SubAgentType => LeafShape(20)
    case NewtypeType(name, u) => NamedShape(name, u)
    case RangeType => LeafShape(22)
    case SequenceType(e) => UnaryShape(23, e)
  }

  function LeafType(tag: byte): Option<ValueType> {
    match tag
    case 0 => Some(IntType)
    case 1 => Some(BoolType)
    case 2 => Some(FloatType)
    case 3 => Some(StringType)
    case 4 => Some(BytesType)
    case 5 => Some(UnitType)
    case 6 => Some(NeverType)
    case 15 => Some(UnknownType)
    case 18 => Some(WorkspaceType)
    case 19 => Some(ExternalFsAccessType)
    case 20 => Some(SubAgentType)
    case 22 => Some(RangeType)
    case _ => None
  }

  predicate IsUnary(tag: byte) {
    tag == 7 || tag == 12 || tag == 16 || tag == 17 || tag == 23
  }

  function UnaryType(tag: byte, inner: ValueType): ValueType
    requires IsUnary(tag)
  {
    if tag == 7 then ListType(inner)
    else if tag == 12 then OptionType(inner)
    else if tag == 16 then FutureType(inner)
    else if tag == 17 then TaskType(inner)
    else SequenceType(inner)
  }

  predicate IsBinary(tag: byte) {
    tag == 8 || tag == 13
  }

  function BinaryType(tag: byte, first: ValueType, second: ValueType): ValueType
    requires IsBinary(tag)
  {
    if tag == 8 then MapType(first, second) else ResultType(first, second)
  }

  function TagOf(s: Shape): byte {
    match s
    case LeafShape(tag) => tag
    case UnaryShape(tag, _) => tag
    case BinaryShape(tag, _, _) => tag
    case ManyShape(_) => MANY
    case FieldsShape(_) => FIELDS
    case RefShape(_) => REF
    case NamedShape(_, _) => NAMED
    case FunctionShape(_, _, _) => FUNCTION
  }

  /** The type is determined by its shape, and the kind of shape by the tag. */
  lemma {:induction false} ShapeBuilds(t: ValueType)
    ensures match ShapeOf(t)
            case LeafShape(tag) => LeafType(tag) == Some(t) && !IsUnary(tag) && !IsBinary(tag)
            case UnaryShape(tag, x) => IsUnary(tag) && LeafType(tag) == None && UnaryType(tag, x) == t
            case BinaryShape(tag, x, y) =>
              IsBinary(tag) && !IsUnary(tag) && LeafType(tag) == None && BinaryType(tag, x, y) == t
            case ManyShape(es) => t == TupleType(es)
            case FieldsShape(fs) => t == RecordType(fs)
            case RefShape(id) => t == EnumRef(id)
            case NamedShape(name, x) => t == NewtypeType(name, x)
            case FunctionShape(ps, r, effects) => t == FunctionType(ps, r, effects)
    ensures var tag := TagOf(ShapeOf(t));
            && (tag == MANY <==> t.TupleType?) && (tag == FIELDS <==> t.RecordType?) && (tag == REF <==> t.EnumRef?)
            && (tag == NAMED <==> t.NewtypeType?) && (tag == FUNCTION <==> t.FunctionType?)
            && (IsUnary(tag) <==> ShapeOf(t).UnaryShape?) && (IsBinary(tag) <==> ShapeOf(t).BinaryShape?)
            && (LeafType(tag).Some? <==> ShapeOf(t).LeafShape?)
  {
  }

  // ----- encoding -----

  /** Names by string-table index and 32-bit counts, or names inline and 64-bit counts. */
  datatype Style = Wire(strings: map<Text, u32>) | Canonical

  predicate CountFits(style: Style, n: nat) {
    n < if style.Wire? then 0x1_0000_0000 else 0x1_0000_0000_0000_0000
  }

  predicate NameFits(style: Style, name: Text) {
    if style.Wire? then name in style.strings else CountFits(style, |name|)
  }

  function PutCount(style: Style, n: nat): seq<byte> {
    LittleEndian(n, if style.Wire? then 4 else 8)
  }

  function PutName(style: Style, name: Text): seq<byte>
    requires NameFits(style, name)
  {
    if style.Wire? then LittleEndian(style.strings[name], 4) else PutCount(style, |name|) + name
  }

  /** Every name and count of the type has an encoding. */
  predicate Encodable(style: Style, t: ValueType)
    decreases TypeSize(t), 0
  {
    match ShapeOf(t)
    case LeafShape(_) => true
    case UnaryShape(_, x) => Encodable(style, x)
    case BinaryShape(_, x, y) => Encodable(style, x) && Encodable(style, y)
    case ManyShape(es) => CountFits(style, |es|) && EncodableAll(style, es)
    case FieldsShape(fs) => CountFits(style, |fs|) && EncodableFields(style, fs)
    case RefShape(_) => true
    case NamedShape(name, x) => NameFits(style, name) && Encodable(style, x)
    case FunctionShape(ps, r, _) => CountFits(style, |ps|) && EncodableAll(style, ps) && Encodable(style, r)
  }

  predicate EncodableAll(style: Style, ts: seq<ValueType>)
    decreases TypeSizes(ts), 1, |ts|
  {
    ts == [] || (Encodable(style, ts[0]) && EncodableAll(style, ts[1..]))
  }

  predicate EncodableFields(style: Style, fs: seq<RecordField>)
    decreases FieldSizes(fs), 1, |fs|
  {
    fs == [] || (NameFits(style, fs[0].name) && Encodable(style, fs[0].valueType) && EncodableFields(style, fs[1..]))
  }

  function Encode(style: Style, t: ValueType): (r: seq<byte>)
    requires Encodable(style, t)
    ensures r != [] && r[0] == TagOf(ShapeOf(t))
    decreases TypeSize(t), 0
  {
    match ShapeOf(t)
    case LeafShape(tag) => [tag]
    case UnaryShape(tag, x) => [tag] + Encode(style, x)
    case BinaryShape(tag, x, y) => [tag] + (Encode(style, x) + Encode(style, y))
    case ManyShape(es) => [MANY] + (PutCount(style, |es|) + EncodeAll(style, es))
    case FieldsShape(fs) => [FIELDS] + (PutCount(style, |fs|) + EncodeFields(style, fs))
    case RefShape(id) => [REF] + LittleEndian(id, 4)
    case NamedShape(name, x) => [NAMED] + (PutName(style, name) + Encode(style, x))
    case FunctionShape(ps, r, effects) =>
      [FUNCTION] + (PutCount(style, |ps|) + (EncodeAll(style, ps) + (Encode(style, r) + LittleEndian(effects, 4))))
  }

  function EncodeAll(style: Style, ts: seq<ValueType>): seq<byte>
    requires EncodableAll(style, ts)
    decreases TypeSizes(ts), 1, |ts|
  {
    if ts == [] then [] else Encode(style, ts[0]) + EncodeAll(style, ts[1..])
  }

  function EncodeFields(style: Style, fs: seq<RecordField>): seq<byte>
    requires EncodableFields(style, fs)
    decreases FieldSizes(fs), 1, |fs|
  {
    if fs == [] then [] else PutName(style, fs[0].name) + (Encode(style, fs[0].valueType) +
                                                           EncodeFields(style, fs[1..]))
  }

  function EncodeType(style: Style, t: ValueType): Option<seq<byte>> {
    if Encodable(style, t) then Some(Encode(style, t)) else None
  }

  // ----- no encoding is a prefix of another -----

  /** Distinct names have distinct table indices. */
  ghost predicate Injective(style: Style) {
    style.Wire? ==>
          forall a, b | a in style.strings && b in style.strings && style.strings[a] == style.strings[b] :: a == b
  }

  lemma {:induction false} CountPrefixFree(style: Style, m: nat, n: nat, r: seq<byte>, s: seq<byte>)
    requires CountFits(style, m) && CountFits(style, n) && PutCount(style, m) + r == PutCount(style, n) + s
    ensures m == n && r == s
  {
    Capacities();
    NumberPrefixFree(m, n, if style.Wire? then 4 else 8, r, s);
  }

  lemma {:induction false} NamePrefixFree(style: Style, a: Text, b: Text, r: seq<byte>, s: seq<byte>)
    requires Injective(style) && NameFits(style, a) && NameFits(style, b) &&
             PutName(style, a) + r == PutName(style, b) + s
    ensures a == b && r == s
  {
    Capacities();
    if style.Wire? {
      NumberPrefixFree(style.strings[a], style.strings[b], 4, r, s);
    } else {
      Assoc(PutCount(style, |a|), a, r);
      Assoc(PutCount(style, |b|), b, s);
      CountPrefixFree(style, |a|, |b|, a + r, b + s);
      SplitEqual(a, r, b, s);
    }
  }

  /** Peeling one encoded byte off both sides. */
  lemma {:induction false} TagPrefixFree(a: byte, x: seq<byte>, r: seq<byte>, b: byte, y: seq<byte>, s: seq<byte>)
    requires ([a] + x) + r == ([b] + y) + s
    ensures a == b && x + r == y + s
  {
    Assoc([a], x, r);
    Assoc([b], y, s);
    SplitEqual([a], x + r, [b], y + s);
  }

  /** Both types have the same kind of shape. */
  predicate SameKind(t: ValueType, u: ValueType) {
    match ShapeOf(t)
    case LeafShape(_) => ShapeOf(u).LeafShape?
    case UnaryShape(_, _) => ShapeOf(u).UnaryShape?
    case BinaryShape(_, _, _) => ShapeOf(u).BinaryShape?
    case ManyShape(_) => t.TupleType? && u.TupleType?
    case FieldsShape(_) => t.RecordType? && u.RecordType?
    case RefShape(_) => t.EnumRef? && u.EnumRef?
    case NamedShape(_, _) => t.NewtypeType? && u.NewtypeType?
    case FunctionShape(_, _, _) => t.FunctionType? && u.FunctionType?
  }

  lemma {:induction false} SameTag(style: Style, t: ValueType, r: seq<byte>, u: ValueType, s: seq<byte>)
    requires Encodable(style, t) && Encodable(style, u) && Encode(style, t) + r == Encode(style, u) + s
    ensures TagOf(ShapeOf(t)) == TagOf(ShapeOf(u)) && SameKind(t, u)
  {
    ShapeBuilds(t);
    ShapeBuilds(u);
    assert (Encode(style, t) + r)[0] == TagOf(ShapeOf(t)) && (Encode(style, u) + s)[0] == TagOf(ShapeOf(u));
  }

  /** The encoding is uniquely decodable, whatever follows it. */
  lemma {:induction false} TypePrefixFree(style: Style, t: ValueType, r: seq<byte>, u: ValueType, s: seq<byte>)
    requires Injective(style) && Encodable(style, t) && Encodable(style, u) &&
             Encode(style, t) + r == Encode(style, u) + s
    ensures t == u && r == s
    decreases TypeSize(t), 0
  {
    SameTag(style, t, r, u, s);
    match ShapeOf(t)
    case LeafShape(_) => LeafPrefixFree(style, t, r, u, s);
    case UnaryShape(_, _) => UnaryPrefixFree(style, t, r, u, s);
    case BinaryShape(tag, x, y) => BinaryPrefixFree(style, t, r, u, s);
    case ManyShape(es) => ManyPrefixFree(style, t, r, u, s);
    case FieldsShape(fs) => FieldsPrefixFree(style, t, r, u, s);
    case RefShape(_) => RefPrefixFree(style, t, r, u, s);
    case NamedShape(name, x) => NamedPrefixFree(style, t, r, u, s);
    case FunctionShape(_, _, _) => FunctionPrefixFree(style, t, r, u, s);
  }

  lemma {:induction false} LeafPrefixFree(style: Style, t: ValueType, r: seq<byte>, u: ValueType, s: seq<byte>)
    requires Injective(style) && Encodable(style, t) && Encodable(style, u) &&
             Encode(style, t) + r == Encode(style, u) + s
    requires ShapeOf(t).LeafShape? && ShapeOf(u).LeafShape? && TagOf(ShapeOf(t)) == TagOf(ShapeOf(u))
    ensures t == u && r == s
  {
    ShapeBuilds(t);
    ShapeBuilds(u);
    SplitEqual([ShapeOf(t).tag], r, [ShapeOf(u).tag], s);
  }

  lemma {:induction false} UnaryPrefixFree(style: Style, t: ValueType, r: seq<byte>, u: ValueType, s: seq<byte>)
    requires Injective(style) && Encodable(style, t) && Encodable(style, u) &&
             Encode(style, t) + r == Encode(style, u) + s
    requires ShapeOf(t).UnaryShape? && ShapeOf(u).UnaryShape?
    ensures t == u && r == s
    decreases TypeSize(t), 0, 0
  {
    ShapeBuilds(t);
    ShapeBuilds(u);
    var a, b := ShapeOf(t), ShapeOf(u);
    TagPrefixFree(a.tag, Encode(style, a.inner), r, b.tag, Encode(style, b.inner), s);
    TypePrefixFree(style, a.inner, r, b.inner, s);
  }

  lemma {:induction false} RefPrefixFree(style: Style, t: ValueType, r: seq<byte>, u: ValueType, s: seq<byte>)
    requires Encodable(style, t) && Encodable(style, u) && Encode(style, t) + r == Encode(style, u) + s && t.EnumRef? &&
             u.EnumRef?
    ensures t == u && r == s
  {
    Capacities();
    TagPrefixFree(REF, LittleEndian(t.id, 4), r, REF, LittleEndian(u.id, 4), s);
    NumberPrefixFree(t.id, u.id, 4, r, s);
  }

  lemma {:induction false} BinaryPrefixFree(style: Style, t: ValueType, r: seq<byte>, u: ValueType, s: seq<byte>)
    requires Injective(style) && Encodable(style, t) && Encodable(style, u) &&
             Encode(style, t) + r == Encode(style, u) + s
    requires ShapeOf(t).BinaryShape? && ShapeOf(u).BinaryShape?
    ensures t == u && r == s
    decreases TypeSize(t), 0, 0
  {
    ShapeBuilds(t);
    ShapeBuilds(u);
    var a, b := ShapeOf(t), ShapeOf(u);
    var x, y, v, w := Encode(style, a.first), Encode(style, a.second), Encode(style, b.first), Encode(style, b.second);
    TagPrefixFree(a.tag, x + y, r, b.tag, v + w, s);
    Assoc(x, y, r);
    Assoc(v, w, s);
    TypePrefixFree(style, a.first, y + r, b.first, w + s);
    TypePrefixFree(style, a.second, r, b.second, s);
  }

  lemma {:induction false} ManyPrefixFree(style: Style, t: ValueType, r: seq<byte>, u: ValueType, s: seq<byte>)
    requires Injective(style) && Encodable(style, t) && Encodable(style, u) &&
             Encode(style, t) + r == Encode(style, u) + s
    requires t.TupleType? && u.TupleType?
    ensures t == u && r == s
    decreases TypeSize(t), 0, 0
  {
    var m, n := PutCount(style, |t.elements|), PutCount(style, |u.elements|);
    var x, y := EncodeAll(style, t.elements), EncodeAll(style, u.elements);
    TagPrefixFree(MANY, m + x, r, MANY, n + y, s);
    Assoc(m, x, r);
    Assoc(n, y, s);
    CountPrefixFree(style, |t.elements|, |u.elements|, x + r, y + s);
    AllPrefixFree(style, t.elements, r, u.elements, s);
  }

  lemma {:induction false} FieldsPrefixFree(style: Style, t: ValueType, r: seq<byte>, u: ValueType, s: seq<byte>)
    requires Injective(style) && Encodable(style, t) && Encodable(style, u) &&
             Encode(style, t) + r == Encode(style, u) + s
    requires t.RecordType? && u.RecordType?
    ensures t == u && r == s
    decreases TypeSize(t), 0, 0
  {
    var m, n := PutCount(style, |t.fields|), PutCount(style, |u.fields|);
    var x, y := EncodeFields(style, t.fields), EncodeFields(style, u.fields);
    TagPrefixFree(FIELDS, m + x, r, FIELDS, n + y, s);
    Assoc(m, x, r);
    Assoc(n, y, s);
    CountPrefixFree(style, |t.fields|, |u.fields|, x + r, y + s);
    AllFieldsPrefixFree(style, t.fields, r, u.fields, s);
  }

  lemma {:induction false} NamedPrefixFree(style: Style, t: ValueType, r: seq<byte>, u: ValueType, s: seq<byte>)
    requires Injective(style) && Encodable(style, t) && Encodable(style, u) &&
             Encode(style, t) + r == Encode(style, u) + s
    requires t.NewtypeType? && u.NewtypeType?
    ensures t == u && r == s
    decreases TypeSize(t), 0, 0
  {
    var m, n := PutName(style, t.name), PutName(style, u.name);
    var x, y := Encode(style, t.underlying), Encode(style, u.underlying);
    TagPrefixFree(NAMED, m + x, r, NAMED, n + y, s);
    Assoc(m, x, r);
    Assoc(n, y, s);
    NamePrefixFree(style, t.name, u.name, x + r, y + s);
    TypePrefixFree(style, t.underlying, r, u.underlying, s);
  }

  lemma {:induction false} FunctionPrefixFree(style: Style, t: ValueType, r: seq<byte>, u: ValueType, s: seq<byte>)
    requires Injective(style) && Encodable(style, t) && Encodable(style, u) &&
             Encode(style, t) + r == Encode(style, u) + s
    requires t.FunctionType? && u.FunctionType?
    ensures t == u && r == s
    decreases TypeSize(t), 0, 0
  {
    Capacities();
    var m, n := PutCount(style, |t.parameters|), PutCount(style, |u.parameters|);
    var x, y := EncodeAll(style, t.parameters), EncodeAll(style, u.parameters);
    var v, w := Encode(style, t.returnType), Encode(style, u.returnType);
    var e, f := LittleEndian(t.effects, 4), LittleEndian(u.effects, 4);
    TagPrefixFree(FUNCTION, m + (x + (v + e)), r, FUNCTION, n + (y + (w + f)), s);
    Assoc(m, x + (v + e), r);
    Assoc(n, y + (w + f), s);
    CountPrefixFree(style, |t.parameters|, |u.parameters|, (x + (v + e)) + r, (y + (w + f)) + s);
    Assoc(x, v + e, r);
    Assoc(y, w + f, s);
    AllPrefixFree(style, t.parameters, (v + e) + r, u.parameters, (w + f) + s);
    Assoc(v, e, r);
    Assoc(w, f, s);
    TypePrefixFree(style, t.returnType, e + r, u.returnType, f + s);
    NumberPrefixFree(t.effects, u.effects, 4, r, s);
  }

  lemma {:induction false} AllPrefixFree(style: Style, ts: seq<ValueType>, r: seq<byte>, us: seq<ValueType>,
                                         s: seq<byte>)
    requires Injective(style) && EncodableAll(style, ts) && EncodableAll(style, us) && |ts| == |us|
    requires EncodeAll(style, ts) + r == EncodeAll(style, us) + s
    ensures ts == us && r == s
    decreases TypeSizes(ts), 1, |ts|
  {
    if ts == [] {
      assert [] + r == r && [] + s == s;
    } else {
      Assoc(Encode(style, ts[0]), EncodeAll(style, ts[1..]), r);
      Assoc(Encode(style, us[0]), EncodeAll(style, us[1..]), s);
      TypePrefixFree(style, ts[0], EncodeAll(style, ts[1..]) + r, us[0], EncodeAll(style, us[1..]) + s);
      AllPrefixFree(style, ts[1..], r, us[1..], s);
      assert ts == [ts[0]] + ts[1..] && us == [us[0]] + us[1..];
    }
  }

  lemma {:induction false} AllFieldsPrefixFree(style: Style, fs: seq<RecordField>, r: seq<byte>, gs: seq<RecordField>,
                                               s: seq<byte>)
    requires Injective(style) && EncodableFields(style, fs) && EncodableFields(style, gs) && |fs| == |gs|
    requires EncodeFields(style, fs) + r == EncodeFields(style, gs) + s
    ensures fs == gs && r == s
    decreases FieldSizes(fs), 1, |fs|
  {
    if fs == [] {
      assert [] + r == r && [] + s == s;
    } else {
      var m, n := PutName(style, fs[0].name), PutName(style, gs[0].name);
      var x, y := Encode(style, fs[0].valueType), Encode(style, gs[0].valueType);
      var v, w := EncodeFields(style, fs[1..]), EncodeFields(style, gs[1..]);
      Assoc(m, x + v, r);
      Assoc(n, y + w, s);
      NamePrefixFree(style, fs[0].name, gs[0].name, (x + v) + r, (y + w) + s);
      Assoc(x, v, r);
      Assoc(y, w, s);
      TypePrefixFree(style, fs[0].valueType, v + r, gs[0].valueType, w + s);
      AllFieldsPrefixFree(style, fs[1..], r, gs[1..], s);
      assert fs[0] == gs[0];
      assert fs == [fs[0]] + fs[1..] && gs == [gs[0]] + gs[1..];
    }
  }
}
