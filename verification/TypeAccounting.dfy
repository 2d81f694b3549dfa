/** How types are charged: copying a type against reading it, and the nodes counted for
    the table limit against the size of the type. */
module TypeAccounting {
  import opened ValueTypes
  import opened TypeCodec
  import opened TypeReader
  import opened Interning

  // ----- nodes -----

  /** The size of what lies beneath sequences, which the node count leaves out. */
  ghost function UnderSequences(t: ValueType): nat
    decreases TypeSize(t), 0
  {
    match ShapeOf(t)
    case LeafShape(_) => 0
    case UnaryShape(_, x) => if t.SequenceType? then TypeSize(x) else UnderSequences(x)
    case BinaryShape(_, x, y) => UnderSequences(x) + UnderSequences(y)
    case ManyShape(es) => AllUnderSequences(es)
    case FieldsShape(fs) => FieldsUnderSequences(fs)
    case RefShape(_) => 0
    case NamedShape(_, x) => UnderSequences(x)
    case FunctionShape(ps, r, _) => AllUnderSequences(ps) + UnderSequences(r)
  }

  ghost function AllUnderSequences(ts: seq<ValueType>): nat
    decreases TypeSizes(ts), 1, |ts|
  {
    if ts == [] then 0 else UnderSequences(ts[0]) + AllUnderSequences(ts[1..])
  }

  ghost function FieldsUnderSequences(fs: seq<RecordField>): nat
    decreases FieldSizes(fs), 1, |fs|
  {
    if fs == [] then 0 else UnderSequences(fs[0].valueType) + FieldsUnderSequences(fs[1..])
  }

  /** The counted nodes are all nodes of the type but those beneath sequences. */
  lemma {:induction false} NodesAreSize(t: ValueType)
    ensures TypeNodes(t) + UnderSequences(t) == TypeSize(t)
    decreases TypeSize(t), 0
  {
    match ShapeOf(t)
    case LeafShape(_) => LeafNodes(t);
    case RefShape(_) => LeafNodes(t);
    case UnaryShape(_, x) => UnaryNodes(t, x); NodesAreSize(x);
    case NamedShape(_, x) => UnaryNodes(t, x); NodesAreSize(x);
    case BinaryShape(_, x, y) => BinaryNodes(t, x, y); NodesAreSize(x); NodesAreSize(y);
    case ManyShape(es) => AllNodesAreSize(es);
    case FieldsShape(fs) => FieldNodesAreSize(fs);
    case FunctionShape(ps, r, _) => AllNodesAreSize(ps); NodesAreSize(r);
  }

  ghost predicate Single(t: ValueType, x: ValueType) {
    (ShapeOf(t).UnaryShape? || ShapeOf(t).NamedShape?) && ShapeOf(t).inner == x
  }

  lemma {:induction false} LeafNodes(t: ValueType)
    requires ShapeOf(t).LeafShape? || ShapeOf(t).RefShape?
    ensures TypeNodes(t) == 1 && UnderSequences(t) == 0 && TypeSize(t) == 1
  {
  }

  lemma {:induction false} UnaryNodes(t: ValueType, x: ValueType)
    requires Single(t, x)
    ensures TypeNodes(t) == 1 + (if t.SequenceType? then 0 else TypeNodes(x)) && TypeSize(t) == 1 + TypeSize(x)
    ensures UnderSequences(t) == if t.SequenceType? then TypeSize(x) else UnderSequences(x)
  {
  }

  lemma {:induction false} BinaryNodes(t: ValueType, x: ValueType, y: ValueType)
    requires ShapeOf(t).BinaryShape? && ShapeOf(t).first == x && ShapeOf(t).second == y
    ensures TypeNodes(t) == 1 + TypeNodes(x) + TypeNodes(y) && TypeSize(t) == 1 + TypeSize(x) + TypeSize(y)
    ensures UnderSequences(t) == UnderSequences(x) + UnderSequences(y)
  {
  }

  lemma {:induction false} AllNodesAreSize(ts: seq<ValueType>)
    ensures AllNodes(ts) + AllUnderSequences(ts) == TypeSizes(ts)
    decreases TypeSizes(ts), 1, |ts|
  {
    if ts != [] {
      NodesAreSize(ts[0]);
      AllNodesAreSize(ts[1..]);
    }
  }

  lemma {:induction false} FieldNodesAreSize(fs: seq<RecordField>)
    ensures FieldNodes(fs) + FieldsUnderSequences(fs) == FieldSizes(fs)
    decreases FieldSizes(fs), 1, |fs|
  {
    if fs != [] {
      NodesAreSize(fs[0].valueType);
      FieldNodesAreSize(fs[1..]);
    }
  }

  // ----- bytes -----

  /** What reading a type is charged beyond a copy of it: the table entry of every
      tuple element and parameter, and whatever lies beneath a sequence. */
  ghost function ReadingExtra(limits: Limits, t: ValueType): nat
    decreases TypeSize(t), 0
  {
    match ShapeOf(t)
    case LeafShape(_) => 0
    case UnaryShape(_, x) => if t.SequenceType? then Cost(limits, x).bytes else ReadingExtra(limits, x)
    case BinaryShape(_, x, y) => ReadingExtra(limits, x) + ReadingExtra(limits, y)
    case ManyShape(es) => Items(|es|, limits.typeBytes).bytes + AllReadingExtra(limits, es)
    case FieldsShape(fs) => FieldsReadingExtra(limits, fs)
    case RefShape(_) => 0
    case NamedShape(_, x) => ReadingExtra(limits, x)
    case FunctionShape(ps, r, _) =>
      Items(|ps|, limits.typeBytes).bytes + AllReadingExtra(limits, ps) + ReadingExtra(limits, r)
  }

  ghost function AllReadingExtra(limits: Limits, ts: seq<ValueType>): nat
    decreases TypeSizes(ts), 1, |ts|
  {
    if ts == [] then 0 else ReadingExtra(limits, ts[0]) + AllReadingExtra(limits, ts[1..])
  }

  ghost function FieldsReadingExtra(limits: Limits, fs: seq<RecordField>): nat
    decreases FieldSizes(fs), 1, |fs|
  {
    if fs == [] then 0 else ReadingExtra(limits, fs[0].valueType) + FieldsReadingExtra(limits, fs[1..])
  }

  /** Reading a type costs what a copy of it is charged, and the difference exactly. */
  lemma {:induction false} ReadingAgainstCopying(limits: Limits, t: ValueType)
    ensures Cost(limits, t).bytes == OwnedBytes(limits, t) + ReadingExtra(limits, t)
    decreases TypeSize(t), 0
  {
    match ShapeOf(t)
    case LeafShape(_) => LeafBytes(limits, t);
    case RefShape(_) => LeafBytes(limits, t);
    case UnaryShape(_, x) => UnaryBytes(limits, t, x); ReadingAgainstCopying(limits, x);
    case NamedShape(_, x) => UnaryBytes(limits, t, x); ReadingAgainstCopying(limits, x);
    case BinaryShape(_, x, y) =>
      BinaryBytes(limits, t, x, y);
      ReadingAgainstCopying(limits, x);
      ReadingAgainstCopying(limits, y);
    case ManyShape(es) => AllReadingAgainstCopying(limits, es);
    case FieldsShape(fs) => FieldsReadingAgainstCopying(limits, fs);
    case FunctionShape(ps, r, _) => AllReadingAgainstCopying(limits, ps); ReadingAgainstCopying(limits, r);
  }

  lemma {:induction false} LeafBytes(limits: Limits, t: ValueType)
    requires ShapeOf(t).LeafShape? || ShapeOf(t).RefShape?
    ensures Cost(limits, t).bytes == OwnedBytes(limits, t) && ReadingExtra(limits, t) == 0
  {
  }

  lemma {:induction false} UnaryBytes(limits: Limits, t: ValueType, x: ValueType)
    requires Single(t, x)
    ensures Cost(limits, t).bytes == OwnedBytes(limits, t) + Cost(limits, x).bytes -
                                     if t.SequenceType? then 0 else OwnedBytes(limits, x)
    ensures ReadingExtra(limits, t) == if t.SequenceType? then Cost(limits, x).bytes else ReadingExtra(limits, x)
  {
  }

  lemma {:induction false} BinaryBytes(limits: Limits, t: ValueType, x: ValueType, y: ValueType)
    requires ShapeOf(t).BinaryShape? && ShapeOf(t).first == x && ShapeOf(t).second == y
    ensures Cost(limits, t).bytes == limits.typeBytes + Cost(limits, x).bytes + Cost(limits, y).bytes
    ensures OwnedBytes(limits, t) == limits.typeBytes + OwnedBytes(limits, x) + OwnedBytes(limits, y)
    ensures ReadingExtra(limits, t) == ReadingExtra(limits, x) + ReadingExtra(limits, y)
  {
    BinaryCost(limits, t, x, y);
    BinaryOwned(limits, t, x, y);
  }

  lemma {:induction false} BinaryCost(limits: Limits, t: ValueType, x: ValueType, y: ValueType)
    requires ShapeOf(t).BinaryShape? && ShapeOf(t).first == x && ShapeOf(t).second == y
    ensures Cost(limits, t).bytes == limits.typeBytes + Cost(limits, x).bytes + Cost(limits, y).bytes
  {
  }

  lemma {:induction false} BinaryOwned(limits: Limits, t: ValueType, x: ValueType, y: ValueType)
    requires ShapeOf(t).BinaryShape? && ShapeOf(t).first == x && ShapeOf(t).second == y
    ensures OwnedBytes(limits, t) == limits.typeBytes + OwnedBytes(limits, x) + OwnedBytes(limits, y)
  {
  }

  lemma {:induction false} AllReadingAgainstCopying(limits: Limits, ts: seq<ValueType>)
    ensures AllCost(limits, ts).bytes == AllOwnedBytes(limits, ts) + AllReadingExtra(limits, ts)
    decreases TypeSizes(ts), 1, |ts|
  {
    if ts != [] {
      ReadingAgainstCopying(limits, ts[0]);
      AllReadingAgainstCopying(limits, ts[1..]);
    }
  }

  lemma {:induction false} FieldsReadingAgainstCopying(limits: Limits, fs: seq<RecordField>)
    ensures FieldsCost(limits, fs).bytes + Items(|fs|, limits.fieldBytes).bytes ==
            FieldsOwnedBytes(limits, fs) + FieldsReadingExtra(limits, fs)
    decreases FieldSizes(fs), 1, |fs|
  {
    if fs != [] {
      ReadingAgainstCopying(limits, fs[0].valueType);
      FieldsReadingAgainstCopying(limits, fs[1..]);
      ItemsNext(|fs[1..]|, limits.fieldBytes);
    }
  }

  lemma {:induction false} ItemsNext(n: nat, itemBytes: nat)
    ensures Items(n + 1, itemBytes).bytes == Items(n, itemBytes).bytes + itemBytes
  {
    assert (n + 1) * itemBytes == n * itemBytes + itemBytes;
  }
}
