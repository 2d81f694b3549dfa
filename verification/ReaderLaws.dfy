/** The converse of reading back: whatever the reader accepts is an encoding, within
    the limits, at exactly its cost. */
module ReaderLaws {
  import opened Wrappers
  import opened ValueTypes
  import opened TypeCodec
  import opened TypeReader

  /** The writer's table numbers the reader's list. */
  ghost predicate Numbering(table: map<Text, u32>, strings: seq<Text>) {
    SameStrings(table, strings) && forall i | 0 <= i < |strings| :: strings[i] in table && table[strings[i]] == i
  }

  // ----- scalars -----

  lemma {:induction false} NumberIsEncoded(bytes: seq<byte>)
    ensures FromLittleEndian(bytes) < Capacity(|bytes|) && LittleEndian(FromLittleEndian(bytes), |bytes|) == bytes
    decreases |bytes|
  {
    if bytes != [] {
      NumberIsEncoded(bytes[1..]);
      var x := FromLittleEndian(bytes[1..]);
      assert (bytes[0] + 0x100 * x) % 0x100 == bytes[0] && (bytes[0] + 0x100 * x) / 0x100 == x;
      assert bytes == [bytes[0]] + bytes[1..];
    }
  }

  lemma {:induction false} ReadU32IsEncoded(input: seq<byte>, budget: Budget)
    requires ReadU32(input, budget).Ok?
    ensures var n := ReadU32(input, budget).value; input == LittleEndian(n.value, 4) + n.rest && n.budget == budget
  {
    NumberIsEncoded(input[..4]);
    assert input == input[..4] + input[4..];
  }

  lemma {:induction false} ReadCountIsEncoded(table: map<Text, u32>, input: seq<byte>, limits: Limits, itemBytes: nat,
                                              budget: Budget)
    requires ReadCount(input, limits, itemBytes, budget).Ok?
    ensures var n := ReadCount(input, limits, itemBytes, budget).value;
            && n.value < 0x1_0000_0000 && n.value <= limits.tableEntries
            && input == PutCount(Wire(table), n.value) + n.rest && budget == Plus(Items(n.value, itemBytes), n.budget)
  {
    ReadU32IsEncoded(input, budget);
  }

  lemma {:induction false} ReadNameIsEncoded(table: map<Text, u32>, input: seq<byte>, strings: seq<Text>,
                                             budget: Budget)
    requires Numbering(table, strings) && ReadName(input, strings, budget).Ok?
    ensures var n := ReadName(input, strings, budget).value;
            n.value in table && input == PutName(Wire(table), n.value) + n.rest &&
                budget == Plus(Budget(|n.value|, 0), n.budget)
  {
    ReadU32IsEncoded(input, budget);
    var id := ReadU32(input, budget).value.value;
    assert table[strings[id]] == id;
  }

  // ----- what a reading explains -----

  /** The bytes read are the value's encoding, and the budget spent is its cost. */
  ghost predicate Explains(table: map<Text, u32>, limits: Limits, depth: nat, input: seq<byte>, budget: Budget,
                           p: Parsed<ValueType>) {
    && Encodable(Wire(table), p.value) && WithinLimits(limits, depth, p.value)
    && input == Encode(Wire(table), p.value) + p.rest && budget == Plus(Cost(limits, p.value), p.budget)
  }

  ghost predicate BodyExplains(table: map<Text, u32>, limits: Limits, depth: nat, tag: byte, input: seq<byte>,
                               budget: Budget, p: Parsed<ValueType>) {
    && Encodable(Wire(table), p.value) && WithinLimits(limits, depth, p.value) && TagOf(ShapeOf(p.value)) == tag
    && input == Body(Wire(table), p.value) + p.rest && budget == Plus(BodyCost(limits, p.value), p.budget)
  }

  ghost predicate ListExplains(table: map<Text, u32>, limits: Limits, depth: nat, input: seq<byte>, budget: Budget,
                               p: Parsed<seq<ValueType>>) {
    && EncodableAll(Wire(table), p.value) && AllWithin(limits, depth, p.value)
    && input == EncodeAll(Wire(table), p.value) + p.rest && budget == Plus(AllCost(limits, p.value), p.budget)
  }

  ghost predicate TableExplains(table: map<Text, u32>, limits: Limits, depth: nat, input: seq<byte>, budget: Budget,
                                p: Parsed<seq<ValueType>>) {
    && |p.value| < 0x1_0000_0000 && |p.value| <= limits.tableEntries
    && EncodableAll(Wire(table), p.value) && AllWithin(limits, depth, p.value)
    && input == (PutCount(Wire(table), |p.value|) + EncodeAll(Wire(table), p.value)) + p.rest
    && budget == Plus(Plus(Items(|p.value|, limits.typeBytes), AllCost(limits, p.value)), p.budget)
  }

  ghost predicate FieldListExplains(table: map<Text, u32>, limits: Limits, depth: nat, input: seq<byte>, budget: Budget,
                                    p: Parsed<seq<RecordField>>) {
    && EncodableFields(Wire(table), p.value) && FieldsWithin(limits, depth, p.value)
    && input == EncodeFields(Wire(table), p.value) + p.rest && budget == Plus(FieldsCost(limits, p.value), p.budget)
  }

  // ----- types -----

  /** Whatever the reader accepts is the encoding of what it returns. */
  lemma {:induction false} ReadIsEncoded(table: map<Text, u32>, input: seq<byte>, strings: seq<Text>, limits: Limits,
                                         depth: nat, budget: Budget)
    requires Numbering(table, strings) && ReadType(input, strings, limits, depth, budget).Ok?
    ensures Explains(table, limits, depth, input, budget, ReadType(input, strings, limits, depth, budget).value)
    decreases |input|, 1
  {
    var tag := ReadTag(input, limits, depth, budget).value;
    BodyIsEncoded(table, tag.value, tag.rest, strings, limits, depth, tag.budget);
    TagExplains(table, limits, depth, input, budget, tag, ReadType(input, strings, limits, depth, budget).value);
  }

  lemma {:induction false} TagExplains(table: map<Text, u32>, limits: Limits, depth: nat, input: seq<byte>,
                                       budget: Budget, tag: Parsed<byte>, p: Parsed<ValueType>)
    requires ReadTag(input, limits, depth, budget) == Ok(tag) &&
             BodyExplains(table, limits, depth, tag.value, tag.rest, tag.budget, p)
    ensures Explains(table, limits, depth, input, budget, p)
  {
    var body := Body(Wire(table), p.value);
    assert Encode(Wire(table), p.value) == [tag.value] + body;
    assert input == [tag.value] + tag.rest;
    Assoc([tag.value], body, p.rest);
    PlusAssoc(Budget(limits.typeBytes, 1), BodyCost(limits, p.value), p.budget);
  }

  lemma {:induction false} BodyIsEncoded(table: map<Text, u32>, tag: byte, input: seq<byte>, strings: seq<Text>,
                                         limits: Limits, depth: nat, budget: Budget)
    requires Numbering(table, strings) && depth <= limits.typeDepth &&
             ReadBody(tag, input, strings, limits, depth, budget).Ok?
    ensures BodyExplains(table, limits, depth, tag, input, budget,
                         ReadBody(tag, input, strings, limits, depth, budget).value)
    decreases |input|, 2
  {
    if LeafType(tag).Some? {
      LeafExplains(table, limits, depth, tag, input, budget);
    } else if IsUnary(tag) {
      ReadIsEncoded(table, input, strings, limits, depth + 1, budget);
      UnaryExplains(table, limits, depth, tag, input, budget,
                    ReadType(input, strings, limits, depth + 1, budget).value);
    } else if IsBinary(tag) {
      var x := ReadType(input, strings, limits, depth + 1, budget).value;
      ReadIsEncoded(table, input, strings, limits, depth + 1, budget);
      ReadIsEncoded(table, x.rest, strings, limits, depth + 1, x.budget);
      BinaryExplains(table, limits, depth, tag, input, budget, x,
                     ReadType(x.rest, strings, limits, depth + 1, x.budget).value);
    } else if tag == MANY {
      TypesAreEncoded(table, input, strings, limits, depth + 1, budget);
      TupleExplains(table, limits, depth, input, budget, ReadTypes(input, strings, limits, depth + 1, budget).value);
    } else if tag == FIELDS {
      FieldsAreEncoded(table, input, strings, limits, depth, budget);
    } else if tag == REF {
      ReadU32IsEncoded(input, budget);
      RefExplains(table, limits, depth, input, budget, ReadU32(input, budget).value);
    } else if tag == NAMED {
      var name := ReadName(input, strings, budget).value;
      ReadNameIsEncoded(table, input, strings, budget);
      ReadIsEncoded(table, name.rest, strings, limits, depth + 1, name.budget);
      NamedExplains(table, limits, depth, input, budget, name,
                    ReadType(name.rest, strings, limits, depth + 1, name.budget).value);
    } else {
      var ps := ReadTypes(input, strings, limits, depth + 1, budget).value;
      var r := ReadType(ps.rest, strings, limits, depth + 1, ps.budget).value;
      TypesAreEncoded(table, input, strings, limits, depth + 1, budget);
      ReadIsEncoded(table, ps.rest, strings, limits, depth + 1, ps.budget);
      ReadU32IsEncoded(r.rest, r.budget);
      FunctionExplains(table, limits, depth, input, budget, ps, r, ReadU32(r.rest, r.budget).value);
    }
  }

  lemma {:induction false} LeafExplains(table: map<Text, u32>, limits: Limits, depth: nat, tag: byte, input: seq<byte>,
                                        budget: Budget)
    requires LeafType(tag).Some? && depth <= limits.typeDepth
    ensures BodyExplains(table, limits, depth, tag, input, budget, Parsed(LeafType(tag).value, input, budget))
  {
    var t := LeafType(tag).value;
    assert ShapeOf(t) == LeafShape(tag);
    assert Body(Wire(table), t) == [] && [] + input == input;
  }

  lemma {:induction false} UnaryExplains(table: map<Text, u32>, limits: Limits, depth: nat, tag: byte, input: seq<byte>,
                                         budget: Budget, x: Parsed<ValueType>)
    requires IsUnary(tag) && depth <= limits.typeDepth && Explains(table, limits, depth + 1, input, budget, x)
    ensures BodyExplains(table, limits, depth, tag, input, budget, Parsed(UnaryType(tag, x.value), x.rest, x.budget))
  {
    var t := UnaryType(tag, x.value);
    assert ShapeOf(t) == UnaryShape(tag, x.value);
    assert Body(Wire(table), t) == Encode(Wire(table), x.value);
  }

  lemma {:induction false} BinaryExplains(table: map<Text, u32>, limits: Limits, depth: nat, tag: byte,
                                          input: seq<byte>, budget: Budget,
                                          x: Parsed<ValueType>, y: Parsed<ValueType>)
    requires IsBinary(tag) && depth <= limits.typeDepth
    requires Explains(table, limits, depth + 1, input, budget, x) &&
             Explains(table, limits, depth + 1, x.rest, x.budget, y)
    ensures BodyExplains(table, limits, depth, tag, input, budget,
                         Parsed(BinaryType(tag, x.value, y.value), y.rest, y.budget))
  {
    var t, a, b := BinaryType(tag, x.value, y.value), Encode(Wire(table), x.value), Encode(Wire(table), y.value);
    assert ShapeOf(t) == BinaryShape(tag, x.value, y.value);
    assert Body(Wire(table), t) == a + b;
    Assoc(a, b, y.rest);
    PlusAssoc(Cost(limits, x.value), Cost(limits, y.value), y.budget);
  }

  lemma {:induction false} TupleExplains(table: map<Text, u32>, limits: Limits, depth: nat, input: seq<byte>,
                                         budget: Budget, es: Parsed<seq<ValueType>>)
    requires depth <= limits.typeDepth && TableExplains(table, limits, depth + 1, input, budget, es)
    ensures BodyExplains(table, limits, depth, MANY, input, budget, Parsed(TupleType(es.value), es.rest, es.budget))
  {
    assert Body(Wire(table), TupleType(es.value)) ==
           PutCount(Wire(table), |es.value|) + EncodeAll(Wire(table), es.value);
  }

  lemma {:induction false} RefExplains(table: map<Text, u32>, limits: Limits, depth: nat, input: seq<byte>,
                                       budget: Budget, id: Parsed<u32>)
    requires depth <= limits.typeDepth && input == LittleEndian(id.value, 4) + id.rest && id.budget == budget
    ensures BodyExplains(table, limits, depth, REF, input, budget, Parsed(EnumRef(id.value), id.rest, id.budget))
  {
    assert Body(Wire(table), EnumRef(id.value)) == LittleEndian(id.value, 4);
  }

  lemma {:induction false} NamedExplains(table: map<Text, u32>, limits: Limits, depth: nat, input: seq<byte>,
                                         budget: Budget, name: Parsed<Text>, x: Parsed<ValueType>)
    requires depth <= limits.typeDepth && name.value in table && input == PutName(Wire(table), name.value) + name.rest
    requires budget == Plus(Budget(|name.value|, 0), name.budget) &&
             Explains(table, limits, depth + 1, name.rest, name.budget, x)
    ensures BodyExplains(table, limits, depth, NAMED, input, budget,
                         Parsed(NewtypeType(name.value, x.value), x.rest, x.budget))
  {
    var n, e := PutName(Wire(table), name.value), Encode(Wire(table), x.value);
    assert Body(Wire(table), NewtypeType(name.value, x.value)) == n + e;
    Assoc(n, e, x.rest);
    PlusAssoc(Budget(|name.value|, 0), Cost(limits, x.value), x.budget);
  }

  lemma {:induction false} FunctionExplains(table: map<Text, u32>, limits: Limits, depth: nat, input: seq<byte>,
                                            budget: Budget,
                                            ps: Parsed<seq<ValueType>>, r: Parsed<ValueType>, effects: Parsed<u32>)
    requires depth <= limits.typeDepth && TableExplains(table, limits, depth + 1, input, budget, ps)
    requires Explains(table, limits, depth + 1, ps.rest, ps.budget, r)
    requires r.rest == LittleEndian(effects.value, 4) + effects.rest && effects.budget == r.budget
    ensures BodyExplains(table, limits, depth, FUNCTION, input, budget,
                         Parsed(FunctionType(ps.value, r.value, effects.value), effects.rest, effects.budget))
  {
    var list, spent := PutCount(Wire(table), |ps.value|) + EncodeAll(Wire(table), ps.value),
        Plus(Items(|ps.value|, limits.typeBytes), AllCost(limits, ps.value));
    FunctionFits(table, limits, depth, ps.value, r.value, effects.value);
    FunctionBytes(table, ps.value, r.value, effects.value, effects.rest);
    assert input == list + (Encode(Wire(table), r.value) + (LittleEndian(effects.value, 4) + effects.rest));
    PlusAssoc(spent, Cost(limits, r.value), r.budget);
  }

  lemma {:induction false} FunctionFits(table: map<Text, u32>, limits: Limits, depth: nat, ps: seq<ValueType>,
                                        r: ValueType, effects: u32)
    requires depth <= limits.typeDepth && |ps| < 0x1_0000_0000 && |ps| <= limits.tableEntries
    requires EncodableAll(Wire(table), ps) && AllWithin(limits, depth + 1, ps) && Encodable(Wire(table), r) &&
             WithinLimits(limits, depth + 1, r)
    ensures var t := FunctionType(ps, r, effects);
            && Encodable(Wire(table), t) && WithinLimits(limits, depth, t) && TagOf(ShapeOf(t)) == FUNCTION
            && BodyCost(limits, t) == Plus(Plus(Items(|ps|, limits.typeBytes), AllCost(limits, ps)), Cost(limits, r))
  {
  }

  // ----- lists and tables -----

  lemma {:induction false} TypesAreEncoded(table: map<Text, u32>, input: seq<byte>, strings: seq<Text>, limits: Limits,
                                           depth: nat, budget: Budget)
    requires Numbering(table, strings) && ReadTypes(input, strings, limits, depth, budget).Ok?
    ensures TableExplains(table, limits, depth, input, budget, ReadTypes(input, strings, limits, depth, budget).value)
    decreases |input|, 1
  {
    var n := ReadCount(input, limits, limits.typeBytes, budget).value;
    ReadCountIsEncoded(table, input, limits, limits.typeBytes, budget);
    ListIsEncoded(table, n.value, n.rest, strings, limits, depth, n.budget);
    var ts := ReadTypeList(n.value, n.rest, strings, limits, depth, n.budget).value;
    Assoc(PutCount(Wire(table), n.value), EncodeAll(Wire(table), ts.value), ts.rest);
    PlusAssoc(Items(n.value, limits.typeBytes), AllCost(limits, ts.value), ts.budget);
  }

  lemma {:induction false} ListIsEncoded(table: map<Text, u32>, n: nat, input: seq<byte>, strings: seq<Text>,
                                         limits: Limits, depth: nat, budget: Budget)
    requires Numbering(table, strings) && ReadTypeList(n, input, strings, limits, depth, budget).Ok?
    ensures var p := ReadTypeList(n, input, strings, limits, depth, budget).value;
            |p.value| == n && ListExplains(table, limits, depth, input, budget, p)
    decreases |input|, 2, n
  {
    if n == 0 {
      assert [] + input == input;
    } else {
      var x := ReadType(input, strings, limits, depth, budget).value;
      ReadIsEncoded(table, input, strings, limits, depth, budget);
      ListIsEncoded(table, n - 1, x.rest, strings, limits, depth, x.budget);
      ConsExplains(table, limits, depth, input, budget, x,
                   ReadTypeList(n - 1, x.rest, strings, limits, depth, x.budget).value);
    }
  }

  lemma {:induction false} ConsExplains(table: map<Text, u32>, limits: Limits, depth: nat, input: seq<byte>,
                                        budget: Budget, x: Parsed<ValueType>, xs: Parsed<seq<ValueType>>)
    requires Explains(table, limits, depth, input, budget, x) &&
             ListExplains(table, limits, depth, x.rest, x.budget, xs)
    ensures ListExplains(table, limits, depth, input, budget, Parsed([x.value] + xs.value, xs.rest, xs.budget))
  {
    assert ([x.value] + xs.value)[1..] == xs.value;
    Assoc(Encode(Wire(table), x.value), EncodeAll(Wire(table), xs.value), xs.rest);
    PlusAssoc(Cost(limits, x.value), AllCost(limits, xs.value), xs.budget);
  }

  lemma {:induction false} FieldsAreEncoded(table: map<Text, u32>, input: seq<byte>, strings: seq<Text>, limits: Limits,
                                            depth: nat, budget: Budget)
    requires Numbering(table, strings) && depth <= limits.typeDepth &&
             ReadFields(input, strings, limits, depth + 1, budget).Ok?
    ensures var fs := ReadFields(input, strings, limits, depth + 1, budget).value;
            BodyExplains(table, limits, depth, FIELDS, input, budget, Parsed(RecordType(fs.value), fs.rest, fs.budget))
    decreases |input|, 1
  {
    var n := ReadCount(input, limits, limits.fieldBytes, budget).value;
    ReadCountIsEncoded(table, input, limits, limits.fieldBytes, budget);
    FieldListIsEncoded(table, n.value, n.rest, strings, limits, depth + 1, n.budget);
    RecordExplains(table, limits, depth, input, budget, n,
                   ReadFieldList(n.value, n.rest, strings, limits, depth + 1, n.budget).value);
  }

  lemma {:induction false} RecordExplains(table: map<Text, u32>, limits: Limits, depth: nat, input: seq<byte>,
                                          budget: Budget, n: Parsed<nat>, fs: Parsed<seq<RecordField>>)
    requires depth <= limits.typeDepth && n.value == |fs.value| < 0x1_0000_0000 && n.value <= limits.tableEntries
    requires input == PutCount(Wire(table), n.value) + n.rest &&
             budget == Plus(Items(n.value, limits.fieldBytes), n.budget)
    requires FieldListExplains(table, limits, depth + 1, n.rest, n.budget, fs)
    ensures BodyExplains(table, limits, depth, FIELDS, input, budget, Parsed(RecordType(fs.value), fs.rest, fs.budget))
  {
    var count, all := PutCount(Wire(table), n.value), EncodeFields(Wire(table), fs.value);
    assert Body(Wire(table), RecordType(fs.value)) == count + all;
    Assoc(count, all, fs.rest);
    PlusAssoc(Items(n.value, limits.fieldBytes), FieldsCost(limits, fs.value), fs.budget);
  }

  lemma {:induction false} FieldListIsEncoded(table: map<Text, u32>, n: nat, input: seq<byte>, strings: seq<Text>,
                                              limits: Limits, depth: nat, budget: Budget)
    requires Numbering(table, strings) && ReadFieldList(n, input, strings, limits, depth, budget).Ok?
    ensures var p := ReadFieldList(n, input, strings, limits, depth, budget).value;
            |p.value| == n && FieldListExplains(table, limits, depth, input, budget, p)
    decreases |input|, 2, n
  {
    if n == 0 {
      assert [] + input == input;
    } else {
      var name := ReadName(input, strings, budget).value;
      var x := ReadType(name.rest, strings, limits, depth, name.budget).value;
      ReadNameIsEncoded(table, input, strings, budget);
      ReadIsEncoded(table, name.rest, strings, limits, depth, name.budget);
      FieldListIsEncoded(table, n - 1, x.rest, strings, limits, depth, x.budget);
      FieldConsExplains(table, limits, depth, input, budget, name, x,
                        ReadFieldList(n - 1, x.rest, strings, limits, depth, x.budget).value);
    }
  }

  lemma {:induction false} FieldConsExplains(table: map<Text, u32>, limits: Limits, depth: nat, input: seq<byte>,
                                             budget: Budget,
                                             name: Parsed<Text>, x: Parsed<ValueType>, xs: Parsed<seq<RecordField>>)
    requires name.value in table && input == PutName(Wire(table), name.value) + name.rest &&
             budget == Plus(Budget(|name.value|, 0), name.budget)
    requires Explains(table, limits, depth, name.rest, name.budget, x) &&
             FieldListExplains(table, limits, depth, x.rest, x.budget, xs)
    ensures FieldListExplains(table, limits, depth, input, budget,
                              Parsed([RecordField(name.value, x.value)] + xs.value, xs.rest, xs.budget))
  {
    assert ([RecordField(name.value, x.value)] + xs.value)[1..] == xs.value;
    var n, e, tail := PutName(Wire(table), name.value), Encode(Wire(table), x.value),
        EncodeFields(Wire(table), xs.value);
    Assoc(e, tail, xs.rest);
    Assoc(n, e + tail, xs.rest);
    PlusAssoc(Plus(Budget(|name.value|, 0), Cost(limits, x.value)), FieldsCost(limits, xs.value), xs.budget);
    PlusAssoc(Budget(|name.value|, 0), Cost(limits, x.value), Plus(FieldsCost(limits, xs.value), xs.budget));
  }

  // ----- exactly what is readable -----

  predicate Affords(budget: Budget, cost: Budget) {
    budget.bytes >= cost.bytes && budget.nodes >= cost.nodes
  }

  /** An encoded type can be read exactly when it is within the limits and the budget
      covers its cost; then it is read back and the rest of the budget remains. */
  lemma {:induction false} ReadableIff(table: map<Text, u32>, strings: seq<Text>, limits: Limits, depth: nat,
                                       t: ValueType, rest: seq<byte>, budget: Budget)
    requires Numbering(table, strings) && Encodable(Wire(table), t)
    ensures var r := ReadType(Encode(Wire(table), t) + rest, strings, limits, depth, budget);
            && (r.Ok? <==> WithinLimits(limits, depth, t) && Affords(budget, Cost(limits, t)))
            && (r.Ok? ==> r.value.value == t && r.value.rest == rest && budget == Plus(Cost(limits, t), r.value.budget))
  {
    var input := Encode(Wire(table), t) + rest;
    var r := ReadType(input, strings, limits, depth, budget);
    if r.Ok? {
      ReadIsEncoded(table, input, strings, limits, depth, budget);
      NumberingIsInjective(table, strings);
      TypePrefixFree(Wire(table), t, rest, r.value.value, r.value.rest);
    }
    if WithinLimits(limits, depth, t) && Affords(budget, Cost(limits, t)) {
      var cost := Cost(limits, t);
      var after := Budget(budget.bytes - cost.bytes, budget.nodes - cost.nodes);
      assert budget == Plus(cost, after);
      ReadsType(table, strings, limits, depth, t, rest, after);
    }
  }

  lemma {:induction false} NumberingIsInjective(table: map<Text, u32>, strings: seq<Text>)
    requires Numbering(table, strings)
    ensures Injective(Wire(table))
  {
    forall a, b | a in table && b in table && table[a] == table[b] ensures a == b {
      assert strings[table[a]] == a && strings[table[b]] == b;
    }
  }
}
