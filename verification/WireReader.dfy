/** The artifact's byte reader: an offset into the payload and two budgets that
    only shrink. Every method computes the reading function of the same name on
    the bytes ahead. */
module WireReader {
  import opened Wrappers
  import opened ValueTypes
  import opened TypeCodec
  import opened TypeReader

  /** What a reading method returns and leaves behind, against what it should. */
  ghost predicate Agrees<T>(expected: Result<Parsed<T>, ReadError>, actual: Result<T, ReadError>, ahead: seq<byte>,
                            budget: Budget) {
    match actual
    case Ok(x) => expected == Ok(Parsed(x, ahead, budget))
    case Err(e) => expected == Err(e)
  }

  /** The values read so far, put before the values of a later reading. */
  ghost function Before<T>(done: seq<T>, later: Result<Parsed<seq<T>>, ReadError>): Result<Parsed<seq<T>>, ReadError> {
    if later.Err? then later else Ok(later.value.(value := done + later.value.value))
  }

  lemma {:induction false} BeforeNothing<T>(later: Result<Parsed<seq<T>>, ReadError>)
    ensures Before([], later) == later
  {
    if later.Ok? { assert [] + later.value.value == later.value.value; }
  }

  lemma {:induction false} BeforeOne<T>(done: seq<T>, x: T, later: Result<Parsed<seq<T>>, ReadError>)
    ensures Before(done, Before([x], later)) == Before(done + [x], later)
  {
    if later.Ok? { Assoc(done, [x], later.value.value); }
  }

  class Reader {
    const bytes: seq<byte>
    const limits: Limits
    var offset: nat
    var budget: Budget

    ghost predicate Valid()
      reads this
    {
      offset <= |bytes|
    }

    /** The bytes not yet taken. */
    ghost function Ahead(): seq<byte>
      requires Valid()
      reads this
    {
      bytes[offset..]
    }

    constructor (bytes: seq<byte>, limits: Limits, budget: Budget)
      ensures Valid() && Ahead() == bytes && this.budget == budget && this.limits == limits && this.bytes == bytes
    {
      this.bytes, this.limits, this.budget, this.offset := bytes, limits, budget, 0;
    }

    method Take(count: nat) returns (r: Result<seq<byte>, ReadError>)
      requires Valid()
      modifies this`offset
      ensures Valid()
      ensures r.Ok? <==> old(|Ahead()|) >= count
      ensures r.Ok? ==>
                r.value == old(Ahead())[..count] && Ahead() == old(Ahead())[count..] && offset == old(offset) + count
      ensures r.Err? ==> r.error == Truncated && offset == old(offset)
    {
      if offset + count > |bytes| { return Err(Truncated); }
      r := Ok(bytes[offset..offset + count]);
      offset := offset + count;
    }

    method U32() returns (r: Result<u32, ReadError>)
      requires Valid()
      modifies this`offset
      ensures Valid() && offset >= old(offset) && Agrees(ReadU32(old(Ahead()), budget), r, Ahead(), budget)
      ensures r.Ok? ==> offset == old(offset) + 4
    {
      var taken := Take(4);
      if taken.Err? { return Err(taken.error); }
      NumberInRange(taken.value);
      r := Ok(FromLittleEndian(taken.value));
    }

    method ChargeModelBytes(count: nat) returns (ok: bool)
      modifies this`budget
      ensures ok <==> old(budget.bytes) >= count
      ensures budget == if ok then old(budget).(bytes := old(budget.bytes) - count) else old(budget)
    {
      ok := budget.bytes >= count;
      if ok { budget := budget.(bytes := budget.bytes - count); }
    }

    method Count(itemBytes: nat) returns (r: Result<nat, ReadError>)
      requires Valid()
      modifies this`offset, this`budget
      ensures Valid() && offset >= old(offset) && Agrees(ReadCount(old(Ahead()), limits, itemBytes, old(budget)), r,
                                                         Ahead(), budget)
      ensures r.Ok? ==> offset > old(offset)
    {
      var n := U32();
      if n.Err? { return Err(n.error); }
      if n.value > limits.tableEntries { return Err(OverLimit); }
      var paid := ChargeModelBytes(n.value * itemBytes);
      if !paid { return Err(OverLimit); }
      r := Ok(n.value);
    }

    method StringRef(strings: seq<Text>) returns (r: Result<Text, ReadError>)
      requires Valid()
      modifies this`offset, this`budget
      ensures Valid() && offset >= old(offset) && Agrees(ReadName(old(Ahead()), strings, old(budget)), r, Ahead(),
                                                         budget)
      ensures r.Ok? ==> offset > old(offset)
    {
      var id := U32();
      if id.Err? { return Err(id.error); }
      if id.value >= |strings| { return Err(InvalidScalar); }
      var paid := ChargeModelBytes(|strings[id.value]|);
      if !paid { return Err(OverLimit); }
      r := Ok(strings[id.value]);
    }

    method U8() returns (r: Result<byte, ReadError>)
      requires Valid()
      modifies this`offset
      ensures Valid() && offset >= old(offset)
      ensures r.Ok? <==> old(Ahead()) != []
      ensures r.Ok? ==> r.value == old(Ahead())[0] && Ahead() == old(Ahead())[1..] && offset == old(offset) + 1
      ensures r.Err? ==> r.error == Truncated
    {
      var taken := Take(1);
      if taken.Err? { return Err(taken.error); }
      r := Ok(taken.value[0]);
    }

    method TypeRef(types: seq<ValueType>) returns (r: Result<ValueType, ReadError>)
      requires Valid()
      modifies this`offset, this`budget
      ensures Valid() && offset >= old(offset) && Agrees(ReadTypeRef(old(Ahead()), types, limits, old(budget)), r,
                                                         Ahead(), budget)
    {
      var id := U32();
      if id.Err? { return Err(id.error); }
      if id.value >= |types| { return Err(InvalidScalar); }
      var paid := ChargeModelBytes(OwnedBytes(limits, types[id.value]));
      if !paid { return Err(OverLimit); }
      r := Ok(types[id.value]);
    }

    method Tag(depth: nat) returns (r: Result<byte, ReadError>)
      requires Valid()
      modifies this`offset, this`budget
      ensures Valid() && offset >= old(offset) && Agrees(ReadTag(old(Ahead()), limits, depth, old(budget)), r, Ahead(),
                                                         budget)
      ensures r.Ok? ==> offset > old(offset)
    {
      if depth > limits.typeDepth || budget.nodes == 0 { return Err(OverLimit); }
      budget := budget.(nodes := budget.nodes - 1);
      var paid := ChargeModelBytes(limits.typeBytes);
      if !paid { return Err(OverLimit); }
      r := U8();
    }

    method Value(strings: seq<Text>, depth: nat) returns (r: Result<ValueType, ReadError>)
      requires Valid()
      modifies this`offset, this`budget
      ensures Valid() && offset >= old(offset) && Agrees(ReadType(old(Ahead()), strings, limits, depth, old(budget)), r,
                                                         Ahead(), budget)
      decreases |bytes| - offset, 1
    {
      var tag := Tag(depth);
      if tag.Err? { return Err(tag.error); }
      r := ValueBody(tag.value, strings, depth);
    }

    method ValueBody(tag: byte, strings: seq<Text>, depth: nat) returns (r: Result<ValueType, ReadError>)
      requires Valid()
      modifies this`offset, this`budget
      ensures Valid() && offset >= old(offset) && Agrees(ReadBody(tag, old(Ahead()), strings, limits, depth,
                                                                  old(budget)), r, Ahead(), budget)
      decreases |bytes| - offset, 2
    {
      if LeafType(tag).Some? {
        r := Ok(LeafType(tag).value);
      } else if IsUnary(tag) {
        var x := Value(strings, depth + 1);
        r := if x.Err? then x else Ok(UnaryType(tag, x.value));
      } else if IsBinary(tag) {
        var x := Value(strings, depth + 1);
        if x.Err? { return x; }
        var y := Value(strings, depth + 1);
        r := if y.Err? then y else Ok(BinaryType(tag, x.value, y.value));
      } else if tag == 9 {
        var es := Types(strings, depth + 1);
        r := if es.Err? then Err(es.error) else Ok(TupleType(es.value));
      } else if tag == 10 {
        var fs := Fields(strings, depth + 1);
        r := if fs.Err? then Err(fs.error) else Ok(RecordType(fs.value));
      } else if tag == 11 {
        var id := U32();
        r := if id.Err? then Err(id.error) else Ok(EnumRef(id.value));
      } else if tag == 21 {
        var name := StringRef(strings);
        if name.Err? { return Err(name.error); }
        var x := Value(strings, depth + 1);
        r := if x.Err? then x else Ok(NewtypeType(name.value, x.value));
      } else if tag == 14 {
        r := FunctionBody(strings, depth);
      } else {
        r := Err(InvalidScalar);
      }
    }

    method FunctionBody(strings: seq<Text>, depth: nat) returns (r: Result<ValueType, ReadError>)
      requires Valid()
      modifies this`offset, this`budget
      ensures Valid() && offset >= old(offset) && Agrees(ReadBody(FUNCTION, old(Ahead()), strings, limits, depth,
                                                                  old(budget)), r, Ahead(), budget)
      decreases |bytes| - offset, 1, 1
    {
      var ps := Types(strings, depth + 1);
      if ps.Err? { return Err(ps.error); }
      var x := Value(strings, depth + 1);
      if x.Err? { return x; }
      var effects := U32();
      if effects.Err? { return Err(effects.error); }
      r := Ok(FunctionType(ps.value, x.value, effects.value));
    }

    method Types(strings: seq<Text>, depth: nat) returns (r: Result<seq<ValueType>, ReadError>)
      requires Valid()
      modifies this`offset, this`budget
      ensures Valid() && offset >= old(offset) && Agrees(ReadTypes(old(Ahead()), strings, limits, depth, old(budget)),
                                                         r, Ahead(), budget)
      decreases |bytes| - offset, 1, 0
    {
      var count := Count(limits.typeBytes);
      if count.Err? { return Err(count.error); }
      r := TypeList(count.value, strings, depth);
    }

    method TypeList(count: nat, strings: seq<Text>, depth: nat) returns (r: Result<seq<ValueType>, ReadError>)
      requires Valid()
      modifies this`offset, this`budget
      ensures Valid() && offset >= old(offset) && Agrees(ReadTypeList(count, old(Ahead()), strings, limits, depth,
                                                                      old(budget)), r, Ahead(), budget)
      decreases |bytes| - offset, 3
    {
      ghost var start, funds := Ahead(), budget;
      ghost var whole := ReadTypeList(count, start, strings, limits, depth, funds);
      var types: seq<ValueType> := [];
      BeforeNothing(whole);
      while |types| < count
        invariant Valid() && offset >= old(offset) && |types| <= count
        invariant whole == Before(types, ReadTypeList(count - |types|, Ahead(), strings, limits, depth, budget))
        decreases count - |types|
      {
        ghost var here, held := Ahead(), budget;
        var x := Value(strings, depth);
        ListUnfolds(count - |types|, here, strings, limits, depth, held, x, Ahead(), budget);
        if x.Err? { return Err(x.error); }
        BeforeOne(types, x.value, ReadTypeList(count - |types| - 1, Ahead(), strings, limits, depth, budget));
        types := types + [x.value];
      }
      assert types + [] == types;
      r := Ok(types);
    }

    method Field(strings: seq<Text>, depth: nat) returns (r: Result<RecordField, ReadError>)
      requires Valid()
      modifies this`offset, this`budget
      ensures Valid() && offset >= old(offset) && Agrees(ReadField(old(Ahead()), strings, limits, depth, old(budget)),
                                                         r, Ahead(), budget)
      decreases |bytes| - offset, 2
    {
      var name := StringRef(strings);
      if name.Err? { return Err(name.error); }
      var x := Value(strings, depth);
      if x.Err? { return Err(x.error); }
      r := Ok(RecordField(name.value, x.value));
    }

    method Fields(strings: seq<Text>, depth: nat) returns (r: Result<seq<RecordField>, ReadError>)
      requires Valid()
      modifies this`offset, this`budget
      ensures Valid() && offset >= old(offset) && Agrees(ReadFields(old(Ahead()), strings, limits, depth, old(budget)),
                                                         r, Ahead(), budget)
      decreases |bytes| - offset, 1, 0
    {
      var count := Count(limits.fieldBytes);
      if count.Err? { return Err(count.error); }
      r := FieldList(count.value, strings, depth);
    }

    method FieldList(count: nat, strings: seq<Text>, depth: nat) returns (r: Result<seq<RecordField>, ReadError>)
      requires Valid()
      modifies this`offset, this`budget
      ensures Valid() && offset >= old(offset) && Agrees(ReadFieldList(count, old(Ahead()), strings, limits, depth,
              old(budget)), r, Ahead(), budget)
      decreases |bytes| - offset, 3
    {
      ghost var start, funds := Ahead(), budget;
      ghost var whole := ReadFieldList(count, start, strings, limits, depth, funds);
      var fields: seq<RecordField> := [];
      BeforeNothing(whole);
      while |fields| < count
        invariant Valid() && offset >= old(offset) && |fields| <= count
        invariant whole == Before(fields, ReadFieldList(count - |fields|, Ahead(), strings, limits, depth, budget))
        decreases count - |fields|
      {
        ghost var here, held := Ahead(), budget;
        var x := Field(strings, depth);
        FieldsUnfold(count - |fields|, here, strings, limits, depth, held, x, Ahead(), budget);
        if x.Err? { return Err(x.error); }
        BeforeOne(fields, x.value, ReadFieldList(count - |fields| - 1, Ahead(), strings, limits, depth, budget));
        fields := fields + [x.value];
      }
      assert fields + [] == fields;
      r := Ok(fields);
    }
  }

  lemma {:induction false} ListUnfolds(n: nat, here: seq<byte>, strings: seq<Text>, limits: Limits, depth: nat,
                                       held: Budget,
                                       x: Result<ValueType, ReadError>, ahead: seq<byte>, budget: Budget)
    requires n > 0 && Agrees(ReadType(here, strings, limits, depth, held), x, ahead, budget)
    ensures x.Ok? ==>
              ReadTypeList(n, here, strings, limits, depth, held) ==
              Before([x.value], ReadTypeList(n - 1, ahead, strings, limits, depth, budget))
    ensures x.Err? ==> ReadTypeList(n, here, strings, limits, depth, held) == Err(x.error)
  {
  }

  lemma {:induction false} FieldsUnfold(n: nat, here: seq<byte>, strings: seq<Text>, limits: Limits, depth: nat,
                                        held: Budget,
                                        x: Result<RecordField, ReadError>, ahead: seq<byte>, budget: Budget)
    requires n > 0 && Agrees(ReadField(here, strings, limits, depth, held), x, ahead, budget)
    ensures x.Ok? ==>
              ReadFieldList(n, here, strings, limits, depth, held) ==
              Before([x.value], ReadFieldList(n - 1, ahead, strings, limits, depth, budget))
    ensures x.Err? ==> ReadFieldList(n, here, strings, limits, depth, held) == Err(x.error)
  {
  }

  /** A reader at an encoded type returns it and stands right behind it. */
  method ReadBack(table: map<Text, u32>, strings: seq<Text>, limits: Limits, t: ValueType, rest: seq<byte>,
                  after: Budget)
    returns (r: Result<ValueType, ReadError>, ahead: seq<byte>, left: Budget)
    requires SameStrings(table, strings) && Encodable(Wire(table), t) && WithinLimits(limits, 0, t)
    ensures r == Ok(t) && ahead == rest && left == after
  {
    var reader := new Reader(Encode(Wire(table), t) + rest, limits, Plus(Cost(limits, t), after));
    ReadsType(table, strings, limits, 0, t, rest, after);
    r := reader.Value(strings, 0);
    ahead, left := reader.bytes[reader.offset..], reader.budget;
  }
}
