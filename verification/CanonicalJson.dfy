/** Canonical JSON: objects with keys in byte order, no blanks, and only the
    escapes a string needs. */
module CanonicalJson {
  import opened ValueTypes
  import opened TextOrder
  import opened TypeCodec

  /** A number is the text it is displayed as, and whether it is a float. */
  datatype Json =
    | Null
    | Bool(value: bool)
    | Number(text: Text, float: bool)
    | String(text: Text)
    | Array(items: seq<Json>)
    | Object(entries: seq<Entry>)

  datatype Entry = Entry(key: Text, value: Json)

  const QUOTE: byte := 0x22
  const BACKSLASH: byte := 0x5c
  const COMMA: byte := 0x2c
  const COLON: byte := 0x3a
  const NULL_TEXT: Text := [0x6e, 0x75, 0x6c, 0x6c]
  const TRUE_TEXT: Text := [0x74, 0x72, 0x75, 0x65]
  const FALSE_TEXT: Text := [0x66, 0x61, 0x6c, 0x73, 0x65]
  const OPEN_LIST: byte := 0x5b
  const CLOSE_LIST: byte := 0x5d
  const OPEN_OBJECT: byte := 0x7b
  const CLOSE_OBJECT: byte := 0x7d

  // ----- size -----

  function Size(v: Json): (n: nat)
    ensures n > 0
    decreases v
  {
    match v
    case Array(items) => 1 + ItemsSize(items)
    case Object(entries) => 1 + EntriesSize(entries)
    case _ => 1
  }

  function ItemsSize(items: seq<Json>): nat
    decreases items
  {
    if items == [] then 0 else Size(items[0]) + ItemsSize(items[1..])
  }

  function EntriesSize(entries: seq<Entry>): nat
    decreases entries
  {
    if entries == [] then 0 else Size(entries[0].value) + EntriesSize(entries[1..])
  }

  // ----- key order -----

  function Insert(sorted: seq<Entry>, e: Entry): (r: seq<Entry>)
    ensures |r| == |sorted| + 1 && EntriesSize(r) == EntriesSize(sorted) + Size(e.value)
  {
    if sorted == [] || TextLess(e.key, sorted[0].key) then
      assert ([e] + sorted)[1..] == sorted;
      [e] + sorted
    else
      var more := Insert(sorted[1..], e);
      assert ([sorted[0]] + more)[1..] == more;
      [sorted[0]] + more
  }

  function Sort(entries: seq<Entry>): (r: seq<Entry>)
    ensures |r| == |entries| && EntriesSize(r) == EntriesSize(entries)
  {
    if entries == [] then [] else Insert(Sort(entries[1..]), entries[0])
  }

  ghost predicate Sorted(entries: seq<Entry>) {
    forall i, j | 0 <= i < j < |entries| :: !TextLess(entries[j].key, entries[i].key)
  }

  ghost predicate DistinctKeys(entries: seq<Entry>) {
    forall i, j | 0 <= i < j < |entries| :: entries[i].key != entries[j].key
  }

  lemma {:induction false} InsertKeeps(sorted: seq<Entry>, e: Entry)
    ensures multiset(Insert(sorted, e)) == multiset(sorted) + multiset{e}
    decreases |sorted|
  {
    if !(sorted == [] || TextLess(e.key, sorted[0].key)) {
      InsertKeeps(sorted[1..], e);
      assert sorted == [sorted[0]] + sorted[1..];
    }
  }

  /** No key of the sequence is less than the bound. */
  ghost predicate NoneBelow(bound: Text, entries: seq<Entry>) {
    forall x | x in entries :: !TextLess(x.key, bound)
  }

  lemma {:induction false} SortedCons(e: Entry, sorted: seq<Entry>)
    ensures Sorted([e] + sorted) <==> Sorted(sorted) && NoneBelow(e.key, sorted)
  {
    var r := [e] + sorted;
    if Sorted(r) {
      forall i, j | 0 <= i < j < |sorted| ensures !TextLess(sorted[j].key, sorted[i].key) {
        assert r[i + 1] == sorted[i] && r[j + 1] == sorted[j];
      }
      forall x | x in sorted ensures !TextLess(x.key, e.key) {
        var k :| 0 <= k < |sorted| && sorted[k] == x;
        assert r[0] == e && r[k + 1] == x;
      }
    }
    if Sorted(sorted) && NoneBelow(e.key, sorted) {
      forall i, j | 0 <= i < j < |r| ensures !TextLess(r[j].key, r[i].key) {
        if i == 0 { assert r[j] in sorted; } else { assert r[i] == sorted[i - 1] && r[j] == sorted[j - 1]; }
      }
    }
  }

  lemma {:induction false} NotBelow(a: Text, b: Text, c: Text)
    requires TextLess(a, b) && !TextLess(c, b)
    ensures !TextLess(c, a)
  {
    if TextLess(c, a) { TextTransitive(c, a, b); }
  }

  lemma {:induction false} InsertSorted(sorted: seq<Entry>, e: Entry)
    requires Sorted(sorted)
    ensures Sorted(Insert(sorted, e))
    decreases |sorted|
  {
    if sorted == [] {
    } else if TextLess(e.key, sorted[0].key) {
      TextTotal(e.key, sorted[0].key);
      assert sorted == [sorted[0]] + sorted[1..];
      SortedCons(sorted[0], sorted[1..]);
      forall x | x in sorted ensures !TextLess(x.key, e.key) {
        if x != sorted[0] {
          assert x in sorted[1..];
          NotBelow(e.key, sorted[0].key, x.key);
        }
      }
      SortedCons(e, sorted);
    } else {
      assert sorted == [sorted[0]] + sorted[1..];
      SortedCons(sorted[0], sorted[1..]);
      InsertSorted(sorted[1..], e);
      var more := Insert(sorted[1..], e);
      InsertKeeps(sorted[1..], e);
      forall x | x in more ensures !TextLess(x.key, sorted[0].key) {
        assert x in multiset(more);
      }
      SortedCons(sorted[0], more);
    }
  }

  lemma {:induction false} SortSorts(entries: seq<Entry>)
    ensures Sorted(Sort(entries)) && multiset(Sort(entries)) == multiset(entries)
    decreases |entries|
  {
    if entries != [] {
      SortSorts(entries[1..]);
      InsertSorted(Sort(entries[1..]), entries[0]);
      InsertKeeps(Sort(entries[1..]), entries[0]);
      assert entries == [entries[0]] + entries[1..];
    }
  }

  // ----- strings -----

  function HexDigit(x: nat): byte
    requires x < 16
  {
    if x < 10 then 0x30 + x else 0x61 + x - 10
  }

  function Escape(b: byte): (r: seq<byte>)
    ensures r != []
  {
    if b == QUOTE then [BACKSLASH, QUOTE]
    else if b == BACKSLASH then [BACKSLASH, BACKSLASH]
    else if b < 0x20 then [BACKSLASH, 0x75, 0x30, 0x30, HexDigit(b / 16), HexDigit(b % 16)]
    else [b]
  }

  function EscapeAll(s: Text): seq<byte> {
    if s == [] then [] else Escape(s[0]) + EscapeAll(s[1..])
  }

  function PrintString(s: Text): seq<byte> {
    [QUOTE] + (EscapeAll(s) + [QUOTE])
  }

  // ----- values -----

  predicate EndsDotZero(text: Text) {
    |text| >= 2 && text[|text| - 2] == 0x2e && text[|text| - 1] == 0x30
  }

  /** An integral float other than negative zero loses its fraction. */
  function Token(text: Text, float: bool): Text {
    if float && EndsDotZero(text) && text != [0x2d, 0x30, 0x2e, 0x30] then text[..|text| - 2] else text
  }

  function Print(v: Json): seq<byte>
    decreases Size(v), 0
  {
    match v
    case Null => NULL_TEXT
    case Bool(b) => if b then TRUE_TEXT else FALSE_TEXT
    case Number(text, float) => Token(text, float)
    case String(text) => PrintString(text)
    case Array(items) => [OPEN_LIST] + (PrintItems(items) + [CLOSE_LIST])
    case Object(entries) => [OPEN_OBJECT] + (PrintEntries(Sort(entries)) + [CLOSE_OBJECT])
  }

  function PrintItems(items: seq<Json>): seq<byte>
    decreases ItemsSize(items), 1
  {
    if items == [] then [] else Print(items[0]) + MoreItems(items[1..])
  }

  /** The items behind the first, each with its comma. */
  function MoreItems(items: seq<Json>): seq<byte>
    decreases ItemsSize(items), 2
  {
    if items == [] then [] else [COMMA] + (Print(items[0]) + MoreItems(items[1..]))
  }

  function PrintEntry(e: Entry): seq<byte>
    decreases Size(e.value), 1
  {
    PrintString(e.key) + ([COLON] + Print(e.value))
  }

  function PrintEntries(entries: seq<Entry>): seq<byte>
    decreases EntriesSize(entries), 2
  {
    if entries == [] then [] else PrintEntry(entries[0]) + MoreEntries(entries[1..])
  }

  function MoreEntries(entries: seq<Entry>): seq<byte>
    decreases EntriesSize(entries), 2
  {
    if entries == [] then [] else [COMMA] + (PrintEntry(entries[0]) + MoreEntries(entries[1..]))
  }

  // ----- the writer -----

  class Output {
    var bytes: seq<byte>

    constructor ()
      ensures bytes == []
    {
      bytes := [];
    }

    method Extend(more: seq<byte>)
      modifies this
      ensures bytes == old(bytes) + more
    {
      bytes := bytes + more;
    }
  }

  method WriteString(s: Text, output: Output)
    modifies output
    ensures output.bytes == old(output.bytes) + PrintString(s)
  {
    output.Extend([QUOTE]);
    ghost var start := output.bytes;
    for i := 0 to |s|
      invariant Escaped(start, s, i, output.bytes)
    {
      var b := s[i];
      ghost var before := output.bytes;
      if b == QUOTE {
        output.Extend([BACKSLASH, QUOTE]);
      } else if b == BACKSLASH {
        output.Extend([BACKSLASH, BACKSLASH]);
      } else if b <= 0x1f {
        output.Extend([BACKSLASH, 0x75, 0x30, 0x30]);
        output.Extend([HexDigit(b / 16)]);
        output.Extend([HexDigit(b % 16)]);
      } else {
        output.Extend([b]);
      }
      assert output.bytes == before + Escape(b);
      EscapedNext(start, s, i, before);
    }
    EscapedAll(start, s, output.bytes);
    output.Extend([QUOTE]);
  }

  /** The first i bytes of a string are written. */
  ghost predicate Escaped(start: seq<byte>, s: Text, i: nat, bytes: seq<byte>)
    requires i <= |s|
  {
    bytes + EscapeAll(s[i..]) == start + EscapeAll(s)
  }

  lemma {:induction false} EscapedNext(start: seq<byte>, s: Text, i: nat, bytes: seq<byte>)
    requires i < |s| && Escaped(start, s, i, bytes)
    ensures Escaped(start, s, i + 1, bytes + Escape(s[i]))
  {
    assert s[i..][1..] == s[i + 1..];
    Assoc(bytes, Escape(s[i]), EscapeAll(s[i + 1..]));
  }

  lemma {:induction false} EscapedAll(start: seq<byte>, s: Text, bytes: seq<byte>)
    requires Escaped(start, s, |s|, bytes)
    ensures bytes == start + EscapeAll(s) && bytes + [QUOTE] == start + (EscapeAll(s) + [QUOTE])
  {
    assert bytes + [] == bytes;
    Assoc(start, EscapeAll(s), [QUOTE]);
  }

  method WriteValue(v: Json, output: Output)
    modifies output
    ensures output.bytes == old(output.bytes) + Print(v)
    decreases Size(v), 0
  {
    match v
    case Null => output.Extend(NULL_TEXT);
    case Bool(b) => output.Extend(if b then TRUE_TEXT else FALSE_TEXT);
    case Number(text, float) => output.Extend(Token(text, float));
    case String(text) => WriteString(text, output);
    case Array(items) =>
      ghost var start := output.bytes;
      output.Extend([OPEN_LIST]);
      WriteItems(items, output);
      output.Extend([CLOSE_LIST]);
      Bracketed(start, OPEN_LIST, PrintItems(items), CLOSE_LIST);
    case Object(entries) =>
      ghost var start := output.bytes;
      output.Extend([OPEN_OBJECT]);
      WriteEntries(Sort(entries), output);
      output.Extend([CLOSE_OBJECT]);
      Bracketed(start, OPEN_OBJECT, PrintEntries(Sort(entries)), CLOSE_OBJECT);
  }

  lemma {:induction false} Bracketed(start: seq<byte>, open: byte, inner: seq<byte>, close: byte)
    ensures ((start + [open]) + inner) + [close] == start + ([open] + (inner + [close]))
  {
  }

  /** What a loop standing at position i still has to print. */
  ghost function ItemsFrom(items: seq<Json>, i: nat): seq<byte>
    requires i <= |items|
  {
    if i == 0 then PrintItems(items) else MoreItems(items[i..])
  }

  ghost function EntriesFrom(entries: seq<Entry>, i: nat): seq<byte>
    requires i <= |entries|
  {
    if i == 0 then PrintEntries(entries) else MoreEntries(entries[i..])
  }

  lemma {:induction false} ItemPrinted(items: seq<Json>, i: nat, before: seq<byte>)
    requires i < |items|
    ensures before + ItemsFrom(items, i) == ((before + if i == 0 then [] else [COMMA]) + Print(items[i])) +
            ItemsFrom(items, i + 1)
  {
    var more := MoreItems(items[i + 1..]);
    assert items[i..][1..] == items[i + 1..] && (i == 0 ==> items[1..] == items[i + 1..]);
    if i == 0 {
      assert before + [] == before;
      Assoc(before, Print(items[0]), more);
    } else {
      Assoc(before, [COMMA], Print(items[i]) + more);
      Assoc(before + [COMMA], Print(items[i]), more);
    }
  }

  lemma {:induction false} EntryPrinted(entries: seq<Entry>, i: nat, before: seq<byte>)
    requires i < |entries|
    ensures before + EntriesFrom(entries, i) == ((before + if i == 0 then [] else [COMMA]) + PrintEntry(entries[i])) +
            EntriesFrom(entries, i + 1)
  {
    var more := MoreEntries(entries[i + 1..]);
    assert entries[i..][1..] == entries[i + 1..] && (i == 0 ==> entries[1..] == entries[i + 1..]);
    if i == 0 {
      assert before + [] == before;
      Assoc(before, PrintEntry(entries[0]), more);
    } else {
      Assoc(before, [COMMA], PrintEntry(entries[i]) + more);
      Assoc(before + [COMMA], PrintEntry(entries[i]), more);
    }
  }

  /** The first i items are written. */
  ghost predicate ItemsDone(start: seq<byte>, items: seq<Json>, i: nat, bytes: seq<byte>)
    requires i <= |items|
  {
    bytes + ItemsFrom(items, i) == start + PrintItems(items)
  }

  ghost predicate EntriesDone(start: seq<byte>, entries: seq<Entry>, i: nat, bytes: seq<byte>)
    requires i <= |entries|
  {
    bytes + EntriesFrom(entries, i) == start + PrintEntries(entries)
  }

  lemma {:induction false} ItemDone(start: seq<byte>, items: seq<Json>, i: nat, bytes: seq<byte>)
    requires i < |items| && ItemsDone(start, items, i, bytes)
    ensures ItemsDone(start, items, i + 1, (if i == 0 then bytes else bytes + [COMMA]) + Print(items[i]))
  {
    ItemPrinted(items, i, bytes);
    assert bytes + [] == bytes;
  }

  lemma {:induction false} EntryDone(start: seq<byte>, entries: seq<Entry>, i: nat, bytes: seq<byte>)
    requires i < |entries| && EntriesDone(start, entries, i, bytes)
    ensures EntriesDone(start, entries, i + 1, (if i == 0 then bytes else bytes + [COMMA]) + PrintEntry(entries[i]))
  {
    EntryPrinted(entries, i, bytes);
    assert bytes + [] == bytes;
  }

  lemma {:induction false} AllItemsDone(start: seq<byte>, items: seq<Json>, bytes: seq<byte>)
    requires ItemsDone(start, items, |items|, bytes)
    ensures bytes == start + PrintItems(items)
  {
    assert bytes + [] == bytes;
  }

  lemma {:induction false} AllEntriesDone(start: seq<byte>, entries: seq<Entry>, bytes: seq<byte>)
    requires EntriesDone(start, entries, |entries|, bytes)
    ensures bytes == start + PrintEntries(entries)
  {
    assert bytes + [] == bytes;
  }

  lemma {:induction false} ItemSize(items: seq<Json>, i: nat)
    requires i < |items|
    ensures Size(items[i]) <= ItemsSize(items)
    decreases i
  {
    if i > 0 { ItemSize(items[1..], i - 1); }
  }

  lemma {:induction false} EntrySize(entries: seq<Entry>, i: nat)
    requires i < |entries|
    ensures Size(entries[i].value) <= EntriesSize(entries)
    decreases i
  {
    if i > 0 { EntrySize(entries[1..], i - 1); }
  }

  method WriteItems(items: seq<Json>, output: Output)
    modifies output
    ensures output.bytes == old(output.bytes) + PrintItems(items)
    decreases ItemsSize(items), 2
  {
    for i := 0 to |items|
      invariant ItemsDone(old(output.bytes), items, i, output.bytes)
    {
      ItemDone(old(output.bytes), items, i, output.bytes);
      ItemSize(items, i);
      if i != 0 { output.Extend([COMMA]); }
      WriteValue(items[i], output);
    }
    AllItemsDone(old(output.bytes), items, output.bytes);
  }

  method WriteEntry(e: Entry, output: Output)
    modifies output
    ensures output.bytes == old(output.bytes) + PrintEntry(e)
    decreases Size(e.value), 1
  {
    ghost var start := output.bytes;
    WriteString(e.key, output);
    output.Extend([COLON]);
    WriteValue(e.value, output);
    Assoc(start, PrintString(e.key), [COLON]);
    Assoc(start, PrintString(e.key) + [COLON], Print(e.value));
    Assoc(PrintString(e.key), [COLON], Print(e.value));
  }

  method WriteEntries(entries: seq<Entry>, output: Output)
    modifies output
    ensures output.bytes == old(output.bytes) + PrintEntries(entries)
    decreases EntriesSize(entries), 2
  {
    for i := 0 to |entries|
      invariant EntriesDone(old(output.bytes), entries, i, output.bytes)
    {
      EntryDone(old(output.bytes), entries, i, output.bytes);
      EntrySize(entries, i);
      if i != 0 { output.Extend([COMMA]); }
      WriteEntry(entries[i], output);
    }
    AllEntriesDone(old(output.bytes), entries, output.bytes);
  }

  method CanonicalText(v: Json) returns (text: seq<byte>)
    ensures text == Print(v)
  {
    var output := new Output();
    WriteValue(v, output);
    text := output.bytes;
  }
}
