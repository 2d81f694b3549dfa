/** The text hashed for a tool contract table. It is built by hand and has to be
    the canonical JSON of the table. */
module ToolContracts {
  import opened ValueTypes
  import opened TextOrder
  import opened CanonicalJson
  import opened JsonParser

  datatype ToolContract = ToolContract(
    name: Text, effect: Text, version: Text, versionRequirement: Text,
    inputDigest: seq<byte>, outputDigest: seq<byte>, errorDigest: seq<byte>)

  // ----- the corresponding object -----

  const TOOLS: Text := [0x74, 0x6f, 0x6f, 0x6c, 0x73]
  const EFFECT: Text := [0x65, 0x66, 0x66, 0x65, 0x63, 0x74]
  const ERROR_SCHEMA: Text := [0x65, 0x72, 0x72, 0x6f, 0x72] + SCHEMA
  const INPUT_SCHEMA: Text := [0x69, 0x6e, 0x70, 0x75, 0x74] + SCHEMA
  const NAME: Text := [0x6e, 0x61, 0x6d, 0x65]
  const OUTPUT_SCHEMA: Text := [0x6f, 0x75, 0x74, 0x70, 0x75, 0x74] + SCHEMA
  const VERSION: Text := [0x76, 0x65, 0x72, 0x73, 0x69, 0x6f, 0x6e]
  const VERSION_REQUIREMENT: Text := VERSION + [0x5f, 0x72, 0x65, 0x71, 0x75, 0x69, 0x72, 0x65, 0x6d, 0x65, 0x6e, 0x74]
  const SCHEMA: Text := [0x5f, 0x73, 0x63, 0x68, 0x65, 0x6d, 0x61]
  const DIGEST_PREFIX: Text := [0x73, 0x68, 0x61, 0x32, 0x35, 0x36, 0x3a]

  function LowerHex(bytes: seq<byte>): Text {
    if bytes == [] then [] else [HexDigit(bytes[0] / 16), HexDigit(bytes[0] % 16)] + LowerHex(bytes[1..])
  }

  function DigestText(digest: seq<byte>): Text {
    DIGEST_PREFIX + LowerHex(digest)
  }

  function ToolEntries(tool: ToolContract): seq<Entry> {
    [Entry(EFFECT, String(tool.effect)),
     Entry(ERROR_SCHEMA, String(DigestText(tool.errorDigest))),
     Entry(INPUT_SCHEMA, String(DigestText(tool.inputDigest))),
     Entry(NAME, String(tool.name)),
     Entry(OUTPUT_SCHEMA, String(DigestText(tool.outputDigest))),
     Entry(VERSION, String(tool.version)),
     Entry(VERSION_REQUIREMENT, String(tool.versionRequirement))]
  }

  /** The table as an object; entries may be listed in any order. */
  ghost predicate IsToolObject(tool: ToolContract, v: Json) {
    v.Object? && multiset(v.entries) == multiset(ToolEntries(tool))
  }

  ghost predicate IsToolTable(tools: seq<ToolContract>, v: Json) {
    && v.Object? && |v.entries| == 1 && v.entries[0].key == TOOLS && v.entries[0].value.Array?
    && |v.entries[0].value.items| == |tools|
    && forall i | 0 <= i < |tools| :: IsToolObject(tools[i], v.entries[0].value.items[i])
  }

  // ----- the key order -----

  /** A key with a common front and then a smaller byte, or an end, comes first. */
  lemma {:induction false} LessBehind(front: Text, a: Text, b: Text)
    requires b != [] && (a == [] || a[0] < b[0])
    ensures TextLess(front + a, front + b)
    decreases |front|
  {
    if front == [] {
      assert front + a == a && front + b == b;
    } else {
      LessBehind(front[1..], a, b);
      assert (front + a)[1..] == front[1..] + a && (front + b)[1..] == front[1..] + b;
    }
  }

  lemma {:induction false} KeysInOrder()
    ensures SortedTexts([EFFECT, ERROR_SCHEMA, INPUT_SCHEMA, NAME, OUTPUT_SCHEMA, VERSION, VERSION_REQUIREMENT])
  {
    assert TextLess(EFFECT, ERROR_SCHEMA) by {
      LessBehind([0x65], EFFECT[1..], ERROR_SCHEMA[1..]);
      assert [0x65] + EFFECT[1..] == EFFECT && [0x65] + ERROR_SCHEMA[1..] == ERROR_SCHEMA;
    }
    assert TextLess(VERSION, VERSION_REQUIREMENT) by {
      LessBehind(VERSION, [], VERSION_REQUIREMENT[7..]);
      assert VERSION + [] == VERSION && VERSION + VERSION_REQUIREMENT[7..] == VERSION_REQUIREMENT;
    }
  }

  lemma {:induction false} ToolOrder(tool: ToolContract)
    ensures Sorted(ToolEntries(tool)) && DistinctKeys(ToolEntries(tool))
  {
    KeysInOrder();
    var keys, entries := [EFFECT, ERROR_SCHEMA, INPUT_SCHEMA, NAME, OUTPUT_SCHEMA, VERSION, VERSION_REQUIREMENT],
        ToolEntries(tool);
    assert forall i | 0 <= i < 7 :: entries[i].key == keys[i];
    forall i, j | 0 <= i < j < 7 ensures !TextLess(entries[j].key, entries[i].key) && entries[i].key != entries[j].key {
      SortedTextPairs(keys, i, j);
      TextTotal(keys[i], keys[j]);
      TextIrreflexive(keys[i]);
    }
  }

  // ----- the text, built by hand -----

  /** Four lower-case hexadecimal digits. */
  function Hex4(x: nat): seq<byte>
    requires x < 0x1_0000
  {
    [HexDigit(x / 0x1000), HexDigit(x / 0x100 % 16), HexDigit(x / 0x10 % 16), HexDigit(x % 16)]
  }

  /** The second string writer, with its own table of escapes. */
  method PushJsonString(output: Output, value: Text)
    modifies output
    ensures output.bytes == old(output.bytes) + PrintString(value)
  {
    output.Extend([QUOTE]);
    ghost var start := output.bytes;
    for i := 0 to |value|
      invariant Escaped(start, value, i, output.bytes)
    {
      var escaped := EscapeCharacter(value[i]);
      EscapedNext(start, value, i, output.bytes);
      output.Extend(escaped);
    }
    EscapedAll(start, value, output.bytes);
    output.Extend([QUOTE]);
  }

  method EscapeCharacter(b: byte) returns (r: seq<byte>)
    ensures r == Escape(b)
  {
    match b
    case 0x22 => r := [BACKSLASH, QUOTE];
    case 0x5c => r := [BACKSLASH, BACKSLASH];
    case 0x08 => r := [BACKSLASH, 0x75, 0x30, 0x30, 0x30, 0x38];
    case 0x0c => r := [BACKSLASH, 0x75, 0x30, 0x30, 0x30, 0x63];
    case 0x0a => r := [BACKSLASH, 0x75, 0x30, 0x30, 0x30, 0x61];
    case 0x0d => r := [BACKSLASH, 0x75, 0x30, 0x30, 0x30, 0x64];
    case 0x09 => r := [BACKSLASH, 0x75, 0x30, 0x30, 0x30, 0x39];
    case _ => r := if b <= 0x1f then [BACKSLASH, 0x75] + Hex4(b) else [b];
  }

  /** Text that needs no escapes. */
  predicate Plain(s: Text) {
    forall i | 0 <= i < |s| :: s[i] >= 0x20 && s[i] != QUOTE && s[i] != BACKSLASH
  }

  lemma {:induction false} PlainIsUnescaped(s: Text)
    requires Plain(s)
    ensures EscapeAll(s) == s
    decreases |s|
  {
    if s != [] {
      PlainIsUnescaped(s[1..]);
      assert s == [s[0]] + s[1..];
    }
  }

  /** One field of a tool: a fixed text with the quoted key, then the value. */
  method PushField(output: Output, separator: byte, key: Text, value: Text)
    requires Plain(key)
    modifies output
    ensures output.bytes == (old(output.bytes) + [separator]) + PrintEntry(Entry(key, String(value)))
  {
    ghost var start := output.bytes;
    output.Extend([separator, QUOTE] + key + [QUOTE, COLON]);
    PushJsonString(output, value);
    PlainIsUnescaped(key);
    FieldLayout(start, separator, key, PrintString(value));
  }

  lemma {:induction false} FieldLayout(start: seq<byte>, separator: byte, key: Text, value: seq<byte>)
    ensures (start + ([separator, QUOTE] + key + [QUOTE, COLON])) + value ==
            (start + [separator]) + (([QUOTE] + (key + [QUOTE])) + ([COLON] + value))
  {
  }

  /** The tool's object is printed up to its k-th entry. */
  ghost predicate Written(start: seq<byte>, tool: ToolContract, k: nat, bytes: seq<byte>)
    requires k <= 7
  {
    EntriesDone(start + [OPEN_OBJECT], ToolEntries(tool), k, bytes)
  }

  lemma {:induction false} FieldWritten(start: seq<byte>, tool: ToolContract, k: nat, bytes: seq<byte>)
    requires 1 <= k < 7 && Written(start, tool, k, bytes)
    ensures Written(start, tool, k + 1, (bytes + [COMMA]) + PrintEntry(ToolEntries(tool)[k]))
  {
    EntryDone(start + [OPEN_OBJECT], ToolEntries(tool), k, bytes);
  }

  method PushNext(output: Output, key: Text, value: Text, ghost start: seq<byte>, ghost tool: ToolContract,
                  ghost k: nat)
    requires Plain(key) && 1 <= k < 7 && ToolEntries(tool)[k] == Entry(key, String(value)) &&
             Written(start, tool, k, output.bytes)
    modifies output
    ensures Written(start, tool, k + 1, output.bytes)
  {
    FieldWritten(start, tool, k, output.bytes);
    PushField(output, COMMA, key, value);
  }

  lemma {:induction false} PlainKeys()
    ensures Plain(EFFECT) && Plain(ERROR_SCHEMA) && Plain(INPUT_SCHEMA) && Plain(NAME) && Plain(OUTPUT_SCHEMA)
    ensures Plain(VERSION) && Plain(VERSION_REQUIREMENT) && Plain(TOOLS)
  {
  }

  lemma {:induction false} FirstWritten(start: seq<byte>, tool: ToolContract)
    ensures Written(start, tool, 1, (start + [OPEN_OBJECT]) + PrintEntry(ToolEntries(tool)[0]))
  {
    EntryDone(start + [OPEN_OBJECT], ToolEntries(tool), 0, start + [OPEN_OBJECT]);
  }

  lemma {:induction false} AllWritten(start: seq<byte>, tool: ToolContract, bytes: seq<byte>)
    requires Written(start, tool, 7, bytes)
    ensures bytes + [CLOSE_OBJECT] == start + Print(Object(ToolEntries(tool)))
  {
    var entries := ToolEntries(tool);
    AllEntriesDone(start + [OPEN_OBJECT], entries, bytes);
    ToolOrder(tool);
    SortIsStable(entries);
    Bracketed(start, OPEN_OBJECT, PrintEntries(entries), CLOSE_OBJECT);
  }

  method PushTool(output: Output, tool: ToolContract)
    modifies output
    ensures output.bytes == old(output.bytes) + Print(Object(ToolEntries(tool)))
  {
    ghost var start := output.bytes;
    PlainKeys();
    FirstWritten(start, tool);
    PushField(output, OPEN_OBJECT, EFFECT, tool.effect);
    PushNext(output, ERROR_SCHEMA, DigestText(tool.errorDigest), start, tool, 1);
    PushNext(output, INPUT_SCHEMA, DigestText(tool.inputDigest), start, tool, 2);
    PushNext(output, NAME, tool.name, start, tool, 3);
    PushNext(output, OUTPUT_SCHEMA, DigestText(tool.outputDigest), start, tool, 4);
    PushNext(output, VERSION, tool.version, start, tool, 5);
    PushNext(output, VERSION_REQUIREMENT, tool.versionRequirement, start, tool, 6);
    AllWritten(start, tool, output.bytes);
    output.Extend([CLOSE_OBJECT]);
  }

  /** The tools as objects, entries in key order. */
  ghost function ToolObjects(tools: seq<ToolContract>): (r: seq<Json>)
    ensures |r| == |tools| && forall i | 0 <= i < |r| :: r[i] == Object(ToolEntries(tools[i]))
  {
    seq(|tools|, i requires 0 <= i < |tools| => Object(ToolEntries(tools[i])))
  }

  method PushTools(output: Output, tools: seq<ToolContract>)
    modifies output
    ensures output.bytes == old(output.bytes) + PrintItems(ToolObjects(tools))
  {
    ghost var items := ToolObjects(tools);
    for i := 0 to |tools|
      invariant ItemsDone(old(output.bytes), items, i, output.bytes)
    {
      ItemDone(old(output.bytes), items, i, output.bytes);
      if i != 0 { output.Extend([COMMA]); }
      PushTool(output, tools[i]);
    }
    AllItemsDone(old(output.bytes), items, output.bytes);
  }

  /** The hand-built text is the canonical JSON of the table, in whatever order the
      entries of its objects are listed. */
  method ToolTableText(tools: seq<ToolContract>) returns (text: seq<byte>)
    ensures forall v | IsToolTable(tools, v) :: text == Print(v)
  {
    var output := new Output();
    output.Extend([OPEN_OBJECT, QUOTE] + TOOLS + [QUOTE, COLON, OPEN_LIST]);
    PushTools(output, tools);
    output.Extend([CLOSE_LIST, CLOSE_OBJECT]);
    text := output.bytes;
    TableLayout(PrintItems(ToolObjects(tools)));
    forall v | IsToolTable(tools, v) ensures Print(v) == TableText(PrintItems(ToolObjects(tools))) {
      TablePrinted(tools, v);
    }
  }

  /** A table around the text of its items. */
  ghost function TableText(items: seq<byte>): seq<byte> {
    [OPEN_OBJECT] + (((PrintString(TOOLS) + ([COLON] + ([OPEN_LIST] + (items + [CLOSE_LIST])))) + []) + [CLOSE_OBJECT])
  }

  lemma {:induction false} TableLayout(items: seq<byte>)
    ensures (([] + ([OPEN_OBJECT, QUOTE] + TOOLS + [QUOTE, COLON, OPEN_LIST])) + items) + [CLOSE_LIST, CLOSE_OBJECT] ==
            TableText(items)
  {
    PlainKeys();
    PlainIsUnescaped(TOOLS);
    Brackets(TOOLS, items);
  }

  lemma {:induction false} Brackets(key: Text, items: seq<byte>)
    ensures (([] + ([OPEN_OBJECT, QUOTE] + key + [QUOTE, COLON, OPEN_LIST])) + items) + [CLOSE_LIST, CLOSE_OBJECT] ==
            [OPEN_OBJECT] + (((([QUOTE] + (key + [QUOTE])) + ([COLON] + ([OPEN_LIST] + (items + [CLOSE_LIST])))) + []) +
                             [CLOSE_OBJECT])
  {
  }

  lemma {:induction false} TablePrinted(tools: seq<ToolContract>, v: Json)
    requires IsToolTable(tools, v)
    ensures Print(v) == TableText(PrintItems(ToolObjects(tools)))
  {
    var items := v.entries[0].value.items;
    forall i | 0 <= i < |items| ensures Print(items[i]) == Print(ToolObjects(tools)[i]) {
      SameTool(tools[i], items[i]);
    }
    SameItems(items, ToolObjects(tools));
    OneListPrinted(v.entries[0].key, items, v);
  }

  lemma {:induction false} OneListPrinted(key: Text, items: seq<Json>, v: Json)
    requires v.Object? && v.entries == [Entry(key, Array(items))]
    ensures Print(v) == [OPEN_OBJECT] + (((PrintString(key) +
                                           ([COLON] + ([OPEN_LIST] + (PrintItems(items) + [CLOSE_LIST])))) + []) +
            [CLOSE_OBJECT])
  {
    OneEntry(v.entries);
  }

  /** An object with a single entry. */
  lemma {:induction false} OneEntry(entries: seq<Entry>)
    requires |entries| == 1
    ensures Sort(entries) == entries && PrintEntries(entries) == PrintEntry(entries[0]) + []
  {
    SortIsStable(entries);
    assert entries[1..] == [];
  }

  lemma {:induction false} SameTool(tool: ToolContract, v: Json)
    requires IsToolObject(tool, v)
    ensures Print(v) == Print(Object(ToolEntries(tool)))
  {
    ToolOrder(tool);
    PermutedDistinct(ToolEntries(tool), v.entries);
    KeyOrderIrrelevant(v.entries, ToolEntries(tool));
  }

  lemma {:induction false} SameItems(a: seq<Json>, b: seq<Json>)
    requires |a| == |b| && forall i | 0 <= i < |a| :: Print(a[i]) == Print(b[i])
    ensures PrintItems(a) == PrintItems(b) && MoreItems(a) == MoreItems(b)
    decreases |a|
  {
    if a != [] {
      forall i | 0 <= i < |a[1..]| ensures Print(a[1..][i]) == Print(b[1..][i]) {
        assert a[1..][i] == a[i + 1] && b[1..][i] == b[i + 1];
      }
      SameItems(a[1..], b[1..]);
    }
  }

  /** Permuting entries keeps their keys distinct. */
  lemma {:induction false} PermutedDistinct(a: seq<Entry>, b: seq<Entry>)
    requires DistinctKeys(a) && multiset(a) == multiset(b)
    ensures DistinctKeys(b)
  {
    forall i, j | 0 <= i < j < |b| ensures b[i].key != b[j].key {
      if b[i].key == b[j].key {
        assert b[i] in multiset(b) && b[j] in multiset(b);
        var k :| 0 <= k < |a| && a[k] == b[i];
        var l :| 0 <= l < |a| && a[l] == b[j];
        assert k == l;
        TwiceIn(b, i, j);
        OnceIn(a, k);
      }
    }
  }

  lemma {:induction false} TwiceIn(b: seq<Entry>, i: nat, j: nat)
    requires i < j < |b| && b[i] == b[j]
    ensures multiset(b)[b[i]] >= 2
  {
    assert b == (b[..i] + [b[i]] + b[i + 1..j]) + [b[j]] + b[j + 1..];
  }

  lemma {:induction false} OnceIn(a: seq<Entry>, k: nat)
    requires DistinctKeys(a) && k < |a|
    ensures multiset(a)[a[k]] == 1
  {
    assert a == a[..k] + [a[k]] + a[k + 1..];
    assert a[k] !in a[..k] && a[k] !in a[k + 1..];
  }
}
