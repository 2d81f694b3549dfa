/** A reader for compact JSON (RFC 8259 without blanks), and canonical JSON read
    back by it. Numbers are opaque tokens. */
module JsonParser {
  import opened Wrappers
  import opened ValueTypes
  import opened TextOrder
  import opened TypeCodec
  import opened CanonicalJson

  datatype Read<+T> = Read(value: T, rest: seq<byte>)

  // ----- strings: section 7 of RFC 8259 -----

  function HexValue(b: byte): (r: Option<nat>)
    ensures r.Some? ==> r.value < 16
  {
    if 0x30 <= b <= 0x39 then Some(b - 0x30)
    else if 0x61 <= b <= 0x66 then Some(b - 0x61 + 10)
    else if 0x41 <= b <= 0x46 then Some(b - 0x41 + 10)
    else None
  }

  /** The UTF-8 bytes of a code unit that is a code point by itself. */
  function Utf8(code: nat): Option<Text>
    requires code < 0x1_0000
  {
    if code < 0x80 then Some([code])
    else if code < 0x800 then Some([0xc0 + code / 0x40, 0x80 + code % 0x40])
    else if 0xd800 <= code <= 0xdfff then None
    else Some([0xe0 + code / 0x1000, 0x80 + code / 0x40 % 0x40, 0x80 + code % 0x40])
  }

  function ReadUnicode(input: seq<byte>): (r: Option<Read<Text>>)
    ensures r.Some? ==> |r.value.rest| < |input|
  {
    if |input| < 4 then None
    else
      var a, b, c, d := HexValue(input[0]), HexValue(input[1]), HexValue(input[2]), HexValue(input[3]);
      if a.None? || b.None? || c.None? || d.None? then None
      else
        var text := Utf8(((a.value * 16 + b.value) * 16 + c.value) * 16 + d.value);
        if text.None? then None else Some(Read(text.value, input[4..]))
  }

  /** What follows a backslash. */
  function ReadEscape(input: seq<byte>): (r: Option<Read<Text>>)
    ensures r.Some? ==> |r.value.rest| < |input|
  {
    if input == [] then None
    else
      var rest := input[1..];
      match input[0]
      case 0x22 => Some(Read([0x22], rest))
      case 0x5c => Some(Read([0x5c], rest))
      case 0x2f => Some(Read([0x2f], rest))
      case 0x62 => Some(Read([0x08], rest))
      case 0x66 => Some(Read([0x0c], rest))
      case 0x6e => Some(Read([0x0a], rest))
      case 0x72 => Some(Read([0x0d], rest))
      case 0x74 => Some(Read([0x09], rest))
      case 0x75 => ReadUnicode(rest)
      case _ => None
  }

  function After(text: Text, more: Option<Read<Text>>): (r: Option<Read<Text>>)
    ensures r.Some? ==> more.Some? && r.value.rest == more.value.rest
  {
    if more.None? then None else Some(Read(text + more.value.value, more.value.rest))
  }

  /** A string behind its opening quote, up to and with the closing one. */
  function ReadString(input: seq<byte>): (r: Option<Read<Text>>)
    ensures r.Some? ==> |r.value.rest| < |input|
    decreases |input|
  {
    if input == [] || input[0] < 0x20 then None
    else if input[0] == 0x22 then Some(Read([], input[1..]))
    else if input[0] == 0x5c then
      var e := ReadEscape(input[1..]);
      if e.None? then None else After(e.value.value, ReadString(e.value.rest))
    else After([input[0]], ReadString(input[1..]))
  }

  lemma {:induction false} ReadsByte(b: byte, more: seq<byte>)
    ensures ReadString(Escape(b) + more) == After([b], ReadString(more))
  {
    if b == QUOTE || b == BACKSLASH {
      var input := [BACKSLASH, b] + more;
      assert input[1..] == [b] + more && ([b] + more)[1..] == more;
    } else if b < 0x20 {
      var high, low := HexDigit(b / 16), HexDigit(b % 16);
      var input := [BACKSLASH, 0x75, 0x30, 0x30, high, low] + more;
      assert input[1..] == [0x75, 0x30, 0x30, high, low] + more;
      assert input[1..][1..] == [0x30, 0x30, high, low] + more;
      ReadsUnicode(b, more);
    } else {
      assert ([b] + more)[1..] == more;
    }
  }

  lemma {:induction false} ReadsUnicode(b: byte, more: seq<byte>)
    requires b < 0x20
    ensures ReadUnicode([0x30, 0x30, HexDigit(b / 16), HexDigit(b % 16)] + more) == Some(Read([b], more))
  {
    var input := [0x30, 0x30, HexDigit(b / 16), HexDigit(b % 16)] + more;
    assert input[4..] == more;
    assert HexValue(input[2]) == Some(b / 16) && HexValue(input[3]) == Some(b % 16);
  }

  lemma {:induction false} ReadsString(s: Text, rest: seq<byte>)
    ensures ReadString((EscapeAll(s) + [QUOTE]) + rest) == Some(Read(s, rest))
    decreases |s|
  {
    if s == [] {
      assert ([] + [QUOTE]) + rest == [QUOTE] + rest;
      assert ([QUOTE] + rest)[1..] == rest;
    } else {
      var head, tail := Escape(s[0]), EscapeAll(s[1..]);
      assert ((head + tail) + [QUOTE]) + rest == head + ((tail + [QUOTE]) + rest);
      ReadsByte(s[0], (tail + [QUOTE]) + rest);
      ReadsString(s[1..], rest);
      assert s == [s[0]] + s[1..];
    }
  }

  // ----- values -----

  predicate IsNumberByte(b: byte) {
    0x30 <= b <= 0x39 || b == 0x2d || b == 0x2b || b == 0x2e || b == 0x65 || b == 0x45
  }

  /** Length of the leading run of number bytes. */
  function Run(input: seq<byte>): (n: nat)
    ensures n <= |input|
  {
    if input == [] || !IsNumberByte(input[0]) then 0 else 1 + Run(input[1..])
  }

  function ReadWord(word: Text, value: Json, input: seq<byte>): (r: Option<Read<Json>>)
    requires word != []
    ensures r.Some? ==> |r.value.rest| < |input|
  {
    if |word| <= |input| && input[..|word|] == word then Some(Read(value, input[|word|..])) else None
  }

  function ReadValue(input: seq<byte>): (r: Option<Read<Json>>)
    ensures r.Some? ==> |r.value.rest| < |input|
    decreases |input|, 0
  {
    if input == [] then None
    else if input[0] == 0x22 then
      var s := ReadString(input[1..]);
      if s.None? then None else Some(Read(String(s.value.value), s.value.rest))
    else if input[0] == 0x5b then ReadArray(input[1..])
    else if input[0] == 0x7b then ReadObject(input[1..])
    else if IsNumberByte(input[0]) then Some(Read(Number(input[..Run(input)], false), input[Run(input)..]))
    else if input[0] == 0x6e then ReadWord([0x6e, 0x75, 0x6c, 0x6c], Null, input)
    else if input[0] == 0x74 then ReadWord([0x74, 0x72, 0x75, 0x65], Bool(true), input)
    else ReadWord([0x66, 0x61, 0x6c, 0x73, 0x65], Bool(false), input)
  }

  function ReadArray(input: seq<byte>): (r: Option<Read<Json>>)
    ensures r.Some? ==> |r.value.rest| < |input|
    decreases |input|, 2
  {
    if input != [] && input[0] == 0x5d then Some(Read(Array([]), input[1..]))
    else
      var items := ReadItems(input);
      if items.None? then None else Some(Read(Array(items.value.value), items.value.rest))
  }

  function ReadItems(input: seq<byte>): (r: Option<Read<seq<Json>>>)
    ensures r.Some? ==> |r.value.rest| < |input|
    decreases |input|, 1
  {
    var v := ReadValue(input);
    if v.None? || v.value.rest == [] then None
    else if v.value.rest[0] == 0x5d then Some(Read([v.value.value], v.value.rest[1..]))
    else if v.value.rest[0] != 0x2c then None
    else
      var more := ReadItems(v.value.rest[1..]);
      if more.None? then None else Some(Read([v.value.value] + more.value.value, more.value.rest))
  }

  function ReadObject(input: seq<byte>): (r: Option<Read<Json>>)
    ensures r.Some? ==> |r.value.rest| < |input|
    decreases |input|, 3
  {
    if input != [] && input[0] == 0x7d then Some(Read(Object([]), input[1..]))
    else
      var entries := ReadEntries(input);
      if entries.None? then None else Some(Read(Object(entries.value.value), entries.value.rest))
  }

  function ReadEntry(input: seq<byte>): (r: Option<Read<Entry>>)
    ensures r.Some? ==> |r.value.rest| < |input|
    decreases |input|, 1
  {
    if input == [] || input[0] != 0x22 then None
    else
      var key := ReadString(input[1..]);
      if key.None? || key.value.rest == [] || key.value.rest[0] != 0x3a then None
      else
        var v := ReadValue(key.value.rest[1..]);
        if v.None? then None else Some(Read(Entry(key.value.value, v.value.value), v.value.rest))
  }

  function ReadEntries(input: seq<byte>): (r: Option<Read<seq<Entry>>>)
    ensures r.Some? ==> |r.value.rest| < |input|
    decreases |input|, 2
  {
    var e := ReadEntry(input);
    if e.None? || e.value.rest == [] then None
    else if e.value.rest[0] == 0x7d then Some(Read([e.value.value], e.value.rest[1..]))
    else if e.value.rest[0] != 0x2c then None
    else
      var more := ReadEntries(e.value.rest[1..]);
      if more.None? then None else Some(Read([e.value.value] + more.value.value, more.value.rest))
  }

  // ----- what is read back -----

  /** Number tokens are non-empty and made of number bytes; keys are distinct. */
  ghost predicate WellFormed(v: Json)
    decreases Size(v), 0
  {
    match v
    case Number(text, float) => IsToken(Token(text, float))
    case Array(items) => ItemsWellFormed(items)
    case Object(entries) => DistinctKeys(entries) && EntriesWellFormed(Sort(entries))
    case _ => true
  }

  predicate IsToken(text: Text) {
    text != [] && forall i | 0 <= i < |text| :: IsNumberByte(text[i])
  }

  ghost predicate ItemsWellFormed(items: seq<Json>)
    decreases ItemsSize(items), 1
  {
    items == [] || (WellFormed(items[0]) && ItemsWellFormed(items[1..]))
  }

  ghost predicate EntriesWellFormed(entries: seq<Entry>)
    decreases EntriesSize(entries), 1
  {
    entries == [] || (WellFormed(entries[0].value) && EntriesWellFormed(entries[1..]))
  }

  /** The value with its entries in key order and its numbers as printed. */
  function Normal(v: Json): Json
    decreases Size(v), 0
  {
    match v
    case Number(text, float) => Number(Token(text, float), false)
    case Array(items) => Array(NormalItems(items))
    case Object(entries) => Object(NormalEntries(Sort(entries)))
    case _ => v
  }

  function NormalItems(items: seq<Json>): (r: seq<Json>)
    ensures |r| == |items|
    decreases ItemsSize(items), 1
  {
    if items == [] then [] else [Normal(items[0])] + NormalItems(items[1..])
  }

  function NormalEntries(entries: seq<Entry>): (r: seq<Entry>)
    ensures |r| == |entries|
    decreases EntriesSize(entries), 1
  {
    if entries == [] then [] else [Entry(entries[0].key, Normal(entries[0].value))] + NormalEntries(entries[1..])
  }

  predicate Delimited(rest: seq<byte>) {
    rest == [] || !IsNumberByte(rest[0])
  }

  // ----- reading printed values -----

  lemma {:induction false} RunsToken(token: Text, rest: seq<byte>)
    requires (forall i | 0 <= i < |token| :: IsNumberByte(token[i])) && Delimited(rest)
    ensures Run(token + rest) == |token|
    decreases |token|
  {
    if token == [] {
      assert token + rest == rest;
    } else {
      assert (token + rest)[1..] == token[1..] + rest;
      RunsToken(token[1..], rest);
    }
  }

  lemma {:induction false} ReadsToken(token: Text, rest: seq<byte>)
    requires IsToken(token) && Delimited(rest)
    ensures ReadValue(token + rest) == Some(Read(Number(token, false), rest))
  {
    RunsToken(token, rest);
    var input := token + rest;
    assert input[0] == token[0] && input[..|token|] == token && input[|token|..] == rest;
  }

  lemma {:induction false} ReadsWord(word: Text, value: Json, rest: seq<byte>)
    requires word != []
    ensures ReadWord(word, value, word + rest) == Some(Read(value, rest))
  {
    assert (word + rest)[..|word|] == word && (word + rest)[|word|..] == rest;
  }

  lemma {:induction false} ReadsQuoted(s: Text, rest: seq<byte>)
    ensures ReadValue(PrintString(s) + rest) == Some(Read(String(s), rest))
  {
    var body := EscapeAll(s) + [QUOTE];
    Assoc([QUOTE], body, rest);
    assert ([QUOTE] + (body + rest))[1..] == body + rest;
    ReadsString(s, rest);
  }

  /** No printed value starts like the end of a list or an object. */
  lemma {:induction false} FirstByte(v: Json)
    requires WellFormed(v)
    ensures Print(v) != [] && Print(v)[0] != CLOSE_LIST && Print(v)[0] != CLOSE_OBJECT
  {
  }

  /** A printed value reads back as its normal form, and the reader stops behind it. */
  lemma {:induction false} ReadsPrinted(v: Json, rest: seq<byte>)
    requires WellFormed(v) && Delimited(rest)
    ensures ReadValue(Print(v) + rest) == Some(Read(Normal(v), rest))
    decreases Size(v), 0
  {
    match v
    case Null => ReadsWord(NULL_TEXT, Null, rest);
    case Bool(b) => ReadsWord(if b then TRUE_TEXT else FALSE_TEXT, Bool(b), rest);
    case Number(text, float) => ReadsToken(Token(text, float), rest);
    case String(text) => ReadsQuoted(text, rest);
    case Array(items) => ReadsArray(items, PrintItems(items), rest);
    case Object(entries) => ReadsObject(Sort(entries), PrintEntries(Sort(entries)), rest);
  }

  lemma {:induction false} ReadsArray(items: seq<Json>, inner: seq<byte>, rest: seq<byte>)
    requires ItemsWellFormed(items) && inner == PrintItems(items)
    ensures ReadValue(([OPEN_LIST] + (inner + [CLOSE_LIST])) + rest) == Some(Read(Array(NormalItems(items)), rest))
    decreases ItemsSize(items), 3
  {
    if items != [] {
      FirstByte(items[0]);
      ReadsItems(items, inner, rest);
      assert inner[0] == Print(items[0])[0];
      ArrayStep(inner, rest, NormalItems(items));
    } else {
      EmptyArray(rest);
    }
  }

  lemma {:induction false} ArrayStep(inner: seq<byte>, rest: seq<byte>, items: seq<Json>)
    requires inner != [] && inner[0] != CLOSE_LIST &&
             ReadItems(inner + ([CLOSE_LIST] + rest)) == Some(Read(items, rest))
    ensures ReadValue(([OPEN_LIST] + (inner + [CLOSE_LIST])) + rest) == Some(Read(Array(items), rest))
  {
    var tail := inner + ([CLOSE_LIST] + rest);
    assert ([OPEN_LIST] + (inner + [CLOSE_LIST])) + rest == [OPEN_LIST] + tail;
    assert ([OPEN_LIST] + tail)[1..] == tail && tail[0] == inner[0];
  }

  lemma {:induction false} EmptyArray(rest: seq<byte>)
    ensures ReadValue(([OPEN_LIST] + ([] + [CLOSE_LIST])) + rest) == Some(Read(Array([]), rest))
  {
    var input := ([OPEN_LIST] + ([] + [CLOSE_LIST])) + rest;
    assert input[1..] == [CLOSE_LIST] + rest && ([CLOSE_LIST] + rest)[1..] == rest;
  }

  lemma {:induction false} ReadsItems(items: seq<Json>, inner: seq<byte>, rest: seq<byte>)
    requires items != [] && ItemsWellFormed(items) && inner == PrintItems(items)
    ensures ReadItems(inner + ([CLOSE_LIST] + rest)) == Some(Read(NormalItems(items), rest))
    decreases ItemsSize(items), 2
  {
    var head, more := Print(items[0]), MoreItems(items[1..]);
    Assoc(head, more, [CLOSE_LIST] + rest);
    if items[1..] == [] {
      assert more + ([CLOSE_LIST] + rest) == [CLOSE_LIST] + rest;
      ReadsPrinted(items[0], [CLOSE_LIST] + rest);
      LastItem(head, rest, Normal(items[0]));
      assert NormalItems(items) == [Normal(items[0])];
    } else {
      var others := PrintItems(items[1..]);
      assert more == [COMMA] + others;
      Assoc([COMMA], others, [CLOSE_LIST] + rest);
      ReadsPrinted(items[0], [COMMA] + (others + ([CLOSE_LIST] + rest)));
      ReadsItems(items[1..], others, rest);
      ItemStep(head, others + ([CLOSE_LIST] + rest), rest, Normal(items[0]), NormalItems(items[1..]));
    }
  }

  lemma {:induction false} LastItem(head: seq<byte>, rest: seq<byte>, v: Json)
    requires ReadValue(head + ([CLOSE_LIST] + rest)) == Some(Read(v, [CLOSE_LIST] + rest))
    ensures ReadItems(head + ([CLOSE_LIST] + rest)) == Some(Read([v], rest))
  {
    assert ([CLOSE_LIST] + rest)[1..] == rest;
  }

  lemma {:induction false} ItemStep(head: seq<byte>, tail: seq<byte>, rest: seq<byte>, v: Json, more: seq<Json>)
    requires ReadValue(head + ([COMMA] + tail)) == Some(Read(v, [COMMA] + tail)) &&
             ReadItems(tail) == Some(Read(more, rest))
    ensures ReadItems(head + ([COMMA] + tail)) == Some(Read([v] + more, rest))
  {
    assert ([COMMA] + tail)[1..] == tail;
  }

  lemma {:induction false} ReadsObject(entries: seq<Entry>, inner: seq<byte>, rest: seq<byte>)
    requires EntriesWellFormed(entries) && inner == PrintEntries(entries)
    ensures ReadValue(([OPEN_OBJECT] + (inner + [CLOSE_OBJECT])) + rest) ==
            Some(Read(Object(NormalEntries(entries)), rest))
    decreases EntriesSize(entries), 3
  {
    if entries != [] {
      ReadsEntries(entries, inner, rest);
      assert inner[0] == QUOTE;
      ObjectStep(inner, rest, NormalEntries(entries));
    } else {
      EmptyObject(rest);
    }
  }

  lemma {:induction false} ObjectStep(inner: seq<byte>, rest: seq<byte>, entries: seq<Entry>)
    requires inner != [] && inner[0] == QUOTE && ReadEntries(inner + ([CLOSE_OBJECT] + rest)) ==
             Some(Read(entries, rest))
    ensures ReadValue(([OPEN_OBJECT] + (inner + [CLOSE_OBJECT])) + rest) == Some(Read(Object(entries), rest))
  {
    var tail := inner + ([CLOSE_OBJECT] + rest);
    assert ([OPEN_OBJECT] + (inner + [CLOSE_OBJECT])) + rest == [OPEN_OBJECT] + tail;
    assert ([OPEN_OBJECT] + tail)[1..] == tail && tail[0] == inner[0];
  }

  lemma {:induction false} EmptyObject(rest: seq<byte>)
    ensures ReadValue(([OPEN_OBJECT] + ([] + [CLOSE_OBJECT])) + rest) == Some(Read(Object([]), rest))
  {
    var input := ([OPEN_OBJECT] + ([] + [CLOSE_OBJECT])) + rest;
    assert input[1..] == [CLOSE_OBJECT] + rest && ([CLOSE_OBJECT] + rest)[1..] == rest;
  }

  lemma {:induction false} ReadsEntries(entries: seq<Entry>, inner: seq<byte>, rest: seq<byte>)
    requires entries != [] && EntriesWellFormed(entries) && inner == PrintEntries(entries)
    ensures ReadEntries(inner + ([CLOSE_OBJECT] + rest)) == Some(Read(NormalEntries(entries), rest))
    decreases EntriesSize(entries), 2
  {
    var head, more := PrintEntry(entries[0]), MoreEntries(entries[1..]);
    var first := Entry(entries[0].key, Normal(entries[0].value));
    Assoc(head, more, [CLOSE_OBJECT] + rest);
    if entries[1..] == [] {
      assert more + ([CLOSE_OBJECT] + rest) == [CLOSE_OBJECT] + rest;
      ReadsEntry(entries[0], [CLOSE_OBJECT] + rest);
      LastEntry(head, rest, first);
      assert NormalEntries(entries) == [first];
    } else {
      var others := PrintEntries(entries[1..]);
      assert more == [COMMA] + others;
      Assoc([COMMA], others, [CLOSE_OBJECT] + rest);
      ReadsEntry(entries[0], [COMMA] + (others + ([CLOSE_OBJECT] + rest)));
      ReadsEntries(entries[1..], others, rest);
      EntriesStep(head, others + ([CLOSE_OBJECT] + rest), rest, first, NormalEntries(entries[1..]));
    }
  }

  lemma {:induction false} LastEntry(head: seq<byte>, rest: seq<byte>, e: Entry)
    requires ReadEntry(head + ([CLOSE_OBJECT] + rest)) == Some(Read(e, [CLOSE_OBJECT] + rest))
    ensures ReadEntries(head + ([CLOSE_OBJECT] + rest)) == Some(Read([e], rest))
  {
    assert ([CLOSE_OBJECT] + rest)[1..] == rest;
  }

  lemma {:induction false} EntriesStep(head: seq<byte>, tail: seq<byte>, rest: seq<byte>, e: Entry, more: seq<Entry>)
    requires ReadEntry(head + ([COMMA] + tail)) == Some(Read(e, [COMMA] + tail)) &&
             ReadEntries(tail) == Some(Read(more, rest))
    ensures ReadEntries(head + ([COMMA] + tail)) == Some(Read([e] + more, rest))
  {
    assert ([COMMA] + tail)[1..] == tail;
  }

  lemma {:induction false} ReadsEntry(e: Entry, rest: seq<byte>)
    requires WellFormed(e.value) && Delimited(rest)
    ensures ReadEntry(PrintEntry(e) + rest) == Some(Read(Entry(e.key, Normal(e.value)), rest))
    decreases Size(e.value), 1
  {
    ReadsPrinted(e.value, rest);
    EntryStep(e.key, Print(e.value), Normal(e.value), rest);
  }

  lemma {:induction false} EntryStep(key: Text, printed: seq<byte>, v: Json, rest: seq<byte>)
    requires ReadValue(printed + rest) == Some(Read(v, rest))
    ensures ReadEntry((PrintString(key) + ([COLON] + printed)) + rest) == Some(Read(Entry(key, v), rest))
  {
    var body, tail := EscapeAll(key) + [QUOTE], [COLON] + (printed + rest);
    assert (([QUOTE] + body) + ([COLON] + printed)) + rest == [QUOTE] + (body + tail);
    assert ([QUOTE] + (body + tail))[1..] == body + tail && tail[1..] == printed + rest;
    ReadsString(key, tail);
  }

  // ----- the laws of canonical JSON -----

  /** Canonical JSON is invertible up to key order and number display. */
  lemma {:induction false} ReadsNormal(v: Json)
    requires WellFormed(v)
    ensures ReadValue(Print(v)) == Some(Read(Normal(v), []))
  {
    ReadsPrinted(v, []);
    assert Print(v) + [] == Print(v);
  }

  /** Sorted entries with distinct keys stay as they are. */
  lemma {:induction false} SortIsStable(entries: seq<Entry>)
    requires Sorted(entries) && DistinctKeys(entries)
    ensures Sort(entries) == entries
    decreases |entries|
  {
    if |entries| > 1 {
      var more := entries[1..];
      forall i, j | 0 <= i < j < |more| ensures !TextLess(more[j].key, more[i].key) && more[i].key != more[j].key {
        assert more[i] == entries[i + 1] && more[j] == entries[j + 1];
      }
      SortIsStable(more);
      TextTotal(entries[0].key, entries[1].key);
      assert entries == [entries[0]] + more;
    }
  }

  ghost predicate SameKeys(a: seq<Entry>, b: seq<Entry>) {
    |a| == |b| && forall i | 0 <= i < |a| :: a[i].key == b[i].key
  }

  lemma {:induction false} NormalKeepsKeys(entries: seq<Entry>)
    ensures SameKeys(NormalEntries(entries), entries)
    decreases |entries|
  {
    if entries != [] {
      NormalKeepsKeys(entries[1..]);
      var r := NormalEntries(entries);
      forall i | 0 <= i < |r| ensures r[i].key == entries[i].key {
        if i > 0 { assert r[i] == NormalEntries(entries[1..])[i - 1] && entries[i] == entries[1..][i - 1]; }
      }
    }
  }

  lemma {:induction false} SortKeepsDistinct(entries: seq<Entry>)
    requires DistinctKeys(entries)
    ensures DistinctKeys(Sort(entries))
    decreases |entries|
  {
    if entries != [] {
      var more := entries[1..];
      forall i, j | 0 <= i < j < |more| ensures more[i].key != more[j].key {
        assert more[i] == entries[i + 1] && more[j] == entries[j + 1];
      }
      SortKeepsDistinct(more);
      SortSorts(more);
      forall x | x in Sort(more) ensures x.key != entries[0].key {
        assert x in multiset(more);
        var k :| 0 <= k < |more| && more[k] == x;
        assert entries[k + 1] == x;
      }
      InsertDistinct(Sort(more), entries[0]);
    }
  }

  lemma {:induction false} InsertDistinct(sorted: seq<Entry>, e: Entry)
    requires DistinctKeys(sorted) && forall x | x in sorted :: x.key != e.key
    ensures DistinctKeys(Insert(sorted, e))
    decreases |sorted|
  {
    var r := Insert(sorted, e);
    if sorted == [] || TextLess(e.key, sorted[0].key) {
      DistinctCons(e, sorted);
    } else {
      var more := sorted[1..];
      assert sorted == [sorted[0]] + more;
      DistinctCons(sorted[0], more);
      InsertDistinct(more, e);
      InsertKeeps(more, e);
      forall x | x in Insert(more, e) ensures x.key != sorted[0].key {
        assert x in multiset(Insert(more, e));
      }
      DistinctCons(sorted[0], Insert(more, e));
    }
  }

  lemma {:induction false} DistinctCons(e: Entry, entries: seq<Entry>)
    ensures DistinctKeys([e] + entries) <==> DistinctKeys(entries) && forall x | x in entries :: x.key != e.key
  {
    var r := [e] + entries;
    if DistinctKeys(r) {
      forall i, j | 0 <= i < j < |entries| ensures entries[i].key != entries[j].key {
        assert r[i + 1] == entries[i] && r[j + 1] == entries[j];
      }
      forall x | x in entries ensures x.key != e.key {
        var k :| 0 <= k < |entries| && entries[k] == x;
        assert r[0] == e && r[k + 1] == x;
      }
    }
    if DistinctKeys(entries) && forall x | x in entries :: x.key != e.key {
      forall i, j | 0 <= i < j < |r| ensures r[i].key != r[j].key {
        if i == 0 { assert r[j] in entries; } else { assert r[i] == entries[i - 1] && r[j] == entries[j - 1]; }
      }
    }
  }

  /** Normalizing does not change the canonical text. */
  lemma {:induction false} PrintNormal(v: Json)
    requires WellFormed(v)
    ensures Print(Normal(v)) == Print(v)
    decreases Size(v), 0
  {
    match v
    case Array(items) => PrintNormalItems(items);
    case Object(entries) =>
      var sorted := Sort(entries);
      SortSorts(entries);
      SortKeepsDistinct(entries);
      NormalKeepsKeys(sorted);
      var normal := NormalEntries(sorted);
      assert Sorted(normal) && DistinctKeys(normal);
      SortIsStable(normal);
      PrintNormalEntries(sorted);
    case _ =>
  }

  lemma {:induction false} PrintNormalItems(items: seq<Json>)
    requires ItemsWellFormed(items)
    ensures PrintItems(NormalItems(items)) == PrintItems(items) && MoreItems(NormalItems(items)) == MoreItems(items)
    decreases ItemsSize(items), 1
  {
    if items != [] {
      PrintNormal(items[0]);
      PrintNormalItems(items[1..]);
      assert NormalItems(items)[1..] == NormalItems(items[1..]);
    }
  }

  lemma {:induction false} PrintNormalEntries(entries: seq<Entry>)
    requires EntriesWellFormed(entries)
    ensures PrintEntries(NormalEntries(entries)) == PrintEntries(entries) &&
            MoreEntries(NormalEntries(entries)) == MoreEntries(entries)
    decreases EntriesSize(entries), 1
  {
    if entries != [] {
      PrintNormal(entries[0].value);
      PrintNormalEntries(entries[1..]);
      assert NormalEntries(entries)[1..] == NormalEntries(entries[1..]);
      assert PrintEntry(NormalEntries(entries)[0]) == PrintEntry(entries[0]);
    }
  }

  /** Two values share their canonical text exactly when they are the same up to key
      order and number display. */
  lemma {:induction false} SameNormal(v: Json, w: Json)
    requires WellFormed(v) && WellFormed(w)
    ensures Print(v) == Print(w) <==> Normal(v) == Normal(w)
  {
    ReadsNormal(v);
    ReadsNormal(w);
    PrintNormal(v);
    PrintNormal(w);
  }

  /** The order in which an object lists its entries does not matter. */
  lemma {:induction false} KeyOrderIrrelevant(a: seq<Entry>, b: seq<Entry>)
    requires DistinctKeys(a) && multiset(a) == multiset(b) && DistinctKeys(b)
    ensures Print(Object(a)) == Print(Object(b)) && Normal(Object(a)) == Normal(Object(b))
  {
    SortSorts(a);
    SortSorts(b);
    SortKeepsDistinct(a);
    SortKeepsDistinct(b);
    SortedIsUnique(Sort(a), Sort(b));
  }

  lemma {:induction false} SortedIsUnique(a: seq<Entry>, b: seq<Entry>)
    requires Sorted(a) && Sorted(b) && DistinctKeys(a) && DistinctKeys(b) && multiset(a) == multiset(b)
    ensures a == b
    decreases |a|
  {
    assert |a| == |multiset(a)| && |b| == |multiset(b)|;
    if a != [] {
      LeastFirst(a, b);
      assert a == [a[0]] + a[1..] && b == [b[0]] + b[1..];
      SortedCons(a[0], a[1..]);
      SortedCons(b[0], b[1..]);
      DistinctCons(a[0], a[1..]);
      DistinctCons(b[0], b[1..]);
      assert multiset(a[1..]) == multiset(a) - multiset{a[0]} && multiset(b[1..]) == multiset(b) - multiset{b[0]};
      SortedIsUnique(a[1..], b[1..]);
    }
  }

  lemma {:induction false} LeastFirst(a: seq<Entry>, b: seq<Entry>)
    requires Sorted(a) && Sorted(b) && DistinctKeys(a) && multiset(a) == multiset(b) && a != [] && b != []
    ensures a[0] == b[0]
  {
    assert a[0] in multiset(a) && b[0] in multiset(b);
    var i :| 0 <= i < |b| && b[i] == a[0];
    var j :| 0 <= j < |a| && a[j] == b[0];
    TextTotal(a[0].key, b[0].key);
    assert !TextLess(a[0].key, b[0].key) by { TextIrreflexive(b[0].key); }
    assert !TextLess(b[0].key, a[0].key) by { TextIrreflexive(a[0].key); }
  }
}
