/** Package templates: deriving the markers of a content text, and checking a
    marker table against it. */
module Templates {
  import opened Wrappers
  import opened ValueTypes
  import opened TextOrder
  import opened TemplateDigest

  datatype TemplateMarker = TemplateMarker(start: nat, end: nat, hole: nat)

  datatype TemplateError =
    | NestedMarker | UnmatchedOpen | UnmatchedClose | NotAnIdentifier | UndeclaredHole | UnusedHole | MarkerLimit

  datatype CheckError =
    | BadIdentity | ContentLimit | BadHoles | BadDigest | Malformed(error: TemplateError) | MarkersDiffer | BadMarkers

  const OPEN: byte := 0x7b
  const CLOSE: byte := 0x7d
  const U32_MAX := 0xFFFF_FFFF
  const MAX_CONTENT := 1_048_576

  // ----- identifiers -----

  predicate IsLower(b: byte) { 0x61 <= b <= 0x7a }
  predicate IsDigit(b: byte) { 0x30 <= b <= 0x39 }

  predicate IsIdentifier(name: Text) {
    name != [] && (IsLower(name[0]) || name[0] == 0x5f) &&
    forall i | 1 <= i < |name| :: IsLower(name[i]) || IsDigit(name[i]) || name[i] == 0x5f
  }

  ghost predicate Within(b: byte, first: char, last: char) {
    first as int <= b <= last as int
  }

  /** The names of the template grammar: lower-case letters, digits and underscores,
      not beginning with a digit. */
  ghost predicate HoleName(name: Text) {
    && name != [] && !Within(name[0], '0', '9')
    && forall b | b in name :: Within(b, 'a', 'z') || Within(b, '0', '9') || Within(b, '_', '_')
  }

  lemma {:induction false} IdentifierIff(name: Text)
    ensures IsIdentifier(name) <==> HoleName(name)
  {
    if HoleName(name) {
      assert name[0] in name;
      forall i | 1 <= i < |name| ensures IsLower(name[i]) || IsDigit(name[i]) || name[i] == 0x5f {
        assert name[i] in name;
      }
    }
  }

  function Names(holes: seq<TemplateHole>): (r: seq<Text>)
    ensures |r| == |holes| && forall i | 0 <= i < |r| :: r[i] == holes[i].name
  {
    seq(|holes|, i requires 0 <= i < |holes| => holes[i].name)
  }

  // ----- the content grammar -----

  /** A doubled brace starts here. */
  predicate PairAt(content: Text, k: nat) {
    k + 1 < |content| && content[k] == content[k + 1] && (content[k] == OPEN || content[k] == CLOSE)
  }

  /** Text without a doubled brace. */
  ghost predicate Literal(gap: Text) {
    && (forall front: Text, back: Text :: gap != front + [0x7b, 0x7b] + back)
    && (forall front: Text, back: Text :: gap != front + [0x7d, 0x7d] + back)
  }

  lemma {:induction false} LiteralIff(gap: Text)
    ensures Literal(gap) <==> forall k: nat :: !PairAt(gap, k)
  {
    if k: nat :| PairAt(gap, k) {
      assert gap == gap[..k] + [gap[k], gap[k]] + gap[k + 2..];
    }
    if front: Text, back: Text :| gap == front + [0x7b, 0x7b] + back {
      assert PairAt(gap, |front|);
    }
    if front: Text, back: Text :| gap == front + [0x7d, 0x7d] + back {
      assert PairAt(gap, |front|);
    }
  }

  function Rendered(name: Text): Text {
    [OPEN, OPEN] + name + [CLOSE, CLOSE]
  }

  /** The marker's range holds exactly its hole's marker text. */
  ghost predicate IsMarker(content: Text, holes: seq<TemplateHole>, m: TemplateMarker) {
    && m.start < m.end <= |content| && m.end < 0x1_0000_0000 && m.hole < |holes| && m.hole < 0x1_0000_0000
    && content[m.start..m.end] == [0x7b, 0x7b] + holes[m.hole].name + [0x7d, 0x7d] && HoleName(holes[m.hole].name)
  }

  /** From a position on, the content is literal gaps and the given whole markers,
      in turn; no gap before a marker ends in an open brace. */
  ghost predicate Splits(content: Text, holes: seq<TemplateHole>, from: nat, markers: seq<TemplateMarker>)
    requires from <= |content|
    decreases |markers|
  {
    if markers == [] then Literal(content[from..])
    else
      var m := markers[0];
      && from <= m.start && IsMarker(content, holes, m)
      && Literal(content[from..m.start]) && (from < m.start ==> content[m.start - 1] != 0x7b)
      && Splits(content, holes, m.end, markers[1..])
  }

  ghost predicate Used(markers: seq<TemplateMarker>, h: nat) {
    exists i | 0 <= i < |markers| :: markers[i].hole == h
  }

  ghost predicate Covers(holes: seq<TemplateHole>, markers: seq<TemplateMarker>) {
    forall h | 0 <= h < |holes| :: Used(markers, h)
  }

  // ----- scanning -----

  ghost predicate NoPairs(content: Text, from: nat, to: int) {
    forall k: nat | from <= k < to :: !PairAt(content, k)
  }

  /** The first doubled brace at or behind a position. */
  function NextPair(content: Text, from: nat): (r: Option<nat>)
    ensures r.Some? ==> from <= r.value && PairAt(content, r.value) && NoPairs(content, from, r.value)
    ensures r.None? ==> NoPairs(content, from, |content|)
    decreases |content| - from
  {
    if from + 1 >= |content| then None
    else if PairAt(content, from) then Some(from)
    else NextPair(content, from + 1)
  }

  function FindHole(holes: seq<TemplateHole>, name: Text): (r: Option<nat>)
    ensures r.Some? ==> r.value < |holes| && holes[r.value].name == name
    ensures r.None? ==> forall i | 0 <= i < |holes| :: holes[i].name != name
  {
    if holes == [] then None
    else if holes[0].name == name then Some(0)
    else
      var r := FindHole(holes[1..], name);
      if r.None? then None else Some(r.value + 1)
  }

  /** The marker that opens at a position. */
  function MarkerAt(content: Text, holes: seq<TemplateHole>, start: nat): (r: Result<TemplateMarker, TemplateError>)
    requires PairAt(content, start)
    ensures r.Ok? ==> start < r.value.end <= |content|
  {
    var close := NextPair(content, start + 2);
    if close.None? then Err(UnmatchedOpen)
    else if content[close.value] == OPEN then Err(NestedMarker)
    else
      var name := content[start + 2..close.value];
      if !IsIdentifier(name) then Err(NotAnIdentifier)
      else
        var hole := FindHole(holes, name);
        if hole.None? then Err(UndeclaredHole)
        else if close.value + 2 > U32_MAX || hole.value > U32_MAX then Err(MarkerLimit)
        else Ok(TemplateMarker(start, close.value + 2, hole.value))
  }

  function Scan(content: Text, holes: seq<TemplateHole>, cursor: nat): Result<seq<TemplateMarker>, TemplateError>
    decreases |content| - cursor
  {
    if cursor + 1 >= |content| then Ok([])
    else if !PairAt(content, cursor) then Scan(content, holes, cursor + 1)
    else if content[cursor] == CLOSE then Err(UnmatchedClose)
    else
      var m := MarkerAt(content, holes, cursor);
      if m.Err? then Err(m.error)
      else
        var more := Scan(content, holes, m.value.end);
        if more.Err? then more else Ok([m.value] + more.value)
  }

  // ----- scanning decides the grammar -----

  lemma {:induction false} LiteralGap(content: Text, from: nat, to: nat)
    requires from <= to <= |content|
    ensures Literal(content[from..to]) <==> NoPairs(content, from, to - 1)
  {
    var gap := content[from..to];
    LiteralIff(gap);
    if Literal(gap) {
      forall k: nat | from <= k < to - 1 ensures !PairAt(content, k) {
        assert !PairAt(gap, k - from);
      }
    }
    if NoPairs(content, from, to - 1) {
      forall k: nat ensures !PairAt(gap, k) {
        assert from + k < to - 1 ==> !PairAt(content, from + k);
      }
    }
  }

  lemma {:induction false} LiteralTail(content: Text, from: nat)
    requires from <= |content|
    ensures Literal(content[from..]) <==> NoPairs(content, from, |content|)
  {
    LiteralGap(content, from, |content|);
    assert content[from..] == content[from..|content|];
  }

  /** The bytes of a marker: braces, the name, braces. */
  lemma {:induction false} MarkerBytes(content: Text, holes: seq<TemplateHole>, m: TemplateMarker)
    requires IsMarker(content, holes, m)
    ensures var name := holes[m.hole].name;
            && m.end == m.start + |name| + 4 && PairAt(content, m.start) && content[m.start] == OPEN
            && content[m.start + 2..m.end - 2] == name
            && PairAt(content, m.end - 2) && content[m.end - 2] == CLOSE
            && NoPairs(content, m.start + 2, m.end - 2)
  {
    var name, text := holes[m.hole].name, content[m.start..m.end];
    assert |text| == |name| + 4 && text[0] == OPEN && text[1] == OPEN && text[|name| + 2] == CLOSE &&
           text[|name| + 3] == CLOSE;
    NameBytes(content, m.start, m.end, name);
    IdentifierIff(name);
    NameHasNoPairs(content, m.start + 2, name);
  }

  lemma {:induction false} NameBytes(content: Text, start: nat, end: nat, name: Text)
    requires start <= end <= |content| && content[start..end] == Rendered(name)
    ensures end == start + |name| + 4 && content[start + 2..end - 2] == name
  {
    var text := content[start..end];
    assert |text| == |name| + 4;
    forall k | 0 <= k < |name| ensures content[start + 2 + k] == name[k] {
      assert text[k + 2] == content[start + (k + 2)];
    }
  }

  lemma {:induction false} NameHasNoPairs(content: Text, from: nat, name: Text)
    requires from + |name| <= |content| && content[from..from + |name|] == name && IsIdentifier(name)
    ensures NoPairs(content, from, from + |name|)
  {
    forall k: nat | from <= k < from + |name| ensures !PairAt(content, k) {
      assert content[k] == name[k - from];
    }
  }

  lemma {:induction false} FirstPair(content: Text, from: nat, k: nat)
    requires from <= k && PairAt(content, k) && NoPairs(content, from, k)
    ensures NextPair(content, from) == Some(k)
  {
    var r := NextPair(content, from);
    assert r.Some? && r.value <= k;
  }

  ghost predicate DistinctNames(holes: seq<TemplateHole>) {
    forall i, j | 0 <= i < j < |holes| :: holes[i].name != holes[j].name
  }

  /** A whole marker of the grammar is the one the scanner finds. */
  lemma {:induction false} FindsMarker(content: Text, holes: seq<TemplateHole>, m: TemplateMarker)
    requires DistinctNames(holes) && IsMarker(content, holes, m)
    ensures PairAt(content, m.start) && content[m.start] == OPEN && MarkerAt(content, holes, m.start) == Ok(m)
  {
    MarkerBytes(content, holes, m);
    IdentifierIff(holes[m.hole].name);
    FirstPair(content, m.start + 2, m.end - 2);
    var found := FindHole(holes, holes[m.hole].name);
    assert found.Some? && found.value == m.hole;
  }

  /** What the scanner finds is a whole marker. */
  lemma {:induction false} FoundIsMarker(content: Text, holes: seq<TemplateHole>, start: nat)
    requires PairAt(content, start) && content[start] == OPEN && MarkerAt(content, holes, start).Ok?
    ensures IsMarker(content, holes, MarkerAt(content, holes, start).value)
  {
    var m := MarkerAt(content, holes, start).value;
    var name := content[start + 2..m.end - 2];
    IdentifierIff(name);
    assert content[start..m.end] == Rendered(name);
  }

  /** Behind a pair-free stretch, the grammar's next marker is at the next pair. */
  lemma {:induction false} NextMarker(content: Text, holes: seq<TemplateHole>, from: nat, cursor: nat,
                                      markers: seq<TemplateMarker>)
    requires from <= cursor < |content| && NoPairs(content, from, cursor) && PairAt(content, cursor) &&
             Splits(content, holes, from, markers)
    ensures markers != [] && markers[0].start == cursor
  {
    if markers == [] {
      LiteralTail(content, from);
    } else {
      var m := markers[0];
      MarkerBytes(content, holes, m);
      LiteralGap(content, from, m.start);
    }
  }

  lemma {:induction false} ScanComplete(content: Text, holes: seq<TemplateHole>, from: nat, cursor: nat,
                                        markers: seq<TemplateMarker>)
    requires DistinctNames(holes) && from <= cursor <= |content| && NoPairs(content, from, cursor) &&
             Splits(content, holes, from, markers)
    ensures Scan(content, holes, cursor) == Ok(markers)
    decreases |content| - cursor
  {
    if cursor + 1 >= |content| {
      if markers != [] {
        MarkerBytes(content, holes, markers[0]);
      }
    } else if !PairAt(content, cursor) {
      ScanComplete(content, holes, from, cursor + 1, markers);
    } else {
      NextMarker(content, holes, from, cursor, markers);
      var m := markers[0];
      FindsMarker(content, holes, m);
      ScanComplete(content, holes, m.end, m.end, markers[1..]);
      assert markers == [m] + markers[1..];
    }
  }

  lemma {:induction false} ScanSound(content: Text, holes: seq<TemplateHole>, from: nat, cursor: nat)
    requires from <= cursor <= |content| && NoPairs(content, from, cursor) && Scan(content, holes, cursor).Ok?
    ensures Splits(content, holes, from, Scan(content, holes, cursor).value)
    decreases |content| - cursor
  {
    if cursor + 1 >= |content| {
      LiteralTail(content, from);
    } else if !PairAt(content, cursor) {
      ScanSound(content, holes, from, cursor + 1);
    } else {
      var m := MarkerAt(content, holes, cursor).value;
      FoundIsMarker(content, holes, cursor);
      ScanSound(content, holes, m.end, m.end);
      var more := Scan(content, holes, m.end).value;
      assert ([m] + more)[1..] == more;
      LiteralGap(content, from, cursor);
      if from < cursor {
        assert !PairAt(content, cursor - 1);
      }
    }
  }

  /** A content splits in at most one way. */
  lemma {:induction false} SplitIsUnique(content: Text, holes: seq<TemplateHole>, a: seq<TemplateMarker>,
                                         b: seq<TemplateMarker>)
    requires DistinctNames(holes) && Splits(content, holes, 0, a) && Splits(content, holes, 0, b)
    ensures a == b
  {
    ScanComplete(content, holes, 0, 0, a);
    ScanComplete(content, holes, 0, 0, b);
  }

  // ----- the cursor -----

  lemma {:induction false} AscendingNames(holes: seq<TemplateHole>)
    requires SortedTexts(Names(holes))
    ensures DistinctNames(holes)
  {
    forall i, j | 0 <= i < j < |holes| ensures holes[i].name != holes[j].name {
      SortedTextPairs(Names(holes), i, j);
      TextIrreflexive(holes[i].name);
    }
  }

  method SearchHole(holes: seq<TemplateHole>, name: Text) returns (r: Option<nat>)
    requires SortedTexts(Names(holes))
    ensures r == FindHole(holes, name)
  {
    r := Search(Names(holes), name);
    assert forall i | 0 <= i < |holes| :: Names(holes)[i] == holes[i].name;
  }

  /** The end of the hole that opens before `from`. */
  method CloseHole(content: Text, from: nat) returns (r: Result<nat, TemplateError>)
    ensures r == if NextPair(content, from).None? then Err(UnmatchedOpen)
                 else if content[NextPair(content, from).value] == OPEN then Err(NestedMarker)
                 else Ok(NextPair(content, from).value)
  {
    var cursor := from;
    while cursor + 1 < |content|
      invariant NextPair(content, cursor) == NextPair(content, from)
      decreases |content| - cursor
    {
      if content[cursor] == CLOSE && content[cursor + 1] == CLOSE {
        return Ok(cursor);
      }
      if content[cursor] == OPEN && content[cursor + 1] == OPEN {
        return Err(NestedMarker);
      }
      cursor := cursor + 1;
    }
    return Err(UnmatchedOpen);
  }

  method ReadMarker(content: Text, holes: seq<TemplateHole>, start: nat)
    returns (r: Result<TemplateMarker, TemplateError>)
    requires SortedTexts(Names(holes)) && PairAt(content, start)
    ensures r == MarkerAt(content, holes, start)
  {
    var close := CloseHole(content, start + 2);
    if close.Err? { return Err(close.error); }
    var name := content[start + 2..close.value];
    if !IsIdentifier(name) { return Err(NotAnIdentifier); }
    var hole := SearchHole(holes, name);
    if hole.None? { return Err(UndeclaredHole); }
    if close.value + 2 > U32_MAX || hole.value > U32_MAX { return Err(MarkerLimit); }
    r := Ok(TemplateMarker(start, close.value + 2, hole.value));
  }

  /** Markers found so far, put before the markers of a later scan. */
  ghost function Before(done: seq<TemplateMarker>,
                        later: Result<seq<TemplateMarker>, TemplateError>): Result<seq<TemplateMarker>, TemplateError> {
    if later.Err? then later else Ok(done + later.value)
  }

  lemma {:induction false} BeforeOne(done: seq<TemplateMarker>, m: TemplateMarker,
                                     later: Result<seq<TemplateMarker>, TemplateError>)
    ensures Before(done, Before([m], later)) == Before(done + [m], later)
  {
    if later.Ok? { assert done + ([m] + later.value) == (done + [m]) + later.value; }
  }

  method ScanMarkers(content: Text, holes: seq<TemplateHole>) returns (r: Result<seq<TemplateMarker>, TemplateError>)
    requires SortedTexts(Names(holes))
    ensures r == Scan(content, holes, 0)
  {
    var markers: seq<TemplateMarker>, cursor := [], 0;
    ghost var whole := Scan(content, holes, 0);
    assert whole.Ok? ==> [] + whole.value == whole.value;
    while cursor + 1 < |content|
      invariant whole == Before(markers, Scan(content, holes, cursor))
      decreases |content| - cursor
    {
      if content[cursor] == OPEN && content[cursor + 1] == OPEN {
        var m := ReadMarker(content, holes, cursor);
        if m.Err? { return Err(m.error); }
        BeforeOne(markers, m.value, Scan(content, holes, m.value.end));
        markers := markers + [m.value];
        cursor := m.value.end;
      } else if content[cursor] == CLOSE && content[cursor + 1] == CLOSE {
        return Err(UnmatchedClose);
      } else {
        cursor := cursor + 1;
      }
    }
    assert markers + [] == markers;
    r := Ok(markers);
  }

  /** Which holes the markers use. */
  method AllUsed(holes: seq<TemplateHole>, markers: seq<TemplateMarker>) returns (ok: bool)
    requires forall i | 0 <= i < |markers| :: markers[i].hole < |holes|
    ensures ok <==> Covers(holes, markers)
  {
    var used := new bool[|holes|](_ => false);
    for i := 0 to |markers|
      invariant forall h | 0 <= h < |holes| :: used[h] <==> Used(markers[..i], h)
    {
      used[markers[i].hole] := true;
      UsedSnoc(markers, i);
    }
    assert markers[..|markers|] == markers;
    ok := true;
    for h := 0 to |holes|
      invariant ok <==> forall k | 0 <= k < h :: Used(markers, k)
    {
      ok := ok && used[h];
    }
  }

  lemma {:induction false} UsedSnoc(markers: seq<TemplateMarker>, i: nat)
    requires i < |markers|
    ensures forall h: nat :: Used(markers[..i + 1], h) <==> Used(markers[..i], h) || markers[i].hole == h
  {
    forall h: nat ensures Used(markers[..i + 1], h) <==> Used(markers[..i], h) || markers[i].hole == h {
      if Used(markers[..i], h) {
        var k :| 0 <= k < i && markers[..i][k].hole == h;
        assert markers[..i + 1][k].hole == h;
      }
      if markers[i].hole == h { assert markers[..i + 1][i].hole == h; }
      if Used(markers[..i + 1], h) && markers[i].hole != h {
        var k :| 0 <= k < i + 1 && markers[..i + 1][k].hole == h;
        assert markers[..i][k].hole == h;
      }
    }
  }

  /** Succeeds exactly on the contents that split into literal gaps and whole
      markers covering every hole, and returns that split. */
  method DeriveMarkers(content: Text, holes: seq<TemplateHole>) returns (r: Result<seq<TemplateMarker>, TemplateError>)
    requires SortedTexts(Names(holes))
    ensures r.Ok? ==> Splits(content, holes, 0, r.value) && Covers(holes, r.value)
    ensures r.Err? ==> forall markers | Splits(content, holes, 0, markers) :: !Covers(holes, markers)
  {
    AscendingNames(holes);
    var found := ScanMarkers(content, holes);
    forall markers | Splits(content, holes, 0, markers) ensures found == Ok(markers) {
      ScanComplete(content, holes, 0, 0, markers);
    }
    if found.Err? { return found; }
    ScanSound(content, holes, 0, 0);
    SplitIsWhole(content, holes, 0, found.value);
    WholeInRange(content, holes, 0, found.value);
    var used := AllUsed(holes, found.value);
    if !used { return Err(UnusedHole); }
    r := found;
  }

  // ----- the later checks -----

  /** Ordered whole markers: what the loader checks of a marker table. */
  ghost predicate Whole(content: Text, holes: seq<TemplateHole>, from: nat, markers: seq<TemplateMarker>)
    decreases |markers|
  {
    markers == [] ||
    (var m := markers[0];
     && m.hole < |holes| && from <= m.start < m.end <= |content| &&
        content[m.start..m.end] == [0x7b, 0x7b] + holes[m.hole].name + [0x7d, 0x7d]
     && Whole(content, holes, m.end, markers[1..]))
  }

  lemma {:induction false} SplitIsWhole(content: Text, holes: seq<TemplateHole>, from: nat,
                                        markers: seq<TemplateMarker>)
    requires from <= |content| && Splits(content, holes, from, markers)
    ensures Whole(content, holes, from, markers)
    decreases |markers|
  {
    if markers != [] {
      SplitIsWhole(content, holes, markers[0].end, markers[1..]);
    }
  }

  lemma {:induction false} WholeInRange(content: Text, holes: seq<TemplateHole>, from: nat,
                                        markers: seq<TemplateMarker>)
    requires Whole(content, holes, from, markers)
    ensures forall i | 0 <= i < |markers| :: markers[i].hole < |holes|
    decreases |markers|
  {
    if markers != [] {
      WholeInRange(content, holes, markers[0].end, markers[1..]);
      forall i | 0 <= i < |markers| ensures markers[i].hole < |holes| {
        if i > 0 { assert markers[i] == markers[1..][i - 1]; }
      }
    }
  }

  method CheckMarkers(content: Text, holes: seq<TemplateHole>, markers: seq<TemplateMarker>) returns (ok: bool)
    ensures ok <==> Whole(content, holes, 0, markers) && Covers(holes, markers)
  {
    var previousEnd := 0;
    for i := 0 to |markers|
      invariant Whole(content, holes, 0, markers) <==> Whole(content, holes, previousEnd, markers[i..])
    {
      var m := markers[i];
      assert markers[i..][1..] == markers[i + 1..];
      if m.hole >= |holes| { return false; }
      if m.start < previousEnd || m.start >= m.end || m.end > |content| ||
          content[m.start..m.end] != Rendered(holes[m.hole].name) { return false; }
      previousEnd := m.end;
    }
    WholeInRange(content, holes, 0, markers);
    ok := AllUsed(holes, markers);
  }

  /** What the loader demands of a template in front of its markers. */
  ghost predicate HeaderOk<D>(identity: Text, content: Text, holes: seq<TemplateHole>, wellFormed: Text -> bool,
                              digest: D, hash: seq<byte> -> D) {
    && wellFormed(identity) && |content| <= 1_048_576 && TextsAscend(Names(holes))
    && (forall h | h in holes :: HoleName(h.name) && h.valueType in {BoolType, IntType, FloatType, StringType}) &&
       digest == hash(Preimage(content, holes))
  }

  /** The whole check of one template. It accepts exactly the split of the content;
      the range and coverage checks never reject a derived table. */
  method ValidateTemplate<D(==)>(identity: Text, content: Text, holes: seq<TemplateHole>, markers: seq<TemplateMarker>,
                                 wellFormed: Text -> bool, digest: D, hash: seq<byte> -> D)
    returns (r: Result<(), CheckError>)
    ensures r.Ok? <==>
              HeaderOk(identity, content, holes, wellFormed, digest, hash) && Splits(content, holes, 0, markers) &&
              Covers(holes, markers)
    ensures r != Err(BadMarkers)
  {
    if !wellFormed(identity) {
      return Err(BadIdentity);
    }
    if |content| > MAX_CONTENT {
      return Err(ContentLimit);
    }
    forall h ensures IsIdentifier(h) <==> HoleName(h) {
      IdentifierIff(h);
    }
    SortedTextsIff(Names(holes));
    if !SortedTexts(Names(holes)) || !forall h | h in holes :: IsIdentifier(h.name) && ScalarHole(h.valueType) {
      return Err(BadHoles);
    }
    var preimage := BuildPreimage(content, holes);
    if digest != hash(preimage) {
      return Err(BadDigest);
    }
    var derived := DeriveMarkers(content, holes);
    if derived.Err? {
      return Err(Malformed(derived.error));
    }
    AscendingNames(holes);
    if derived.value != markers {
      if Splits(content, holes, 0, markers) { SplitIsUnique(content, holes, derived.value, markers); }
      return Err(MarkersDiffer);
    }
    SplitIsWhole(content, holes, 0, markers);
    var whole := CheckMarkers(content, holes, markers);
    if !whole {
      return Err(BadMarkers);
    }
    r := Ok(());
  }

  /** A collision-free digest identifies the template: two accepted templates with one
      digest have the same content, holes and markers. */
  lemma {:induction false} DigestIdentifies<D(!new)>(
    a: Text, content: Text, holes: seq<TemplateHole>, markers: seq<TemplateMarker>,
    b: Text, text: Text, others: seq<TemplateHole>, marks: seq<TemplateMarker>,
    wellFormed: Text -> bool, digest: D, hash: seq<byte> -> D)
    requires forall x, y | hash(x) == hash(y) :: x == y
    requires TemplateFits(content, holes) && TemplateFits(text, others)
    requires HeaderOk(a, content, holes, wellFormed, digest, hash) && Splits(content, holes, 0, markers)
    requires HeaderOk(b, text, others, wellFormed, digest, hash) && Splits(text, others, 0, marks)
    ensures content == text && holes == others && markers == marks
  {
    forall i | 0 <= i < |holes| ensures ScalarHole(holes[i].valueType) {
      assert holes[i] in holes;
    }
    forall i | 0 <= i < |others| ensures ScalarHole(others[i].valueType) {
      assert others[i] in others;
    }
    PreimageDecodes(content, holes, text, others);
    SortedTextsIff(Names(holes));
    AscendingNames(holes);
    SplitIsUnique(content, holes, markers, marks);
  }
}
