/** Canonical JSON as a normal form of documents: two values have one canonical text
    exactly when they are the same document, and reading the text gives that document. */
module JsonDocuments {
  import opened Wrappers
  import opened ValueTypes
  import opened CanonicalJson
  import opened JsonParser

  // ----- documents -----

  /** The text a number is displayed as: a float that ends in `.0` is displayed without
      it, except negative zero. */
  ghost predicate Shows(text: Text, float: bool, shown: Text) {
    if float && text != [0x2d, 0x30, 0x2e, 0x30] && exists whole: Text :: text == whole + [0x2e, 0x30]
    then text == shown + [0x2e, 0x30]
    else shown == text
  }

  /** Equal up to the order in which objects list their entries and up to number display. */
  ghost predicate SameDocument(v: Json, w: Json)
    decreases v
  {
    match (v, w)
    case (Number(s, f), Number(t, g)) => exists shown :: Shows(s, f, shown) && Shows(t, g, shown)
    case (Array(a), Array(b)) => |a| == |b| && forall i | 0 <= i < |a| :: SameDocument(a[i], b[i])
    case (Object(a), Object(b)) =>
      && (forall i | 0 <= i < |a| :: NamedIn(a[i], b))
      && (forall j | 0 <= j < |b| :: NamedFrom(a, b[j]))
    case _ => v == w
  }

  ghost predicate NamedFrom(a: seq<Entry>, b: Entry)
    decreases a
  {
    exists i | 0 <= i < |a| :: SameNamed(a[i], b)
  }

  ghost predicate NamedIn(a: Entry, b: seq<Entry>)
    decreases a, 1
  {
    exists j | 0 <= j < |b| :: SameNamed(a, b[j])
  }

  ghost predicate SameNamed(a: Entry, b: Entry)
    decreases a, 0
  {
    a.key == b.key && SameDocument(a.value, b.value)
  }

  /** Numbers are displayed as number tokens, and no object repeats a key. */
  ghost predicate Legible(v: Json)
    decreases v
  {
    match v
    case Number(text, float) => forall shown | Shows(text, float, shown) :: IsToken(shown)
    case Array(items) => forall i | 0 <= i < |items| :: Legible(items[i])
    case Object(entries) => DistinctKeys(entries) && forall i | 0 <= i < |entries| :: Legible(entries[i].value)
    case _ => true
  }

  // ----- numbers -----

  lemma {:induction false} TokenShows(text: Text, float: bool, shown: Text)
    ensures Shows(text, float, shown) <==> shown == Token(text, float)
  {
    if EndsDotZero(text) {
      var whole := text[..|text| - 2];
      assert text == whole + [0x2e, 0x30];
    }
    assert (shown + [0x2e, 0x30])[..|shown|] == shown;
    if whole: Text :| text == whole + [0x2e, 0x30] {
      assert EndsDotZero(text);
    }
  }

  /** A number is printed as it is displayed: an integer as its own text, an integral
      float without its fraction, any other float as its own text; and it is read back
      as that text. */
  lemma {:induction false} NumbersPrint(text: Text, whole: Text)
    ensures Print(Number(text, false)) == text
    ensures whole != [0x2d, 0x30] ==> Print(Number(whole + [0x2e, 0x30], true)) == whole
    ensures Print(Number([0x2d, 0x30, 0x2e, 0x30], true)) == [0x2d, 0x30, 0x2e, 0x30]
    ensures !EndsIn(text, [0x2e, 0x30]) ==> Print(Number(text, true)) == text
    ensures IsToken(text) ==> ReadValue(Print(Number(text, false))) == Some(Read(Number(text, false), []))
  {
    TokenShows(text, false, text);
    var float := whole + [0x2e, 0x30];
    assert float[..|whole|] == whole;
    TokenShows(float, true, whole);
    TokenShows(text, true, text);
    if IsToken(text) {
      ReadsToken(text, []);
      assert text + [] == text;
    }
  }

  ghost predicate EndsIn(text: Text, end: Text) {
    exists front: Text :: text == front + end
  }

  // ----- legible values are well formed -----

  lemma {:induction false} ItemsFormed(items: seq<Json>)
    ensures ItemsWellFormed(items) <==> forall i | 0 <= i < |items| :: WellFormed(items[i])
    decreases |items|
  {
    if items != [] {
      ItemsFormed(items[1..]);
      assert forall i | 0 < i < |items| :: items[i] == items[1..][i - 1];
      assert forall i | 0 <= i < |items| - 1 :: items[1..][i] == items[i + 1];
    }
  }

  lemma {:induction false} EntriesFormed(entries: seq<Entry>)
    ensures EntriesWellFormed(entries) <==> forall e | e in entries :: WellFormed(e.value)
    decreases |entries|
  {
    if entries != [] {
      EntriesFormed(entries[1..]);
      assert forall e :: e in entries <==> e == entries[0] || e in entries[1..];
    }
  }

  lemma {:induction false} SortMembers(entries: seq<Entry>)
    ensures forall e :: e in Sort(entries) <==> e in entries
  {
    SortSorts(entries);
    forall e ensures e in Sort(entries) <==> e in entries {
      assert e in multiset(Sort(entries)) <==> e in multiset(entries);
    }
  }

  lemma {:induction false} LegibleIff(v: Json)
    ensures Legible(v) <==> WellFormed(v)
    decreases v
  {
    match v
    case Number(text, float) =>
      TokenShows(text, float, Token(text, float));
      forall shown | Shows(text, float, shown) ensures shown == Token(text, float) {
        TokenShows(text, float, shown);
      }
    case Array(items) =>
      ItemsFormed(items);
      forall i | 0 <= i < |items| ensures Legible(items[i]) <==> WellFormed(items[i]) {
        LegibleIff(items[i]);
      }
    case Object(entries) =>
      SortMembers(entries);
      EntriesFormed(Sort(entries));
      forall i | 0 <= i < |entries| ensures Legible(entries[i].value) <==> WellFormed(entries[i].value) {
        LegibleIff(entries[i].value);
      }
      if forall i | 0 <= i < |entries| :: WellFormed(entries[i].value) {
        assert forall e | e in entries :: WellFormed(e.value);
      }
    case _ =>
  }

  // ----- normal forms are equal exactly for the same document -----

  lemma {:induction false} NormalItemsAt(items: seq<Json>, i: nat)
    requires i < |items|
    ensures NormalItems(items)[i] == Normal(items[i])
    decreases i
  {
    if i > 0 {
      NormalItemsAt(items[1..], i - 1);
    }
  }

  lemma {:induction false} NormalEntriesAt(entries: seq<Entry>, i: nat)
    requires i < |entries|
    ensures NormalEntries(entries)[i] == Entry(entries[i].key, Normal(entries[i].value))
    decreases i
  {
    if i > 0 {
      NormalEntriesAt(entries[1..], i - 1);
    }
  }

  /** Values of one document have one normal form, and conversely. */
  lemma {:induction false} NormalIff(v: Json, w: Json)
    requires Legible(v) && Legible(w)
    ensures Normal(v) == Normal(w) <==> SameDocument(v, w)
    decreases v, 1
  {
    match (v, w)
    case (Number(s, f), Number(t, g)) => NumbersIff(s, f, t, g);
    case (Array(a), Array(b)) =>
      if |a| == |b| {
        forall i | 0 <= i < |a|
          ensures NormalItems(a)[i] == NormalItems(b)[i] <==> SameDocument(a[i], b[i])
        {
          NormalItemsAt(a, i);
          NormalItemsAt(b, i);
          NormalIff(a[i], b[i]);
        }
      }
    case (Object(a), Object(b)) => ObjectsIff(v, w);
    case _ =>
  }

  lemma {:induction false} NumbersIff(s: Text, f: bool, t: Text, g: bool)
    ensures Token(s, f) == Token(t, g) <==> exists shown :: Shows(s, f, shown) && Shows(t, g, shown)
  {
    TokenShows(s, f, Token(s, f));
    TokenShows(t, g, Token(s, f));
    if shown :| Shows(s, f, shown) && Shows(t, g, shown) {
      TokenShows(s, f, shown);
      TokenShows(t, g, shown);
    }
  }

  ghost predicate SameEntry(a: Entry, b: Entry) {
    a.key == b.key && Normal(a.value) == Normal(b.value)
  }

  ghost predicate Listed(e: Entry, b: seq<Entry>) {
    exists d | d in b :: SameEntry(e, d)
  }

  ghost predicate Included(a: seq<Entry>, b: seq<Entry>) {
    forall e | e in a :: Listed(e, b)
  }

  lemma {:induction false} ObjectsIff(v: Json, w: Json)
    requires v.Object? && w.Object? && Legible(v) && Legible(w)
    ensures Normal(v) == Normal(w) <==> SameDocument(v, w)
    decreases v, 0
  {
    var a, b := v.entries, w.entries;
    forall i, j | 0 <= i < |a| && 0 <= j < |b| ensures SameEntry(a[i], b[j]) <==> SameNamed(a[i], b[j]) {
      NormalIff(a[i].value, b[j].value);
    }
    var same, converse := (x, y) => SameNamed(x, y), (x, y) => SameNamed(y, x);
    PairedIff(a, b, same);
    PairedIff(b, a, converse);
    EntriesIff(a, b);
    PairsAre(a, b, same, converse);
  }

  lemma {:induction false} PairsAre(a: seq<Entry>, b: seq<Entry>, same: (Entry, Entry) -> bool,
                                    converse: (Entry, Entry) -> bool)
    requires forall x, y :: same(x, y) <==> SameNamed(x, y)
    requires forall x, y :: converse(x, y) <==> SameNamed(y, x)
    ensures SameDocument(Object(a), Object(b)) <==> Paired(a, b, same) && Paired(b, a, converse)
  {
    forall e ensures HasPair(e, b, same) <==> NamedIn(e, b) {
    }
    forall e ensures HasPair(e, a, converse) <==> NamedFrom(a, e) {
    }
  }

  ghost predicate HasPair(e: Entry, b: seq<Entry>, same: (Entry, Entry) -> bool) {
    exists j | 0 <= j < |b| :: same(e, b[j])
  }

  ghost predicate Paired(a: seq<Entry>, b: seq<Entry>, same: (Entry, Entry) -> bool) {
    forall i | 0 <= i < |a| :: HasPair(a[i], b, same)
  }

  lemma {:induction false} PairedIff(a: seq<Entry>, b: seq<Entry>, same: (Entry, Entry) -> bool)
    requires forall i, j | 0 <= i < |a| && 0 <= j < |b| :: SameEntry(a[i], b[j]) <==> same(a[i], b[j])
    ensures Included(a, b) <==> Paired(a, b, same)
  {
    if Included(a, b) {
      forall i | 0 <= i < |a| ensures HasPair(a[i], b, same) {
        assert Listed(a[i], b);
        var d :| d in b && SameEntry(a[i], d);
        var j :| 0 <= j < |b| && b[j] == d;
        assert same(a[i], b[j]);
      }
    }
    if Paired(a, b, same) {
      forall e | e in a ensures Listed(e, b) {
        var i :| 0 <= i < |a| && a[i] == e;
        var j :| 0 <= j < |b| && same(a[i], b[j]);
        assert b[j] in b && SameEntry(a[i], b[j]);
      }
    }
  }

  lemma {:induction false} EntriesIff(a: seq<Entry>, b: seq<Entry>)
    requires DistinctKeys(a) && DistinctKeys(b)
    ensures NormalEntries(Sort(a)) == NormalEntries(Sort(b)) <==> Included(a, b) && Included(b, a)
  {
    var x, y := NormalEntries(Sort(a)), NormalEntries(Sort(b));
    SortMembers(a);
    SortMembers(b);
    if x == y {
      EqualIncludes(a, b);
      EqualIncludes(b, a);
    }
    if Included(a, b) && Included(b, a) {
      NormalIncludes(a, b);
      NormalIncludes(b, a);
      InOrder(a);
      InOrder(b);
      SameMembers(x, y);
      SortedIsUnique(x, y);
    }
  }

  lemma {:induction false} EqualIncludes(a: seq<Entry>, b: seq<Entry>)
    requires NormalEntries(Sort(a)) == NormalEntries(Sort(b))
    ensures Included(a, b)
  {
    SortMembers(a);
    SortMembers(b);
    forall e | e in a ensures Listed(e, b) {
      var i :| 0 <= i < |Sort(a)| && Sort(a)[i] == e;
      NormalEntriesAt(Sort(a), i);
      NormalEntriesAt(Sort(b), i);
      assert Sort(b)[i] in b;
    }
  }

  lemma {:induction false} NormalIncludes(a: seq<Entry>, b: seq<Entry>)
    requires Included(a, b)
    ensures forall e | e in NormalEntries(Sort(a)) :: e in NormalEntries(Sort(b))
  {
    SortMembers(a);
    SortMembers(b);
    var x, y := NormalEntries(Sort(a)), NormalEntries(Sort(b));
    forall e | e in x ensures e in y {
      var i :| 0 <= i < |x| && x[i] == e;
      NormalEntriesAt(Sort(a), i);
      assert Sort(a)[i] in a && Listed(Sort(a)[i], b);
      var d :| d in b && SameEntry(Sort(a)[i], d);
      var j :| 0 <= j < |Sort(b)| && Sort(b)[j] == d;
      NormalEntriesAt(Sort(b), j);
      assert y[j] == e;
    }
  }

  lemma {:induction false} InOrder(entries: seq<Entry>)
    requires DistinctKeys(entries)
    ensures Sorted(NormalEntries(Sort(entries))) && DistinctKeys(NormalEntries(Sort(entries)))
  {
    SortSorts(entries);
    SortKeepsDistinct(entries);
    NormalKeepsKeys(Sort(entries));
  }

  lemma {:induction false} SameMembers(x: seq<Entry>, y: seq<Entry>)
    requires DistinctKeys(x) && DistinctKeys(y) && forall e :: e in x <==> e in y
    ensures multiset(x) == multiset(y)
  {
    forall e ensures multiset(x)[e] == multiset(y)[e] {
      AtMostOnce(x, e);
      AtMostOnce(y, e);
    }
  }

  lemma {:induction false} AtMostOnce(x: seq<Entry>, e: Entry)
    requires DistinctKeys(x)
    ensures multiset(x)[e] == if e in x then 1 else 0
    decreases |x|
  {
    if x != [] {
      assert x == [x[0]] + x[1..];
      DistinctCons(x[0], x[1..]);
      AtMostOnce(x[1..], e);
    }
  }

  // ----- the laws of canonical JSON -----

  /** Two values share their canonical text exactly when they are the same document. */
  lemma {:induction false} CanonicalIsUnique(v: Json, w: Json)
    requires Legible(v) && Legible(w)
    ensures Print(v) == Print(w) <==> SameDocument(v, w)
  {
    LegibleIff(v);
    LegibleIff(w);
    SameNormal(v, w);
    NormalIff(v, w);
  }

  /** Entries in key order and numbers as displayed, all the way down. */
  ghost predicate InNormalForm(v: Json)
    decreases v
  {
    match v
    case Number(_, float) => !float
    case Array(items) => forall i | 0 <= i < |items| :: InNormalForm(items[i])
    case Object(entries) =>
      Sorted(entries) && DistinctKeys(entries) && forall i | 0 <= i < |entries| :: InNormalForm(entries[i].value)
    case _ => true
  }

  lemma {:induction false} NormalIsLegible(v: Json)
    requires Legible(v)
    ensures Legible(Normal(v)) && InNormalForm(Normal(v))
    decreases Size(v)
  {
    match v
    case Number(text, float) =>
      var token := Token(text, float);
      TokenShows(text, float, token);
      forall shown | Shows(token, false, shown) ensures shown == token {
        TokenShows(token, false, shown);
      }
    case Array(items) =>
      forall i | 0 <= i < |items| ensures Legible(NormalItems(items)[i]) && InNormalForm(NormalItems(items)[i]) {
        NormalItemsAt(items, i);
        ItemSize(items, i);
        NormalIsLegible(items[i]);
      }
    case Object(entries) =>
      InOrder(entries);
      SortMembers(entries);
      var sorted := Sort(entries);
      forall i | 0 <= i < |sorted|
        ensures Legible(NormalEntries(sorted)[i].value) && InNormalForm(NormalEntries(sorted)[i].value)
      {
        assert sorted[i] in entries;
        NormalEntriesAt(sorted, i);
        EntrySize(sorted, i);
        NormalIsLegible(sorted[i].value);
      }
    case _ =>
  }

  /** Reading a canonical text gives the document that was written, in normal form, and
      leaves nothing over. */
  lemma {:induction false} CanonicalRoundTrip(v: Json) returns (u: Json)
    requires Legible(v)
    ensures ReadValue(Print(v)) == Some(Read(u, []))
    ensures SameDocument(v, u) && InNormalForm(u) && Print(u) == Print(v)
  {
    u := Normal(v);
    LegibleIff(v);
    ReadsNormal(v);
    PrintNormal(v);
    NormalIsLegible(v);
    CanonicalIsUnique(v, u);
  }
}
