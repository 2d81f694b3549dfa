/** The lexicographic order of byte strings. */
module TextOrder {
  import opened Wrappers
  import opened ValueTypes

  predicate TextLess(a: Text, b: Text) {
    if b == [] then false
    else if a == [] then true
    else if a[0] == b[0] then TextLess(a[1..], b[1..])
    else a[0] < b[0]
  }

  lemma {:induction false} TextIrreflexive(a: Text)
    ensures !TextLess(a, a)
    decreases |a|
  {
    if a != [] {
      TextIrreflexive(a[1..]);
    }
  }

  lemma {:induction false} TextTotal(a: Text, b: Text)
    ensures TextLess(a, b) || a == b || TextLess(b, a)
    ensures !(TextLess(a, b) && TextLess(b, a))
    decreases |a|
  {
    if a != [] && b != [] && a[0] == b[0] {
      TextTotal(a[1..], b[1..]);
      assert a == [a[0]] + a[1..] && b == [b[0]] + b[1..];
    }
  }

  lemma {:induction false} TextTransitive(a: Text, b: Text, c: Text)
    requires TextLess(a, b) && TextLess(b, c)
    ensures TextLess(a, c)
    decreases |a|
  {
    if a != [] && a[0] == b[0] == c[0] {
      TextTransitive(a[1..], b[1..], c[1..]);
    }
  }

  /** `a` ends or falls below `b` at position `k`, up to which they agree. */
  ghost predicate TextLessAt(a: Text, b: Text, k: nat) {
    k <= |a| && k < |b| && a[..k] == b[..k] && (k == |a| || a[k] < b[k])
  }

  lemma {:induction false} TextAgreeAtFirst(a: Text, b: Text, k: nat)
    requires TextLessAt(a, b, k)
    ensures k == 0 || (a != [] && a[0] == b[0])
  {
    if k > 0 {
      assert a[..k][0] == a[0] && b[..k][0] == b[0];
    }
  }

  /** Byte strings are ordered at their first difference; a proper prefix comes first. */
  lemma {:induction false} TextLessIff(a: Text, b: Text)
    ensures TextLess(a, b) <==> exists k :: TextLessAt(a, b, k)
    decreases |a|
  {
    if b != [] && (a == [] || a[0] != b[0]) {
      assert TextLess(a, b) ==> TextLessAt(a, b, 0);
      if k: nat :| TextLessAt(a, b, k) {
        TextAgreeAtFirst(a, b, k);
      }
    } else if b != [] {
      TextLessIff(a[1..], b[1..]);
      if k: nat :| TextLessAt(a[1..], b[1..], k) {
        assert a[..k + 1] == [a[0]] + a[1..][..k] && b[..k + 1] == [b[0]] + b[1..][..k];
        assert TextLessAt(a, b, k + 1);
      }
      if k: nat :| TextLessAt(a, b, k) {
        assert k > 0;
        assert a[1..][..k - 1] == a[..k][1..] && b[1..][..k - 1] == b[..k][1..];
        assert TextLessAt(a[1..], b[1..], k - 1);
      }
    }
  }

  // ----- sorted tables -----

  /** The check on adjacent pairs. */
  predicate SortedTexts(keys: seq<Text>) {
    forall i | 0 <= i < |keys| - 1 :: TextLess(keys[i], keys[i + 1])
  }

  lemma {:induction false} SortedTextPairs(keys: seq<Text>, i: nat, j: nat)
    requires SortedTexts(keys) && i < j < |keys|
    ensures TextLess(keys[i], keys[j])
    decreases j
  {
    if i + 1 < j {
      SortedTextPairs(keys, i, j - 1);
      TextTransitive(keys[i], keys[j - 1], keys[j]);
    }
  }

  /** Texts in strictly increasing order. */
  ghost predicate TextsAscend(keys: seq<Text>) {
    forall i, j | 0 <= i < j < |keys| :: TextLess(keys[i], keys[j])
  }

  lemma {:induction false} SortedTextsIff(keys: seq<Text>)
    ensures SortedTexts(keys) <==> TextsAscend(keys)
  {
    if SortedTexts(keys) {
      forall i, j | 0 <= i < j < |keys| ensures TextLess(keys[i], keys[j]) {
        SortedTextPairs(keys, i, j);
      }
    }
  }

  /** Binary search: the key's only position, or none. */
  method Search(keys: seq<Text>, key: Text) returns (r: Option<nat>)
    requires SortedTexts(keys)
    ensures r.Some? ==> r.value < |keys| && keys[r.value] == key
    ensures forall i | 0 <= i < |keys| && keys[i] == key :: r == Some(i)
  {
    var lo, hi := 0, |keys|;
    while lo < hi
      invariant 0 <= lo <= hi <= |keys|
      invariant forall i | 0 <= i < lo :: TextLess(keys[i], key)
      invariant forall i | hi <= i < |keys| :: TextLess(key, keys[i])
    {
      var mid := (lo + hi) / 2;
      TextTotal(keys[mid], key);
      Around(keys, mid);
      if keys[mid] == key {
        TextIrreflexive(key);
        return Some(mid);
      }
      if TextLess(keys[mid], key) {
        forall i | 0 <= i < mid + 1 ensures TextLess(keys[i], key) {
          if i < mid { TextTransitive(keys[i], keys[mid], key); }
        }
        lo := mid + 1;
      } else {
        forall i | mid <= i < |keys| ensures TextLess(key, keys[i]) {
          if i > mid { TextTransitive(key, keys[mid], keys[i]); }
        }
        hi := mid;
      }
    }
    TextIrreflexive(key);
    return None;
  }

  lemma {:induction false} Around(keys: seq<Text>, mid: nat)
    requires SortedTexts(keys) && mid < |keys|
    ensures forall i | 0 <= i < mid :: TextLess(keys[i], keys[mid])
    ensures forall i | mid < i < |keys| :: TextLess(keys[mid], keys[i])
  {
    forall i | 0 <= i < mid ensures TextLess(keys[i], keys[mid]) { SortedTextPairs(keys, i, mid); }
    forall i | mid < i < |keys| ensures TextLess(keys[mid], keys[i]) { SortedTextPairs(keys, mid, i); }
  }
}
