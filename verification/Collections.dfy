/** Small facts about finite sets of numbers, as ordered sets and worklists use them. */
module Collections {

  ghost function Below(n: nat): (s: set<nat>)
    ensures forall k: nat :: k in s <==> k < n
    ensures |s| == n
  {
    if n == 0 then {} else Below(n - 1) + {n - 1}
  }

  lemma {:induction false} HasLeast(keys: set<nat>, k: nat)
    requires k in keys
    ensures exists l | l in keys :: forall j | j in keys :: l <= j
    decreases k
  {
    if j :| j in keys && j < k {
      HasLeast(keys, j);
    } else {
      assert forall j | j in keys :: k <= j;
    }
  }

  /** Smallest member, as an ordered set pops it. */
  method First(keys: set<nat>) returns (k: nat)
    requires keys != {}
    ensures k in keys && forall j | j in keys :: k <= j
  {
    ghost var some :| some in keys;
    HasLeast(keys, some);
    k :| k in keys && forall j | j in keys :: k <= j;
  }

  lemma {:induction false} SubsetSize<T>(small: set<T>, large: set<T>)
    requires small <= large
    ensures |small| <= |large|
    ensures |small| == |large| ==> small == large
    decreases small
  {
    if small != {} {
      var x :| x in small;
      SubsetSize(small - {x}, large - {x});
    }
  }

  predicate Increasing(s: seq<nat>) {
    forall i, j | 0 <= i < j < |s| :: s[i] < s[j]
  }

  lemma {:induction false} IncreasingSnoc(s: seq<nat>, x: nat)
    requires Increasing(s) && forall k | k in s :: k < x
    ensures Increasing(s + [x])
    ensures forall k :: k in s + [x] <==> k in s || k == x
  {
    forall i, j | 0 <= i < j < |s + [x]| ensures (s + [x])[i] < (s + [x])[j] {
      if j == |s| {
        assert s[i] in s;
      }
    }
  }

  lemma {:induction false} MultiplyMonotone(k: nat, small: nat, large: nat)
    requires small <= large
    ensures k * small <= k * large
  {
  }

  lemma {:induction false} SplitLast<T>(s: seq<T>)
    requires s != []
    ensures s == s[..|s| - 1] + [s[|s| - 1]]
  {
  }

  /** The sum of the weights of a set's members. */
  ghost function SumOver<T>(weight: T -> nat, s: set<T>): nat {
    if s == {} then 0 else var x :| x in s; weight(x) + SumOver(weight, s - {x})
  }

  /** Whichever member is added first. */
  lemma {:induction false} SumTake<T>(weight: T -> nat, s: set<T>, x: T)
    requires x in s
    ensures SumOver(weight, s) == weight(x) + SumOver(weight, s - {x})
    decreases |s|
  {
    var y :| y in s && SumOver(weight, s) == weight(y) + SumOver(weight, s - {y});
    if y != x {
      SumTake(weight, s - {y}, x);
      SumTake(weight, s - {x}, y);
      assert s - {y} - {x} == s - {x} - {y};
    }
  }
}
