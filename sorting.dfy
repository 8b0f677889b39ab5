/**
 * A stable sort by a numeric key, the ordering both `orderByScreens`
 * (a timsort with a comparator that never reports two tokens equal) and the
 * suggestion lists (`Array.prototype.sort`, stable) rely on.  Each element is
 * placed after every earlier element whose key is no greater, so elements with
 * equal keys keep their input order.
 */
module Sorting {

  predicate SortedBy<T>(s: seq<T>, key: T -> real) {
    forall i, j :: 0 <= i < j < |s| ==> key(s[i]) <= key(s[j])
  }

  /** `x` placed into a sorted `s` after every element whose key is no greater than its own. */
  function InsertLast<T>(x: T, s: seq<T>, key: T -> real): seq<T>
    decreases |s|
  {
    if |s| == 0 then [x]
    else if key(x) < key(s[|s| - 1]) then InsertLast(x, s[..|s| - 1], key) + [s[|s| - 1]]
    else s + [x]
  }

  /** The stable sort: the elements inserted one after another, in input order. */
  function SortBy<T>(s: seq<T>, key: T -> real): seq<T>
    decreases |s|
  {
    if |s| == 0 then [] else InsertLast(s[|s| - 1], SortBy(s[..|s| - 1], key), key)
  }

  /** The elements whose key is `c`, in order. */
  function WithKey<T>(s: seq<T>, key: T -> real, c: real): seq<T>
    decreases |s|
  {
    if |s| == 0 then []
    else WithKey(s[..|s| - 1], key, c) + (if key(s[|s| - 1]) == c then [s[|s| - 1]] else [])
  }

  lemma {:induction false} WithKeyAppend<T>(s: seq<T>, t: seq<T>, key: T -> real, c: real)
    ensures WithKey(s + t, key, c) == WithKey(s, key, c) + WithKey(t, key, c)
    decreases |t|
  {
    if |t| == 0 {
      assert s + t == s;
    } else {
      var t' := t[..|t| - 1];
      assert (s + t)[..|s + t| - 1] == s + t';
      WithKeyAppend(s, t', key, c);
    }
  }

  lemma {:induction false} InsertLastKeepsElements<T>(x: T, s: seq<T>, key: T -> real)
    ensures multiset(InsertLast(x, s, key)) == multiset(s) + multiset{x}
    ensures |InsertLast(x, s, key)| == |s| + 1
    decreases |s|
  {
    if |s| > 0 && key(x) < key(s[|s| - 1]) {
      InsertLastKeepsElements(x, s[..|s| - 1], key);
      assert s == s[..|s| - 1] + [s[|s| - 1]];
    }
  }

  lemma {:induction false} InsertLastSorted<T>(x: T, s: seq<T>, key: T -> real)
    requires SortedBy(s, key)
    ensures SortedBy(InsertLast(x, s, key), key)
    decreases |s|
  {
    if |s| > 0 && key(x) < key(s[|s| - 1]) {
      var init := s[..|s| - 1];
      var last := s[|s| - 1];
      InsertLastSorted(x, init, key);
      InsertLastKeepsElements(x, init, key);
      var r := InsertLast(x, init, key);
      forall i | 0 <= i < |r| ensures key(r[i]) <= key(last) {
        assert r[i] in multiset(r);
        if r[i] != x {
          assert r[i] in multiset(init);
          var j :| 0 <= j < |init| && init[j] == r[i];
          assert init[j] == s[j];
        }
      }
    }
  }

  /** The result is ordered by key and holds exactly the input's elements. */
  lemma {:induction false} SortBySortsAndPermutes<T>(s: seq<T>, key: T -> real)
    ensures SortedBy(SortBy(s, key), key)
    ensures multiset(SortBy(s, key)) == multiset(s)
    ensures |SortBy(s, key)| == |s|
    decreases |s|
  {
    if |s| > 0 {
      var init := s[..|s| - 1];
      SortBySortsAndPermutes(init, key);
      InsertLastSorted(s[|s| - 1], SortBy(init, key), key);
      InsertLastKeepsElements(s[|s| - 1], SortBy(init, key), key);
      InitLast(s);
    }
  }

  lemma InitLast<T>(s: seq<T>)
    requires |s| > 0
    ensures s == s[..|s| - 1] + [s[|s| - 1]]
  {
  }

  /** Two extensions of which one is empty can be added in either order. */
  lemma SwapAroundEmpty<T>(a: seq<T>, p: seq<T>, q: seq<T>)
    requires p == [] || q == []
    ensures (a + p) + q == (a + q) + p
  {
  }

  lemma WithKeySingle<T>(y: T, key: T -> real, c: real)
    ensures WithKey([y], key, c) == (if key(y) == c then [y] else [])
  {
    assert [y][..0] == [];
  }

  lemma {:induction false} WithKeyInsertLast<T>(x: T, s: seq<T>, key: T -> real, c: real)
    requires SortedBy(s, key)
    ensures WithKey(InsertLast(x, s, key), key, c) == WithKey(s, key, c) + WithKey([x], key, c)
    decreases |s|
  {
    if |s| == 0 {
      assert [x] == [] + [x];
    } else if key(x) < key(s[|s| - 1]) {
      var init := s[..|s| - 1];
      var last := s[|s| - 1];
      assert SortedBy(init, key);
      WithKeyInsertLast(x, init, key, c);
      WithKeyAppend(InsertLast(x, init, key), [last], key, c);
      InitLast(s);
      WithKeyAppend(init, [last], key, c);
      WithKeySingle(last, key, c);
      WithKeySingle(x, key, c);
      SwapAroundEmpty(WithKey(init, key, c), WithKey([x], key, c), WithKey([last], key, c));
    } else {
      WithKeyAppend(s, [x], key, c);
    }
  }

  /** Stability: the elements that share a key come out in their input order. */
  lemma {:induction false} SortByIsStable<T>(s: seq<T>, key: T -> real, c: real)
    ensures WithKey(SortBy(s, key), key, c) == WithKey(s, key, c)
    decreases |s|
  {
    if |s| > 0 {
      var init := s[..|s| - 1];
      SortByIsStable(init, key, c);
      SortBySortsAndPermutes(init, key);
      WithKeyInsertLast(s[|s| - 1], SortBy(init, key), key, c);
      InitLast(s);
      WithKeyAppend(init, [s[|s| - 1]], key, c);
    }
  }

  /** An already ordered input is left exactly as it is. */
  lemma {:induction false} SortByKeepsSorted<T>(s: seq<T>, key: T -> real)
    requires SortedBy(s, key)
    ensures SortBy(s, key) == s
    decreases |s|
  {
    if |s| > 0 {
      var init := s[..|s| - 1];
      assert SortedBy(init, key);
      SortByKeepsSorted(init, key);
      InitLast(s);
      if |init| > 0 {
        assert key(init[|init| - 1]) <= key(s[|s| - 1]);
      }
    }
  }

  /** Where the shifting loop stops, the insertion splits the sorted prefix. */
  lemma {:induction false} InsertLastAt<T>(x: T, s: seq<T>, key: T -> real, j: nat)
    requires j <= |s|
    requires j == 0 || key(s[j - 1]) <= key(x)
    requires forall k :: j <= k < |s| ==> key(x) < key(s[k])
    ensures InsertLast(x, s, key) == s[..j] + [x] + s[j..]
    decreases |s|
  {
    if |s| > 0 && key(x) < key(s[|s| - 1]) {
      var init := s[..|s| - 1];
      assert j < |s|;
      InsertLastAt(x, init, key, j);
      assert init[..j] == s[..j];
      assert init[j..] + [s[|s| - 1]] == s[j..];
    } else if |s| > 0 {
      assert j == |s|;
    }
  }

  /**
   * One step of the insertion sort: `a[i]` moves left past every greater
   * element of the sorted prefix, which shift one place right.
   */
  method InsertInPlace<T>(a: array<T>, i: nat, key: T -> real)
    requires i < a.Length
    requires SortedBy(a[..i], key)
    modifies a
    ensures a[..i + 1] == InsertLast(old(a[i]), old(a[..i]), key)
    ensures a[i + 1..] == old(a[i + 1..])
  {
    ghost var sorted := a[..i];
    var x := a[i];
    var j := i;
    while j > 0 && key(x) < key(a[j - 1])
      invariant 0 <= j <= i
      invariant forall k :: 0 <= k < j ==> a[k] == sorted[k]
      invariant forall k :: j < k <= i ==> a[k] == sorted[k - 1]
      invariant forall k :: i < k < a.Length ==> a[k] == old(a[k])
      invariant forall k :: j <= k < i ==> key(x) < key(sorted[k])
    {
      a[j] := a[j - 1];
      j := j - 1;
    }
    a[j] := x;
    InsertLastAt(x, sorted, key, j);
    assert a[..i + 1] == sorted[..j] + [x] + sorted[j..];
    assert a[i + 1..] == old(a[i + 1..]);
  }

  /** The in-place sort: insertion sort, which yields exactly the stable order. */
  method SortInPlace<T>(a: array<T>, key: T -> real)
    modifies a
    ensures a[..] == SortBy(old(a[..]), key)
  {
    ghost var input := a[..];
    for i := 0 to a.Length
      invariant a[..i] == SortBy(input[..i], key)
      invariant a[i..] == input[i..]
    {
      SortBySortsAndPermutes(input[..i], key);
      assert a[i] == input[i];
      assert a[i + 1..] == input[i + 1..];
      InsertInPlace(a, i, key);
      SortByStep(input, i, key);
    }
    assert input[..a.Length] == input;
  }

  /** Sorting one more element of the input inserts it into the sorted prefix. */
  lemma SortByStep<T>(input: seq<T>, i: nat, key: T -> real)
    requires i < |input|
    ensures SortBy(input[..i + 1], key) == InsertLast(input[i], SortBy(input[..i], key), key)
  {
    assert input[..i + 1][..i] == input[..i];
  }

  /** `s.slice(0, n)`. */
  function Take<T>(s: seq<T>, n: nat): (r: seq<T>)
    ensures |r| == if |s| <= n then |s| else n
    ensures r == s[..|r|]
  {
    if |s| <= n then s else s[..n]
  }

  /** Of a sorted sequence, the first `n` have keys no greater than any element left out. */
  lemma TakeKeepsSmallest<T>(s: seq<T>, key: T -> real, n: nat)
    requires SortedBy(s, key)
    ensures forall c :: c in s ==> c in Take(s, n) || forall j :: 0 <= j < |Take(s, n)| ==> key(Take(s, n)[j]) <= key(c)
  {
    var l := Take(s, n);
    forall c | c in s ensures c in l || forall j :: 0 <= j < |l| ==> key(l[j]) <= key(c) {
      var k :| 0 <= k < |s| && s[k] == c;
      if k < |l| {
        assert l[k] == c;
      } else {
        assert forall j :: 0 <= j < |l| ==> l[j] == s[j];
      }
    }
  }
}
