/**
 What the program gets from `std::list`, as functions on sequences: pushing to the front,
 the stable sort, and sums of sizes. Orders and sizes are parameters.
 */
module Sequences {

  // ----- Reversal

  /** What pushing the elements one by one to the front of an empty list leaves. */
  function Reverse<T>(s: seq<T>): (r: seq<T>)
    ensures |r| == |s|
  {
    if s == [] then [] else Reverse(s[1..]) + [s[0]]
  }

  lemma {:induction false} ReverseAt<T>(s: seq<T>)
    ensures forall i :: 0 <= i < |s| ==> Reverse(s)[i] == s[|s| - 1 - i]
  {
    if s != [] {
      ReverseAt(s[1..]);
    }
  }

  lemma {:induction false} ReverseIsPermutation<T>(s: seq<T>)
    ensures multiset(Reverse(s)) == multiset(s)
  {
    if s != [] {
      ReverseIsPermutation(s[1..]);
      assert s == [s[0]] + s[1..];
    }
  }

  lemma {:induction false} ReverseConcat<T>(a: seq<T>, b: seq<T>)
    ensures Reverse(a + b) == Reverse(b) + Reverse(a)
  {
    if a == [] {
      assert a + b == b;
    } else {
      assert (a + b)[1..] == a[1..] + b;
      ReverseConcat(a[1..], b);
    }
  }

  lemma Parts<T>(a: seq<T>, b: seq<T>, s: seq<T>)
    requires s == a + b
    ensures s[..|a|] == a && s[|a|..] == b
  {
  }

  lemma SliceOfSlice<T>(s: seq<T>, i: nat, j: nat, k: nat, m: nat)
    requires i <= j <= |s| && k <= m <= j - i
    ensures s[i..j][k..m] == s[i + k..i + m]
  {
    forall n | 0 <= n < m - k ensures s[i..j][k..m][n] == s[i + k..i + m][n] {
      assert s[i..j][k..m][n] == s[i..j][k + n] == s[i + (k + n)];
    }
  }

  lemma ReverseSlice<T>(s: seq<T>, k: nat)
    requires k <= |s|
    ensures Reverse(s)[..k] == Reverse(s[|s| - k..])
    ensures Reverse(s)[k..] == Reverse(s[..|s| - k])
  {
    var a, b := s[..|s| - k], s[|s| - k..];
    assert s == a + b;
    ReverseConcat(a, b);
    Parts(Reverse(b), Reverse(a), Reverse(s));
  }

  lemma {:induction false} ReverseTwice<T>(s: seq<T>)
    ensures Reverse(Reverse(s)) == s
  {
    if s != [] {
      ReverseTwice(s[1..]);
      ReverseConcat(Reverse(s[1..]), [s[0]]);
      assert s == [s[0]] + s[1..];
    }
  }

  lemma SplitMultiset<T>(s: seq<T>, k: nat)
    requires k <= |s|
    ensures multiset(s[..k]) + multiset(s[k..]) == multiset(s)
  {
    assert s[..k] + s[k..] == s;
  }

  lemma PrefixMultiset<T>(s: seq<T>, i: nat)
    requires i < |s|
    ensures multiset(s[..i + 1]) == multiset(s[..i]) + multiset{s[i]}
  {
    assert s[..i + 1] == s[..i] + [s[i]];
  }

  lemma PutInMultiset<T>(s: seq<T>, x: T, j: nat)
    requires j <= |s|
    ensures multiset(s[..j] + [x] + s[j..]) == multiset(s) + multiset{x}
  {
    SplitMultiset(s, j);
  }

  lemma Associative<T>(a: seq<T>, b: seq<T>, c: seq<T>)
    ensures (a + b) + c == a + (b + c)
  {
  }

  ghost predicate Distinct<T>(s: seq<T>) {
    forall i, j :: 0 <= i < j < |s| ==> s[i] != s[j]
  }

  lemma DistinctPrefix<T>(a: seq<T>, b: seq<T>)
    requires Distinct(a + b)
    ensures Distinct(a)
  {
    forall i, j | 0 <= i < j < |a| ensures a[i] != a[j] {
      assert (a + b)[i] != (a + b)[j];
    }
  }

  // ----- Flattening

  function Flatten<T>(ss: seq<seq<T>>): seq<T> {
    if ss == [] then [] else ss[0] + Flatten(ss[1..])
  }

  lemma {:induction false} FlattenAppend<T>(ss: seq<seq<T>>, s: seq<T>)
    ensures Flatten(ss + [s]) == Flatten(ss) + s
  {
    if ss == [] {
      assert [s][1..] == [];
    } else {
      assert (ss + [s])[1..] == ss[1..] + [s];
      FlattenAppend(ss[1..], s);
    }
  }

  // ----- Sums

  function Sum<T>(s: seq<T>, size: T -> nat): nat {
    if s == [] then 0 else size(s[0]) + Sum(s[1..], size)
  }

  lemma {:induction false} SumConcat<T>(a: seq<T>, b: seq<T>, size: T -> nat)
    ensures Sum(a + b, size) == Sum(a, size) + Sum(b, size)
  {
    if a == [] {
      assert a + b == b;
    } else {
      assert (a + b)[1..] == a[1..] + b;
      SumConcat(a[1..], b, size);
    }
  }

  lemma SumOne<T>(x: T, size: T -> nat)
    ensures Sum([x], size) == size(x)
  {
    assert [x][1..] == [];
  }

  lemma TakeOut<T>(a: seq<T>, x: T, b: seq<T>, size: T -> nat)
    ensures multiset(a + [x] + b) == multiset{x} + multiset(a + b)
    ensures Sum(a + [x] + b, size) == size(x) + Sum(a + b, size)
  {
    SumConcat(a, b, size);
    SumConcat(a + [x], b, size);
    SumConcat(a, [x], size);
    SumOne(x, size);
  }

  lemma {:induction false} SumPermutation<T>(a: seq<T>, b: seq<T>, size: T -> nat)
    requires multiset(a) == multiset(b)
    ensures Sum(a, size) == Sum(b, size)
  {
    if a == [] {
      assert |multiset(b)| == 0;
    } else {
      assert a[0] in multiset(b);
      var i :| 0 <= i < |b| && b[i] == a[0];
      assert a == [a[0]] + a[1..];
      assert b == b[..i] + [b[i]] + b[i + 1..];
      TakeOut(b[..i], b[i], b[i + 1..], size);
      assert multiset(a[1..]) == multiset(a) - multiset{a[0]};
      SumPermutation(a[1..], b[..i] + b[i + 1..], size);
    }
  }

  // ----- The stable sort

  ghost predicate Sorted<T>(s: seq<T>, key: T -> nat) {
    forall i, j :: 0 <= i < j < |s| ==> key(s[i]) <= key(s[j])
  }

  /** `s` with `x` behind everything that does not compare greater. */
  function Insert<T>(s: seq<T>, x: T, key: T -> nat): (r: seq<T>)
    ensures |r| == |s| + 1
  {
    if s == [] || key(s[|s| - 1]) <= key(x) then s + [x]
    else Insert(s[..|s| - 1], x, key) + [s[|s| - 1]]
  }

  function Sort<T>(s: seq<T>, key: T -> nat): (r: seq<T>)
    ensures |r| == |s|
  {
    if s == [] then [] else Insert(Sort(s[..|s| - 1], key), s[|s| - 1], key)
  }

  lemma SortNext<T>(s: seq<T>, key: T -> nat, i: nat)
    requires i < |s|
    ensures Sort(s[..i + 1], key) == Insert(Sort(s[..i], key), s[i], key)
  {
    assert s[..i + 1][..i] == s[..i];
  }

  lemma {:induction false} InsertIsPermutation<T>(s: seq<T>, x: T, key: T -> nat)
    ensures multiset(Insert(s, x, key)) == multiset(s) + multiset{x}
  {
    if s != [] && key(s[|s| - 1]) > key(x) {
      InsertIsPermutation(s[..|s| - 1], x, key);
      assert s == s[..|s| - 1] + [s[|s| - 1]];
    }
  }

  lemma {:induction false} SortIsPermutation<T>(s: seq<T>, key: T -> nat)
    ensures multiset(Sort(s, key)) == multiset(s)
  {
    if s != [] {
      SortIsPermutation(s[..|s| - 1], key);
      InsertIsPermutation(Sort(s[..|s| - 1], key), s[|s| - 1], key);
      assert s == s[..|s| - 1] + [s[|s| - 1]];
    }
  }

  /** Where the element goes: behind the last one that does not compare greater. */
  lemma {:induction false} InsertAt<T>(s: seq<T>, x: T, key: T -> nat, j: nat)
    requires j <= |s| && (j > 0 ==> key(s[j - 1]) <= key(x))
    requires forall i :: j <= i < |s| ==> key(s[i]) > key(x)
    ensures Insert(s, x, key) == s[..j] + [x] + s[j..]
  {
    var n := |s| - 1;
    if j < |s| {
      InsertAt(s[..n], x, key, j);
      assert s[..n][..j] == s[..j] && s[..n][j..] + [s[n]] == s[j..];
    }
  }

  ghost predicate AtMost<T>(s: seq<T>, key: T -> nat, k: nat) {
    forall i :: 0 <= i < |s| ==> key(s[i]) <= k
  }

  lemma {:induction false} InsertKeepsSorted<T>(s: seq<T>, x: T, key: T -> nat, k: nat)
    requires Sorted(s, key) && AtMost(s, key, k) && key(x) <= k
    ensures Sorted(Insert(s, x, key), key) && AtMost(Insert(s, x, key), key, k)
  {
    var n := |s| - 1;
    if s != [] && key(s[n]) > key(x) {
      InsertKeepsSorted(s[..n], x, key, key(s[n]));
    }
  }

  lemma {:induction false} SortIsSorted<T>(s: seq<T>, key: T -> nat)
    ensures Sorted(Sort(s, key), key)
  {
    if s != [] {
      SortIsSorted(s[..|s| - 1], key);
      var r, x := Sort(s[..|s| - 1], key), s[|s| - 1];
      var top := if r == [] || key(r[|r| - 1]) <= key(x) then x else r[|r| - 1];
      InsertKeepsSorted(r, x, key, key(top));
    }
  }

  /** The elements with key `k`, in their order. */
  function WithKey<T>(s: seq<T>, key: T -> nat, k: nat): seq<T> {
    if s == [] then []
    else WithKey(s[..|s| - 1], key, k) + (if key(s[|s| - 1]) == k then [s[|s| - 1]] else [])
  }

  lemma {:induction false} InsertIsStable<T>(s: seq<T>, x: T, key: T -> nat, k: nat)
    requires Sorted(s, key)
    ensures WithKey(Insert(s, x, key), key, k) == WithKey(s + [x], key, k)
  {
    var n := |s| - 1;
    assert (s + [x])[..|s|] == s;
    if s != [] && key(s[n]) > key(x) {
      var r := Insert(s[..n], x, key);
      InsertIsStable(s[..n], x, key, k);
      assert (r + [s[n]])[..|r|] == r;
      assert (s[..n] + [x])[..n] == s[..n];
    }
  }

  /** Equal keys keep their order. */
  lemma {:induction false} SortIsStable<T>(s: seq<T>, key: T -> nat, k: nat)
    ensures WithKey(Sort(s, key), key, k) == WithKey(s, key, k)
  {
    if s != [] {
      var n := |s| - 1;
      var r := Sort(s[..n], key);
      SortIsStable(s[..n], key, k);
      SortIsSorted(s[..n], key);
      InsertIsStable(r, s[n], key, k);
      assert (r + [s[n]])[..|r|] == r;
    }
  }
}
