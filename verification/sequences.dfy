/** Duplicate-free sequences and first-seen deduplication.

    `Dedup` is the reference definition of the list the resolver builds with
    `List.Contains`/`List.Add`, and of the set of paths the conversion loop
    actually exports through its processed-set guard. */
module Sequences {

  predicate NoDuplicates<T(==)>(s: seq<T>) {
    forall i, j :: 0 <= i < j < |s| ==> s[i] != s[j]
  }

  /** The elements of `s`, each kept once, in the order in which each is first seen. */
  function Dedup<T(==,!new)>(s: seq<T>): (r: seq<T>)
    ensures NoDuplicates(r)
    ensures forall x :: x in r <==> x in s
    ensures |r| <= |s|
  {
    if s == [] then []
    else
      var seen := Dedup(s[..|s| - 1]);
      if s[|s| - 1] in seen then seen else seen + [s[|s| - 1]]
  }

  /** Position of the first occurrence of `x` in `s`. */
  function FirstIndex<T(==)>(s: seq<T>, x: T): (i: nat)
    requires x in s
    ensures i < |s| && s[i] == x
    ensures x !in s[..i]
  {
    if s[0] == x then 0
    else
      assert x in s[1..] by { assert s == [s[0]] + s[1..]; }
      var j := FirstIndex(s[1..], x);
      assert s[..j + 1] == [s[0]] + s[1..][..j];
      j + 1
  }

  /** How many elements of `keys` count `m` gives, summed: the value sum of a count map
      enumerated through a list of its keys. */
  function MultiplicitySum<T>(keys: seq<T>, m: multiset<T>): nat
  {
    if keys == [] then 0
    else MultiplicitySum(keys[..|keys| - 1], m) + m[keys[|keys| - 1]]
  }

  /** Deduplicating one more element appends it exactly when it is new. */
  lemma DedupStep<T(!new)>(s: seq<T>, x: T)
    ensures Dedup(s + [x]) == if x in Dedup(s) then Dedup(s) else Dedup(s) + [x]
  {
    assert (s + [x])[..|s|] == s;
  }

  /** In a duplicate-free sequence every value occurs at most once. */
  lemma {:induction false} NoDuplicatesAtMostOnce<T>(s: seq<T>, x: T)
    requires NoDuplicates(s)
    ensures multiset(s)[x] <= 1
  {
    if s != [] {
      var init := s[..|s| - 1];
      assert s == init + [s[|s| - 1]];
      assert NoDuplicates(init);
      NoDuplicatesAtMostOnce(init, x);
      if x == s[|s| - 1] {
        assert x !in init;
      }
    }
  }

  lemma {:induction false} DedupOfDistinct<T(!new)>(s: seq<T>)
    requires NoDuplicates(s)
    ensures Dedup(s) == s
  {
    if s != [] {
      var init := s[..|s| - 1];
      assert NoDuplicates(init);
      DedupOfDistinct(init);
      assert s == init + [s[|s| - 1]];
    }
  }

  /** Deduplicating a prefix yields a prefix of the deduplicated whole. */
  lemma {:induction false} DedupPrefix<T(!new)>(s: seq<T>, n: nat)
    requires n <= |s|
    ensures Dedup(s[..n]) <= Dedup(s)
    decreases |s| - n
  {
    if n < |s| {
      var t := s[..n + 1];
      assert t[..|t| - 1] == s[..n];
      assert Dedup(s[..n]) <= Dedup(t);
      DedupPrefix(s, n + 1);
    } else {
      assert s[..n] == s;
    }
  }

  /** Deduplication keeps first-seen order: an earlier element of `Dedup(s)`
      was first seen strictly earlier in `s`. */
  lemma {:induction false} DedupFirstSeenOrder<T(!new)>(s: seq<T>, i: nat, j: nat)
    requires i < j < |Dedup(s)|
    ensures FirstIndex(s, Dedup(s)[i]) < FirstIndex(s, Dedup(s)[j])
  {
    var init := s[..|s| - 1];
    var last := s[|s| - 1];
    var d := Dedup(init);
    assert s == init + [last];
    if j < |d| {
      assert Dedup(s)[i] == d[i] && Dedup(s)[j] == d[j];
      DedupFirstSeenOrder(init, i, j);
      FirstIndexOfPrefix(init, last, d[i]);
      FirstIndexOfPrefix(init, last, d[j]);
    } else {
      assert last !in d && Dedup(s)[j] == last;
      assert last !in init;
      assert forall k :: 0 <= k < |init| ==> s[k] == init[k] != last;
      assert FirstIndex(s, last) == |s| - 1;
      assert Dedup(s)[i] == d[i] && d[i] in init;
      FirstIndexOfPrefix(init, last, d[i]);
    }
  }

  lemma FirstIndexOfPrefix<T>(init: seq<T>, last: T, x: T)
    requires x in init
    ensures FirstIndex(init + [last], x) == FirstIndex(init, x)
  {
    var s := init + [last];
    var a := FirstIndex(s, x);
    var b := FirstIndex(init, x);
    assert s[..b] == init[..b];
    assert forall k :: 0 <= k < b ==> s[k] == init[k] != x;
    assert s[b] == x;
  }

  /** Adding one occurrence of a key that the key list holds exactly once adds one to the sum;
      adding an occurrence of a value outside the key list changes nothing. */
  lemma {:induction false} MultiplicitySumAdd<T>(keys: seq<T>, m: multiset<T>, a: T)
    requires NoDuplicates(keys)
    ensures MultiplicitySum(keys, m + multiset{a}) == MultiplicitySum(keys, m) + (if a in keys then 1 else 0)
  {
    if keys != [] {
      var init := keys[..|keys| - 1];
      var k := keys[|keys| - 1];
      assert keys == init + [k];
      assert NoDuplicates(init);
      MultiplicitySumAdd(init, m, a);
      assert a in keys <==> a in init || a == k;
      assert a in init ==> a != k;
    }
  }

  /** The counts of the distinct elements of `s` add up to the length of `s`. */
  lemma {:induction false} DedupMultiplicitySum<T(!new)>(s: seq<T>)
    ensures MultiplicitySum(Dedup(s), multiset(s)) == |s|
  {
    if s != [] {
      var init := s[..|s| - 1];
      var last := s[|s| - 1];
      var d := Dedup(init);
      assert s == init + [last];
      assert multiset(s) == multiset(init) + multiset{last};
      DedupMultiplicitySum(init);
      MultiplicitySumAdd(d, multiset(init), last);
      if last !in d {
        assert Dedup(s) == d + [last];
        assert (d + [last])[..|d|] == d;
        assert last !in multiset(init);
      }
    }
  }
}
