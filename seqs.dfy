/** Generic sequence helpers shared by the three journal stores. */
module Seqs {

  /** A value that may be absent: an unset storage key, a missing JSON field. */
  datatype Option<T> = None | Some(value: T) {
    function GetOr(default: T): T {
      if Some? then value else default
    }
  }

  /** No element occurs twice. */
  predicate NoDups<T(==)>(s: seq<T>) {
    forall i, j :: 0 <= i < j < |s| ==> s[i] != s[j]
  }

  /** `r` is obtained from `s` by dropping elements, without reordering the rest. */
  predicate Subsequence<T(==)>(r: seq<T>, s: seq<T>)
    decreases |s|
  {
    if r == [] then true
    else if s == [] then false
    else (r[0] == s[0] && Subsequence(r[1..], s[1..])) || Subsequence(r, s[1..])
  }

  /** The array filter `s.filter(x => key(x) !== k)` used by every delete in the journal
      and by the cache purge: every element whose key is `k` is dropped, every other
      element is kept. */
  function RemoveKey<T, K(==)>(s: seq<T>, key: T -> K, k: K): (r: seq<T>)
    ensures |r| <= |s|
    ensures forall x :: x in r ==> x in s && key(x) != k
    ensures forall x :: x in s && key(x) != k ==> x in r
  {
    if s == [] then []
    else if key(s[0]) == k then RemoveKey(s[1..], key, k)
    else [s[0]] + RemoveKey(s[1..], key, k)
  }

  /** The filter works element by element: filtering a concatenation filters each part,
      so the kept elements stay in their original relative order. */
  lemma {:induction false} RemoveKeyAppend<T, K>(a: seq<T>, b: seq<T>, key: T -> K, k: K)
    ensures RemoveKey(a + b, key, k) == RemoveKey(a, key, k) + RemoveKey(b, key, k)
  {
    if a == [] {
      assert a + b == b;
    } else {
      assert (a + b)[0] == a[0];
      assert (a + b)[1..] == a[1..] + b;
      RemoveKeyAppend(a[1..], b, key, k);
    }
  }

  /** The filtered sequence is a subsequence of the input. */
  lemma {:induction false} RemoveKeySubsequence<T, K>(s: seq<T>, key: T -> K, k: K)
    ensures Subsequence(RemoveKey(s, key, k), s)
  {
    if s != [] {
      RemoveKeySubsequence(s[1..], key, k);
      var r := RemoveKey(s, key, k);
      if key(s[0]) == k {
        if r != [] {
          assert Subsequence(r, s[1..]);
        }
      } else {
        assert r[0] == s[0] && r[1..] == RemoveKey(s[1..], key, k);
      }
    }
  }

  /** The filter keeps every element with another key as often as it occurs and drops
      every element with the key. */
  lemma {:induction false} RemoveKeyCounts<T, K>(s: seq<T>, key: T -> K, k: K)
    ensures forall x :: multiset(RemoveKey(s, key, k))[x] == if key(x) == k then 0 else multiset(s)[x]
  {
    if s != [] {
      RemoveKeyCounts(s[1..], key, k);
      assert s == [s[0]] + s[1..];
      assert multiset(s) == multiset{s[0]} + multiset(s[1..]);
      if key(s[0]) != k {
        assert multiset(RemoveKey(s, key, k)) == multiset{s[0]} + multiset(RemoveKey(s[1..], key, k));
      }
    }
  }

  /** Filtering out a key nobody has changes nothing. */
  lemma {:induction false} RemoveKeyAbsent<T, K>(s: seq<T>, key: T -> K, k: K)
    requires forall x :: x in s ==> key(x) != k
    ensures RemoveKey(s, key, k) == s
  {
    if s != [] {
      assert s[0] in s;
      assert forall x :: x in s[1..] ==> x in s;
      RemoveKeyAbsent(s[1..], key, k);
      assert [s[0]] + s[1..] == s;
    }
  }

  /** The filter shortens the sequence exactly when some element carries the key. */
  lemma {:induction false} RemoveKeyShorter<T, K>(s: seq<T>, key: T -> K, k: K)
    ensures |RemoveKey(s, key, k)| < |s| <==> exists x :: x in s && key(x) == k
  {
    if s == [] {
    } else {
      RemoveKeyShorter(s[1..], key, k);
      assert s[0] in s;
      assert forall x :: x in s ==> x == s[0] || x in s[1..];
      assert forall x :: x in s[1..] ==> x in s;
    }
  }
}
