/** Generic sequence operations that the dashboard uses everywhere: JavaScript's
    `Array.prototype.filter`, the "remove every occurrence" idiom built on it, and the
    no-duplicates property that the list store maintains. */
module Seqs {

  /** `s.filter(p)`: the elements of `s` that satisfy `p`, in their original order. */
  function Filter<T>(p: T -> bool, s: seq<T>): (r: seq<T>)
    ensures |r| <= |s|
    ensures forall i :: 0 <= i < |r| ==> r[i] in s && p(r[i])
    ensures forall i :: 0 <= i < |s| && p(s[i]) ==> s[i] in r
  {
    if s == [] then []
    else if p(s[0]) then [s[0]] + Filter(p, s[1..])
    else Filter(p, s[1..])
  }

  /** Filtering distributes over concatenation: together with the one-element case this
      says that `Filter` keeps the chosen elements in their original order. */
  lemma {:induction false} FilterConcat<T>(p: T -> bool, a: seq<T>, b: seq<T>)
    ensures Filter(p, a + b) == Filter(p, a) + Filter(p, b)
  {
    if a == [] {
      assert a + b == b;
    } else {
      assert (a + b)[0] == a[0];
      assert (a + b)[1..] == a[1..] + b;
      FilterConcat(p, a[1..], b);
    }
  }

  /** Filtering keeps every copy of a chosen element and no copy of the others. */
  lemma {:induction false} FilterMultiset<T>(p: T -> bool, s: seq<T>, x: T)
    ensures multiset(Filter(p, s))[x] == if p(x) then multiset(s)[x] else 0
  {
    if s != [] {
      assert s == [s[0]] + s[1..];
      FilterMultiset(p, s[1..], x);
    }
  }

  /** A sequence all of whose elements are chosen is left as it is. */
  lemma {:induction false} FilterKeepsAll<T>(p: T -> bool, s: seq<T>)
    requires forall i :: 0 <= i < |s| ==> p(s[i])
    ensures Filter(p, s) == s
  {
    if s != [] {
      FilterKeepsAll(p, s[1..]);
    }
  }

  /** Applying the same filter twice is the same as applying it once. */
  lemma FilterIdempotent<T>(p: T -> bool, s: seq<T>)
    ensures Filter(p, Filter(p, s)) == Filter(p, s)
  {
    var r := Filter(p, s);
    assert forall i :: 0 <= i < |r| ==> r[i] in r;
    FilterKeepsAll(p, r);
  }

  /** `s.filter(y => y !== x)`: every occurrence of `x` removed. */
  function RemoveAll<T(==)>(s: seq<T>, x: T): (r: seq<T>)
    ensures x !in r
    ensures forall i :: 0 <= i < |r| ==> r[i] in s
    ensures forall i :: 0 <= i < |s| && s[i] != x ==> s[i] in r
  {
    Filter(y => y != x, s)
  }

  /** `RemoveAll` one element at a time. */
  lemma RemoveAllCons<T>(a: T, s: seq<T>, x: T)
    ensures RemoveAll([a] + s, x) == (if a != x then [a] else []) + RemoveAll(s, x)
  {
    var t := [a] + s;
    assert t[0] == a && t[1..] == s;
  }

  /** Removing every occurrence of `x` keeps every copy of every other value. */
  lemma RemoveAllMultiset<T>(s: seq<T>, x: T, z: T)
    ensures multiset(RemoveAll(s, x))[z] == if z == x then 0 else multiset(s)[z]
  {
    FilterMultiset(y => y != x, s, z);
  }

  /** Removing a value that was just appended and was not there before restores the
      original sequence. */
  lemma RemoveAllAppended<T>(s: seq<T>, x: T)
    requires x !in s
    ensures RemoveAll(s + [x], x) == s
  {
    FilterConcat(y => y != x, s, [x]);
    FilterKeepsAll(y => y != x, s);
  }

  /** Removing every occurrence of a value never introduces a duplicate. */
  lemma RemoveAllNoDup<T>(s: seq<T>, x: T)
    requires NoDup(s)
    ensures NoDup(RemoveAll(s, x))
  {
    FilterNoDup(y => y != x, s);
  }

  /** No value occurs twice. */
  predicate NoDup<T(==)>(s: seq<T>) {
    forall i, j :: 0 <= i < j < |s| ==> s[i] != s[j]
  }

  lemma NoDupAppend<T>(s: seq<T>, x: T)
    requires NoDup(s) && x !in s
    ensures NoDup(s + [x])
  {
  }

  /** Filtering never introduces a duplicate. */
  lemma {:induction false} FilterNoDup<T>(p: T -> bool, s: seq<T>)
    requires NoDup(s)
    ensures NoDup(Filter(p, s))
  {
    if s != [] {
      assert NoDup(s[1..]);
      FilterNoDup(p, s[1..]);
      assert s[0] !in s[1..];
    }
  }
}
