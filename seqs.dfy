/**
 * Sequence helpers shared by the option lists and the group-by: distinctness,
 * the position of a value's first occurrence, and the first-occurrence
 * de-duplication that pandas' `Series.unique` performs.
 */
module Seqs {

  /** No value occurs twice in `s`. */
  predicate Distinct<T(==)>(s: seq<T>) {
    forall i, j :: 0 <= i < j < |s| ==> s[i] != s[j]
  }

  /** The head of a non-empty sequence is one of its members. */
  lemma HeadIsMember<T>(s: seq<T>)
    requires s != []
    ensures s[0] in s
  {
  }

  /** The index of the first occurrence of `x` in `s`. */
  function FirstIndex<T(==)>(s: seq<T>, x: T): (i: nat)
    requires x in s
    ensures i < |s| && s[i] == x
    ensures forall j :: 0 <= j < i ==> s[j] != x
  {
    if s[0] == x then 0 else 1 + FirstIndex(s[1..], x)
  }

  /** A value that already occurs in a prefix first occurs at the same place in the whole. */
  lemma FirstIndexInPrefix<T>(s: seq<T>, k: nat, x: T)
    requires k <= |s| && x in s[..k]
    ensures FirstIndex(s, x) == FirstIndex(s[..k], x)
  {
    var i := FirstIndex(s[..k], x);
    var j := FirstIndex(s, x);
    assert s[i] == s[..k][i] == x;
    assert j <= i;
    assert s[..k][j] == s[j] == x;
  }

  /**
   * `Series.unique`: every value of `s` once, in order of first appearance;
   * nothing is sorted.
   */
  function Unique<T(==)>(s: seq<T>): (r: seq<T>)
    ensures Distinct(r)
    ensures forall i :: 0 <= i < |r| ==> r[i] in s
    ensures forall i :: 0 <= i < |s| ==> s[i] in r
  {
    if s == [] then []
    else
      var u := Unique(s[..|s| - 1]);
      var x := s[|s| - 1];
      assert forall i :: 0 <= i < |s| - 1 ==> s[i] == s[..|s| - 1][i];
      if x in u then u else u + [x]
  }

  /** The values `Unique` keeps stand in the order of their first occurrence in `s`. */
  lemma {:induction false} UniqueFirstOccurrenceOrder<T>(s: seq<T>)
    ensures forall i, j :: 0 <= i < j < |Unique(s)| ==> FirstIndex(s, Unique(s)[i]) < FirstIndex(s, Unique(s)[j])
  {
    if s != [] {
      var init := s[..|s| - 1];
      var u := Unique(init);
      var x := s[|s| - 1];
      UniqueFirstOccurrenceOrder(init);
      forall y | y in u ensures FirstIndex(s, y) == FirstIndex(init, y) {
        FirstIndexInPrefix(s, |s| - 1, y);
      }
      if x !in u {
        assert x !in init;
        assert FirstIndex(s, x) == |s| - 1;
      }
    }
  }

  /** The tail of a distinct sequence is distinct and lacks the head. */
  lemma DistinctTail<T>(s: seq<T>)
    requires s != [] && Distinct(s)
    ensures Distinct(s[1..]) && s[0] !in s[1..]
  {
  }

  /** A distinct sequence holds each value at most once. */
  lemma {:induction false} DistinctCount<T>(s: seq<T>, x: T)
    requires Distinct(s)
    ensures multiset(s)[x] <= 1
  {
    if s != [] {
      DistinctTail(s);
      DistinctCount(s[1..], x);
      assert s == [s[0]] + s[1..];
    }
  }

  /** Distinctness depends only on the multiset of values. */
  lemma DistinctPermutation<T>(s: seq<T>, t: seq<T>)
    requires Distinct(s) && multiset(s) == multiset(t)
    ensures Distinct(t)
  {
    forall i, j | 0 <= i < j < |t| ensures t[i] != t[j] {
      if t[i] == t[j] {
        var x := t[i];
        assert t == t[..j] + t[j..];
        assert x in t[..j] && x in t[j..];
        assert multiset(t)[x] == multiset(t[..j])[x] + multiset(t[j..])[x];
        DistinctCount(s, x);
        assert false;
      }
    }
  }
}
