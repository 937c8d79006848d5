/**
 * Sorting a list by a strict total order, modelled as an insertion sort:
 * Python's `sorted(...)` on strings and the key order in which pandas'
 * `groupby` (with its default `sort=True`) emits its groups.
 */
module Sorting {
  import opened Seqs

  /** `lt` is irreflexive, transitive and total. */
  ghost predicate StrictTotalOrder<T(!new)>(lt: (T, T) -> bool) {
    && (forall a :: !lt(a, a))
    && (forall a, b, c :: lt(a, b) && lt(b, c) ==> lt(a, c))
    && (forall a, b :: lt(a, b) || a == b || lt(b, a))
  }

  /** Ascending, ties allowed. */
  predicate Sorted<T(==)>(lt: (T, T) -> bool, s: seq<T>) {
    forall i, j :: 0 <= i < j < |s| ==> s[i] == s[j] || lt(s[i], s[j])
  }

  /** Ascending with no ties. */
  predicate StrictlyAscending<T>(lt: (T, T) -> bool, s: seq<T>) {
    forall i, j :: 0 <= i < j < |s| ==> lt(s[i], s[j])
  }

  /** Puts `x` in front of the first element it does not exceed. */
  function Insert<T(==)>(lt: (T, T) -> bool, x: T, s: seq<T>): (r: seq<T>)
    ensures multiset(r) == multiset(s) + multiset{x}
  {
    if s == [] then [x]
    else if x == s[0] || lt(x, s[0]) then [x] + s
    else
      assert s == [s[0]] + s[1..];
      [s[0]] + Insert(lt, x, s[1..])
  }

  /** The list in ascending order. */
  function Sort<T(==)>(lt: (T, T) -> bool, s: seq<T>): (r: seq<T>)
    ensures multiset(r) == multiset(s)
  {
    if s == [] then []
    else
      assert s == [s[0]] + s[1..];
      Insert(lt, s[0], Sort(lt, s[1..]))
  }

  /** Dropping the head of a sorted list leaves it sorted. */
  lemma SortedTail<T>(lt: (T, T) -> bool, s: seq<T>)
    requires s != [] && Sorted(lt, s)
    ensures Sorted(lt, s[1..])
  {
  }

  /** A sorted list with a head no greater than any later element stays sorted. */
  lemma SortedCons<T>(lt: (T, T) -> bool, y: T, t: seq<T>)
    requires Sorted(lt, t)
    requires forall j :: 0 <= j < |t| ==> y == t[j] || lt(y, t[j])
    ensures Sorted(lt, [y] + t)
  {
  }

  lemma {:induction false} InsertSorted<T(!new)>(lt: (T, T) -> bool, x: T, s: seq<T>)
    requires StrictTotalOrder(lt)
    requires Sorted(lt, s)
    ensures Sorted(lt, Insert(lt, x, s))
  {
    if s == [] {
    } else if x == s[0] || lt(x, s[0]) {
      forall j | 0 <= j < |s| ensures x == s[j] || lt(x, s[j]) {
        if x != s[0] && s[0] != s[j] {
          assert lt(x, s[0]) && lt(s[0], s[j]);
        }
      }
      SortedCons(lt, x, s);
    } else {
      var rest := Insert(lt, x, s[1..]);
      SortedTail(lt, s);
      InsertSorted(lt, x, s[1..]);
      assert lt(s[0], x);
      forall j | 0 <= j < |rest| ensures s[0] == rest[j] || lt(s[0], rest[j]) {
        assert rest[j] in multiset(rest);
        assert rest[j] == x || rest[j] in s[1..];
      }
      SortedCons(lt, s[0], rest);
    }
  }

  /** Sorting returns its input in ascending order. */
  lemma {:induction false} SortSorted<T(!new)>(lt: (T, T) -> bool, s: seq<T>)
    requires StrictTotalOrder(lt)
    ensures Sorted(lt, Sort(lt, s))
  {
    if s != [] {
      SortSorted(lt, s[1..]);
      InsertSorted(lt, s[0], Sort(lt, s[1..]));
    }
  }

  /** Sorting a list without duplicates gives a strictly ascending list of the same values. */
  lemma SortDistinct<T(!new)>(lt: (T, T) -> bool, s: seq<T>)
    requires StrictTotalOrder(lt)
    requires Distinct(s)
    ensures StrictlyAscending(lt, Sort(lt, s))
    ensures Distinct(Sort(lt, s))
    ensures forall x :: x in Sort(lt, s) <==> x in s
  {
    var r := Sort(lt, s);
    SortSorted(lt, s);
    DistinctPermutation(s, r);
    forall x ensures x in r <==> x in s {
      assert x in r <==> x in multiset(r);
    }
  }

  /**
   * Two strictly ascending lists with the same values are equal: the value
   * set alone fixes the sorted list of distinct values.
   */
  lemma {:induction false} StrictlyAscendingUnique<T(!new)>(lt: (T, T) -> bool, s: seq<T>, t: seq<T>)
    requires StrictTotalOrder(lt)
    requires StrictlyAscending(lt, s) && StrictlyAscending(lt, t)
    requires forall x :: x in s <==> x in t
    ensures s == t
  {
    if s == [] || t == [] {
      if s != [] { HeadIsMember(s); assert false; }
      if t != [] { HeadIsMember(t); assert false; }
    } else {
      assert s[0] in t && t[0] in s;
      assert s[0] == t[0] by {
        var i :| 0 <= i < |t| && t[i] == s[0];
        var j :| 0 <= j < |s| && s[j] == t[0];
      }
      var s', t' := s[1..], t[1..];
      forall x ensures x in s' <==> x in t' {
        if x in s' {
          var i :| 0 <= i < |s'| && s'[i] == x;
          assert lt(s[0], s[i + 1]);
          assert x in t && x != t[0];
          assert x == t[0] || x in t';
        }
        if x in t' {
          var i :| 0 <= i < |t'| && t'[i] == x;
          assert lt(t[0], t[i + 1]);
          assert x in s && x != s[0];
          assert x == s[0] || x in s';
        }
      }
      StrictlyAscendingUnique(lt, s', t');
      assert s == [s[0]] + s' && t == [t[0]] + t';
    }
  }
}
