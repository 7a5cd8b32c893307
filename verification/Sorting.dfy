/** The library sort the program relies on: stable, by a total preorder. Also consecutive
    deduplication, and the lexicographic order derived for records of strings. */
module Sorting {

  ghost predicate TotalPreorder<T(!new)>(le: (T, T) -> bool) {
    && (forall x, y :: le(x, y) || le(y, x))
    && (forall x, y, z :: le(x, y) && le(y, z) ==> le(x, z))
  }

  ghost predicate TotalOrder<T(!new)>(le: (T, T) -> bool) {
    TotalPreorder(le) && forall x, y :: le(x, y) && le(y, x) ==> x == y
  }

  ghost predicate Sorted<T>(s: seq<T>, le: (T, T) -> bool) {
    forall i, j :: 0 <= i < j < |s| ==> le(s[i], s[j])
  }

  /** Sorted without repetitions. */
  ghost predicate StrictlySorted<T>(s: seq<T>, le: (T, T) -> bool) {
    forall i, j :: 0 <= i < j < |s| ==> le(s[i], s[j]) && s[i] != s[j]
  }

  /** Insert x after every element that may stand before it. */
  function Insert<T>(x: T, s: seq<T>, le: (T, T) -> bool): (r: seq<T>)
    ensures |r| == |s| + 1
  {
    if s == [] || le(s[|s| - 1], x) then s + [x]
    else Insert(x, s[..|s| - 1], le) + [s[|s| - 1]]
  }

  function Sort<T>(s: seq<T>, le: (T, T) -> bool): (r: seq<T>)
    ensures |r| == |s|
  {
    if s == [] then [] else Insert(s[|s| - 1], Sort(s[..|s| - 1], le), le)
  }

  lemma {:induction false} InsertKeeps<T>(x: T, s: seq<T>, le: (T, T) -> bool)
    ensures multiset(Insert(x, s, le)) == multiset(s) + multiset{x}
  {
    if s != [] && !le(s[|s| - 1], x) {
      var front, last := s[..|s| - 1], s[|s| - 1];
      InsertKeeps(x, front, le);
      assert s == front + [last];
      assert multiset(Insert(x, s, le)) == multiset(Insert(x, front, le)) + multiset{last};
    }
  }

  lemma SortedAppend<T>(s: seq<T>, y: T, le: (T, T) -> bool)
    requires Sorted(s, le) && forall z :: z in s ==> le(z, y)
    ensures Sorted(s + [y], le)
  {
  }

  lemma {:induction false} InsertSorts<T(!new)>(x: T, s: seq<T>, le: (T, T) -> bool)
    requires TotalPreorder(le) && Sorted(s, le)
    ensures Sorted(Insert(x, s, le), le)
  {
    if s == [] || le(s[|s| - 1], x) {
      forall z | z in s
        ensures le(z, x)
      {
        LastIsGreatest(s, z, le);
      }
      SortedAppend(s, x, le);
    } else {
      var front, last := s[..|s| - 1], s[|s| - 1];
      InsertSorts(x, front, le);
      InsertKeeps(x, front, le);
      forall z | z in Insert(x, front, le)
        ensures le(z, last)
      {
        SameElements(Insert(x, front, le), front + [x], z);
        assert z != x ==> z in front;
      }
      SortedAppend(Insert(x, front, le), last, le);
    }
  }

  lemma InsertSorted<T(!new)>(x: T, s: seq<T>, le: (T, T) -> bool)
    requires TotalPreorder(le) && Sorted(s, le)
    ensures Sorted(Insert(x, s, le), le)
    ensures multiset(Insert(x, s, le)) == multiset(s) + multiset{x}
  {
    hide Insert, Sorted, TotalPreorder;
    InsertSorts(x, s, le);
    InsertKeeps(x, s, le);
  }

  lemma EmptySorted<T>(le: (T, T) -> bool)
    ensures Sorted([], le) && Sort([], le) == []
  {
  }

  lemma {:induction false} SortSorts<T(!new)>(s: seq<T>, le: (T, T) -> bool)
    requires TotalPreorder(le)
    ensures Sorted(Sort(s, le), le)
    ensures multiset(Sort(s, le)) == multiset(s)
  {
    hide Insert, Sorted, TotalPreorder;
    if s == [] {
      EmptySorted(le);
    } else {
      var front, last := s[..|s| - 1], s[|s| - 1];
      SortSorts(front, le);
      InsertSorted(last, Sort(front, le), le);
      assert Sort(s, le) == Insert(last, Sort(front, le), le);
      assert s == front + [last];
    }
  }

  lemma SameElements<T>(a: seq<T>, b: seq<T>, x: T)
    requires multiset(a) == multiset(b)
    ensures x in a <==> x in b
  {
    assert x in a <==> x in multiset(a);
    assert x in b <==> x in multiset(b);
  }

  lemma LastIsGreatest<T>(s: seq<T>, x: T, le: (T, T) -> bool)
    requires Sorted(s, le) && x in s
    ensures x == s[|s| - 1] || le(x, s[|s| - 1])
  {
  }

  lemma FrontElements<T>(s: seq<T>)
    requires s != []
    ensures multiset(s[..|s| - 1]) == multiset(s) - multiset{s[|s| - 1]}
    ensures forall x :: x in s[..|s| - 1] ==> x in s
  {
    assert s == s[..|s| - 1] + [s[|s| - 1]];
  }

  /** Two sorted arrangements of the same elements are equal once no two different elements tie. */
  lemma {:induction false} SortedUnique<T(!new)>(a: seq<T>, b: seq<T>, le: (T, T) -> bool)
    requires Sorted(a, le) && Sorted(b, le) && multiset(a) == multiset(b)
    requires forall x, y :: x in a && y in a && le(x, y) && le(y, x) ==> x == y
    ensures a == b
  {
    assert |a| == |multiset(a)| == |multiset(b)| == |b|;
    if a != [] {
      var n := |a| - 1;
      SameElements(a, b, a[n]);
      SameElements(a, b, b[n]);
      LastIsGreatest(b, a[n], le);
      LastIsGreatest(a, b[n], le);
      assert a[n] == b[n];
      FrontElements(a);
      FrontElements(b);
      SortedUnique(a[..n], b[..n], le);
    }
  }

  // ---- consecutive deduplication ---------------------------------------------------------------

  function Dedup<T(==)>(s: seq<T>): (r: seq<T>)
    ensures |r| <= |s|
    ensures s != [] ==> r != [] && r[|r| - 1] == s[|s| - 1]
  {
    if |s| <= 1 then s
    else if s[|s| - 2] == s[|s| - 1] then Dedup(s[..|s| - 1])
    else Dedup(s[..|s| - 1]) + [s[|s| - 1]]
  }

  lemma {:induction false} DedupSorted<T(!new)>(s: seq<T>, le: (T, T) -> bool)
    requires TotalOrder(le) && Sorted(s, le)
    ensures StrictlySorted(Dedup(s), le)
    ensures forall x :: x in Dedup(s) <==> x in s
  {
    if |s| > 1 {
      var n := |s| - 1;
      DedupSorted(s[..n], le);
      assert s == s[..n] + [s[n]];
      if s[n - 1] != s[n] {
        forall x | x in Dedup(s[..n])
          ensures le(x, s[n]) && x != s[n]
        {
          assert x in s[..n];
          var i :| 0 <= i < n && s[i] == x;
          assert le(s[i], s[n - 1]) || i == n - 1;
          assert le(s[n - 1], s[n]);
        }
      }
    }
  }

  // ---- lexicographic order ---------------------------------------------------------------------

  predicate LexLe<T(==)>(a: seq<T>, b: seq<T>, le: (T, T) -> bool) {
    a == [] || (b != [] && (if a[0] == b[0] then LexLe(a[1..], b[1..], le) else le(a[0], b[0])))
  }

  lemma {:induction false} LexTotal<T(!new)>(a: seq<T>, b: seq<T>, le: (T, T) -> bool)
    requires TotalOrder(le)
    ensures LexLe(a, b, le) || LexLe(b, a, le)
    ensures LexLe(a, b, le) && LexLe(b, a, le) ==> a == b
  {
    if a != [] && b != [] && a[0] == b[0] {
      LexTotal(a[1..], b[1..], le);
      assert a == [a[0]] + a[1..] && b == [b[0]] + b[1..];
    }
  }

  lemma {:induction false} LexTransitive<T(!new)>(a: seq<T>, b: seq<T>, c: seq<T>, le: (T, T) -> bool)
    requires TotalOrder(le) && LexLe(a, b, le) && LexLe(b, c, le)
    ensures LexLe(a, c, le)
  {
    if a != [] && a[0] == b[0] == c[0] {
      LexTransitive(a[1..], b[1..], c[1..], le);
    }
  }
}
