/** Python's `list.sort` / `sorted`, which is stable: a stable insertion sort under a total preorder. */
module Sorting {
  import opened Seqs
  import opened LexOrder

  ghost predicate Total<T(!new)>(le: (T, T) -> bool) {
    forall a, b :: le(a, b) || le(b, a)
  }

  ghost predicate Transitive<T(!new)>(le: (T, T) -> bool) {
    forall a, b, c :: le(a, b) && le(b, c) ==> le(a, c)
  }

  ghost predicate TotalPreorder<T(!new)>(le: (T, T) -> bool) {
    Total(le) && Transitive(le)
  }

  predicate SortedBy<T>(s: seq<T>, le: (T, T) -> bool) {
    forall i, j | 0 <= i < j < |s| :: le(s[i], s[j])
  }

  /** The elements equivalent to `c` under `le`. */
  function EqClass<T>(le: (T, T) -> bool, c: T): T -> bool {
    e => le(e, c) && le(c, e)
  }

  /** Inserts `x` after every leading element that is `le` it. */
  function Insert<T>(xs: seq<T>, x: T, le: (T, T) -> bool): (r: seq<T>)
    ensures |r| == |xs| + 1
  {
    if xs == [] then [x]
    else if le(xs[0], x) then [xs[0]] + Insert(xs[1..], x, le)
    else [x] + xs
  }

  /** Stable sort: the last element is inserted into the sorted prefix. */
  function SortBy<T>(s: seq<T>, le: (T, T) -> bool): (r: seq<T>)
    ensures |r| == |s|
  {
    if s == [] then [] else Insert(SortBy(s[..|s| - 1], le), s[|s| - 1], le)
  }

  lemma {:induction false} InsertPermutes<T>(xs: seq<T>, x: T, le: (T, T) -> bool)
    ensures multiset(Insert(xs, x, le)) == multiset(xs) + multiset{x}
  {
    if xs != [] && le(xs[0], x) {
      InsertPermutes(xs[1..], x, le);
      assert xs == [xs[0]] + xs[1..];
    }
  }

  /** Sorting permutes its input. */
  lemma {:induction false} SortByPermutes<T>(s: seq<T>, le: (T, T) -> bool)
    ensures multiset(SortBy(s, le)) == multiset(s)
  {
    if s != [] {
      SortByPermutes(s[..|s| - 1], le);
      InsertPermutes(SortBy(s[..|s| - 1], le), s[|s| - 1], le);
      assert s == s[..|s| - 1] + [s[|s| - 1]];
    }
  }

  /** Sorting keeps exactly the elements of its input. */
  lemma SortByMembers<T>(s: seq<T>, le: (T, T) -> bool)
    ensures forall x :: x in SortBy(s, le) <==> x in s
  {
    SortByPermutes(s, le);
    forall x ensures x in SortBy(s, le) <==> x in s {
      assert x in SortBy(s, le) <==> x in multiset(SortBy(s, le));
      assert x in s <==> x in multiset(s);
    }
  }

  /** An element placed before a sorted list that it precedes keeps the list sorted. */
  lemma SortedCons<T>(a: T, t: seq<T>, le: (T, T) -> bool)
    requires SortedBy(t, le)
    requires forall j | 0 <= j < |t| :: le(a, t[j])
    ensures SortedBy([a] + t, le)
  {
    var s := [a] + t;
    forall i, j | 0 <= i < j < |s| ensures le(s[i], s[j]) {
      assert s[j] == t[j - 1];
      if i > 0 {
        assert s[i] == t[i - 1];
      }
    }
  }

  /** Inserting adds `x` and nothing else. */
  lemma {:induction false} InsertMember<T>(xs: seq<T>, x: T, le: (T, T) -> bool, y: T)
    ensures y in Insert(xs, x, le) ==> y == x || y in xs
  {
    if xs != [] && le(xs[0], x) {
      InsertMember(xs[1..], x, le, y);
      assert y in xs[1..] ==> y in xs;
    }
  }

  lemma {:induction false} InsertSorted<T(!new)>(xs: seq<T>, x: T, le: (T, T) -> bool)
    requires TotalPreorder(le) && SortedBy(xs, le)
    ensures SortedBy(Insert(xs, x, le), le)
  {
    if xs != [] {
      if le(xs[0], x) {
        var t := xs[1..];
        assert SortedBy(t, le) by {
          forall i, j | 0 <= i < j < |t| ensures le(t[i], t[j]) {
            assert t[i] == xs[i + 1] && t[j] == xs[j + 1];
          }
        }
        InsertSorted(t, x, le);
        var r' := Insert(t, x, le);
        forall j | 0 <= j < |r'| ensures le(xs[0], r'[j]) {
          InsertMember(t, x, le, r'[j]);
          if r'[j] != x {
            var k :| 0 <= k < |t| && t[k] == r'[j];
            assert xs[k + 1] == t[k];
          }
        }
        SortedCons(xs[0], r', le);
      } else {
        assert le(x, xs[0]);
        forall j | 0 <= j < |xs| ensures le(x, xs[j]) {
          if j > 0 {
            assert le(xs[0], xs[j]);
          }
        }
        SortedCons(x, xs, le);
      }
    }
  }

  /** Sorting under a total preorder gives an ordered list. */
  lemma {:induction false} SortBySorted<T(!new)>(s: seq<T>, le: (T, T) -> bool)
    requires TotalPreorder(le)
    ensures SortedBy(SortBy(s, le), le)
  {
    if s != [] {
      SortBySorted(s[..|s| - 1], le);
      InsertSorted(SortBy(s[..|s| - 1], le), s[|s| - 1], le);
    }
  }

  lemma {:induction false} FilterCons<T>(a: T, t: seq<T>, p: T -> bool)
    ensures Filter([a] + t, p) == (if p(a) then [a] else []) + Filter(t, p)
  {
    FilterAppend([a], t, p);
    assert [a][..0] == [];
  }

  /** When `x` goes in front, no element of `xs` is equivalent to both `c` and `x`. */
  lemma InsertFrontFilter<T(!new)>(xs: seq<T>, x: T, le: (T, T) -> bool, c: T)
    requires TotalPreorder(le) && SortedBy(xs, le)
    requires xs != [] && !le(xs[0], x)
    ensures Filter([x] + xs, EqClass(le, c)) == Filter(xs, EqClass(le, c)) + (if EqClass(le, c)(x) then [x] else [])
  {
    var p := EqClass(le, c);
    FilterCons(x, xs, p);
    if p(x) {
      forall y | y in xs ensures !p(y) {
        var j :| 0 <= j < |xs| && xs[j] == y;
        assert le(xs[0], y);
      }
      FilterNone(xs, p);
    }
  }

  lemma {:induction false} ConsFilter<T>(a: T, u: seq<T>, t: seq<T>, tail: seq<T>, p: T -> bool)
    requires Filter(u, p) == Filter(t, p) + tail
    ensures Filter([a] + u, p) == Filter([a] + t, p) + tail
  {
    var h := if p(a) then [a] else [];
    FilterCons(a, u, p);
    FilterCons(a, t, p);
    assert h + (Filter(t, p) + tail) == (h + Filter(t, p)) + tail;
  }

  lemma {:induction false} InsertFilter<T(!new)>(xs: seq<T>, x: T, le: (T, T) -> bool, c: T)
    requires TotalPreorder(le) && SortedBy(xs, le)
    ensures Filter(Insert(xs, x, le), EqClass(le, c))
         == Filter(xs, EqClass(le, c)) + (if EqClass(le, c)(x) then [x] else [])
  {
    var p := EqClass(le, c);
    if xs == [] {
      assert Insert(xs, x, le) == [] + [x];
      FilterAppend([], [x], p);
    } else if le(xs[0], x) {
      InsertFilter(xs[1..], x, le, c);
      ConsFilter(xs[0], Insert(xs[1..], x, le), xs[1..], if p(x) then [x] else [], p);
      assert xs == [xs[0]] + xs[1..];
    } else {
      InsertFrontFilter(xs, x, le, c);
    }
  }

  /** Sorting is stable: the elements equivalent to any `c` keep their input order. */
  lemma {:induction false} SortByStable<T(!new)>(s: seq<T>, le: (T, T) -> bool, c: T)
    requires TotalPreorder(le)
    ensures Filter(SortBy(s, le), EqClass(le, c)) == Filter(s, EqClass(le, c))
  {
    if s != [] {
      SortByStable(s[..|s| - 1], le, c);
      SortBySorted(s[..|s| - 1], le);
      InsertFilter(SortBy(s[..|s| - 1], le), s[|s| - 1], le, c);
    }
  }

  lemma {:induction false} CountCons<T>(a: T, t: seq<T>, p: T -> bool)
    ensures Count([a] + t, p) == (if p(a) then 1 else 0) + Count(t, p)
  {
    CountAppend([a], t, p);
    assert [a][..0] == [];
  }

  lemma {:induction false} CountInsert<T>(xs: seq<T>, x: T, le: (T, T) -> bool, p: T -> bool)
    ensures Count(Insert(xs, x, le), p) == Count(xs, p) + (if p(x) then 1 else 0)
  {
    if xs == [] {
      assert Insert(xs, x, le) == [] + [x];
    } else if le(xs[0], x) {
      CountInsert(xs[1..], x, le, p);
      CountCons(xs[0], Insert(xs[1..], x, le), p);
      CountCons(xs[0], xs[1..], p);
      assert xs == [xs[0]] + xs[1..];
    } else {
      CountCons(x, xs, p);
    }
  }

  /** Sorting does not change how many elements satisfy a predicate. */
  lemma {:induction false} CountSortBy<T>(s: seq<T>, le: (T, T) -> bool, p: T -> bool)
    ensures Count(SortBy(s, le), p) == Count(s, p)
  {
    if s != [] {
      CountSortBy(s[..|s| - 1], le, p);
      CountInsert(SortBy(s[..|s| - 1], le), s[|s| - 1], le, p);
    }
  }

  lemma {:induction false} InsertDistinct<T>(xs: seq<T>, x: T, le: (T, T) -> bool)
    requires Distinct(xs) && x !in xs
    ensures Distinct(Insert(xs, x, le))
  {
    if xs != [] && le(xs[0], x) {
      InsertDistinct(xs[1..], x, le);
      var r' := Insert(xs[1..], x, le);
      InsertPermutes(xs[1..], x, le);
      assert forall j | 0 <= j < |r'| :: r'[j] in multiset(xs[1..]) + multiset{x};
      assert forall j | 0 <= j < |r'| :: r'[j] != xs[0];
    }
  }

  /** Sorting a list without repetitions gives a list without repetitions. */
  lemma {:induction false} SortByDistinct<T>(s: seq<T>, le: (T, T) -> bool)
    requires Distinct(s)
    ensures Distinct(SortBy(s, le))
  {
    if s != [] {
      var s' := s[..|s| - 1];
      SortByDistinct(s', le);
      SortByPermutes(s', le);
      assert s[|s| - 1] !in multiset(SortBy(s', le));
      InsertDistinct(SortBy(s', le), s[|s| - 1], le);
    }
  }

  /** `sorted(xs)` for strings. */
  function SortStrings(xs: seq<string>): seq<string> {
    SortBy(xs, LexLe)
  }

  lemma LexTotalPreorder()
    ensures TotalPreorder(LexLe)
  {
    forall a, b ensures LexLe(a, b) || LexLe(b, a) {
      LexTotal(a, b);
    }
    forall a, b, c | LexLe(a, b) && LexLe(b, c) ensures LexLe(a, c) {
      LexTrans(a, b, c);
    }
  }

  /** `sorted(set)`: ascending, no repetitions, and the same elements as the set. */
  lemma SortStringsOfSet(xs: seq<string>)
    requires Distinct(xs)
    ensures Distinct(SortStrings(xs))
    ensures forall i, j | 0 <= i < j < |SortStrings(xs)| :: LexLe(SortStrings(xs)[i], SortStrings(xs)[j])
    ensures forall x :: x in SortStrings(xs) <==> x in xs
  {
    LexTotalPreorder();
    SortBySorted(xs, LexLe);
    SortByDistinct(xs, LexLe);
    SortByMembers(xs, LexLe);
  }

  /** A prefix of a sorted list is sorted. */
  lemma TakeSorted<T>(s: seq<T>, n: nat, le: (T, T) -> bool)
    requires SortedBy(s, le)
    ensures SortedBy(Take(s, n), le)
  {
  }
}
