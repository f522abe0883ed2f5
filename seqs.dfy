/** Sequence helpers shared by the detectors: counting, de-duplication and capping. */
module Seqs {

  /** No element occurs twice. */
  predicate Distinct<T(==)>(s: seq<T>) {
    forall i, j | 0 <= i < j < |s| :: s[i] != s[j]
  }

  /** Number of elements satisfying `p` (`sum(1 for x in s if p(x))`). */
  function Count<T>(s: seq<T>, p: T -> bool): (n: nat)
    ensures n <= |s|
  {
    if s == [] then 0 else Count(s[..|s| - 1], p) + (if p(s[|s| - 1]) then 1 else 0)
  }

  lemma CountSnoc<T>(s: seq<T>, x: T, p: T -> bool)
    ensures Count(s + [x], p) == Count(s, p) + (if p(x) then 1 else 0)
  {
    assert (s + [x])[..|s|] == s;
  }

  lemma CountAppend<T>(a: seq<T>, b: seq<T>, p: T -> bool)
    ensures Count(a + b, p) == Count(a, p) + Count(b, p)
    decreases |b|
  {
    if b == [] {
      assert a + b == a;
    } else {
      assert (a + b)[..|a + b| - 1] == a + b[..|b| - 1];
      CountAppend(a, b[..|b| - 1], p);
    }
  }

  /** Counting only looks at which elements satisfy the predicate. */
  lemma CountExt<T>(s: seq<T>, p: T -> bool, q: T -> bool)
    requires forall x | x in s :: p(x) == q(x)
    ensures Count(s, p) == Count(s, q)
  {
    if s != [] {
      assert forall x | x in s[..|s| - 1] :: x in s;
      CountExt(s[..|s| - 1], p, q);
    }
  }

  /** A count can only grow when the predicate is weakened. */
  lemma {:induction false} CountMono<T>(s: seq<T>, p: T -> bool, q: T -> bool)
    requires forall x | x in s :: p(x) ==> q(x)
    ensures Count(s, p) <= Count(s, q)
  {
    if s != [] {
      assert forall x | x in s[..|s| - 1] :: x in s;
      assert s[|s| - 1] in s;
      CountMono(s[..|s| - 1], p, q);
    }
  }

  /** Count is the length when every element satisfies the predicate. */
  lemma {:induction false} CountEvery<T>(s: seq<T>, p: T -> bool)
    requires forall i | 0 <= i < |s| :: p(s[i])
    ensures Count(s, p) == |s|
  {
    if s != [] {
      CountEvery(s[..|s| - 1], p);
    }
  }

  /** Count is zero exactly when no element satisfies the predicate. */
  lemma CountZero<T>(s: seq<T>, p: T -> bool)
    ensures Count(s, p) == 0 <==> forall i | 0 <= i < |s| :: !p(s[i])
  {
    if s != [] {
      CountZero(s[..|s| - 1], p);
      assert forall i | 0 <= i < |s| - 1 :: s[..|s| - 1][i] == s[i];
    }
  }

  /** Either the element satisfies `p` or it doesn't: the two counts add up to the length. */
  lemma CountComplement<T>(s: seq<T>, p: T -> bool, q: T -> bool)
    requires forall x | x in s :: q(x) == !p(x)
    ensures Count(s, p) + Count(s, q) == |s|
  {
    if s != [] {
      assert forall x | x in s[..|s| - 1] :: x in s;
      CountComplement(s[..|s| - 1], p, q);
    }
  }

  /** The elements satisfying `p`, in order (`[x for x in s if p(x)]`). */
  function Filter<T>(s: seq<T>, p: T -> bool): (r: seq<T>)
    ensures |r| == Count(s, p)
  {
    if s == [] then [] else Filter(s[..|s| - 1], p) + (if p(s[|s| - 1]) then [s[|s| - 1]] else [])
  }

  /** Only elements of `s` satisfying `p` pass the filter. */
  lemma {:induction false} FilterSound<T>(s: seq<T>, p: T -> bool)
    ensures forall x | x in Filter(s, p) :: x in s && p(x)
  {
    if s != [] {
      FilterSound(s[..|s| - 1], p);
      assert forall x | x in s[..|s| - 1] :: x in s;
    }
  }

  lemma FilterAppend<T>(a: seq<T>, b: seq<T>, p: T -> bool)
    ensures Filter(a + b, p) == Filter(a, p) + Filter(b, p)
    decreases |b|
  {
    if b == [] {
      assert a + b == a;
    } else {
      assert (a + b)[..|a + b| - 1] == a + b[..|b| - 1];
      FilterAppend(a, b[..|b| - 1], p);
    }
  }

  lemma FilterSnoc<T>(s: seq<T>, j: nat, p: T -> bool)
    requires j < |s|
    ensures Filter(s[..j + 1], p) == Filter(s[..j], p) + (if p(s[j]) then [s[j]] else [])
  {
    assert s[..j + 1][..j] == s[..j];
  }

  /** Filtering keeps every element of `s` satisfying `p`. */
  lemma FilterComplete<T>(s: seq<T>, p: T -> bool, x: T)
    requires x in s && p(x)
    ensures x in Filter(s, p)
  {
    if x != s[|s| - 1] {
      assert x in s[..|s| - 1];
      FilterComplete(s[..|s| - 1], p, x);
    }
  }

  /** Filtering a list without repetitions gives a list without repetitions. */
  lemma {:induction false} FilterDistinct<T>(s: seq<T>, p: T -> bool)
    requires Distinct(s)
    ensures Distinct(Filter(s, p))
  {
    if s != [] {
      var s' := s[..|s| - 1];
      assert Distinct(s');
      FilterDistinct(s', p);
      FilterSound(s', p);
      assert s[|s| - 1] !in s';
    }
  }

  /** A list whose every element satisfies `p` passes the filter whole. */
  lemma {:induction false} FilterAll<T>(s: seq<T>, p: T -> bool)
    requires forall i | 0 <= i < |s| :: p(s[i])
    ensures Filter(s, p) == s
  {
    if s != [] {
      FilterAll(s[..|s| - 1], p);
    }
  }

  /** Nothing passes a filter that no element satisfies. */
  lemma FilterNone<T>(s: seq<T>, p: T -> bool)
    requires forall x | x in s :: !p(x)
    ensures Filter(s, p) == []
  {
    if s != [] {
      assert forall x | x in s[..|s| - 1] :: x in s;
      FilterNone(s[..|s| - 1], p);
    }
  }

  /** The first occurrence of every element, in input order (`list(dict.fromkeys(s))`). */
  function Dedup<T(==)>(s: seq<T>): (r: seq<T>)
    ensures Distinct(r)
    ensures forall x | x in r :: x in s
    ensures forall x | x in s :: x in r
    ensures |r| <= |s|
  {
    if s == [] then []
    else
      var r' := Dedup(s[..|s| - 1]);
      var x := s[|s| - 1];
      assert s == s[..|s| - 1] + [x];
      if x in s[..|s| - 1] then r' else r' + [x]
  }

  /** The first `n` elements, or all of them (`s[:n]`). */
  function Take<T>(s: seq<T>, n: nat): (r: seq<T>)
    ensures |r| <= n && |r| <= |s|
    ensures |r| == if |s| <= n then |s| else n
    ensures r <= s
  {
    if |s| <= n then s else s[..n]
  }

  /** The concatenation of `f(x)` over `s`, in order (`[y for x in s for y in f(x)]`). */
  function FlatMap<T, U>(s: seq<T>, f: T -> seq<U>): seq<U> {
    if s == [] then [] else FlatMap(s[..|s| - 1], f) + f(s[|s| - 1])
  }

  lemma FlatMapSnoc<T, U>(s: seq<T>, x: T, f: T -> seq<U>)
    ensures FlatMap(s + [x], f) == FlatMap(s, f) + f(x)
  {
    assert (s + [x])[..|s|] == s;
  }

  /** One more element of `s` scanned appends its image. */
  lemma FlatMapStep<T, U>(s: seq<T>, i: nat, f: T -> seq<U>)
    requires i < |s|
    ensures FlatMap(s[..i + 1], f) == FlatMap(s[..i], f) + f(s[i])
  {
    assert s[..i + 1] == s[..i] + [s[i]];
    FlatMapSnoc(s[..i], s[i], f);
  }

  /** An element of the flattened list comes from some element of `s`, and every element of every
      `f(x)` is in it. */
  lemma {:induction false} FlatMapMember<T, U>(s: seq<T>, f: T -> seq<U>, y: U)
    ensures y in FlatMap(s, f) <==> exists x | x in s :: y in f(x)
  {
    if s != [] {
      var s' := s[..|s| - 1];
      FlatMapMember(s', f, y);
      assert s == s' + [s[|s| - 1]];
      assert forall x | x in s' :: x in s;
    }
  }

  /** A list without repetitions has as many elements as the set of its elements. */
  lemma {:induction false} DistinctCard<T>(s: seq<T>)
    requires Distinct(s)
    ensures |set x | x in s| == |s|
  {
    if s != [] {
      var s' := s[..|s| - 1];
      var x := s[|s| - 1];
      DistinctCard(s');
      assert s == s' + [x];
      assert x !in s';
      assert (set y | y in s) == (set y | y in s') + {x};
    }
  }

  /** A sequence without repetitions that holds exactly the elements of a set is as long as the set is large. */
  lemma DistinctSetSize<T>(s: seq<T>, xs: set<T>)
    requires Distinct(s)
    requires forall x :: x in s <==> x in xs
    ensures |s| == |xs|
  {
    DistinctCard(s);
    assert (set x | x in s) == xs;
  }

  /** Scanning a prefix yields a prefix of the flattened list. */
  lemma {:induction false} FlatMapPrefix<T, U>(s: seq<T>, i: nat, f: T -> seq<U>)
    requires i <= |s|
    ensures FlatMap(s[..i], f) <= FlatMap(s, f)
    decreases |s| - i
  {
    if i < |s| {
      FlatMapPrefix(s, i + 1, f);
      assert s[..i + 1] == s[..i] + [s[i]];
      FlatMapSnoc(s[..i], s[i], f);
    } else {
      assert s[..i] == s;
    }
  }

  /** When every `f(x)` has at most one element and tags it with `x`, the flattened list over a list
      without repetitions carries every tag at most once. */
  lemma {:induction false} FlatMapTagsDistinct<T, U>(s: seq<T>, f: T -> seq<U>, tag: U -> T)
    requires Distinct(s)
    requires forall x | x in s :: |f(x)| <= 1 && forall y | y in f(x) :: tag(y) == x
    ensures forall i, j | 0 <= i < j < |FlatMap(s, f)| :: tag(FlatMap(s, f)[i]) != tag(FlatMap(s, f)[j])
  {
    if s != [] {
      var s' := s[..|s| - 1];
      var x := s[|s| - 1];
      assert s == s' + [x];
      assert forall z | z in s' :: z in s;
      FlatMapTagsDistinct(s', f, tag);
      var a := FlatMap(s', f);
      FlatMapSnoc(s', x, f);
      assert x !in s';
      forall y | y in a
        ensures tag(y) != x
      {
        FlatMapMember(s', f, y);
      }
      forall i, j | 0 <= i < j < |FlatMap(s, f)|
        ensures tag(FlatMap(s, f)[i]) != tag(FlatMap(s, f)[j])
      {
        if j >= |a| {
          assert FlatMap(s, f)[j] in f(x);
          assert FlatMap(s, f)[i] == a[i];
          assert a[i] in a;
        }
      }
    }
  }
}
