/** Order-preserving sequence operations: the model's `List` filtering. */
module Seqs {

  predicate NoDuplicates<T(==)>(s: seq<T>) {
    forall i, j :: 0 <= i < j < |s| ==> s[i] != s[j]
  }

  /** `a` is `b` with some elements dropped, the rest kept in their order. */
  predicate IsSubsequence<T(==)>(a: seq<T>, b: seq<T>)
    decreases |b|
  {
    || |a| == 0
    || (&& |b| > 0
        && (|| (a[|a| - 1] == b[|b| - 1] && IsSubsequence(a[..|a| - 1], b[..|b| - 1]))
            || IsSubsequence(a, b[..|b| - 1])))
  }

  /** The elements of `s` that satisfy `keep`, in their original order — the shape of a
      `for (x : s) if (keep(x)) out.add(x)` loop and of `List.removeAll`. */
  function Filter<T(==, !new)>(keep: T -> bool, s: seq<T>): (r: seq<T>)
    ensures |r| <= |s|
    ensures forall x :: x in r <==> x in s && keep(x)
    decreases |s|
  {
    if |s| == 0 then []
    else
      var init := s[..|s| - 1];
      var last := s[|s| - 1];
      assert s == init + [last];
      Filter(keep, init) + (if keep(last) then [last] else [])
  }

  /** `List.removeAll(drop)` on a fresh list: every element equal to one in `drop` goes. */
  function RemoveAll<T(==, !new)>(s: seq<T>, drop: seq<T>): (r: seq<T>)
    ensures forall x :: x in r <==> x in s && x !in drop
  {
    Filter(x => x !in drop, s)
  }

  /** A prefix of a prefix is a prefix. */
  lemma PrefixOfPrefix<T>(a: seq<T>, b: seq<T>, c: seq<T>)
    requires |a| <= |b| && b[..|a|] == a
    requires |b| <= |c| && c[..|b|] == b
    ensures |a| <= |c| && c[..|a|] == a
  {
    assert c[..|a|] == c[..|b|][..|a|];
  }

  /** Distinct elements none of which is in `s`: after moving the first of them to the
      end of `s`, the rest are still distinct and still outside it. */
  lemma FreshTail<T>(xs: seq<T>, s: seq<T>)
    requires |xs| > 0 && NoDuplicates(xs)
    requires forall x :: x in xs ==> x !in s
    ensures xs[0] !in s
    ensures NoDuplicates(xs[1..])
    ensures forall x :: x in xs[1..] ==> x !in s + [xs[0]]
    ensures xs == [xs[0]] + xs[1..]
  {
    assert xs[0] in xs;
    assert forall x :: x in xs[1..] ==> x in xs && x != xs[0];
  }

  /** The first of distinct elements occurs nowhere after it. */
  lemma DistinctTail<T>(xs: seq<T>, n: nat)
    requires |xs| > 0 && NoDuplicates(xs)
    requires n < |xs|
    ensures NoDuplicates(xs[1..])
    ensures xs[0] !in xs[1..][..n]
  {
    assert forall x :: x in xs[1..][..n] ==> x in xs[1..];
  }

  lemma AppendMoved<T>(a: seq<T>, x: T, b: seq<T>)
    ensures a + ([x] + b) == (a + [x]) + b
  {
  }

  lemma NoDuplicatesSnoc<T>(s: seq<T>, x: T)
    requires NoDuplicates(s) && x !in s
    ensures NoDuplicates(s + [x])
  {
  }

  lemma {:induction false} FilterSnoc<T(!new)>(keep: T -> bool, s: seq<T>, x: T)
    ensures Filter(keep, s + [x]) == Filter(keep, s) + (if keep(x) then [x] else [])
  {
    assert (s + [x])[..|s + [x]| - 1] == s;
  }

  /** The filter keeps the surviving elements in the order they had. */
  lemma {:induction false} FilterIsSubsequence<T(!new)>(keep: T -> bool, s: seq<T>)
    ensures IsSubsequence(Filter(keep, s), s)
    decreases |s|
  {
    if |s| > 0 {
      var init := s[..|s| - 1];
      var last := s[|s| - 1];
      var r := Filter(keep, s);
      FilterIsSubsequence(keep, init);
      if keep(last) {
        assert r == Filter(keep, init) + [last];
        assert r[..|r| - 1] == Filter(keep, init);
      } else {
        assert r == Filter(keep, init);
        assert s[..|s| - 1] == init;
      }
    }
  }

  /** The filter keeps every surviving element as often as it occurs, and no other. */
  lemma {:induction false} FilterCounts<T(!new)>(keep: T -> bool, s: seq<T>, x: T)
    ensures multiset(Filter(keep, s))[x] == if keep(x) then multiset(s)[x] else 0
    decreases |s|
  {
    if |s| > 0 {
      var init := s[..|s| - 1];
      var last := s[|s| - 1];
      assert s == init + [last];
      FilterCounts(keep, init, x);
      FilterSnoc(keep, init, last);
    }
  }

  lemma FilterCountsAll<T(!new)>(keep: T -> bool, s: seq<T>)
    ensures forall x :: multiset(Filter(keep, s))[x] == if keep(x) then multiset(s)[x] else 0
  {
    forall x
      ensures multiset(Filter(keep, s))[x] == if keep(x) then multiset(s)[x] else 0
    {
      FilterCounts(keep, s, x);
    }
  }

  /** A filter of a sequence without duplicates has none either. */
  lemma {:induction false} FilterNoDuplicates<T(!new)>(keep: T -> bool, s: seq<T>)
    requires NoDuplicates(s)
    ensures NoDuplicates(Filter(keep, s))
    decreases |s|
  {
    if |s| > 0 {
      var init := s[..|s| - 1];
      var last := s[|s| - 1];
      assert NoDuplicates(init);
      FilterNoDuplicates(keep, init);
      if keep(last) {
        assert last !in init by {
          assert s == init + [last];
        }
        NoDuplicatesSnoc(Filter(keep, init), last);
      }
    }
  }

}
