/**
 * Generic list operations shared by the server and the client model:
 * `filter`, `reduce` with `+`, `reverse`, and a stable insertion sort
 * parameterised by an ordering, each with the lemmas the rest of the
 * model needs (permutation invariance of sums, sortedness).
 */
module Sequences {

  /** Keeps the elements `keep` accepts, in their original order. */
  function Filter<T(!new)>(s: seq<T>, keep: T -> bool): (r: seq<T>)
    ensures forall x :: x in r <==> x in s && keep(x)
    ensures |r| <= |s|
  {
    if s == [] then []
    else
      var rest := Filter(s[1..], keep);
      assert s == [s[0]] + s[1..];
      (if keep(s[0]) then [s[0]] else []) + rest
  }

  /** Each element occurs in the result as often as in `s` when kept, and not at all otherwise. */
  lemma {:induction false} FilterMultiset<T(!new)>(s: seq<T>, keep: T -> bool)
    ensures forall x :: multiset(Filter(s, keep))[x] == if keep(x) then multiset(s)[x] else 0
  {
    if s != [] {
      assert s == [s[0]] + s[1..];
      FilterMultiset(s[1..], keep);
    }
  }

  lemma {:induction false} FilterAppend<T(!new)>(a: seq<T>, b: seq<T>, keep: T -> bool)
    ensures Filter(a + b, keep) == Filter(a, keep) + Filter(b, keep)
  {
    if a == [] {
      assert a + b == b;
    } else {
      var head := if keep(a[0]) then [a[0]] else [];
      assert (a + b)[0] == a[0];
      assert (a + b)[1..] == a[1..] + b;
      calc {
        Filter(a + b, keep);
        head + Filter(a[1..] + b, keep);
        { FilterAppend(a[1..], b, keep); }
        head + (Filter(a[1..], keep) + Filter(b, keep));
        (head + Filter(a[1..], keep)) + Filter(b, keep);
        Filter(a, keep) + Filter(b, keep);
      }
    }
  }

  lemma {:induction false} FilterIdempotent<T(!new)>(s: seq<T>, keep: T -> bool)
    ensures Filter(Filter(s, keep), keep) == Filter(s, keep)
  {
    if s != [] {
      FilterIdempotent(s[1..], keep);
      var head := if keep(s[0]) then [s[0]] else [];
      FilterAppend(head, Filter(s[1..], keep), keep);
      if keep(s[0]) {
        assert Filter(head, keep) == [s[0]] + Filter([], keep);
      }
    }
  }

  /** Nothing kept: the result is empty. */
  lemma {:induction false} FilterNone<T(!new)>(s: seq<T>, keep: T -> bool)
    requires forall x :: x in s ==> !keep(x)
    ensures Filter(s, keep) == []
  {
    if s != [] {
      FilterNone(s[1..], keep);
    }
  }

  /** Everything kept: the result is the input. */
  lemma {:induction false} FilterAll<T(!new)>(s: seq<T>, keep: T -> bool)
    requires forall x :: x in s ==> keep(x)
    ensures Filter(s, keep) == s
  {
    if s != [] {
      FilterAll(s[1..], keep);
      assert s == [s[0]] + s[1..];
    }
  }

  /** `s.reduce((acc, x) => acc + f(x), 0)`: a left fold with `+` starting at 0. */
  function Sum<T>(s: seq<T>, f: T -> real): real
  {
    if s == [] then 0.0 else Sum(s[..|s| - 1], f) + f(s[|s| - 1])
  }

  lemma {:induction false} SumAppend<T>(a: seq<T>, b: seq<T>, f: T -> real)
    ensures Sum(a + b, f) == Sum(a, f) + Sum(b, f)
  {
    if b == [] {
      assert a + b == a;
    } else {
      var b' := b[..|b| - 1];
      assert (a + b)[..|a + b| - 1] == a + b';
      SumAppend(a, b', f);
    }
  }

  /** Taking one element out of a sum. */
  lemma SumRemove<T>(b: seq<T>, i: nat, f: T -> real)
    requires i < |b|
    ensures Sum(b, f) == Sum(b[..i] + b[i + 1..], f) + f(b[i])
  {
    var pre, x, post := b[..i], b[i], b[i + 1..];
    assert b == pre + ([x] + post);
    assert Sum([x], f) == f(x) by {
      assert [x][..0] == [];
    }
    SumAppend(pre, [x] + post, f);
    SumAppend([x], post, f);
    SumAppend(pre, post, f);
  }

  lemma MultisetRemove<T>(b: seq<T>, i: nat)
    requires i < |b|
    ensures multiset(b[..i] + b[i + 1..]) == multiset(b) - multiset{b[i]}
  {
    assert b == b[..i] + [b[i]] + b[i + 1..];
  }

  /** The sum does not depend on the order of the elements. */
  lemma {:induction false} SumPermutation<T>(a: seq<T>, b: seq<T>, f: T -> real)
    requires multiset(a) == multiset(b)
    ensures Sum(a, f) == Sum(b, f)
    decreases |a|
  {
    if a == [] {
      assert |b| == |multiset(b)| == 0;
    } else {
      var x := a[|a| - 1];
      assert x in multiset(b) by {
        assert a == a[..|a| - 1] + [x];
      }
      var i :| 0 <= i < |b| && b[i] == x;
      MultisetRemove(a, |a| - 1);
      MultisetRemove(b, i);
      assert a[..|a| - 1] + a[|a|..] == a[..|a| - 1];
      SumPermutation(a[..|a| - 1], b[..i] + b[i + 1..], f);
      SumRemove(b, i, f);
    }
  }

  function Reverse<T>(s: seq<T>): (r: seq<T>)
    ensures |r| == |s|
    ensures forall i :: 0 <= i < |s| ==> r[i] == s[|s| - 1 - i]
  {
    if s == [] then [] else Reverse(s[1..]) + [s[0]]
  }

  /** `le(a, b)`: `a` may be placed before `b`. Total and transitive. */
  ghost predicate TotalPreorder<T(!new)>(le: (T, T) -> bool)
  {
    && (forall a, b :: le(a, b) || le(b, a))
    && (forall a, b, c :: le(a, b) && le(b, c) ==> le(a, c))
  }

  predicate SortedBy<T>(s: seq<T>, le: (T, T) -> bool)
  {
    forall i, j :: 0 <= i < j < |s| ==> le(s[i], s[j])
  }

  /** Places `x` before the first element it may precede. */
  function InsertBy<T(!new)>(x: T, s: seq<T>, le: (T, T) -> bool): (r: seq<T>)
    ensures multiset(r) == multiset(s) + multiset{x}
  {
    if s == [] then [x]
    else if le(x, s[0]) then [x] + s
    else
      assert s == [s[0]] + s[1..];
      [s[0]] + InsertBy(x, s[1..], le)
  }

  /** An element that may precede everything in a sorted sequence may head it. */
  lemma ConsSorted<T>(h: T, s: seq<T>, le: (T, T) -> bool)
    requires SortedBy(s, le) && forall y :: y in s ==> le(h, y)
    ensures SortedBy([h] + s, le)
  {
    var r := [h] + s;
    forall i, j | 0 <= i < j < |r| ensures le(r[i], r[j]) {
      assert r[j] == s[j - 1];
      if i > 0 {
        assert r[i] == s[i - 1];
      }
    }
  }

  /** Inserting into a sorted sequence keeps it sorted. */
  lemma {:induction false} InsertBySorted<T(!new)>(x: T, s: seq<T>, le: (T, T) -> bool)
    requires TotalPreorder(le) && SortedBy(s, le)
    ensures SortedBy(InsertBy(x, s, le), le)
  {
    if s == [] {
    } else if le(x, s[0]) {
      forall y | y in s ensures le(x, y) {
        var j :| 0 <= j < |s| && s[j] == y;
        if j > 0 {
          assert le(s[0], s[j]);
        }
      }
      ConsSorted(x, s, le);
    } else {
      var rest := InsertBy(x, s[1..], le);
      assert le(s[0], x);
      assert s == [s[0]] + s[1..];
      InsertBySorted(x, s[1..], le);
      forall y | y in rest ensures le(s[0], y) {
        assert y in multiset(rest);
        if y != x {
          assert y in s[1..];
        }
      }
      ConsSorted(s[0], rest, le);
    }
  }

  /** A stable insertion sort: the result is a permutation of `s`. */
  function SortBy<T(!new)>(s: seq<T>, le: (T, T) -> bool): (r: seq<T>)
    ensures multiset(r) == multiset(s)
    ensures |r| == |s|
  {
    if s == [] then []
    else
      assert s == [s[0]] + s[1..];
      var r := InsertBy(s[0], SortBy(s[1..], le), le);
      assert |r| == |multiset(r)| == |multiset(s)| == |s|;
      r
  }

  /** ... ordered by `le` whenever `le` is a total preorder. */
  lemma {:induction false} SortBySorted<T(!new)>(s: seq<T>, le: (T, T) -> bool)
    requires TotalPreorder(le)
    ensures SortedBy(SortBy(s, le), le)
  {
    if s != [] {
      SortBySorted(s[1..], le);
      InsertBySorted(s[0], SortBy(s[1..], le), le);
    }
  }

  /** Two positions holding the same element make it occur at least twice. */
  lemma PositionsCount<T>(s: seq<T>, i: nat, j: nat)
    requires i < j < |s|
    ensures s[i] == s[j] ==> multiset(s)[s[i]] >= 2
  {
    assert s == s[..i] + [s[i]] + s[i + 1..j] + [s[j]] + s[j + 1..];
  }

  predicate Distinct<T(==)>(s: seq<T>)
  {
    forall i, j :: 0 <= i < j < |s| ==> s[i] != s[j]
  }

  /** No two elements of `s` share a key. */
  ghost predicate DistinctBy<T, K>(s: seq<T>, key: T -> K)
  {
    forall i, j :: 0 <= i < j < |s| ==> key(s[i]) != key(s[j])
  }

  /** Elements with pairwise different keys are pairwise different, so none repeats. */
  lemma {:induction false} DistinctByNoRepeat<T, K>(s: seq<T>, key: T -> K, x: T)
    requires DistinctBy(s, key)
    ensures multiset(s)[x] <= 1
    decreases |s|
  {
    if s != [] {
      var s', y := s[..|s| - 1], s[|s| - 1];
      assert s == s' + [y];
      assert DistinctBy(s', key);
      DistinctByNoRepeat(s', key, x);
      if y == x {
        assert forall i :: 0 <= i < |s'| ==> key(s'[i]) != key(x);
        assert x !in s';
      }
    }
  }

  /** Any sub-collection of a collection with distinct keys has distinct keys. */
  lemma DistinctBySubMultiset<T, K>(a: seq<T>, b: seq<T>, key: T -> K)
    requires DistinctBy(a, key) && multiset(b) <= multiset(a)
    ensures DistinctBy(b, key)
  {
    forall x | x in a ensures multiset(a)[x] <= 1 {
      DistinctByNoRepeat(a, key, x);
    }
    forall i, j | 0 <= i < j < |b| ensures key(b[i]) != key(b[j]) {
      PositionsCount(b, i, j);
      assert b[i] in multiset(a) && b[j] in multiset(a);
      var p :| 0 <= p < |a| && a[p] == b[i];
      var q :| 0 <= q < |a| && a[q] == b[j];
      assert b[i] != b[j] ==> p != q;
    }
  }
}
