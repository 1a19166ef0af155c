/** Sequence helpers: the last element, the first occurrence, order-preserving sub-sequences and `Array.prototype.filter`. */
module Seqs {

  function Last<T>(s: seq<T>): T
    requires s != []
  {
    s[|s| - 1]
  }

  function DropLast<T>(s: seq<T>): seq<T>
    requires s != []
  {
    s[..|s| - 1]
  }

  lemma ConsLast<T>(x: T, t: seq<T>)
    requires t != []
    ensures DropLast([x] + t) == [x] + DropLast(t) && Last([x] + t) == Last(t)
  {
    assert ([x] + t)[..|t|] == [x] + t[..|t| - 1];
  }

  /** The position of the first occurrence of `x` in `xs`. */
  function FirstIndex<T(==)>(xs: seq<T>, x: T): (i: nat)
    requires x in xs
    ensures i < |xs| && xs[i] == x && x !in xs[..i]
  {
    if xs[0] == x then 0
    else
      var k := FirstIndex(xs[1..], x);
      assert xs[..k + 1] == [xs[0]] + xs[1..][..k];
      k + 1
  }

  /** Appending a value does not move the first occurrence of one already there. */
  lemma FirstIndexSnoc<T>(xs: seq<T>, y: T, x: T)
    requires x in xs
    ensures FirstIndex(xs + [y], x) == FirstIndex(xs, x)
  {
    var zs := xs + [y];
    var k := FirstIndex(xs, x);
    assert zs[..k] == xs[..k] && zs[k] == x;
    assert forall j :: 0 <= j < k ==> zs[j] != x;
  }

  /** `xs` can be obtained from `ys` by deleting elements, keeping the order of the rest. */
  predicate Subsequence<T(==)>(xs: seq<T>, ys: seq<T>)
    decreases |ys|
  {
    if ys == [] then xs == []
    else
      (xs != [] && xs[|xs| - 1] == ys[|ys| - 1] && Subsequence(xs[..|xs| - 1], ys[..|ys| - 1]))
      || Subsequence(xs, ys[..|ys| - 1])
  }

  lemma SubsequenceSnoc<T>(xs: seq<T>, ys: seq<T>, y: T)
    requires Subsequence(xs, ys)
    ensures Subsequence(xs + [y], ys + [y]) && Subsequence(xs, ys + [y])
  {
    assert (xs + [y])[..|xs|] == xs;
    assert (ys + [y])[..|ys|] == ys;
  }

  lemma {:induction false} SubsequenceOfEmpty<T>(ys: seq<T>)
    ensures Subsequence([], ys)
    decreases |ys|
  {
    if ys != [] { SubsequenceOfEmpty(ys[..|ys| - 1]); }
  }

  lemma {:induction false} SubsequenceRefl<T>(ys: seq<T>)
    ensures Subsequence(ys, ys)
    decreases |ys|
  {
    if ys != [] { SubsequenceRefl(ys[..|ys| - 1]); }
  }

  lemma {:induction false} SubsequenceTrans<T>(xs: seq<T>, ys: seq<T>, zs: seq<T>)
    requires Subsequence(xs, ys) && Subsequence(ys, zs)
    ensures Subsequence(xs, zs)
    decreases |zs|
  {
    if zs == [] {
    } else if ys == [] {
      SubsequenceOfEmpty(zs);
    } else if ys[|ys| - 1] == zs[|zs| - 1] && Subsequence(ys[..|ys| - 1], zs[..|zs| - 1]) {
      if xs != [] && xs[|xs| - 1] == ys[|ys| - 1] && Subsequence(xs[..|xs| - 1], ys[..|ys| - 1]) {
        SubsequenceTrans(xs[..|xs| - 1], ys[..|ys| - 1], zs[..|zs| - 1]);
      } else {
        SubsequenceTrans(xs, ys[..|ys| - 1], zs[..|zs| - 1]);
      }
    } else {
      SubsequenceTrans(xs, ys, zs[..|zs| - 1]);
    }
  }

  /** A sub-sequence is no longer and holds nothing new. */
  lemma {:induction false} SubsequenceBounds<T>(xs: seq<T>, ys: seq<T>)
    requires Subsequence(xs, ys)
    ensures |xs| <= |ys|
    ensures forall x :: x in xs ==> x in ys
    decreases |ys|
  {
    if ys != [] {
      var ys' := ys[..|ys| - 1];
      if xs != [] && xs[|xs| - 1] == ys[|ys| - 1] && Subsequence(xs[..|xs| - 1], ys') {
        SubsequenceBounds(xs[..|xs| - 1], ys');
        assert xs == xs[..|xs| - 1] + [ys[|ys| - 1]];
        assert ys == ys' + [ys[|ys| - 1]];
      } else {
        SubsequenceBounds(xs, ys');
        assert ys == ys' + [ys[|ys| - 1]];
      }
    }
  }

  /** `xs.filter(p)`: the elements of `xs` that satisfy `p`, in their order. */
  function Filter<T(==,!new)>(xs: seq<T>, p: T -> bool): (r: seq<T>)
    ensures Subsequence(r, xs)
    ensures forall x :: x in r ==> p(x)
    ensures forall x :: x in xs && p(x) ==> x in r
    ensures forall x :: multiset(r)[x] == if p(x) then multiset(xs)[x] else 0
    decreases |xs|
  {
    if xs == [] then [] else
      var init, x := xs[..|xs| - 1], xs[|xs| - 1];
      var r := Filter(init, p);
      assert xs == init + [x];
      assert multiset(xs) == multiset(init) + multiset{x};
      SubsequenceSnoc(r, init, x);
      assert multiset(r + [x]) == multiset(r) + multiset{x};
      if p(x) then r + [x] else r
  }

  /** A sub-sequence holds each value at most as often as the sequence it comes from. */
  lemma {:induction false} SubsequenceMultiset<T>(xs: seq<T>, ys: seq<T>)
    requires Subsequence(xs, ys)
    ensures multiset(xs) <= multiset(ys)
    decreases |ys|
  {
    if ys != [] {
      var ys' := ys[..|ys| - 1];
      assert ys == ys' + [ys[|ys| - 1]];
      if xs != [] && xs[|xs| - 1] == ys[|ys| - 1] && Subsequence(xs[..|xs| - 1], ys') {
        SubsequenceMultiset(xs[..|xs| - 1], ys');
        assert xs == xs[..|xs| - 1] + [ys[|ys| - 1]];
      } else {
        SubsequenceMultiset(xs, ys');
      }
    }
  }

  /**
   * `filter` is the only order-preserving sub-sequence that keeps every
   * occurrence of the passing elements and none of the others.
   */
  lemma {:induction false} FilterUnique<T(!new)>(r: seq<T>, xs: seq<T>, p: T -> bool)
    requires Subsequence(r, xs)
    requires forall x :: multiset(r)[x] == if p(x) then multiset(xs)[x] else 0
    ensures r == Filter(xs, p)
    decreases |xs|
  {
    if xs == [] {
    } else {
      var init, x := xs[..|xs| - 1], xs[|xs| - 1];
      assert xs == init + [x];
      assert multiset(xs) == multiset(init) + multiset{x};
      if r != [] && r[|r| - 1] == x && Subsequence(r[..|r| - 1], init) {
        var r' := r[..|r| - 1];
        assert r == r' + [x];
        assert multiset(r) == multiset(r') + multiset{x};
        assert p(x) by { assert multiset(r)[x] > 0; }
        FilterUnique(r', init, p);
      } else {
        SubsequenceMultiset(r, init);
        assert multiset(r)[x] <= multiset(init)[x] < multiset(xs)[x];
        FilterUnique(r, init, p);
      }
    }
  }

  /** Filtering with a test every element passes changes nothing. */
  lemma FilterAll<T(!new)>(xs: seq<T>, p: T -> bool)
    requires forall x :: x in xs ==> p(x)
    ensures Filter(xs, p) == xs
  {
    SubsequenceRefl(xs);
    FilterUnique(xs, xs, p);
  }
}
