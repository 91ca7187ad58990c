/**
  The array combinators the storefront's reducers and selectors are built
  from: `reduce` with an additive accumulator, `filter` and `find`, each
  stated once over `seq<T>` together with the facts the reducers need.
 */
module Sequences {
  import opened Wrappers

  /** `xs` can be obtained from `ys` by deleting elements, keeping the order. */
  ghost predicate IsSubsequence<T>(xs: seq<T>, ys: seq<T>)
    decreases |ys|
  {
    if |ys| == 0 then |xs| == 0
    else (|xs| > 0 && xs[0] == ys[0] && IsSubsequence(xs[1..], ys[1..]))
         || IsSubsequence(xs, ys[1..])
  }

  /** `xs.reduce((acc, x) => acc + f(x), 0)`: the last element is added last. */
  function Sum<T>(xs: seq<T>, f: T -> int): int
  {
    if |xs| == 0 then 0 else Sum(xs[..|xs| - 1], f) + f(xs[|xs| - 1])
  }

  /** How many elements of `xs` satisfy `p`. */
  function CountIf<T>(xs: seq<T>, p: T -> bool): nat
  {
    if |xs| == 0 then 0 else (if p(xs[0]) then 1 else 0) + CountIf(xs[1..], p)
  }

  /**
    `xs.filter(p)`: the elements satisfying `p`, in their original order. A
    subsequence of `xs` made only of elements satisfying `p` and as long as
    their number can only be all of them.
   */
  function Filter<T>(xs: seq<T>, p: T -> bool): (r: seq<T>)
    ensures forall i | 0 <= i < |r| :: p(r[i])
    ensures |r| == CountIf(xs, p)
  {
    if |xs| == 0 then []
    else
      var rest := Filter(xs[1..], p);
      if p(xs[0]) then [xs[0]] + rest else rest
  }

  lemma {:induction false} FilterIsSubsequence<T>(xs: seq<T>, p: T -> bool)
    ensures IsSubsequence(Filter(xs, p), xs)
  {
    if |xs| > 0 {
      var rest := Filter(xs[1..], p);
      FilterIsSubsequence(xs[1..], p);
      if p(xs[0]) {
        assert ([xs[0]] + rest)[1..] == rest;
      }
    }
  }

  /** The position at which `xs.find(p)` stops: the first one satisfying `p`, or `None` when there is none. */
  function FirstIndex<T>(xs: seq<T>, p: T -> bool): (r: Option<nat>)
    ensures r.Some? ==> r.value < |xs| && p(xs[r.value])
    ensures r.Some? ==> forall j | 0 <= j < r.value :: !p(xs[j])
    ensures r.None? <==> forall j | 0 <= j < |xs| :: !p(xs[j])
  {
    if |xs| == 0 then None
    else if p(xs[0]) then Some(0)
    else match FirstIndex(xs[1..], p)
      case None => None
      case Some(k) => Some(k + 1)
  }

  lemma {:induction false} SumAppend<T>(xs: seq<T>, ys: seq<T>, f: T -> int)
    ensures Sum(xs + ys, f) == Sum(xs, f) + Sum(ys, f)
    decreases |ys|
  {
    if |ys| == 0 {
      assert xs + ys == xs;
    } else {
      var init := ys[..|ys| - 1];
      assert (xs + ys)[..|xs + ys| - 1] == xs + init;
      SumAppend(xs, init, f);
    }
  }

  /** Replacing one element changes the sum by exactly the difference of the two terms. */
  lemma SumUpdate<T>(xs: seq<T>, k: nat, y: T, f: T -> int)
    requires k < |xs|
    ensures Sum(xs[k := y], f) == Sum(xs, f) - f(xs[k]) + f(y)
  {
    var left, right := xs[..k], xs[k + 1..];
    assert xs == left + [xs[k]] + right;
    assert xs[k := y] == left + [y] + right;
    SumAppend(left + [xs[k]], right, f);
    SumAppend(left, [xs[k]], f);
    SumAppend(left + [y], right, f);
    SumAppend(left, [y], f);
  }

  /** A sum of non-negative terms is non-negative. */
  lemma {:induction false} SumNonNegative<T>(xs: seq<T>, f: T -> int)
    ensures (forall i | 0 <= i < |xs| :: f(xs[i]) >= 0) ==> Sum(xs, f) >= 0
  {
    if |xs| > 0 && forall i | 0 <= i < |xs| :: f(xs[i]) >= 0 {
      SumNonNegative(xs[..|xs| - 1], f);
    }
  }

  /** A sum of non-negative terms is positive exactly when one of its terms is. */
  lemma {:induction false} SumPositiveIff<T>(xs: seq<T>, f: T -> int)
    ensures (forall i | 0 <= i < |xs| :: f(xs[i]) >= 0) ==>
              (Sum(xs, f) > 0 <==> exists i | 0 <= i < |xs| :: f(xs[i]) > 0)
  {
    if |xs| > 0 && forall i | 0 <= i < |xs| :: f(xs[i]) >= 0 {
      var init := xs[..|xs| - 1];
      SumPositiveIff(init, f);
      SumNonNegative(init, f);
      if exists i | 0 <= i < |init| :: f(init[i]) > 0 {
        var i :| 0 <= i < |init| && f(init[i]) > 0;
        assert f(xs[i]) > 0;
      }
      if exists i | 0 <= i < |xs| :: f(xs[i]) > 0 {
        var i :| 0 <= i < |xs| && f(xs[i]) > 0;
        if i < |init| {
          assert f(init[i]) > 0;
        }
      }
    }
  }

  /** A sum of terms that are each at least 1 is at least the number of terms. */
  lemma {:induction false} SumAtLeastLength<T>(xs: seq<T>, f: T -> int)
    ensures (forall i | 0 <= i < |xs| :: f(xs[i]) >= 1) ==> Sum(xs, f) >= |xs|
  {
    if |xs| > 0 && forall i | 0 <= i < |xs| :: f(xs[i]) >= 1 {
      SumAtLeastLength(xs[..|xs| - 1], f);
    }
  }

  /** A sum of terms that all equal `c` is `c` times the number of terms. */
  lemma {:induction false} SumOfConstant<T>(xs: seq<T>, f: T -> int, c: int)
    requires forall i | 0 <= i < |xs| :: f(xs[i]) == c
    ensures Sum(xs, f) == c * |xs|
  {
    if |xs| > 0 {
      SumOfConstant(xs[..|xs| - 1], f, c);
    }
  }

  /** Every element of a subsequence occurs in the original sequence. */
  lemma {:induction false} SubsequenceMembers<T>(xs: seq<T>, ys: seq<T>)
    requires IsSubsequence(xs, ys)
    ensures forall x | x in xs :: x in ys
    decreases |ys|
  {
    if |ys| > 0 {
      if |xs| > 0 && xs[0] == ys[0] && IsSubsequence(xs[1..], ys[1..]) {
        SubsequenceMembers(xs[1..], ys[1..]);
        assert xs == [xs[0]] + xs[1..];
      } else {
        SubsequenceMembers(xs, ys[1..]);
      }
    }
  }

  /** An element survives the filter exactly when it occurs in `xs` and passes `p`. */
  lemma {:induction false} FilterMembers<T>(xs: seq<T>, p: T -> bool)
    ensures forall x :: x in Filter(xs, p) <==> x in xs && p(x)
  {
    if |xs| > 0 {
      FilterMembers(xs[1..], p);
      assert xs == [xs[0]] + xs[1..];
    }
  }

  /** Two predicates that agree on every element of `xs` filter it alike. */
  lemma {:induction false} FilterCongruent<T>(xs: seq<T>, p: T -> bool, q: T -> bool)
    requires forall i | 0 <= i < |xs| :: p(xs[i]) == q(xs[i])
    ensures Filter(xs, p) == Filter(xs, q)
  {
    if |xs| > 0 {
      FilterCongruent(xs[1..], p, q);
    }
  }

  /** Filtering with a stronger predicate yields a subsequence of filtering with a weaker one. */
  lemma {:induction false} FilterMonotone<T>(xs: seq<T>, strong: T -> bool, weak: T -> bool)
    requires forall i | 0 <= i < |xs| :: strong(xs[i]) ==> weak(xs[i])
    ensures IsSubsequence(Filter(xs, strong), Filter(xs, weak))
  {
    if |xs| > 0 {
      var s, w := Filter(xs[1..], strong), Filter(xs[1..], weak);
      FilterMonotone(xs[1..], strong, weak);
      if strong(xs[0]) {
        assert ([xs[0]] + s)[1..] == s;
        assert ([xs[0]] + w)[1..] == w;
      } else if weak(xs[0]) {
        assert ([xs[0]] + w)[1..] == w;
      }
    }
  }

  /** A filter that keeps every element is the identity. */
  lemma {:induction false} FilterKeepsAll<T>(xs: seq<T>, p: T -> bool)
    ensures (forall i | 0 <= i < |xs| :: p(xs[i])) ==> Filter(xs, p) == xs
  {
    if |xs| > 0 && forall i | 0 <= i < |xs| :: p(xs[i]) {
      FilterKeepsAll(xs[1..], p);
      assert xs == [xs[0]] + xs[1..];
    }
  }

  /** Filtering distributes over concatenation. */
  lemma {:induction false} FilterAppend<T>(xs: seq<T>, ys: seq<T>, p: T -> bool)
    ensures Filter(xs + ys, p) == Filter(xs, p) + Filter(ys, p)
  {
    if |xs| == 0 {
      assert xs + ys == ys;
    } else {
      assert (xs + ys)[1..] == xs[1..] + ys;
      FilterAppend(xs[1..], ys, p);
    }
  }

  /** Filtering out a single rejected element between two kept runs leaves the two runs. */
  lemma FilterDropsOne<T>(left: seq<T>, x: T, right: seq<T>, p: T -> bool)
    requires forall i | 0 <= i < |left| :: p(left[i])
    requires forall i | 0 <= i < |right| :: p(right[i])
    requires !p(x)
    ensures Filter(left + [x] + right, p) == left + right
  {
    var lx := left + [x];
    FilterAppend(lx, right, p);
    FilterAppend(left, [x], p);
    FilterKeepsAll(left, p);
    FilterKeepsAll(right, p);
    assert Filter([x], p) == [] by {
      assert [x][1..] == [];
    }
    assert Filter(lx, p) == left;
  }

  lemma {:induction false} CountIfAppend<T>(xs: seq<T>, ys: seq<T>, p: T -> bool)
    ensures CountIf(xs + ys, p) == CountIf(xs, p) + CountIf(ys, p)
  {
    if |xs| == 0 {
      assert xs + ys == ys;
    } else {
      assert (xs + ys)[1..] == xs[1..] + ys;
      CountIfAppend(xs[1..], ys, p);
    }
  }

  /** Counting over a sequence whose elements all agree on `p` counts all or nothing. */
  lemma {:induction false} CountIfUniform<T>(xs: seq<T>, p: T -> bool)
    ensures (forall i | 0 <= i < |xs| :: p(xs[i])) ==> CountIf(xs, p) == |xs|
    ensures (forall i | 0 <= i < |xs| :: !p(xs[i])) ==> CountIf(xs, p) == 0
  {
    if |xs| > 0 {
      CountIfUniform(xs[1..], p);
    }
  }
}
