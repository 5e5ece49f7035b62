/** Facts about concatenation that proofs elsewhere name rather than rediscover. */
module Sequences {

  predicate Distinct<T(==)>(s: seq<T>)
  {
    forall i, j :: 0 <= i < j < |s| ==> s[i] != s[j]
  }

  lemma DistinctLast<T>(s: seq<T>)
    requires s != [] && Distinct(s)
    ensures var n := |s| - 1; Distinct(s[..n]) && s[n] !in s[..n]
  {
  }

  lemma Assoc<T>(a: seq<T>, b: seq<T>, c: seq<T>)
    ensures a + b + c == a + (b + c)
  {
  }

  lemma SplitLast<T>(s: seq<T>)
    requires s != []
    ensures s == s[..|s| - 1] + [s[|s| - 1]]
  {
  }

  lemma SliceOfPrefix<T>(s: seq<T>, n: nat, lo: nat, hi: nat)
    requires lo <= hi <= n <= |s|
    ensures s[..n][lo..hi] == s[lo..hi]
  {
  }

  lemma SameItems<T>(a: seq<T>, b: seq<T>)
    requires |a| == |b| && forall i :: 0 <= i < |a| ==> a[i] == b[i]
    ensures a == b
  {
  }

  lemma SplitFirst<T>(s: seq<T>)
    requires s != []
    ensures s == [s[0]] + s[1..]
  {
  }

  // ---- Folding with a step that is told the position ----

  type Stepping<!S, !T> = (S, T, int) -> S

  function FoldAt<S, T>(step: Stepping<S, T>, s: S, xs: seq<T>, base: int): S
  {
    if xs == [] then s
    else
      var n := |xs| - 1;
      step(FoldAt(step, s, xs[..n], base), xs[n], base + n)
  }

  lemma {:induction false} FoldConcat<S, T>(step: Stepping<S, T>, s: S, a: seq<T>, b: seq<T>, base: int)
    ensures FoldAt(step, s, a + b, base) == FoldAt(step, FoldAt(step, s, a, base), b, base + |a|)
  {
    if b == [] {
      assert a + b == a;
    } else {
      assert (a + b)[..|a + b| - 1] == a + b[..|b| - 1];
      FoldConcat(step, s, a, b[..|b| - 1], base);
    }
  }

  lemma FoldLast<S, T>(step: Stepping<S, T>, s: S, xs: seq<T>, x: T, base: int)
    ensures FoldAt(step, s, xs + [x], base) == step(FoldAt(step, s, xs, base), x, base + |xs|)
  {
    var all := xs + [x];
    assert all != [] && |all| - 1 == |xs| && all[..|all| - 1] == xs && all[|all| - 1] == x;
  }

  predicate Shifted<S(==), T>(step: Stepping<S, T>, step': Stepping<S, T>, shift: int, s: S, x: T, i: int)
  {
    step'(s, x, i) == step(s, x, shift + i)
  }

  lemma {:induction false} FoldShift<S, T>(step: Stepping<S, T>, step': Stepping<S, T>, shift: int, s: S, xs: seq<T>)
    requires forall s, x, i {:trigger Shifted(step, step', shift, s, x, i)} :: Shifted(step, step', shift, s, x, i)
    ensures FoldAt(step', s, xs, 0) == FoldAt(step, s, xs, shift)
  {
    if xs != [] {
      var n := |xs| - 1;
      FoldShift(step, step', shift, s, xs[..n]);
      assert Shifted(step, step', shift, FoldAt(step', s, xs[..n], 0), xs[n], n);
    }
  }

  /** A step that does not look at the position. */
  lemma FoldTwice<S, T>(step: Stepping<S, T>, s: S, a: seq<T>, b: seq<T>)
    requires forall s, x, i {:trigger Shifted(step, step, |a|, s, x, i)} :: Shifted(step, step, |a|, s, x, i)
    ensures FoldAt(step, s, a + b, 0) == FoldAt(step, FoldAt(step, s, a, 0), b, 0)
  {
    FoldConcat(step, s, a, b, 0);
    FoldShift(step, step, |a|, FoldAt(step, s, a, 0), b);
  }

  predicate Commutes<S(==), T>(step: Stepping<S, T>, h: S -> S, s: S, x: T, i: int)
  {
    step(h(s), x, i) == h(step(s, x, i))
  }

  lemma {:induction false} FoldThrough<S, T>(step: Stepping<S, T>, h: S -> S, s: S, xs: seq<T>, base: int)
    requires forall s, x, i {:trigger Commutes(step, h, s, x, i)} :: Commutes(step, h, s, x, i)
    ensures FoldAt(step, h(s), xs, base) == h(FoldAt(step, s, xs, base))
  {
    if xs != [] {
      var n := |xs| - 1;
      FoldThrough(step, h, s, xs[..n], base);
      assert Commutes(step, h, FoldAt(step, s, xs[..n], base), xs[n], base + n);
    }
  }

  /** Two folds side by side keep a relation that every pair of steps keeps. */
  type Relating<!S, !A> = (S, A, int) -> bool

  predicate StepsKeep<S, T, A, U>(step: Stepping<S, T>, step': Stepping<A, U>, rel: Relating<S, A>, s: S, a: A, x: T, y: U, base: int, n: int)
  {
    rel(s, a, n) ==> rel(step(s, x, n), step'(a, y, base + n), n + 1)
  }

  lemma {:induction false} FoldsRelate<S, T, A, U>(step: Stepping<S, T>, s: S, xs: seq<T>, step': Stepping<A, U>, a: A, ys: seq<U>,
                                                   base: int, rel: Relating<S, A>)
    requires |xs| == |ys| && rel(s, a, 0)
    requires forall s, a, n {:trigger StepsKeep(step, step', rel, s, a, xs[n], ys[n], base, n)} :: 0 <= n < |xs| ==>
               StepsKeep(step, step', rel, s, a, xs[n], ys[n], base, n)
    ensures rel(FoldAt(step, s, xs, 0), FoldAt(step', a, ys, base), |xs|)
  {
    if xs != [] {
      var n := |xs| - 1;
      var front, front' := xs[..n], ys[..n];
      forall s, a, i | 0 <= i < n
        ensures StepsKeep(step, step', rel, s, a, front[i], front'[i], base, i)
      {
        assert StepsKeep(step, step', rel, s, a, xs[i], ys[i], base, i);
      }
      FoldsRelate(step, s, front, step', a, front', base, rel);
      assert StepsKeep(step, step', rel, FoldAt(step, s, front, 0), FoldAt(step', a, front', base), xs[n], ys[n], base, n);
    }
  }
}
