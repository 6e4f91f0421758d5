/** Folding a sequence into a state, and when the order of its elements does not matter. */
module Folds {

  function Fold<S, T>(f: (S, T) -> S, s: S, xs: seq<T>): S
    decreases |xs|
  {
    if xs == [] then s else Fold(f, f(s, xs[0]), xs[1..])
  }

  /** The two elements can change places. */
  ghost predicate Commute<S(!new), T>(f: (S, T) -> S, x: T, y: T) {
    forall s: S :: f(f(s, x), y) == f(f(s, y), x)
  }

  lemma FoldCons<S, T>(f: (S, T) -> S, s: S, x: T, xs: seq<T>)
    ensures Fold(f, s, [x] + xs) == Fold(f, f(s, x), xs)
  {
    assert ([x] + xs)[1..] == xs;
  }

  lemma {:induction false} FoldSplit<S, T>(f: (S, T) -> S, s: S, xs: seq<T>, i: nat)
    requires i <= |xs|
    ensures Fold(f, s, xs) == Fold(f, Fold(f, s, xs[..i]), xs[i..])
    decreases i
  {
    if i == 0 {
      assert xs[0..] == xs;
    } else {
      FoldSplit(f, f(s, xs[0]), xs[1..], i - 1);
      assert xs[1..][..i - 1] == xs[..i][1..] && xs[1..][i - 1..] == xs[i..];
    }
  }

  /** An element that commutes with each of `xs` can be taken before or after them. */
  lemma {:induction false} OneCommutes<S(!new), T>(f: (S, T) -> S, s: S, x: T, xs: seq<T>)
    requires forall i | 0 <= i < |xs| :: Commute(f, x, xs[i])
    ensures Fold(f, f(s, x), xs) == f(Fold(f, s, xs), x)
    decreases |xs|
  {
    if xs != [] {
      assert Commute(f, x, xs[0]);
      OneCommutes(f, f(s, xs[0]), x, xs[1..]);
    }
  }

  lemma {:induction false} AllCommute<S(!new), T>(f: (S, T) -> S, s: S, xs: seq<T>, ys: seq<T>)
    requires forall i, j | 0 <= i < |xs| && 0 <= j < |ys| :: Commute(f, xs[i], ys[j])
    ensures Fold(f, Fold(f, s, xs), ys) == Fold(f, Fold(f, s, ys), xs)
    decreases |xs|
  {
    if xs != [] {
      OneCommutes(f, s, xs[0], ys);
      AllCommute(f, f(s, xs[0]), xs[1..], ys);
    }
  }

  lemma MoveToFront<S(!new), T>(f: (S, T) -> S, s: S, before: seq<T>, x: T, after: seq<T>)
    requires forall i | 0 <= i < |before| :: Commute(f, x, before[i])
    ensures Fold(f, s, before + ([x] + after)) == Fold(f, f(s, x), before + after)
  {
    var n := |before|;
    FoldSplit(f, s, before + ([x] + after), n);
    assert (before + ([x] + after))[..n] == before && (before + ([x] + after))[n..] == [x] + after;
    FoldCons(f, Fold(f, s, before), x, after);
    OneCommutes(f, s, x, before);
    FoldSplit(f, f(s, x), before + after, n);
    assert (before + after)[..n] == before && (before + after)[n..] == after;
  }

  lemma DropFromBoth<T>(x: T, tail: seq<T>, before: seq<T>, after: seq<T>)
    requires multiset([x] + tail) == multiset(before + ([x] + after))
    ensures multiset(tail) == multiset(before + after)
  {
    assert multiset(tail) == multiset([x] + tail) - multiset{x};
    assert multiset(before + after) == multiset(before + ([x] + after)) - multiset{x};
  }

  lemma SameElements<S(!new), T>(f: (S, T) -> S, x: T, xs: seq<T>, ys: seq<T>)
    requires multiset(xs) == multiset(ys) && forall j | 0 <= j < |xs| :: Commute(f, x, xs[j])
    ensures forall i | 0 <= i < |ys| :: Commute(f, x, ys[i])
  {
    forall i | 0 <= i < |ys| ensures Commute(f, x, ys[i]) {
      assert ys[i] in multiset(xs);
      var j :| 0 <= j < |xs| && xs[j] == ys[i];
    }
  }

  /** Where the first element of `xs` stands in a permutation of it. */
  lemma Locate<T>(xs: seq<T>, ys: seq<T>) returns (before: seq<T>, after: seq<T>)
    requires xs != [] && multiset(xs) == multiset(ys)
    ensures ys == before + ([xs[0]] + after) && multiset(xs[1..]) == multiset(before + after)
  {
    assert xs[0] in multiset(ys);
    var k :| 0 <= k < |ys| && ys[k] == xs[0];
    before, after := ys[..k], ys[k + 1..];
    assert xs == [xs[0]] + xs[1..] && ys == before + ([xs[0]] + after);
    DropFromBoth(xs[0], xs[1..], before, after);
  }

  /** If the elements commute pairwise, their order does not matter. */
  lemma {:induction false} FoldOfPermutation<S(!new), T>(f: (S, T) -> S, s: S, xs: seq<T>, ys: seq<T>)
    requires multiset(xs) == multiset(ys)
    requires forall i, j | 0 <= i < j < |xs| :: Commute(f, xs[i], xs[j])
    ensures Fold(f, s, xs) == Fold(f, s, ys)
    decreases |xs|
  {
    if xs == [] {
      assert |multiset(ys)| == 0;
    } else {
      var before, after := Locate(xs, ys);
      SameElements(f, xs[0], xs[1..], before + after);
      forall i | 0 <= i < |before| ensures Commute(f, xs[0], before[i]) {
        assert before[i] == (before + after)[i];
      }
      MoveToFront(f, s, before, xs[0], after);
      FoldOfPermutation(f, f(s, xs[0]), xs[1..], before + after);
    }
  }
}
