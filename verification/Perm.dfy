/** Folds over sequences: those whose steps commute do not see the order of
    their input. */
module Perm {

  function FlatMap<T, U>(g: T -> seq<U>, xs: seq<T>): seq<U> {
    if xs == [] then [] else g(xs[0]) + FlatMap(g, xs[1..])
  }

  lemma {:induction false} FlatMapAppend<T, U>(g: T -> seq<U>, xs: seq<T>, ys: seq<T>)
    ensures FlatMap(g, xs + ys) == FlatMap(g, xs) + FlatMap(g, ys)
  {
    if xs == [] {
      assert xs + ys == ys;
    } else {
      assert (xs + ys)[1..] == xs[1..] + ys;
      FlatMapAppend(g, xs[1..], ys);
    }
  }

  /** The concatenation of h(0), ..., h(n - 1). */
  function Pieces<T>(h: nat -> seq<T>, n: nat): seq<T> {
    if n == 0 then [] else Pieces(h, n - 1) + h(n - 1)
  }

  lemma {:induction false} FlatMapPieces<T, U>(g: T -> seq<U>, h: nat -> seq<T>, a: nat -> seq<U>, n: nat)
    requires forall k: nat :: k < n ==> FlatMap(g, h(k)) == a(k)
    ensures FlatMap(g, Pieces(h, n)) == Pieces(a, n)
  {
    if n > 0 {
      FlatMapPieces(g, h, a, n - 1);
      FlatMapAppend(g, Pieces(h, n - 1), h(n - 1));
    }
  }

  lemma {:induction false} PiecesOne<T>(h: nat -> seq<T>, n: nat, i: nat)
    requires forall k: nat :: k < n && k != i ==> h(k) == []
    ensures Pieces(h, n) == if i < n then h(i) else []
  {
    if n > 0 { PiecesOne(h, n - 1, i); }
  }

  function Fold<A, T>(f: (A, T) -> A, a: A, xs: seq<T>): A {
    if xs == [] then a else Fold(f, f(a, xs[0]), xs[1..])
  }

  ghost predicate Commutes<A(!new), T(!new)>(f: (A, T) -> A) {
    forall a, x, y :: f(f(a, x), y) == f(f(a, y), x)
  }

  lemma {:induction false} FoldAppend<A, T>(f: (A, T) -> A, a: A, xs: seq<T>, ys: seq<T>)
    ensures Fold(f, a, xs + ys) == Fold(f, Fold(f, a, xs), ys)
    decreases |xs|
  {
    if xs == [] {
      assert xs + ys == ys;
    } else {
      assert (xs + ys)[1..] == xs[1..] + ys;
      FoldAppend(f, f(a, xs[0]), xs[1..], ys);
    }
  }

  lemma FoldSnoc<A, T>(f: (A, T) -> A, a: A, xs: seq<T>, x: T)
    ensures Fold(f, a, xs + [x]) == f(Fold(f, a, xs), x)
  {
    FoldAppend(f, a, xs, [x]);
    assert [x][1..] == [];
    assert Fold(f, Fold(f, a, xs), [x]) == Fold(f, f(Fold(f, a, xs), x), []);
  }

  /** A trace whose steps are f's steps ends where the fold ends. */
  lemma {:induction false} FoldTrace<A, T>(f: (A, T) -> A, trace: nat -> A, xs: seq<T>, n: nat)
    requires n <= |xs|
    requires forall i: nat :: i < |xs| ==> trace(i + 1) == f(trace(i), xs[i])
    ensures trace(n) == Fold(f, trace(0), xs[..n])
  {
    if n > 0 {
      FoldTrace(f, trace, xs, n - 1);
      assert xs[..n] == xs[..n - 1] + [xs[n - 1]];
      FoldSnoc(f, trace(0), xs[..n - 1], xs[n - 1]);
      assert trace(n - 1 + 1) == f(trace(n - 1), xs[n - 1]);
    }
  }

  /** What every allowed step keeps, a fold keeps. */
  lemma {:induction false} FoldKeeps<A(!new), T(!new)>(
    f: (A, T) -> A, a: A, xs: seq<T>, inv: A -> bool, allowed: T -> bool)
    requires inv(a)
    requires forall x :: x in xs ==> allowed(x)
    requires forall b, x :: inv(b) && allowed(x) ==> inv(f(b, x))
    ensures inv(Fold(f, a, xs))
    decreases |xs|
  {
    if xs != [] { FoldKeeps(f, f(a, xs[0]), xs[1..], inv, allowed); }
  }

  /** An element may be folded first, wherever it stands. */
  lemma {:induction false} FoldMoveFront<A(!new), T(!new)>(f: (A, T) -> A, a: A, xs: seq<T>, x: T, ys: seq<T>)
    requires Commutes(f)
    ensures Fold(f, a, xs + [x] + ys) == Fold(f, f(a, x), xs + ys)
    decreases |xs|
  {
    if xs == [] {
      assert xs + [x] + ys == [x] + ys && xs + ys == ys;
      assert ([x] + ys)[1..] == ys;
    } else {
      var zs := xs + [x] + ys;
      assert zs[1..] == xs[1..] + [x] + ys;
      FoldMoveFront(f, f(a, xs[0]), xs[1..], x, ys);
      assert (xs + ys)[1..] == xs[1..] + ys;
      assert f(f(a, xs[0]), x) == f(f(a, x), xs[0]);
    }
  }

  lemma TakeOut<T>(xs: seq<T>, ys: seq<T>) returns (before: seq<T>, after: seq<T>)
    requires xs != [] && multiset(xs) == multiset(ys)
    ensures ys == before + [xs[0]] + after
    ensures multiset(xs[1..]) == multiset(before + after)
  {
    var x := xs[0];
    assert x in multiset(ys);
    var i :| 0 <= i < |ys| && ys[i] == x;
    before, after := ys[..i], ys[i + 1..];
    assert ys == before + [x] + after;
    assert xs == [x] + xs[1..];
    calc {
      multiset(xs[1..]);
      multiset([x] + xs[1..]) - multiset{x};
      multiset(before + [x] + after) - multiset{x};
      multiset(before) + multiset(after);
      multiset(before + after);
    }
  }

  lemma {:induction false} FoldPermutation<A(!new), T(!new)>(f: (A, T) -> A, a: A, xs: seq<T>, ys: seq<T>)
    requires Commutes(f)
    requires multiset(xs) == multiset(ys)
    ensures Fold(f, a, xs) == Fold(f, a, ys)
    decreases |xs|
  {
    if xs == [] {
      assert |multiset(ys)| == 0;
    } else {
      var before, after := TakeOut(xs, ys);
      FoldPermutation(f, f(a, xs[0]), xs[1..], before + after);
      FoldMoveFront(f, a, before, xs[0], after);
    }
  }
}
