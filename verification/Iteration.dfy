/**
 Repeating a step and folding over a sequence, over any type: what the proof about the CRC needs, kept free
 of bit vectors.
 */
module Iteration {
  import opened Prelude

  function Iterate<T>(f: T -> T, x: T, k: nat): T
    decreases k
  {
    if k == 0 then x else Iterate(f, f(x), k - 1)
  }

  function Fold<S, B>(f: (S, B) -> S, s: S, items: seq<B>): S
    decreases |items|
  {
    if items == [] then s else Fold(f, f(s, items[0]), items[1..])
  }

  /** The digits that `digit` reads off `w` while `rest` drops them one by one. */
  function Digits<T>(digit: T -> T, rest: T -> T, w: T, k: nat): seq<T>
    decreases k
  {
    if k == 0 then [] else [digit(w)] + Digits(digit, rest, rest(w), k - 1)
  }

  lemma {:induction false} IterateOnceMore<T>(f: T -> T, x: T, k: nat)
    ensures Iterate(f, x, k + 1) == f(Iterate(f, x, k))
    decreases k
  {
    if k > 0 {
      IterateOnceMore(f, f(x), k - 1);
    }
  }

  lemma Iterate8<T>(f: T -> T, x: T)
    ensures Iterate(f, x, 8) == f(f(f(f(f(f(f(f(x))))))))
  {
  }

  lemma {:induction false} FoldConcat<S, B>(f: (S, B) -> S, s: S, a: seq<B>, b: seq<B>)
    ensures Fold(f, s, a + b) == Fold(f, Fold(f, s, a), b)
    decreases |a|
  {
    if a == [] {
      assert a + b == b;
    } else {
      assert (a + b)[1..] == a[1..] + b;
      FoldConcat(f, f(s, a[0]), a[1..], b);
    }
  }

  function Flatten<A, B>(g: A -> seq<B>, xs: seq<A>): seq<B> {
    if xs == [] then [] else g(xs[0]) + Flatten(g, xs[1..])
  }

  lemma {:induction false} FlattenConcat<A, B>(g: A -> seq<B>, a: seq<A>, b: seq<A>)
    ensures Flatten(g, a + b) == Flatten(g, a) + Flatten(g, b)
  {
    if a == [] {
      assert a + b == b;
    } else {
      assert (a + b)[1..] == a[1..] + b;
      FlattenConcat(g, a[1..], b);
    }
  }

  /** Folding items at a time is folding their parts one by one. */
  lemma {:induction false} FoldFlatten<S(!new), A(!new), B>(
      f: (S, B) -> S, g: A -> seq<B>, step: (S, A) -> S, s: S, xs: seq<A>)
    requires forall s, a :: step(s, a) == Fold(f, s, g(a))
    ensures Fold(step, s, xs) == Fold(f, s, Flatten(g, xs))
    decreases |xs|
  {
    if xs != [] {
      FoldFlatten(f, g, step, step(s, xs[0]), xs[1..]);
      FoldConcat(f, s, g(xs[0]), Flatten(g, xs[1..]));
    }
  }

  method ForEach<S, B>(step: (S, B) -> S, start: S, items: seq<B>) returns (s: S)
    ensures s == Fold(step, start, items)
  {
    s := start;
    for i := 0 to |items|
      invariant Fold(step, s, items[i..]) == Fold(step, start, items)
    {
      s := step(s, items[i]);
    }
  }

  ghost predicate Linear<T(!new)>(op: (T, T) -> T, f: T -> T) {
    forall x, y :: f(op(x, y)) == op(f(x), f(y))
  }

  lemma {:induction false} IterateLinear<T(!new)>(op: (T, T) -> T, f: T -> T, x: T, y: T, k: nat)
    requires Linear(op, f)
    ensures Iterate(f, op(x, y), k) == op(Iterate(f, x, k), Iterate(f, y, k))
    decreases k
  {
    if k > 0 {
      IterateLinear(op, f, f(x), f(y), k - 1);
    }
  }

  /** Feeding digits one by one equals feeding the whole word and then stepping. */
  ghost predicate FeedsDigits<T(!new)>(op: (T, T) -> T, feed: (T, T) -> T, step: T -> T, digit: T -> T, rest: T -> T) {
    forall s, w :: op(feed(s, digit(w)), rest(w)) == step(op(s, w))
  }

  lemma {:induction false} FoldDigits<T(!new)>(
      op: (T, T) -> T, feed: (T, T) -> T, step: T -> T, digit: T -> T, rest: T -> T, s: T, w: T, k: nat)
    requires FeedsDigits(op, feed, step, digit, rest)
    ensures op(Fold(feed, s, Digits(digit, rest, w, k)), Iterate(rest, w, k)) == Iterate(step, op(s, w), k)
    decreases k
  {
    if k > 0 {
      FoldDigits(op, feed, step, digit, rest, feed(s, digit(w)), rest(w), k - 1);
      assert Digits(digit, rest, w, k)[1..] == Digits(digit, rest, rest(w), k - 1);
    }
  }

  method Repeat<T>(step: T -> T, start: T, count: nat) returns (c: T)
    ensures c == Iterate(step, start, count)
  {
    c := start;
    for k := 0 to count
      invariant c == Iterate(step, start, k)
    {
      IterateOnceMore(step, start, k);
      c := step(c);
    }
  }

  /** A table of `count` repetitions of a step from each of the 256 starting values. */
  method Tabulate<T(0)>(start: byte -> T, step: T -> T, count: nat) returns (table: seq<T>)
    ensures |table| == 256 && forall n: byte :: table[n] == Iterate(step, start(n), count)
  {
    var a := new T[256];
    for n := 0 to 256
      invariant forall m: byte :: m < n ==> a[m] == Iterate(step, start(m), count)
    {
      var c := Repeat(step, start(n), count);
      a[n] := c;
    }
    table := a[..];
  }

  lemma {:induction false} IterateInjective<T(!new)>(f: T -> T, x: T, y: T, k: nat)
    requires forall a, b :: f(a) == f(b) ==> a == b
    requires Iterate(f, x, k) == Iterate(f, y, k)
    ensures x == y
    decreases k
  {
    if k > 0 {
      IterateInjective(f, f(x), f(y), k - 1);
    }
  }
}
