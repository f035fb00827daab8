/**
 Support utilities of functions.py that the monads rely on: partial application
 of a two-argument function (`curry`), Python's `functools.reduce` and `map`
 over a sequence, and the "nothing accumulated yet" value that a `reduce`
 seeded with `None` returns on an empty input. The traversals `filterM` and
 `mapM` of the same file live in module Traversals, because they need the
 monads and the monads need `curry`.
 */
module Functions {

  /** `None` is the result of a fold seeded with Python's `None` over an empty input. */
  datatype Option<T> = None | Some(value: T)

  /**
   `curry(f, arg)` for a function of two positional arguments: the function of
   the remaining argument, with `arg` fixed in first position. For a function of
   one argument the source's `curry` simply calls it; in this model functions of
   several arguments are curried arrows, so that case is ordinary application.
   */
  function Curry<A, B, C>(f: (A, B) -> C, arg: A): B -> C
  {
    rest => f(arg, rest)
  }

  /** Fixing the first argument and then supplying the rest is the same as calling f with both. */
  lemma CurryFixesFirst<A, B, C>(f: (A, B) -> C, arg: A, rest: B)
    ensures Curry(f, arg)(rest) == f(arg, rest)
  {
  }

  /**
   Python's `functools.reduce(f, xs, init)`: a left fold, so the last item is
   combined last with what the fold of the items before it produced.
   */
  function Reduce<A, T>(f: (A, T) -> A, xs: seq<T>, init: A): A
  {
    if xs == [] then init else f(Reduce(f, xs[..|xs| - 1], init), xs[|xs| - 1])
  }

  /** The fold of a sequence extended by one item combines the earlier fold with that item. */
  lemma ReduceSnoc<A, T>(f: (A, T) -> A, xs: seq<T>, x: T, init: A)
    ensures Reduce(f, xs + [x], init) == f(Reduce(f, xs, init), x)
  {
    assert (xs + [x])[..|xs|] == xs;
  }

  /** Python's `map(f, xs)`, materialised: f applied to each element, in order. */
  function Map<A, B>(f: A -> B, xs: seq<A>): (ys: seq<B>)
    ensures |ys| == |xs|
    ensures forall i :: 0 <= i < |xs| ==> ys[i] == f(xs[i])
  {
    seq(|xs|, i requires 0 <= i < |xs| => f(xs[i]))
  }
}
