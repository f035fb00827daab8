/**
 The List monad of list.py: a non-deterministic computation whose results are
 the elements of a sequence, in order. `bind` maps the continuation over the
 elements and concatenates what it returns; the operations that monad.py
 derives from `pure` and `bind` are written out for List at the end.
 */
module ListMonad {
  import opened Functions

  datatype List<T> = List(xs: seq<T>)

  /** `List.pure`: the one-element sequence. */
  function Pure<T>(v: T): List<T>
  {
    List([v])
  }

  /** The combining function `lambda xs, ys: xs + ys` of `List.bind`'s fold. */
  function Join<S>(xs: seq<S>, ys: seq<S>): seq<S>
  {
    xs + ys
  }

  /** `reduce(lambda xs, ys: xs + ys, parts, [])`: a left fold of concatenation seeded with `[]`. */
  function Concat<S>(parts: seq<seq<S>>): seq<S>
  {
    Reduce(Join, parts, [])
  }

  /**
   Reference meaning of `bind`, independent of the fold: the results of `k` on
   each element in turn, the first element's results first.
   */
  function FlatMap<T, S>(xs: seq<T>, k: T -> List<S>): seq<S>
  {
    if xs == [] then [] else k(xs[0]).xs + FlatMap(xs[1..], k)
  }

  /** Sum, over the elements, of the number of results `k` gives for each. */
  function TotalLength<T, S>(xs: seq<T>, k: T -> List<S>): nat
  {
    if xs == [] then 0 else |k(xs[0]).xs| + TotalLength(xs[1..], k)
  }

  /**
   `List.bind`: the stored sequences of `k` applied to every element (Python's
   `map`), concatenated by the left fold Concat.
   */
  function Bind<T, S>(m: List<T>, k: T -> List<S>): (r: List<S>)
    ensures r.xs == FlatMap(m.xs, k)
  {
    var parts := Map(x => k(x).xs, m.xs);
    ConcatOfParts(parts, m.xs, k);
    List(Concat(parts))
  }

  /** `List.__eq__` against another List: element-wise and order-sensitive. */
  predicate Equals<T(==)>(a: List<T>, b: List<T>): (r: bool)
    ensures r <==> a == b
  {
    a.xs == b.xs
  }

  /** `List.__eq__` against a plain sequence: equal when the stored sequence is that sequence. */
  predicate EqualsSeq<T(==)>(a: List<T>, s: seq<T>): (r: bool)
    ensures r <==> a == List(s)
  {
    a.xs == s
  }

  /** `List.__len__`. */
  function Length<T>(m: List<T>): nat
  {
    |m.xs|
  }

  /** `List.__iter__`: the stored elements, in order. */
  function Elements<T>(m: List<T>): seq<T>
  {
    m.xs
  }

  // Facts about the fold that implements bind.

  lemma {:induction false} ConcatPrepend<S>(p: seq<S>, ps: seq<seq<S>>)
    ensures Concat([p] + ps) == p + Concat(ps)
  {
    if ps == [] {
      assert ([p] + ps)[..0] == [];
    } else {
      var n := |ps|;
      assert ([p] + ps)[..n] == [p] + ps[..n - 1];
      ConcatPrepend(p, ps[..n - 1]);
    }
  }

  lemma {:induction false} ConcatOfParts<T, S>(parts: seq<seq<S>>, xs: seq<T>, k: T -> List<S>)
    requires |parts| == |xs|
    requires forall i :: 0 <= i < |xs| ==> parts[i] == k(xs[i]).xs
    ensures Concat(parts) == FlatMap(xs, k)
  {
    if xs != [] {
      assert parts == [parts[0]] + parts[1..];
      ConcatPrepend(parts[0], parts[1..]);
      ConcatOfParts(parts[1..], xs[1..], k);
    }
  }

  lemma {:induction false} FlatMapAppend<T, S>(xs: seq<T>, ys: seq<T>, k: T -> List<S>)
    ensures FlatMap(xs + ys, k) == FlatMap(xs, k) + FlatMap(ys, k)
  {
    if xs == [] {
      assert xs + ys == ys;
    } else {
      assert (xs + ys)[1..] == xs[1..] + ys;
      FlatMapAppend(xs[1..], ys, k);
    }
  }

  /** When every result of `k` is the single value `h(x)`, binding maps `h`. */
  lemma {:induction false} BindSingletons<T, S>(xs: seq<T>, k: T -> List<S>, h: T -> S)
    requires forall x :: k(x).xs == [h(x)]
    ensures FlatMap(xs, k) == Map(h, xs)
  {
    if xs != [] {
      BindSingletons(xs[1..], k, h);
      assert Map(h, xs) == [h(xs[0])] + Map(h, xs[1..]);
    }
  }

  /** When every result of `k` has `n` elements, binding gives `|xs| * n` results. */
  lemma {:induction false} FlatMapUniformLength<T, S>(xs: seq<T>, k: T -> List<S>, n: nat)
    requires forall x :: |k(x).xs| == n
    ensures |FlatMap(xs, k)| == |xs| * n
  {
    if xs != [] {
      FlatMapUniformLength(xs[1..], k, n);
      assert |xs| * n == n + (|xs| - 1) * n;
    }
  }

  /** Binding with continuations that agree everywhere gives the same list. */
  lemma {:induction false} FlatMapCongruence<T, S>(xs: seq<T>, k1: T -> List<S>, k2: T -> List<S>)
    requires forall x :: k1(x) == k2(x)
    ensures FlatMap(xs, k1) == FlatMap(xs, k2)
  {
    if xs != [] {
      FlatMapCongruence(xs[1..], k1, k2);
    }
  }

  // What bind promises.

  /** The fold is seeded with `[]`, so binding the empty list gives the empty list. */
  lemma BindEmpty<T, S>(k: T -> List<S>)
    ensures Bind(List([]), k) == List([])
  {
  }

  /** The number of results of `xs.bind(k)` is the sum of the numbers of results of `k`. */
  lemma {:induction false} BindLength<T, S>(m: List<T>, k: T -> List<S>)
    ensures Length(Bind(m, k)) == TotalLength(m.xs, k)
    decreases |m.xs|
  {
    if m.xs != [] {
      BindLength(List(m.xs[1..]), k);
    }
  }

  /** `(xs ++ ys).bind(k) == xs.bind(k) ++ ys.bind(k)`. */
  lemma BindDistributes<T, S>(xs: seq<T>, ys: seq<T>, k: T -> List<S>)
    ensures Bind(List(xs + ys), k).xs == Bind(List(xs), k).xs + Bind(List(ys), k).xs
  {
    FlatMapAppend(xs, ys, k);
  }

  /** `List([1,2,3]).bind(x -> List([x+1, x-1])) == [2,0,3,1,4,2]`: outer element first. */
  lemma BindExample()
    ensures EqualsSeq(Bind(List([1, 2, 3]), (x: int) => List([x + 1, x - 1])), [2, 0, 3, 1, 4, 2])
  {
    var k := (x: int) => List([x + 1, x - 1]);
    assert [1, 2, 3][1..] == [2, 3];
    assert [2, 3][1..] == [3];
    assert FlatMap([3], k) == [4, 2];
    assert FlatMap([2, 3], k) == [3, 1, 4, 2];
  }

  /** `len` and iteration expose the stored sequence unchanged: `list(iter(List([1,2,3]))) == [1,2,3]`. */
  lemma LengthAndElements<T>(s: seq<T>)
    ensures Elements(List(s)) == s
    ensures Length(List(s)) == |Elements(List(s))| == |s|
  {
  }

  // The monad laws.

  lemma LeftIdentity<T, S>(x: T, k: T -> List<S>)
    ensures Bind(Pure(x), k) == k(x)
  {
    assert [x][1..] == [];
    assert FlatMap([x], k) == k(x).xs + FlatMap([], k);
  }

  lemma RightIdentity<T>(m: List<T>)
    ensures Bind(m, x => Pure(x)) == m
  {
    BindSingletons(m.xs, x => Pure(x), x => x);
    assert Map(x => x, m.xs) == m.xs;
  }

  lemma {:induction false} FlatMapAssociative<T, S, U>(xs: seq<T>, k1: T -> List<S>, k2: S -> List<U>,
                                                       k: T -> List<U>)
    requires forall x :: k(x).xs == FlatMap(k1(x).xs, k2)
    ensures FlatMap(FlatMap(xs, k1), k2) == FlatMap(xs, k)
  {
    if xs != [] {
      FlatMapAppend(k1(xs[0]).xs, FlatMap(xs[1..], k1), k2);
      FlatMapAssociative(xs[1..], k1, k2, k);
    }
  }

  lemma Associativity<T, S, U>(m: List<T>, k1: T -> List<S>, k2: S -> List<U>)
    ensures Bind(Bind(m, k1), k2) == Bind(m, x => Bind(k1(x), k2))
  {
    FlatMapAssociative(m.xs, k1, k2, x => Bind(k1(x), k2));
  }

  // Operations derived from Pure and Bind (monad.py).

  /**
   `apply`: bind the function, bind the argument, and wrap the application in
   `pure`. The source's `curry(f, a)` is application of a curried arrow.
   */
  function Apply<A, B>(mf: List<A -> B>, ma: List<A>): List<B>
  {
    Bind(mf, (f: A -> B) => Bind(ma, (a: A) => Pure(f(a))))
  }

  function LiftM<A, B>(f: A -> B, a: List<A>): List<B>
  {
    Apply(Pure(f), a)
  }

  function LiftM2<A, B, C>(f: A -> B -> C, a: List<A>, b: List<B>): List<C>
  {
    Apply(Apply(Pure(f), a), b)
  }

  function LiftM3<A, B, C, D>(f: A -> B -> C -> D, a: List<A>, b: List<B>, c: List<C>): List<D>
  {
    Apply(Apply(Apply(Pure(f), a), b), c)
  }

  function LiftM4<A, B, C, D, E>(f: A -> B -> C -> D -> E, a: List<A>, b: List<B>, c: List<C>,
                                 d: List<D>): List<E>
  {
    Apply(Apply(Apply(Apply(Pure(f), a), b), c), d)
  }

  function LiftM5<A, B, C, D, E, F>(f: A -> B -> C -> D -> E -> F, a: List<A>, b: List<B>,
                                    c: List<C>, d: List<D>, e: List<E>): List<F>
  {
    Apply(Apply(Apply(Apply(Apply(Pure(f), a), b), c), d), e)
  }

  /** Binding to `pure(f(x))` maps `f` over the elements. */
  lemma BindPureIsMap<A, B>(f: A -> B, ma: List<A>)
    ensures Bind(ma, (a: A) => Pure(f(a))).xs == Map(f, ma.xs)
  {
    BindSingletons(ma.xs, (a: A) => Pure(f(a)), f);
  }

  /**
   `apply` pairs every function with every argument, functions outermost: each
   function in turn is mapped over all the arguments.
   */
  lemma ApplyOrder<A, B>(mf: List<A -> B>, ma: List<A>)
    ensures Apply(mf, ma) == Bind(mf, (f: A -> B) => List(Map(f, ma.xs)))
    ensures |Apply(mf, ma).xs| == |mf.xs| * |ma.xs|
  {
    var k := (f: A -> B) => Bind(ma, (a: A) => Pure(f(a)));
    forall f: A -> B
      ensures k(f) == List(Map(f, ma.xs))
    {
      BindPureIsMap(f, ma);
    }
    FlatMapCongruence(mf.xs, k, (f: A -> B) => List(Map(f, ma.xs)));
    FlatMapUniformLength(mf.xs, k, |ma.xs|);
  }

  /** `liftM(f, a)` maps `f` over the elements, keeping their order and number. */
  lemma LiftMIsMap<A, B>(f: A -> B, a: List<A>)
    ensures LiftM(f, a).xs == Map(f, a.xs)
    ensures LiftM(f, a) == Bind(a, x => Pure(f(x)))
  {
    LeftIdentity(f, (g: A -> B) => Bind(a, (x: A) => Pure(g(x))));
    BindPureIsMap(f, a);
  }

  /**
   The liftM and apply cases of the tests, with `show` standing for Python's
   `str`: `liftM(x + 1)` over 1 to 5 gives 2 to 6, and `pure(str)` applied to
   1 to 5 shows each of them, in order.
   */
  lemma LiftMExamples(inc: int -> int, show: int -> string)
    requires forall x :: inc(x) == x + 1
    ensures EqualsSeq(LiftM(inc, List([1, 2, 3, 4, 5])), [2, 3, 4, 5, 6])
    ensures EqualsSeq(Apply(Pure(show), List([1, 2, 3, 4, 5])), [show(1), show(2), show(3), show(4), show(5)])
  {
    var one: seq<int> := [1, 2, 3, 4, 5];
    assert Map(inc, one) == [2, 3, 4, 5, 6];
    assert Map(show, one) == [show(1), show(2), show(3), show(4), show(5)];
    LiftMIsMap(inc, List(one));
    LiftMIsMap(show, List(one));
  }

  /**
   `liftM2(f, a, b)` binds `a` to `x`, then `b` to `y`, then gives `pure(f(x)(y))`:
   every pair, `a`'s elements outermost.
   */
  lemma LiftM2IsNestedBind<A, B, C>(f: A -> B -> C, a: List<A>, b: List<B>)
    ensures LiftM2(f, a, b) == Bind(a, x => Bind(b, y => Pure(f(x)(y))))
    ensures LiftM2(f, a, b) == Bind(a, x => List(Map(f(x), b.xs)))
    ensures |LiftM2(f, a, b).xs| == |a.xs| * |b.xs|
  {
    LiftMIsMap(f, a);
    ApplyOrder(LiftM(f, a), b);
    var inner := (x: A) => Bind(b, y => Pure(f(x)(y)));
    var rows := (x: A) => List(Map(f(x), b.xs));
    var k := (g: B -> C) => List(Map(g, b.xs));
    forall x: A
      ensures inner(x) == rows(x) && rows(x) == k(f(x))
    {
      BindSingletons(b.xs, y => Pure(f(x)(y)), f(x));
    }
    FlatMapOfMap(f, a.xs, k, rows);
    FlatMapCongruence(a.xs, inner, rows);
    FlatMapUniformLength(a.xs, rows, |b.xs|);
  }

  lemma {:induction false} FlatMapOfMap<T, U, S>(h: T -> U, xs: seq<T>, k: U -> List<S>, k2: T -> List<S>)
    requires forall x :: k2(x) == k(h(x))
    ensures FlatMap(Map(h, xs), k) == FlatMap(xs, k2)
  {
    if xs != [] {
      assert Map(h, xs)[1..] == Map(h, xs[1..]);
      FlatMapOfMap(h, xs[1..], k, k2);
    }
  }

  /** With a one-element second argument, `liftM2` keeps the first argument's order and length. */
  lemma LiftM2PureRight<A, B, C>(f: A -> B -> C, a: List<A>, y: B)
    ensures LiftM2(f, a, Pure(y)).xs == Map(x => f(x)(y), a.xs)
  {
    LiftM2IsNestedBind(f, a, Pure(y));
    var rows := (x: A) => List(Map(f(x), Pure(y).xs));
    forall x: A
      ensures rows(x).xs == [f(x)(y)]
    {
      assert Map(f(x), [y]) == [f(x)(y)];
    }
    BindSingletons(a.xs, rows, x => f(x)(y));
  }

  /**
   Reference meaning of `liftM2`, independent of `bind`: for each element of
   the first sequence in turn, f of it applied to every element of the second.
   */
  function Rows<A, B, C>(f: A -> B -> C, xs: seq<A>, ys: seq<B>): seq<C>
  {
    if xs == [] then [] else Map(f(xs[0]), ys) + Rows(f, xs[1..], ys)
  }

  lemma {:induction false} FlatMapRows<A, B, C>(f: A -> B -> C, xs: seq<A>, ys: seq<B>, rows: A -> List<C>)
    requires forall x :: rows(x) == List(Map(f(x), ys))
    ensures FlatMap(xs, rows) == Rows(f, xs, ys)
  {
    if xs != [] {
      FlatMapRows(f, xs[1..], ys, rows);
    }
  }

  /** `liftM2(f, a, b)` lists f of every pair, the first argument's elements varying slowest. */
  lemma LiftM2Rows<A, B, C>(f: A -> B -> C, a: List<A>, b: List<B>)
    ensures LiftM2(f, a, b).xs == Rows(f, a.xs, b.xs)
  {
    LiftM2IsNestedBind(f, a, b);
    FlatMapRows(f, a.xs, b.xs, x => List(Map(f(x), b.xs)));
  }

  /** `liftM3` to `liftM5` extend the chain by one `apply` each: one factor more in the count. */
  lemma LiftM3Count<A, B, C, D>(f: A -> B -> C -> D, a: List<A>, b: List<B>, c: List<C>)
    ensures LiftM3(f, a, b, c) == Apply(LiftM2(f, a, b), c)
    ensures |LiftM3(f, a, b, c).xs| == |a.xs| * |b.xs| * |c.xs|
  {
    LiftM2IsNestedBind(f, a, b);
    ApplyOrder(LiftM2(f, a, b), c);
  }

  lemma LiftM4Count<A, B, C, D, E>(f: A -> B -> C -> D -> E, a: List<A>, b: List<B>, c: List<C>,
                                   d: List<D>)
    ensures LiftM4(f, a, b, c, d) == Apply(LiftM3(f, a, b, c), d)
    ensures |LiftM4(f, a, b, c, d).xs| == |a.xs| * |b.xs| * |c.xs| * |d.xs|
  {
    LiftM3Count(f, a, b, c);
    ApplyOrder(LiftM3(f, a, b, c), d);
  }

  lemma LiftM5Count<A, B, C, D, E, F>(f: A -> B -> C -> D -> E -> F, a: List<A>, b: List<B>,
                                      c: List<C>, d: List<D>, e: List<E>)
    ensures LiftM5(f, a, b, c, d, e) == Apply(LiftM4(f, a, b, c, d), e)
    ensures |LiftM5(f, a, b, c, d, e).xs| == |a.xs| * |b.xs| * |c.xs| * |d.xs| * |e.xs|
  {
    LiftM4Count(f, a, b, c, d);
    ApplyOrder(LiftM4(f, a, b, c, d), e);
  }
}
