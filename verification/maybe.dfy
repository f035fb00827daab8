/**
 The Maybe monad of maybe.py: a computation that either succeeds with a value
 (`Just`) or fails (`Nothing`). `Nothing` is a constructor here, so the
 source's identity test against the `Nothing` singleton becomes a test of the
 variant. The operations that monad.py derives from `pure` and `bind`
 (`apply`, `liftM` to `liftM5`) are written out for Maybe at the end.
 */
module MaybeMonad {

  datatype Maybe<T> = Just(value: T) | Nothing

  /** `Maybe.pure`: the minimal successful context. */
  function Pure<T>(v: T): Maybe<T>
  {
    Just(v)
  }

  /**
   `Maybe.bind`: `Nothing` short-circuits without consulting `k`; otherwise the
   result is whatever `k` makes of the held value.
   */
  function Bind<T, S>(m: Maybe<T>, k: T -> Maybe<S>): (r: Maybe<S>)
    ensures r.Just? <==> m.Just? && k(m.value).Just?
    ensures r.Just? ==> r == k(m.value)
  {
    if m.Nothing? then Nothing else k(m.value)
  }

  /**
   `Maybe.__eq__`: when either side is `Nothing` the two are equal only if both
   are; otherwise the held values are compared. This is structural equality.
   */
  predicate Equals<T(==)>(a: Maybe<T>, b: Maybe<T>): (r: bool)
    ensures r <==> a == b
  {
    if a.Nothing? || b.Nothing? then a.Nothing? && b.Nothing? else a.value == b.value
  }

  /** `Just(2) == Nothing` is false, and `Maybe.pure(2) == Just(2)`. */
  lemma EqualityExamples()
    ensures !Equals(Just(2), Nothing)
    ensures Equals(Pure(2), Just(2))
  {
  }

  /** Binding `Nothing` gives `Nothing`, whatever the continuation. */
  lemma NothingAbsorbs<T, S>(k: T -> Maybe<S>)
    ensures Bind(Nothing, k) == Nothing
  {
  }

  // The monad laws.

  lemma LeftIdentity<T, S>(x: T, k: T -> Maybe<S>)
    ensures Bind(Pure(x), k) == k(x)
  {
  }

  lemma RightIdentity<T>(m: Maybe<T>)
    ensures Bind(m, x => Pure(x)) == m
  {
  }

  lemma Associativity<T, S, U>(m: Maybe<T>, k1: T -> Maybe<S>, k2: S -> Maybe<U>)
    ensures Bind(Bind(m, k1), k2) == Bind(m, x => Bind(k1(x), k2))
  {
  }

  // Operations derived from Pure and Bind (monad.py).

  /**
   `apply`: bind the function, bind the argument, and wrap the application in
   `pure`. The source's `curry(f, a)` is application of a curried arrow.
   */
  function Apply<A, B>(mf: Maybe<A -> B>, ma: Maybe<A>): Maybe<B>
  {
    Bind(mf, (f: A -> B) => Bind(ma, (a: A) => Pure(f(a))))
  }

  function LiftM<A, B>(f: A -> B, a: Maybe<A>): Maybe<B>
  {
    Apply(Pure(f), a)
  }

  function LiftM2<A, B, C>(f: A -> B -> C, a: Maybe<A>, b: Maybe<B>): Maybe<C>
  {
    Apply(Apply(Pure(f), a), b)
  }

  function LiftM3<A, B, C, D>(f: A -> B -> C -> D, a: Maybe<A>, b: Maybe<B>, c: Maybe<C>): Maybe<D>
  {
    Apply(Apply(Apply(Pure(f), a), b), c)
  }

  function LiftM4<A, B, C, D, E>(f: A -> B -> C -> D -> E, a: Maybe<A>, b: Maybe<B>, c: Maybe<C>,
                                 d: Maybe<D>): Maybe<E>
  {
    Apply(Apply(Apply(Apply(Pure(f), a), b), c), d)
  }

  function LiftM5<A, B, C, D, E, F>(f: A -> B -> C -> D -> E -> F, a: Maybe<A>, b: Maybe<B>,
                                    c: Maybe<C>, d: Maybe<D>, e: Maybe<E>): Maybe<F>
  {
    Apply(Apply(Apply(Apply(Apply(Pure(f), a), b), c), d), e)
  }

  /** `apply` succeeds exactly when both the function and the argument are present. */
  lemma ApplyOutcome<A, B>(mf: Maybe<A -> B>, ma: Maybe<A>)
    ensures Apply(mf, ma) == if mf.Just? && ma.Just? then Just(mf.value(ma.value)) else Nothing
  {
  }

  /** `Maybe.pure(x + 1).apply(Just(1)) == Just(2)` and `... .apply(Nothing) == Nothing`. */
  lemma ApplyExamples()
    ensures Apply(Pure((x: int) => x + 1), Just(1)) == Just(2)
    ensures Apply(Pure((x: int) => x + 1), Nothing) == Nothing
  {
    ApplyOutcome(Pure((x: int) => x + 1), Just(1));
  }

  /**
   The bind and liftM cases of the tests: `pure(7)` and `Just(1)` bound to
   `Just(x + 1)` give `Just(8)` and `Just(2)`, `Nothing` bound to it stays
   `Nothing`, and `liftM(x + 1)` gives `Just(2)` from `Just(1)` and `Nothing`
   from `Nothing`.
   */
  lemma BindExamples()
    ensures Bind(Pure(7), (x: int) => Just(x + 1)) == Just(8)
    ensures Bind(Just(1), (x: int) => Just(x + 1)) == Just(2)
    ensures Bind(Nothing, (x: int) => Just(x + 1)) == Nothing
    ensures LiftM((x: int) => x + 1, Just(1)) == Just(2)
    ensures LiftM((x: int) => x + 1, Nothing) == Nothing
  {
    LiftMIsMap((x: int) => x + 1, Just(1));
    LiftMIsMap((x: int) => x + 1, Nothing);
  }

  /** `liftM(f, a)` is `pure(f).apply(a)`, which by left identity is `a` bound to `pure(f(x))`. */
  lemma LiftMIsMap<A, B>(f: A -> B, a: Maybe<A>)
    ensures LiftM(f, a) == Bind(a, x => Pure(f(x)))
    ensures LiftM(f, a) == if a.Just? then Just(f(a.value)) else Nothing
  {
  }

  /**
   `liftM2(f, a, b)`, the chain `pure(f).apply(a).apply(b)`, binds `a` first and
   `b` second and wraps `f(x)(y)`.
   */
  lemma LiftM2IsNestedBind<A, B, C>(f: A -> B -> C, a: Maybe<A>, b: Maybe<B>)
    ensures LiftM2(f, a, b) == Bind(a, x => Bind(b, y => Pure(f(x)(y))))
    ensures LiftM2(f, a, b) == if a.Just? && b.Just? then Just(f(a.value)(b.value)) else Nothing
  {
  }

  lemma LiftM3Outcome<A, B, C, D>(f: A -> B -> C -> D, a: Maybe<A>, b: Maybe<B>, c: Maybe<C>)
    ensures LiftM3(f, a, b, c) ==
            if a.Just? && b.Just? && c.Just? then Just(f(a.value)(b.value)(c.value)) else Nothing
  {
  }

  lemma LiftM4Outcome<A, B, C, D, E>(f: A -> B -> C -> D -> E, a: Maybe<A>, b: Maybe<B>, c: Maybe<C>,
                                     d: Maybe<D>)
    ensures LiftM4(f, a, b, c, d) ==
            if a.Just? && b.Just? && c.Just? && d.Just?
            then Just(f(a.value)(b.value)(c.value)(d.value))
            else Nothing
  {
  }

  lemma LiftM5Outcome<A, B, C, D, E, F>(f: A -> B -> C -> D -> E -> F, a: Maybe<A>, b: Maybe<B>,
                                        c: Maybe<C>, d: Maybe<D>, e: Maybe<E>)
    ensures LiftM5(f, a, b, c, d, e) ==
            if a.Just? && b.Just? && c.Just? && d.Just? && e.Just?
            then Just(f(a.value)(b.value)(c.value)(d.value)(e.value))
            else Nothing
  {
  }
}
