/**
 The Writer monads of writer.py: a value paired with a log, where logs are
 combined in a monoid. The source has one base class and four subclasses that
 differ only in the monoid; here there is one generic Writer, and every
 operation that needs the monoid takes it as a Monoid value (identity and
 combine). The four monoids of the source are StrMonoid, SeqMonoid, SumMonoid
 and ProdMonoid. The operations that monad.py derives from `pure` and `bind`
 are written out for Writer at the end.
 */
module WriterMonad {

  /** A log type's `_monoid_id` and `_monoid_operation`. */
  datatype Monoid<!L> = Monoid(id: L, op: (L, L) -> L)

  /** The identity is neutral on both sides and the combine is associative. */
  ghost predicate IsMonoid<L(!new)>(m: Monoid<L>)
  {
    && (forall x :: m.op(m.id, x) == x)
    && (forall x :: m.op(x, m.id) == x)
    && (forall x, y, z :: m.op(m.op(x, y), z) == m.op(x, m.op(y, z)))
  }

  /** WriterStr: strings, `""` and `+`. */
  function StrMonoid(): Monoid<string>
  {
    Monoid("", (a: string, b: string) => a + b)
  }

  /** WriterList: sequences, `[]` and `+`. */
  function SeqMonoid<T>(): Monoid<seq<T>>
  {
    Monoid([], (a: seq<T>, b: seq<T>) => a + b)
  }

  /** WriterSum: numbers, `0` and `+` (integers only, see README). */
  function SumMonoid(): Monoid<int>
  {
    Monoid(0, (a: int, b: int) => a + b)
  }

  /** WriterProd: numbers, `1` and `*` (integers only, see README). */
  function ProdMonoid(): Monoid<int>
  {
    Monoid(1, (a: int, b: int) => a * b)
  }

  lemma StrMonoidLaws()
    ensures IsMonoid(StrMonoid())
  {
    var m := StrMonoid();
    forall x: string ensures m.op(m.id, x) == x && m.op(x, m.id) == x {
      assert "" + x == x && x + "" == x;
    }
    forall x: string, y: string, z: string ensures m.op(m.op(x, y), z) == m.op(x, m.op(y, z)) {
      assert (x + y) + z == x + (y + z);
    }
  }

  lemma SeqMonoidLaws<T(!new)>()
    ensures IsMonoid(SeqMonoid<T>())
  {
    var m := SeqMonoid<T>();
    forall x: seq<T> ensures m.op(m.id, x) == x && m.op(x, m.id) == x {
      assert [] + x == x && x + [] == x;
    }
    forall x: seq<T>, y: seq<T>, z: seq<T> ensures m.op(m.op(x, y), z) == m.op(x, m.op(y, z)) {
      assert (x + y) + z == x + (y + z);
    }
  }

  lemma SumMonoidLaws()
    ensures IsMonoid(SumMonoid())
  {
  }

  lemma ProdMonoidLaws()
    ensures IsMonoid(ProdMonoid())
  {
  }

  datatype Writer<V, L> = Writer(value: V, log: L)

  /** `_Writer.pure`: the value with the identity as its log. */
  function Pure<V, L>(m: Monoid<L>, v: V): Writer<V, L>
  {
    Writer(v, m.id)
  }

  /**
   `_Writer.bind`: run `k` on the value; keep its value, and combine the
   earlier log (left) with the log `k` produced (right).
   */
  function Bind<V, S, L>(m: Monoid<L>, w: Writer<V, L>, k: V -> Writer<S, L>): Writer<S, L>
  {
    var result := k(w.value);
    Writer(result.value, m.op(w.log, result.log))
  }

  /** `tell` (the same in all four subclasses): no value, and exactly the given log. */
  function Tell<L>(log: L): Writer<(), L>
  {
    Writer((), log)
  }

  /** `_Writer.__eq__`: equal values and equal logs. */
  predicate Equals<V(==), L(==)>(a: Writer<V, L>, b: Writer<V, L>): (r: bool)
    ensures r <==> a == b
  {
    a.value == b.value && a.log == b.log
  }

  // The monad laws, each resting on the monoid laws.

  lemma LeftIdentity<V, S, L(!new)>(m: Monoid<L>, x: V, k: V -> Writer<S, L>)
    requires IsMonoid(m)
    ensures Bind(m, Pure(m, x), k) == k(x)
  {
  }

  lemma RightIdentity<V, L(!new)>(m: Monoid<L>, w: Writer<V, L>)
    requires IsMonoid(m)
    ensures Bind(m, w, v => Pure(m, v)) == w
  {
  }

  lemma Associativity<V, S, U, L(!new)>(m: Monoid<L>, w: Writer<V, L>, k1: V -> Writer<S, L>,
                                       k2: S -> Writer<U, L>)
    requires IsMonoid(m)
    ensures Bind(m, Bind(m, w, k1), k2) == Bind(m, w, x => Bind(m, k1(x), k2))
  {
  }

  /** A `tell` spliced into a bind chain contributes its log and nothing else. */
  lemma TellSplice<S, L>(m: Monoid<L>, log: L, w: Writer<S, L>)
    ensures Bind(m, Tell(log), _ => w) == Writer(w.value, m.op(log, w.log))
  {
  }

  /** `WriterStr.pure(5).bind(x -> WriterStr(x + 1, "Added 1")) == WriterStr(6, "Added 1")`. */
  lemma StrBindExample()
    ensures Bind(StrMonoid(), Pure(StrMonoid(), 5), (x: int) => Writer(x + 1, "Added 1")) == Writer(6, "Added 1")
  {
    assert "" + "Added 1" == "Added 1";
  }

  /** Logs accumulate in call order: `pure(5)`, then `+1` logging "Added 1", then `+2` logging "Added 2". */
  lemma SeqBindChainExample()
    ensures Bind(SeqMonoid(),
                 Bind(SeqMonoid(), Pure(SeqMonoid(), 5), (x: int) => Writer(x + 1, ["Added 1"])),
                 (x: int) => Writer(x + 2, ["Added 2"]))
            == Writer(8, ["Added 1", "Added 2"])
  {
    assert [] + ["Added 1"] == ["Added 1"];
    assert ["Added 1"] + ["Added 2"] == ["Added 1", "Added 2"];
  }

  /** The nested binds with a `tell` in the middle give `WriterStr(3, "Added 1, 2")`. */
  lemma StrTellExample()
    ensures Bind(StrMonoid(), Pure(StrMonoid(), 1),
                 (x: int) => Bind(StrMonoid(), Pure(StrMonoid(), 2),
                                  (y: int) => Bind(StrMonoid(), Tell("Added 1, 2"),
                                                   (_: ()) => Pure(StrMonoid(), x + y))))
            == Writer(3, "Added 1, 2")
  {
    assert "Added 1, 2" + "" == "Added 1, 2";
    assert "" + ("" + "Added 1, 2") == "Added 1, 2";
  }

  // Operations derived from Pure and Bind (monad.py).

  /**
   `apply`: bind the function, bind the argument, and wrap the application in
   `pure`. The source's `curry(f, a)` is application of a curried arrow.
   */
  function Apply<A, B, L>(m: Monoid<L>, mf: Writer<A -> B, L>, ma: Writer<A, L>): Writer<B, L>
  {
    Bind(m, mf, (f: A -> B) => Bind(m, ma, (a: A) => Pure(m, f(a))))
  }

  function LiftM<A, B, L>(m: Monoid<L>, f: A -> B, a: Writer<A, L>): Writer<B, L>
  {
    Apply(m, Pure(m, f), a)
  }

  function LiftM2<A, B, C, L>(m: Monoid<L>, f: A -> B -> C, a: Writer<A, L>, b: Writer<B, L>): Writer<C, L>
  {
    Apply(m, Apply(m, Pure(m, f), a), b)
  }

  function LiftM3<A, B, C, D, L>(m: Monoid<L>, f: A -> B -> C -> D, a: Writer<A, L>, b: Writer<B, L>,
                                 c: Writer<C, L>): Writer<D, L>
  {
    Apply(m, Apply(m, Apply(m, Pure(m, f), a), b), c)
  }

  function LiftM4<A, B, C, D, E, L>(m: Monoid<L>, f: A -> B -> C -> D -> E, a: Writer<A, L>,
                                    b: Writer<B, L>, c: Writer<C, L>, d: Writer<D, L>): Writer<E, L>
  {
    Apply(m, Apply(m, Apply(m, Apply(m, Pure(m, f), a), b), c), d)
  }

  function LiftM5<A, B, C, D, E, F, L>(m: Monoid<L>, f: A -> B -> C -> D -> E -> F, a: Writer<A, L>,
                                       b: Writer<B, L>, c: Writer<C, L>, d: Writer<D, L>,
                                       e: Writer<E, L>): Writer<F, L>
  {
    Apply(m, Apply(m, Apply(m, Apply(m, Apply(m, Pure(m, f), a), b), c), d), e)
  }

  /** `apply` applies the function's value to the argument's value; the function's log comes first. */
  lemma ApplyLogs<A, B, L(!new)>(m: Monoid<L>, mf: Writer<A -> B, L>, ma: Writer<A, L>)
    requires IsMonoid(m)
    ensures Apply(m, mf, ma) == Writer(mf.value(ma.value), m.op(mf.log, ma.log))
  {
  }

  /** `liftM(f, a)` applies `f` to the value and leaves the log alone. */
  lemma LiftMKeepsLog<A, B, L(!new)>(m: Monoid<L>, f: A -> B, a: Writer<A, L>)
    requires IsMonoid(m)
    ensures LiftM(m, f, a) == Bind(m, a, x => Pure(m, f(x)))
    ensures LiftM(m, f, a) == Writer(f(a.value), a.log)
  {
  }

  /** `liftM2(f, a, b)` binds `a` then `b`: `a`'s log precedes `b`'s. */
  lemma LiftM2IsNestedBind<A, B, C, L(!new)>(m: Monoid<L>, f: A -> B -> C, a: Writer<A, L>, b: Writer<B, L>)
    requires IsMonoid(m)
    ensures LiftM2(m, f, a, b) == Bind(m, a, x => Bind(m, b, y => Pure(m, f(x)(y))))
    ensures LiftM2(m, f, a, b) == Writer(f(a.value)(b.value), m.op(a.log, b.log))
  {
    ApplyLogs(m, Pure(m, f), a);
    ApplyLogs(m, Apply(m, Pure(m, f), a), b);
  }

  lemma LiftM3Logs<A, B, C, D, L(!new)>(m: Monoid<L>, f: A -> B -> C -> D, a: Writer<A, L>, b: Writer<B, L>,
                                        c: Writer<C, L>)
    requires IsMonoid(m)
    ensures LiftM3(m, f, a, b, c) ==
            Writer(f(a.value)(b.value)(c.value), m.op(m.op(a.log, b.log), c.log))
  {
    LiftM2IsNestedBind(m, f, a, b);
    ApplyLogs(m, LiftM2(m, f, a, b), c);
  }

  lemma LiftM4Logs<A, B, C, D, E, L(!new)>(m: Monoid<L>, f: A -> B -> C -> D -> E, a: Writer<A, L>,
                                           b: Writer<B, L>, c: Writer<C, L>, d: Writer<D, L>)
    requires IsMonoid(m)
    ensures LiftM4(m, f, a, b, c, d) ==
            Writer(f(a.value)(b.value)(c.value)(d.value), m.op(m.op(m.op(a.log, b.log), c.log), d.log))
  {
    LiftM3Logs(m, f, a, b, c);
    ApplyLogs(m, LiftM3(m, f, a, b, c), d);
  }

  lemma LiftM5Logs<A, B, C, D, E, F, L(!new)>(m: Monoid<L>, f: A -> B -> C -> D -> E -> F, a: Writer<A, L>,
                                              b: Writer<B, L>, c: Writer<C, L>, d: Writer<D, L>,
                                              e: Writer<E, L>)
    requires IsMonoid(m)
    ensures LiftM5(m, f, a, b, c, d, e) ==
            Writer(f(a.value)(b.value)(c.value)(d.value)(e.value),
                   m.op(m.op(m.op(m.op(a.log, b.log), c.log), d.log), e.log))
  {
    LiftM4Logs(m, f, a, b, c, d);
    ApplyLogs(m, LiftM4(m, f, a, b, c, d), e);
  }
}
