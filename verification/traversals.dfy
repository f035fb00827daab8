/**
 The traversals `filterM` and `mapM` of functions.py. Both are
 `reduce(folding_func, iterable, None)`: the accumulator starts as "nothing
 yet" (None), the first step replaces it by `pure([])` of the monad the step
 function returned, and every step extends it through `liftM2` with the
 two-argument append `lambda vals, val: vals + [val]`. The source discovers
 the monad at run time from the first result; here there is one pair of
 traversals per monad (Maybe, List, Writer), each written with Reduce.

 The two folds sequence their effects in opposite orders. `filterM` binds the
 predicate's result first and the accumulator inside it, so the newest item's
 effect comes first; `mapM` runs the accumulator first and the new result
 second, so effects come out in input order.

 Each traversal comes with a step lemma (what one `folding_func` call does to
 an accumulator of known shape), a lemma that peels the last item off the
 fold, and the inductive lemmas built from the two.
 */
module Traversals {
  import opened Functions
  import M = MaybeMonad
  import L = ListMonad
  import W = WriterMonad

  /** The two-argument `lambda vals, val: vals + [val]` of both folds. */
  function Append<T>(vals: seq<T>, val: T): seq<T>
  {
    vals + [val]
  }

  /** Append as `liftM2` receives it: `apply` partially applies it with `curry`. */
  function AppendCurried<T>(vals: seq<T>): T -> seq<T>
  {
    Curry(Append, vals)
  }

  /** The curried append, given its second argument, appends it. */
  lemma AppendCurriedAppends<T>(vals: seq<T>, val: T)
    ensures AppendCurried(vals)(val) == vals + [val]
  {
    CurryFixesFirst(Append, vals, val);
  }

  // Reference definitions, independent of the folds.

  /** The usual filter: the items whose flag holds, in input order. */
  function Filter<T>(flag: T -> bool, xs: seq<T>): seq<T>
  {
    if xs == [] then [] else (if flag(xs[0]) then [xs[0]] else []) + Filter(flag, xs[1..])
  }

  lemma {:induction false} FilterSnoc<T>(flag: T -> bool, xs: seq<T>, x: T)
    ensures Filter(flag, xs + [x]) == Filter(flag, xs) + (if flag(x) then [x] else [])
  {
    if xs == [] {
      assert xs + [x] == [x];
      assert [x][1..] == [];
    } else {
      assert (xs + [x])[0] == xs[0];
      assert (xs + [x])[1..] == xs[1..] + [x];
      FilterSnoc(flag, xs[1..], x);
    }
  }

  /** Filter of a non-empty sequence, split before its last item. */
  lemma FilterLast<T>(flag: T -> bool, xs: seq<T>)
    requires xs != []
    ensures Filter(flag, xs) == Filter(flag, xs[..|xs| - 1]) + (if flag(xs[|xs| - 1]) then [xs[|xs| - 1]] else [])
  {
    assert xs == xs[..|xs| - 1] + [xs[|xs| - 1]];
    FilterSnoc(flag, xs[..|xs| - 1], xs[|xs| - 1]);
  }

  /** Map of a non-empty sequence, split before its last item. */
  lemma MapLast<A, B>(f: A -> B, xs: seq<A>)
    requires xs != []
    ensures Map(f, xs) == Map(f, xs[..|xs| - 1]) + [f(xs[|xs| - 1])]
  {
    assert Map(f, xs)[..|xs| - 1] == Map(f, xs[..|xs| - 1]);
  }

  /** An item of a non-empty sequence is its last item or an item of the prefix before it. */
  lemma InLast<T>(xs: seq<T>, y: T)
    requires xs != []
    ensures y in xs <==> y in xs[..|xs| - 1] || y == xs[|xs| - 1]
  {
    assert xs == xs[..|xs| - 1] + [xs[|xs| - 1]];
  }

  // ---------------------------------------------------------------- Maybe

  /** `lambda b: liftM2(append, acc, pure(x)) if b else acc`, over Maybe. */
  function MaybeKeepIf<T>(acc: M.Maybe<seq<T>>, x: T): bool -> M.Maybe<seq<T>>
  {
    b => if b then M.LiftM2(AppendCurried, acc, M.Pure(x)) else acc
  }

  /** One call of `filterM`'s `folding_func` over Maybe. */
  function MaybeFilterStep<T>(p: T -> M.Maybe<bool>, acc: Option<M.Maybe<seq<T>>>, x: T): M.Maybe<seq<T>>
  {
    var seed := if acc.None? then M.Pure([]) else acc.value;
    M.Bind(p(x), MaybeKeepIf(seed, x))
  }

  function MaybeFilterFolding<T>(p: T -> M.Maybe<bool>): (Option<M.Maybe<seq<T>>>, T) -> Option<M.Maybe<seq<T>>>
  {
    (acc, x) => Some(MaybeFilterStep(p, acc, x))
  }

  /** `filterM(p, items)` with a Maybe-valued predicate; None on an empty input. */
  function MaybeFilterM<T>(p: T -> M.Maybe<bool>, items: seq<T>): (r: Option<M.Maybe<seq<T>>>)
    ensures r.None? <==> items == []
  {
    Reduce(MaybeFilterFolding(p), items, None)
  }

  lemma MaybeFilterMLast<T>(p: T -> M.Maybe<bool>, items: seq<T>)
    requires items != []
    ensures MaybeFilterM(p, items)
            == Some(MaybeFilterStep(p, MaybeFilterM(p, items[..|items| - 1]), items[|items| - 1]))
  {
    var pre, x := items[..|items| - 1], items[|items| - 1];
    assert items == pre + [x];
    ReduceSnoc(MaybeFilterFolding(p), pre, x, None);
  }

  /** With a present verdict b, a step appends x to the kept items when b holds. */
  lemma MaybeFilterStepJust<T>(p: T -> M.Maybe<bool>, acc: Option<M.Maybe<seq<T>>>, x: T, kept: seq<T>, b: bool)
    requires p(x) == M.Just(b)
    requires acc == Some(M.Just(kept)) || (acc.None? && kept == [])
    ensures MaybeFilterStep(p, acc, x) == M.Just(kept + if b then [x] else [])
  {
    M.LiftM2IsNestedBind(AppendCurried, M.Just(kept), M.Pure(x));
    AppendCurriedAppends(kept, x);
    assert kept + [] == kept;
  }

  /** A step fails exactly when the verdict is missing or the accumulator had already failed. */
  lemma MaybeFilterStepFails<T>(p: T -> M.Maybe<bool>, acc: Option<M.Maybe<seq<T>>>, x: T)
    ensures MaybeFilterStep(p, acc, x).Nothing? <==> p(x).Nothing? || (acc.Some? && acc.value.Nothing?)
  {
    var seed := if acc.None? then M.Pure([]) else acc.value;
    M.LiftM2IsNestedBind(AppendCurried, seed, M.Pure(x));
  }

  /** When every verdict is present, `filterM` is the ordinary filter, wrapped in Just. */
  lemma {:induction false} MaybeFilterMAllJust<T>(p: T -> M.Maybe<bool>, flag: T -> bool, items: seq<T>)
    requires forall x :: x in items ==> p(x) == M.Just(flag(x))
    ensures MaybeFilterM(p, items) == if items == [] then None else Some(M.Just(Filter(flag, items)))
  {
    if items != [] {
      var pre, x := items[..|items| - 1], items[|items| - 1];
      assert x in items;
      MaybeFilterMAllJust(p, flag, pre);
      MaybeFilterStepJust(p, MaybeFilterM(p, pre), x, Filter(flag, pre), flag(x));
      FilterLast(flag, items);
      MaybeFilterMLast(p, items);
    }
  }

  /** Failure of the fold over items follows from failure over the prefix and the last verdict. */
  lemma MaybeFilterMFailsLast<T>(p: T -> M.Maybe<bool>, items: seq<T>, failed: bool, failedBefore: bool)
    requires items != []
    requires MaybeFilterM(p, items[..|items| - 1]) == Some(M.Nothing) <==> failedBefore
    requires failed <==> failedBefore || p(items[|items| - 1]).Nothing?
    ensures MaybeFilterM(p, items) == Some(M.Nothing) <==> failed
  {
    MaybeFilterStepFails(p, MaybeFilterM(p, items[..|items| - 1]), items[|items| - 1]);
    MaybeFilterMLast(p, items);
  }

  /** `filterM` gives Nothing exactly when some item's verdict is Nothing. */
  lemma {:induction false} MaybeFilterMFails<T>(p: T -> M.Maybe<bool>, items: seq<T>)
    ensures MaybeFilterM(p, items) == Some(M.Nothing) <==> exists x :: x in items && p(x).Nothing?
  {
    if items != [] {
      var pre, x := items[..|items| - 1], items[|items| - 1];
      assert (exists y :: y in items && p(y).Nothing?) <==> (exists y :: y in pre && p(y).Nothing?) || p(x).Nothing? by {
        if exists y :: y in items && p(y).Nothing? {
          var y :| y in items && p(y).Nothing?;
          InLast(items, y);
        }
        if exists y :: y in pre && p(y).Nothing? {
          var y :| y in pre && p(y).Nothing?;
          InLast(items, y);
        }
        assert x in items;
      }
      MaybeFilterMFails(p, pre);
      MaybeFilterMFailsLast(p, items, exists y :: y in items && p(y).Nothing?, exists y :: y in pre && p(y).Nothing?);
    }
  }

  /**
   The two filterM cases of the tests over 2, 4, 6, 8, 10: verdicts "above 5"
   keep 6, 8, 10; verdicts that are Nothing above 5 make the whole result Nothing.
   */
  lemma MaybeFilterMExamples()
    ensures MaybeFilterM((x: int) => M.Just(x > 5), [2, 4, 6, 8, 10]) == Some(M.Just([6, 8, 10]))
    ensures MaybeFilterM((x: int) => if x > 5 then M.Nothing else M.Just(false), [2, 4, 6, 8, 10])
            == Some(M.Nothing)
  {
    var items := [2, 4, 6, 8, 10];
    var flag := (x: int) => x > 5;
    assert items[1..] == [4, 6, 8, 10] && items[2..] == [6, 8, 10];
    assert [6, 8, 10][1..] == [8, 10] && [8, 10][1..] == [10] && [10][1..] == [];
    assert Filter(flag, [10]) == [10];
    assert Filter(flag, [8, 10]) == [8, 10];
    assert Filter(flag, items[2..]) == [6, 8, 10];
    assert Filter(flag, items) == [6, 8, 10];
    MaybeFilterMAllJust((x: int) => M.Just(x > 5), flag, items);
    MaybeFilterMFails((x: int) => if x > 5 then M.Nothing else M.Just(false), items);
    assert items[2] == 6;
  }

  /** One call of `mapM`'s `folding_func` over Maybe. */
  function MaybeMapStep<T, S>(k: T -> M.Maybe<S>, acc: Option<M.Maybe<seq<S>>>, x: T): M.Maybe<seq<S>>
  {
    var seed := if acc.None? then M.Pure([]) else acc.value;
    M.LiftM2(AppendCurried, seed, k(x))
  }

  function MaybeMapFolding<T, S>(k: T -> M.Maybe<S>): (Option<M.Maybe<seq<S>>>, T) -> Option<M.Maybe<seq<S>>>
  {
    (acc, x) => Some(MaybeMapStep(k, acc, x))
  }

  /** `mapM(k, items)` with a Maybe-valued function; None on an empty input. */
  function MaybeMapM<T, S>(k: T -> M.Maybe<S>, items: seq<T>): (r: Option<M.Maybe<seq<S>>>)
    ensures r.None? <==> items == []
  {
    Reduce(MaybeMapFolding(k), items, None)
  }

  lemma MaybeMapMLast<T, S>(k: T -> M.Maybe<S>, items: seq<T>)
    requires items != []
    ensures MaybeMapM(k, items) == Some(MaybeMapStep(k, MaybeMapM(k, items[..|items| - 1]), items[|items| - 1]))
  {
    var pre, x := items[..|items| - 1], items[|items| - 1];
    assert items == pre + [x];
    ReduceSnoc(MaybeMapFolding(k), pre, x, None);
  }

  /** With a present result v, a step appends v to the results so far. */
  lemma MaybeMapStepJust<T, S>(k: T -> M.Maybe<S>, acc: Option<M.Maybe<seq<S>>>, x: T, done: seq<S>, v: S)
    requires k(x) == M.Just(v)
    requires acc == Some(M.Just(done)) || (acc.None? && done == [])
    ensures MaybeMapStep(k, acc, x) == M.Just(done + [v])
  {
    M.LiftM2IsNestedBind(AppendCurried, M.Just(done), k(x));
    AppendCurriedAppends(done, v);
  }

  /** A step fails exactly when the result is missing or the accumulator had already failed. */
  lemma MaybeMapStepFails<T, S>(k: T -> M.Maybe<S>, acc: Option<M.Maybe<seq<S>>>, x: T)
    ensures MaybeMapStep(k, acc, x).Nothing? <==> k(x).Nothing? || (acc.Some? && acc.value.Nothing?)
  {
    var seed := if acc.None? then M.Pure([]) else acc.value;
    M.LiftM2IsNestedBind(AppendCurried, seed, k(x));
  }

  /** When every result is present, `mapM` is the ordinary map, wrapped in Just. */
  lemma {:induction false} MaybeMapMAllJust<T, S>(k: T -> M.Maybe<S>, f: T -> S, items: seq<T>)
    requires forall x :: x in items ==> k(x) == M.Just(f(x))
    ensures MaybeMapM(k, items) == if items == [] then None else Some(M.Just(Map(f, items)))
  {
    if items != [] {
      var pre, x := items[..|items| - 1], items[|items| - 1];
      assert x in items;
      MaybeMapMAllJust(k, f, pre);
      MaybeMapStepJust(k, MaybeMapM(k, pre), x, Map(f, pre), f(x));
      MapLast(f, items);
      MaybeMapMLast(k, items);
    }
  }

  /** Failure of the fold over items follows from failure over the prefix and the last result. */
  lemma MaybeMapMFailsLast<T, S>(k: T -> M.Maybe<S>, items: seq<T>, failed: bool, failedBefore: bool)
    requires items != []
    requires MaybeMapM(k, items[..|items| - 1]) == Some(M.Nothing) <==> failedBefore
    requires failed <==> failedBefore || k(items[|items| - 1]).Nothing?
    ensures MaybeMapM(k, items) == Some(M.Nothing) <==> failed
  {
    MaybeMapStepFails(k, MaybeMapM(k, items[..|items| - 1]), items[|items| - 1]);
    MaybeMapMLast(k, items);
  }

  /** `mapM` gives Nothing exactly when some item's result is Nothing. */
  lemma {:induction false} MaybeMapMFails<T, S>(k: T -> M.Maybe<S>, items: seq<T>)
    ensures MaybeMapM(k, items) == Some(M.Nothing) <==> exists x :: x in items && k(x).Nothing?
  {
    if items != [] {
      var pre, x := items[..|items| - 1], items[|items| - 1];
      assert (exists y :: y in items && k(y).Nothing?) <==> (exists y :: y in pre && k(y).Nothing?) || k(x).Nothing? by {
        if exists y :: y in items && k(y).Nothing? {
          var y :| y in items && k(y).Nothing?;
          InLast(items, y);
        }
        if exists y :: y in pre && k(y).Nothing? {
          var y :| y in pre && k(y).Nothing?;
          InLast(items, y);
        }
        assert x in items;
      }
      MaybeMapMFails(k, pre);
      MaybeMapMFailsLast(k, items, exists y :: y in items && k(y).Nothing?, exists y :: y in pre && k(y).Nothing?);
    }
  }

  /**
   The first mapM case of the tests, with `show` standing for Python's `str`:
   when k shows every number, mapM over 1 to 5 shows all of them, in order.
   */
  lemma MaybeMapMShowsAll(k: int -> M.Maybe<string>, show: int -> string)
    requires forall x :: k(x) == M.Just(show(x))
    ensures MaybeMapM(k, [1, 2, 3, 4, 5]) == Some(M.Just([show(1), show(2), show(3), show(4), show(5)]))
  {
    var items := [1, 2, 3, 4, 5];
    assert Map(show, items) == [show(1), show(2), show(3), show(4), show(5)];
    MaybeMapMAllJust(k, show, items);
  }

  /** The second mapM case of the tests: when k refuses 1, mapM over 1 to 5 is Nothing. */
  lemma MaybeMapMRefusesOne(k: int -> M.Maybe<string>)
    requires k(1) == M.Nothing
    ensures MaybeMapM(k, [1, 2, 3, 4, 5]) == Some(M.Nothing)
  {
    var items := [1, 2, 3, 4, 5];
    MaybeMapMFails(k, items);
    assert items[0] == 1;
  }

  // ----------------------------------------------------------------- List

  /** Each sequence in `ss`, with x appended. */
  function Extend<T>(ss: seq<seq<T>>, x: T): (r: seq<seq<T>>)
    ensures |r| == |ss|
    ensures forall i :: 0 <= i < |ss| ==> r[i] == ss[i] + [x]
  {
    seq(|ss|, i requires 0 <= i < |ss| => ss[i] + [x])
  }

  /**
   Reference meaning of one `filterM` step over List: for each verdict in
   turn, the accumulated results with x appended (true) or as they are (false).
   */
  function Branch<T>(verdicts: seq<bool>, acc: seq<seq<T>>, x: T): seq<seq<T>>
  {
    if verdicts == [] then [] else (if verdicts[0] then Extend(acc, x) else acc) + Branch(verdicts[1..], acc, x)
  }

  /** Reference meaning of `filterM` over List: the branching applied item by item. */
  function Branches<T>(p: T -> L.List<bool>, items: seq<T>): seq<seq<T>>
  {
    if items == [] then [[]] else Branch(p(items[|items| - 1]).xs, Branches(p, items[..|items| - 1]), items[|items| - 1])
  }

  /**
   All subsequences of xs: those that keep the last item, then those that drop
   it, each group ordered in the same way for the items before it.
   */
  function Subsequences<T>(xs: seq<T>): seq<seq<T>>
  {
    if xs == [] then [[]]
    else
      var rest := Subsequences(xs[..|xs| - 1]);
      Extend(rest, xs[|xs| - 1]) + rest
  }

  function Pow2(n: nat): nat
  {
    if n == 0 then 1 else 2 * Pow2(n - 1)
  }

  lemma {:induction false} SubsequencesCount<T>(xs: seq<T>)
    ensures |Subsequences(xs)| == Pow2(|xs|)
  {
    if xs != [] {
      SubsequencesCount(xs[..|xs| - 1]);
    }
  }

  /**
   s can be obtained from xs by deleting items, keeping the order of the rest:
   either s ends with the last item of xs and its front comes from the front
   of xs, or s comes from the front of xs alone.
   */
  predicate IsSubsequence<T(==)>(s: seq<T>, xs: seq<T>)
  {
    if xs == [] then s == []
    else
      (s != [] && s[|s| - 1] == xs[|xs| - 1] && IsSubsequence(s[..|s| - 1], xs[..|xs| - 1]))
      || IsSubsequence(s, xs[..|xs| - 1])
  }

  /** A member of Extend(ss, x) is a member of ss with x appended, and every such sequence is one. */
  lemma ExtendMembers<T>(ss: seq<seq<T>>, x: T, s: seq<T>)
    ensures s in Extend(ss, x) <==> s != [] && s[|s| - 1] == x && s[..|s| - 1] in ss
  {
    if s in Extend(ss, x) {
      var i :| 0 <= i < |ss| && Extend(ss, x)[i] == s;
      assert s[..|s| - 1] == ss[i];
    }
    if s != [] && s[|s| - 1] == x && s[..|s| - 1] in ss {
      var i :| 0 <= i < |ss| && ss[i] == s[..|s| - 1];
      assert Extend(ss, x)[i] == s;
    }
  }

  /** The enumeration Subsequences(xs) holds exactly the subsequences of xs. */
  lemma {:induction false} SubsequencesMembers<T>(xs: seq<T>, s: seq<T>)
    ensures s in Subsequences(xs) <==> IsSubsequence(s, xs)
  {
    if xs != [] {
      var pre, x := xs[..|xs| - 1], xs[|xs| - 1];
      SubsequencesMembers(pre, s);
      if s != [] {
        SubsequencesMembers(pre, s[..|s| - 1]);
      }
      ExtendMembers(Subsequences(pre), x, s);
    }
  }

  /** Product, over the items, of how many results k gives for each. */
  function ResultCount<T, V>(k: T -> L.List<V>, items: seq<T>): nat
  {
    if items == [] then 1 else ResultCount(k, items[..|items| - 1]) * |k(items[|items| - 1]).xs|
  }

  /** `lambda b: liftM2(append, acc, pure(x)) if b else acc`, over List. */
  function ListKeepIf<T>(acc: L.List<seq<T>>, x: T): bool -> L.List<seq<T>>
  {
    b => if b then L.LiftM2(AppendCurried, acc, L.Pure(x)) else acc
  }

  /** Keeping x appends it to every accumulated result; dropping it leaves them as they are. */
  lemma ListKeepIfOutcome<T>(acc: L.List<seq<T>>, x: T, b: bool)
    ensures ListKeepIf(acc, x)(b).xs == if b then Extend(acc.xs, x) else acc.xs
  {
    if b {
      ListAppendEach(acc, x);
    }
  }

  /** `liftM2(append, acc, pure(x))` over List appends x to every accumulated result. */
  lemma ListAppendEach<T>(acc: L.List<seq<T>>, x: T)
    ensures L.LiftM2(AppendCurried, acc, L.Pure(x)).xs == Extend(acc.xs, x)
  {
    var appended := Map(vals => AppendCurried(vals)(x), acc.xs);
    L.LiftM2PureRight(AppendCurried, acc, x);
    forall i | 0 <= i < |acc.xs|
      ensures appended[i] == acc.xs[i] + [x]
    {
      AppendCurriedAppends(acc.xs[i], x);
    }
    assert appended == Extend(acc.xs, x);
  }

  lemma {:induction false} FlatMapKeepIf<T>(verdicts: seq<bool>, acc: L.List<seq<T>>, x: T)
    ensures L.FlatMap(verdicts, ListKeepIf(acc, x)) == Branch(verdicts, acc.xs, x)
  {
    if verdicts != [] {
      ListKeepIfOutcome(acc, x, verdicts[0]);
      FlatMapKeepIf(verdicts[1..], acc, x);
    }
  }

  /** One call of `filterM`'s `folding_func` over List. */
  function ListFilterStep<T>(p: T -> L.List<bool>, acc: Option<L.List<seq<T>>>, x: T): L.List<seq<T>>
  {
    var seed := if acc.None? then L.Pure([]) else acc.value;
    L.Bind(p(x), ListKeepIf(seed, x))
  }

  function ListFilterFolding<T>(p: T -> L.List<bool>): (Option<L.List<seq<T>>>, T) -> Option<L.List<seq<T>>>
  {
    (acc, x) => Some(ListFilterStep(p, acc, x))
  }

  /** `filterM(p, items)` with a List-valued predicate; None on an empty input. */
  function ListFilterM<T>(p: T -> L.List<bool>, items: seq<T>): (r: Option<L.List<seq<T>>>)
    ensures r.None? <==> items == []
  {
    Reduce(ListFilterFolding(p), items, None)
  }

  lemma ListFilterMLast<T>(p: T -> L.List<bool>, items: seq<T>)
    requires items != []
    ensures ListFilterM(p, items)
            == Some(ListFilterStep(p, ListFilterM(p, items[..|items| - 1]), items[|items| - 1]))
  {
    var pre, x := items[..|items| - 1], items[|items| - 1];
    assert items == pre + [x];
    ReduceSnoc(ListFilterFolding(p), pre, x, None);
  }

  /** A step branches over the verdicts for x, the verdicts outermost. */
  lemma ListFilterStepBranches<T>(p: T -> L.List<bool>, acc: Option<L.List<seq<T>>>, x: T, results: seq<seq<T>>)
    requires acc == Some(L.List(results)) || (acc.None? && results == [[]])
    ensures ListFilterStep(p, acc, x).xs == Branch(p(x).xs, results, x)
  {
    FlatMapKeepIf(p(x).xs, L.List(results), x);
  }

  /** `filterM` over List enumerates the branches item by item, the last item's verdicts outermost. */
  lemma {:induction false} ListFilterMBranches<T>(p: T -> L.List<bool>, items: seq<T>)
    ensures ListFilterM(p, items) == if items == [] then None else Some(L.List(Branches(p, items)))
  {
    if items != [] {
      var pre := items[..|items| - 1];
      ListFilterMBranches(p, pre);
      ListFilterStepBranches(p, ListFilterM(p, pre), items[|items| - 1], Branches(p, pre));
      ListFilterMLast(p, items);
    }
  }

  lemma {:induction false} BranchCount<T>(verdicts: seq<bool>, acc: seq<seq<T>>, x: T)
    ensures |Branch(verdicts, acc, x)| == |verdicts| * |acc|
  {
    if verdicts != [] {
      BranchCount(verdicts[1..], acc, x);
      var n, v := |acc|, |verdicts| - 1;
      assert |Branch(verdicts, acc, x)| == n + v * n;
      assert n + v * n == (v + 1) * n;
    }
  }

  /** The number of results of `filterM` is the product of the numbers of verdicts. */
  lemma {:induction false} ListFilterMCount<T>(p: T -> L.List<bool>, items: seq<T>)
    ensures |Branches(p, items)| == ResultCount(p, items)
  {
    if items != [] {
      var pre := items[..|items| - 1];
      var verdicts := p(items[|items| - 1]).xs;
      ListFilterMCount(p, pre);
      BranchCount(verdicts, Branches(p, pre), items[|items| - 1]);
      var before, n := |Branches(p, pre)|, |verdicts|;
      assert |Branches(p, items)| == n * before;
      assert ResultCount(p, items) == before * n;
    }
  }

  /** With both verdicts, true first, for every item, `filterM` enumerates all subsequences. */
  lemma {:induction false} ListFilterMSubsequences<T>(p: T -> L.List<bool>, items: seq<T>)
    requires forall x :: x in items ==> p(x) == L.List([true, false])
    ensures ListFilterM(p, items) == if items == [] then None else Some(L.List(Subsequences(items)))
  {
    BranchesBoth(p, items);
    ListFilterMBranches(p, items);
  }

  lemma {:induction false} BranchesBoth<T>(p: T -> L.List<bool>, items: seq<T>)
    requires forall x :: x in items ==> p(x) == L.List([true, false])
    ensures Branches(p, items) == Subsequences(items)
  {
    if items != [] {
      var pre, x := items[..|items| - 1], items[|items| - 1];
      assert x in items;
      BranchesBoth(p, pre);
      var rest := Subsequences(pre);
      var both: seq<bool> := [true, false];
      assert both[0] && both[1..] == [false] && [false][1..] == [];
      assert Branch([false], rest, x) == rest + Branch([], rest, x) == rest;
      assert Branch(both, rest, x) == Extend(rest, x) + Branch([false], rest, x);
    }
  }

  lemma SubsequencesOfOneTwo()
    ensures Subsequences([1, 2]) == [[1, 2], [2], [1], []]
  {
    assert [1, 2][..1] == [1] && [1][..0] == [];
    var s0: seq<seq<int>> := [[]];
    var s1 := [[1], []];
    assert [] + [1] == [1];
    assert Extend(s0, 1) == [[1]];
    assert Subsequences([1]) == Extend(s0, 1) + s0 == s1;
    assert [1] + [2] == [1, 2] && [] + [2] == [2];
    assert Extend(s1, 2) == [[1, 2], [2]];
  }

  /** The eight subsequences of 1, 2, 3 in enumeration order: those with 3 first. */
  lemma SubsequencesOfOneTwoThree()
    ensures Subsequences([1, 2, 3]) == [[1, 2, 3], [2, 3], [1, 3], [3], [1, 2], [2], [1], []]
  {
    var xs: seq<int> := [1, 2, 3];
    assert xs[..2] == [1, 2] && xs[2] == 3;
    SubsequencesOfOneTwo();
    var s2: seq<seq<int>> := [[1, 2], [2], [1], []];
    var e2: seq<seq<int>> := [[1, 2, 3], [2, 3], [1, 3], [3]];
    assert Extend(s2, 3) == e2 by {
      assert [1, 2] + [3] == [1, 2, 3] && [2] + [3] == [2, 3] && [1] + [3] == [1, 3] && [] + [3] == [3];
    }
    assert Subsequences(xs) == e2 + s2;
  }

  /**
   The filterM case of the tests: with both verdicts for every item, 1, 2, 3
   gives its eight subsequences, those with 3 first.
   */
  lemma ListFilterMExample(p: int -> L.List<bool>)
    requires forall x :: p(x) == L.List([true, false])
    ensures ListFilterM(p, [1, 2, 3]) == Some(L.List([[1, 2, 3], [2, 3], [1, 3], [3], [1, 2], [2], [1], []]))
  {
    SubsequencesOfOneTwoThree();
    ListFilterMSubsequences(p, [1, 2, 3]);
  }

  /**
   Reference meaning of `mapM` over List: every way of choosing one result
   per item, earlier items varying slowest.
   */
  function Choices<T, S>(k: T -> L.List<S>, items: seq<T>): seq<seq<S>>
  {
    if items == [] then [[]] else Grow(Choices(k, items[..|items| - 1]), k(items[|items| - 1]).xs)
  }

  /** Each choice in turn, extended by every value in turn. */
  function Grow<S>(choices: seq<seq<S>>, vals: seq<S>): seq<seq<S>>
  {
    if choices == [] then [] else Extend1(choices[0], vals) + Grow(choices[1..], vals)
  }

  function Extend1<S>(choice: seq<S>, vals: seq<S>): (r: seq<seq<S>>)
    ensures |r| == |vals|
    ensures forall i :: 0 <= i < |vals| ==> r[i] == choice + [vals[i]]
  {
    seq(|vals|, i requires 0 <= i < |vals| => choice + [vals[i]])
  }

  lemma {:induction false} RowsOfAppend<S>(choices: seq<seq<S>>, vals: seq<S>)
    ensures L.Rows(AppendCurried, choices, vals) == Grow(choices, vals)
  {
    if choices != [] {
      forall i | 0 <= i < |vals|
        ensures Map(AppendCurried(choices[0]), vals)[i] == choices[0] + [vals[i]]
      {
        AppendCurriedAppends(choices[0], vals[i]);
      }
      RowsOfAppend(choices[1..], vals);
    }
  }

  /** One call of `mapM`'s `folding_func` over List. */
  function ListMapStep<T, S>(k: T -> L.List<S>, acc: Option<L.List<seq<S>>>, x: T): L.List<seq<S>>
  {
    var seed := if acc.None? then L.Pure([]) else acc.value;
    L.LiftM2(AppendCurried, seed, k(x))
  }

  function ListMapFolding<T, S>(k: T -> L.List<S>): (Option<L.List<seq<S>>>, T) -> Option<L.List<seq<S>>>
  {
    (acc, x) => Some(ListMapStep(k, acc, x))
  }

  /** `mapM(k, items)` with a List-valued function; None on an empty input. */
  function ListMapM<T, S>(k: T -> L.List<S>, items: seq<T>): (r: Option<L.List<seq<S>>>)
    ensures r.None? <==> items == []
  {
    Reduce(ListMapFolding(k), items, None)
  }

  lemma ListMapMLast<T, S>(k: T -> L.List<S>, items: seq<T>)
    requires items != []
    ensures ListMapM(k, items) == Some(ListMapStep(k, ListMapM(k, items[..|items| - 1]), items[|items| - 1]))
  {
    var pre, x := items[..|items| - 1], items[|items| - 1];
    assert items == pre + [x];
    ReduceSnoc(ListMapFolding(k), pre, x, None);
  }

  /** A step extends every choice so far by every result for x, the choices so far outermost. */
  lemma ListMapStepGrows<T, S>(k: T -> L.List<S>, acc: Option<L.List<seq<S>>>, x: T, choices: seq<seq<S>>)
    requires acc == Some(L.List(choices)) || (acc.None? && choices == [[]])
    ensures ListMapStep(k, acc, x).xs == Grow(choices, k(x).xs)
  {
    L.LiftM2Rows(AppendCurried, L.List(choices), k(x));
    RowsOfAppend(choices, k(x).xs);
  }

  /** `mapM` over List enumerates every choice of one result per item, earlier items varying slowest. */
  lemma {:induction false} ListMapMChoices<T, S>(k: T -> L.List<S>, items: seq<T>)
    ensures ListMapM(k, items) == if items == [] then None else Some(L.List(Choices(k, items)))
  {
    if items != [] {
      var pre := items[..|items| - 1];
      ListMapMChoices(k, pre);
      ListMapStepGrows(k, ListMapM(k, pre), items[|items| - 1], Choices(k, pre));
      ListMapMLast(k, items);
    }
  }

  /** c picks, for every item in turn, one of the results k gives for it. */
  predicate IsChoice<T, S(==)>(k: T -> L.List<S>, items: seq<T>, c: seq<S>)
  {
    |c| == |items| && forall i :: 0 <= i < |items| ==> c[i] in k(items[i]).xs
  }

  /** A choice over a non-empty input is a choice over the items before the last, then a result for the last. */
  lemma ChoiceLast<T, S>(k: T -> L.List<S>, items: seq<T>, c: seq<S>)
    requires items != []
    ensures IsChoice(k, items, c)
            <==> c != [] && IsChoice(k, items[..|items| - 1], c[..|c| - 1]) && c[|c| - 1] in k(items[|items| - 1]).xs
  {
    if c != [] && |c| == |items| {
      var pre, front := items[..|items| - 1], c[..|c| - 1];
      assert forall i :: 0 <= i < |pre| ==> front[i] == c[i] && pre[i] == items[i];
    }
  }

  /** A member of Extend1(choice, vals) is the choice followed by one of the values, and every such one is. */
  lemma Extend1Members<S>(choice: seq<S>, vals: seq<S>, c: seq<S>)
    ensures c in Extend1(choice, vals) <==> c != [] && c[..|c| - 1] == choice && c[|c| - 1] in vals
  {
    if c in Extend1(choice, vals) {
      var i :| 0 <= i < |vals| && Extend1(choice, vals)[i] == c;
      assert c[..|c| - 1] == choice;
    }
    if c != [] && c[..|c| - 1] == choice && c[|c| - 1] in vals {
      var i :| 0 <= i < |vals| && vals[i] == c[|c| - 1];
      assert Extend1(choice, vals)[i] == c;
    }
  }

  /** A member of Grow(choices, vals) is one of the choices followed by one of the values, and every such one is. */
  lemma {:induction false} GrowMembers<S>(choices: seq<seq<S>>, vals: seq<S>, c: seq<S>)
    ensures c in Grow(choices, vals) <==> c != [] && c[..|c| - 1] in choices && c[|c| - 1] in vals
  {
    if choices != [] {
      GrowMembers(choices[1..], vals, c);
      Extend1Members(choices[0], vals, c);
      assert choices == [choices[0]] + choices[1..];
    }
  }

  /** The enumeration Choices(k, items) holds exactly the choices of one result per item. */
  lemma {:induction false} ChoicesMembers<T, S>(k: T -> L.List<S>, items: seq<T>, c: seq<S>)
    ensures c in Choices(k, items) <==> IsChoice(k, items, c)
  {
    if items == [] {
      assert IsChoice(k, items, c) <==> c == [];
    } else {
      var pre := items[..|items| - 1];
      GrowMembers(Choices(k, pre), k(items[|items| - 1]).xs, c);
      if c != [] {
        ChoicesMembers(k, pre, c[..|c| - 1]);
      }
      ChoiceLast(k, items, c);
    }
  }

  lemma {:induction false} GrowCount<S>(choices: seq<seq<S>>, vals: seq<S>)
    ensures |Grow(choices, vals)| == |choices| * |vals|
  {
    if choices != [] {
      GrowCount(choices[1..], vals);
      var n, c := |vals|, |choices| - 1;
      assert |Grow(choices, vals)| == n + c * n;
      assert n + c * n == (c + 1) * n;
    }
  }

  /** The number of results of `mapM` is the product of the numbers of results per item. */
  lemma {:induction false} ListMapMCount<T, S>(k: T -> L.List<S>, items: seq<T>)
    ensures |Choices(k, items)| == ResultCount(k, items)
  {
    if items != [] {
      var pre := items[..|items| - 1];
      ListMapMCount(k, pre);
      GrowCount(Choices(k, pre), k(items[|items| - 1]).xs);
    }
  }

  /** With one result per item, `mapM` over List has one result: the ordinary map. */
  lemma {:induction false} ListMapMPure<T, S>(k: T -> L.List<S>, f: T -> S, items: seq<T>)
    requires forall x :: x in items ==> k(x) == L.Pure(f(x))
    ensures Choices(k, items) == [Map(f, items)]
  {
    if items != [] {
      var pre, x := items[..|items| - 1], items[|items| - 1];
      assert x in items;
      ListMapMPure(k, f, pre);
      MapLast(f, items);
      var one := [Map(f, pre)];
      assert k(x).xs == [f(x)];
      assert one[0] == Map(f, pre) && one[1..] == [];
      assert Grow(one, [f(x)]) == Extend1(Map(f, pre), [f(x)]) + Grow([], [f(x)]);
      assert Extend1(Map(f, pre), [f(x)]) == [Map(f, pre) + [f(x)]];
    } else {
      assert Map(f, items) == [];
    }
  }

  // --------------------------------------------------------------- Writer

  /** The log of k on each item, in input order. */
  function Logs<T, V, Log>(k: T -> W.Writer<V, Log>, items: seq<T>): (r: seq<Log>)
    ensures |r| == |items|
    ensures forall i :: 0 <= i < |items| ==> r[i] == k(items[i]).log
  {
    seq(|items|, i requires 0 <= i < |items| => k(items[i]).log)
  }

  /** The logs combined in the monoid, in the order given. */
  function Combine<Log>(m: W.Monoid<Log>, logs: seq<Log>): Log
  {
    if logs == [] then m.id else m.op(logs[0], Combine(m, logs[1..]))
  }

  function Reverse<X>(s: seq<X>): (r: seq<X>)
    ensures |r| == |s|
    ensures forall i :: 0 <= i < |s| ==> r[i] == s[|s| - 1 - i]
  {
    if s == [] then [] else [s[|s| - 1]] + Reverse(s[..|s| - 1])
  }

  lemma LogsLast<T, V, Log>(k: T -> W.Writer<V, Log>, items: seq<T>)
    requires items != []
    ensures Logs(k, items) == Logs(k, items[..|items| - 1]) + [k(items[|items| - 1]).log]
  {
    assert Logs(k, items)[..|items| - 1] == Logs(k, items[..|items| - 1]);
  }

  /** Combining one more log at the end combines it last. */
  lemma {:induction false} CombineSnoc<Log(!new)>(m: W.Monoid<Log>, logs: seq<Log>, last: Log)
    requires W.IsMonoid(m)
    ensures Combine(m, logs + [last]) == m.op(Combine(m, logs), last)
  {
    if logs == [] {
      assert [last][1..] == [];
    } else {
      assert (logs + [last])[1..] == logs[1..] + [last];
      CombineSnoc(m, logs[1..], last);
    }
  }

  /** The reversed logs of a non-empty input begin with the last item's log. */
  lemma ReversedLogsLast<T, V, Log>(m: W.Monoid<Log>, k: T -> W.Writer<V, Log>, items: seq<T>)
    requires items != []
    ensures Combine(m, Reverse(Logs(k, items)))
            == m.op(k(items[|items| - 1]).log, Combine(m, Reverse(Logs(k, items[..|items| - 1]))))
  {
    var logs := Logs(k, items);
    assert logs[..|logs| - 1] == Logs(k, items[..|items| - 1]);
    var rev := Reverse(logs);
    assert rev == [logs[|logs| - 1]] + Reverse(logs[..|logs| - 1]);
    assert rev[1..] == Reverse(logs[..|logs| - 1]);
  }

  /** In a commutative monoid the order of the logs does not matter. */
  lemma {:induction false} CombineReverse<Log(!new)>(m: W.Monoid<Log>, logs: seq<Log>)
    requires W.IsMonoid(m)
    requires forall a, b :: m.op(a, b) == m.op(b, a)
    ensures Combine(m, Reverse(logs)) == Combine(m, logs)
  {
    if logs != [] {
      var pre, last := logs[..|logs| - 1], logs[|logs| - 1];
      CombineReverse(m, pre);
      var rev := Reverse(logs);
      assert rev[1..] == Reverse(pre);
      assert logs == pre + [last];
      CombineSnoc(m, pre, last);
    }
  }

  /** `lambda b: liftM2(append, acc, pure(x)) if b else acc`, over a Writer. */
  function WriterKeepIf<T, Log>(m: W.Monoid<Log>, acc: W.Writer<seq<T>, Log>, x: T): bool -> W.Writer<seq<T>, Log>
  {
    b => if b then W.LiftM2(m, AppendCurried, acc, W.Pure(m, x)) else acc
  }

  /** One call of `filterM`'s `folding_func` over a Writer. */
  function WriterFilterStep<T, Log>(m: W.Monoid<Log>, p: T -> W.Writer<bool, Log>,
                                    acc: Option<W.Writer<seq<T>, Log>>, x: T): W.Writer<seq<T>, Log>
  {
    var seed := if acc.None? then W.Pure(m, []) else acc.value;
    W.Bind(m, p(x), WriterKeepIf(m, seed, x))
  }

  function WriterFilterFolding<T, Log>(m: W.Monoid<Log>, p: T -> W.Writer<bool, Log>)
    : (Option<W.Writer<seq<T>, Log>>, T) -> Option<W.Writer<seq<T>, Log>>
  {
    (acc, x) => Some(WriterFilterStep(m, p, acc, x))
  }

  /** `filterM(p, items)` with a Writer-valued predicate; None on an empty input. */
  function WriterFilterM<T, Log>(m: W.Monoid<Log>, p: T -> W.Writer<bool, Log>, items: seq<T>)
    : (r: Option<W.Writer<seq<T>, Log>>)
    ensures r.None? <==> items == []
  {
    Reduce(WriterFilterFolding(m, p), items, None)
  }

  lemma WriterFilterMLast<T, Log>(m: W.Monoid<Log>, p: T -> W.Writer<bool, Log>, items: seq<T>)
    requires items != []
    ensures WriterFilterM(m, p, items)
            == Some(WriterFilterStep(m, p, WriterFilterM(m, p, items[..|items| - 1]), items[|items| - 1]))
  {
    var pre, x := items[..|items| - 1], items[|items| - 1];
    assert items == pre + [x];
    ReduceSnoc(WriterFilterFolding(m, p), pre, x, None);
  }

  /** A step keeps x when the verdict holds, and puts the verdict's log before the accumulated log. */
  lemma WriterFilterStepLog<T, Log(!new)>(m: W.Monoid<Log>, p: T -> W.Writer<bool, Log>,
                                          acc: Option<W.Writer<seq<T>, Log>>, x: T, kept: seq<T>, log: Log)
    requires W.IsMonoid(m)
    requires acc == Some(W.Writer(kept, log)) || (acc.None? && kept == [] && log == m.id)
    ensures WriterFilterStep(m, p, acc, x) == W.Writer(kept + (if p(x).value then [x] else []), m.op(p(x).log, log))
  {
    W.LiftM2IsNestedBind(m, AppendCurried, W.Writer(kept, log), W.Pure(m, x));
    AppendCurriedAppends(kept, x);
    assert kept + [] == kept;
  }

  /**
   `filterM` over a Writer keeps the items whose verdict holds, and its log is
   the verdicts' logs combined newest first: the reverse of input order.
   */
  lemma {:induction false} WriterFilterMLogs<T, Log(!new)>(m: W.Monoid<Log>, p: T -> W.Writer<bool, Log>,
                                                          flag: T -> bool, items: seq<T>)
    requires W.IsMonoid(m)
    requires forall x :: x in items ==> p(x).value == flag(x)
    ensures WriterFilterM(m, p, items)
            == if items == [] then None else Some(W.Writer(Filter(flag, items), Combine(m, Reverse(Logs(p, items)))))
  {
    if items != [] {
      var pre, x := items[..|items| - 1], items[|items| - 1];
      assert x in items;
      WriterFilterMLogs(m, p, flag, pre);
      WriterFilterStepLog(m, p, WriterFilterM(m, p, pre), x, Filter(flag, pre), Combine(m, Reverse(Logs(p, pre))));
      FilterLast(flag, items);
      ReversedLogsLast(m, p, items);
      WriterFilterMLast(m, p, items);
    }
  }

  /** One call of `mapM`'s `folding_func` over a Writer. */
  function WriterMapStep<T, S, Log>(m: W.Monoid<Log>, k: T -> W.Writer<S, Log>,
                                    acc: Option<W.Writer<seq<S>, Log>>, x: T): W.Writer<seq<S>, Log>
  {
    var seed := if acc.None? then W.Pure(m, []) else acc.value;
    W.LiftM2(m, AppendCurried, seed, k(x))
  }

  function WriterMapFolding<T, S, Log>(m: W.Monoid<Log>, k: T -> W.Writer<S, Log>)
    : (Option<W.Writer<seq<S>, Log>>, T) -> Option<W.Writer<seq<S>, Log>>
  {
    (acc, x) => Some(WriterMapStep(m, k, acc, x))
  }

  /** `mapM(k, items)` with a Writer-valued function; None on an empty input. */
  function WriterMapM<T, S, Log>(m: W.Monoid<Log>, k: T -> W.Writer<S, Log>, items: seq<T>)
    : (r: Option<W.Writer<seq<S>, Log>>)
    ensures r.None? <==> items == []
  {
    Reduce(WriterMapFolding(m, k), items, None)
  }

  lemma WriterMapMLast<T, S, Log>(m: W.Monoid<Log>, k: T -> W.Writer<S, Log>, items: seq<T>)
    requires items != []
    ensures WriterMapM(m, k, items)
            == Some(WriterMapStep(m, k, WriterMapM(m, k, items[..|items| - 1]), items[|items| - 1]))
  {
    var pre, x := items[..|items| - 1], items[|items| - 1];
    assert items == pre + [x];
    ReduceSnoc(WriterMapFolding(m, k), pre, x, None);
  }

  /** A step appends x's value, and puts x's log after the accumulated log. */
  lemma WriterMapStepLog<T, S, Log(!new)>(m: W.Monoid<Log>, k: T -> W.Writer<S, Log>,
                                          acc: Option<W.Writer<seq<S>, Log>>, x: T, done: seq<S>, log: Log)
    requires W.IsMonoid(m)
    requires acc == Some(W.Writer(done, log)) || (acc.None? && done == [] && log == m.id)
    ensures WriterMapStep(m, k, acc, x) == W.Writer(done + [k(x).value], m.op(log, k(x).log))
  {
    W.LiftM2IsNestedBind(m, AppendCurried, W.Writer(done, log), k(x));
    AppendCurriedAppends(done, k(x).value);
  }

  /**
   `mapM` over a Writer collects the values in input order, and its log is the
   results' logs combined in input order.
   */
  lemma {:induction false} WriterMapMLogs<T, S, Log(!new)>(m: W.Monoid<Log>, k: T -> W.Writer<S, Log>,
                                                          f: T -> S, items: seq<T>)
    requires W.IsMonoid(m)
    requires forall x :: x in items ==> k(x).value == f(x)
    ensures WriterMapM(m, k, items)
            == if items == [] then None else Some(W.Writer(Map(f, items), Combine(m, Logs(k, items))))
  {
    if items != [] {
      var pre, x := items[..|items| - 1], items[|items| - 1];
      assert x in items;
      WriterMapMLogs(m, k, f, pre);
      WriterMapStepLog(m, k, WriterMapM(m, k, pre), x, Map(f, pre), Combine(m, Logs(k, pre)));
      MapLast(f, items);
      LogsLast(k, items);
      CombineSnoc(m, Logs(k, pre), k(x).log);
      WriterMapMLast(m, k, items);
    }
  }

  /** In a WriterList, combining three logs concatenates them in order. */
  lemma CombineThreeSeqs<T>(a: seq<T>, b: seq<T>, c: seq<T>)
    ensures Combine(W.SeqMonoid(), [a, b, c]) == a + b + c
  {
    var m := W.SeqMonoid<T>();
    var logs := [a, b, c];
    assert logs[1..] == [b, c] && logs[1..][1..] == [c] && logs[1..][1..][1..] == [];
    assert Combine(m, [c]) == c + [] == c;
    assert Combine(m, [b, c]) == b + c;
    assert Combine(m, logs) == a + (b + c);
  }

  /**
   The order of filterM's log, with each item logging itself in a WriterList
   and every item kept: over a, b, c the log is c, b, a.
   */
  lemma WriterFilterMOrderExample<T(!new)>(p: T -> W.Writer<bool, seq<T>>, items: seq<T>, a: T, b: T, c: T)
    requires forall x :: p(x) == W.Writer(true, [x])
    requires items == [a, b, c]
    ensures WriterFilterM(W.SeqMonoid(), p, items) == Some(W.Writer(items, [c, b, a]))
  {
    var keep: T -> bool := x => true;
    assert Filter(keep, items) == items by {
      var bc, cc: seq<T> := [b, c], [c];
      assert items[1..] == bc && bc[1..] == cc && |cc[1..]| == 0;
      assert Filter(keep, cc) == cc;
      assert Filter(keep, bc) == [b] + cc == bc;
    }
    var logs := Logs(p, items);
    assert logs == [[a], [b], [c]];
    assert Reverse(logs) == [[c], [b], [a]];
    var log := Combine(W.SeqMonoid(), Reverse(logs));
    assert log == [c, b, a] by {
      CombineThreeSeqs([c], [b], [a]);
    }
    W.SeqMonoidLaws<T>();
    WriterFilterMLogs(W.SeqMonoid(), p, keep, items);
  }

  /**
   The order of mapM's log, with each item logging itself in a WriterList:
   over a, b, c the log is a, b, c, the reverse of filterM's.
   */
  lemma WriterMapMOrderExample<T(!new)>(k: T -> W.Writer<T, seq<T>>, items: seq<T>, a: T, b: T, c: T)
    requires forall x :: k(x) == W.Writer(x, [x])
    requires items == [a, b, c]
    ensures WriterMapM(W.SeqMonoid(), k, items) == Some(W.Writer(items, [a, b, c]))
  {
    assert Map(x => x, items) == items;
    var logs := Logs(k, items);
    assert logs == [[a], [b], [c]];
    var log := Combine(W.SeqMonoid(), logs);
    assert log == [a, b, c] by {
      CombineThreeSeqs([a], [b], [c]);
    }
    W.SeqMonoidLaws<T>();
    WriterMapMLogs(W.SeqMonoid(), k, x => x, items);
  }
}
