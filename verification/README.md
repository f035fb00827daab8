# funcpy monads in Dafny

This project models the core of funcpy, a small Python library of Haskell-style
monads, and proves properties of the model. It covers:

- **Maybe** (`maybe.py`): a value that is `Just` something or is `Nothing`.
  `bind` short-circuits on `Nothing`.
- **List** (`list.py`): a non-deterministic computation. `bind` maps the
  continuation over the elements and concatenates the results in order, by
  folding with `+` from `[]`.
- **Writer** (`writer.py`): a value paired with a log, where the logs combine in
  a monoid. The four subclasses `WriterStr`, `WriterList`, `WriterSum` and
  `WriterProd` become one generic `Writer`. Each operation takes its monoid as a
  value with an identity and a combine.
- **The operations `monad.py` derives from `pure` and `bind`**: `apply`, and
  `liftM` through `liftM5`.
- **The traversals `filterM` and `mapM` of `functions.py`**: folds with Python's
  `reduce`, seeded with `None`. Every step looks up the monad of that step's
  result, replaces a `None` accumulator with that monad's `pure([])`, and
  combines with that monad's `liftM2`. The model fixes one monad for the whole
  traversal; mixing monads is left out. `curry` is covered too.

The values of the library are datatypes:

| datatype | source |
|---|---|
| `MaybeMonad.Maybe`, with the constructors `Just` and `Nothing` | `maybe.py`, lines 11-14 and 43-47 |
| `ListMonad.List`, wrapping the stored sequence `xs` | `list.py`, lines 11-13 |
| `WriterMonad.Writer`, a value and a log | `writer.py`, lines 13-17 |
| `WriterMonad.Monoid`, a log type's identity and combine | `writer.py`, lines 33-41 |

The modules follow the source files:

| module | file |
|---|---|
| `Functions` | `functions.dfy` |
| `MaybeMonad` | `maybe.dfy` |
| `ListMonad` | `list.dfy` |
| `WriterMonad` | `writer.dfy` |
| `Traversals` | `traversals.dfy` |

Every module is pure. The source has no mutable state: each operation builds a
new value. So the model is datatypes, functions and lemmas.

Dafny has no higher-kinded types, so the derived operations are written out once
per monad. `filterM` and `mapM` are also given once per monad (`MaybeFilterM`,
`ListFilterM`, `WriterFilterM` and the `MapM` counterparts). Each one is the
source's fold, step for step:

- `Reduce` is `functools.reduce`, a left fold that returns its initial value
  on an empty input. The traversals pass `None` as that value, so they give
  `None` on an empty input.
- The first step replaces `None` with `pure([])`.
- A `filterM` step is `p(x).bind(b -> liftM2(append, acc, pure(x)) if b else acc)`.
- A `mapM` step is `liftM2(append, acc, k(x))`.
- `append` is the curried two-argument lambda of the source.

Each traversal is proved equal to an independent reference meaning:

- **Maybe**: the ordinary `filter` or `map` when every result is `Just`, and
  `Nothing` exactly when some result is `Nothing`.
- **List**: an enumeration of branches. For `filterM` with both verdicts this is
  the enumeration `Subsequences`, which holds exactly the subsequences of the
  input (`SubsequencesMembers`). For `mapM` it is the enumeration `Choices`,
  which holds exactly the ways of picking one result per item
  (`ChoicesMembers`). The counts of both are proved.
- **Writer**: the filtered or mapped values with the combined logs.

The two folds put the effects in opposite orders. `filterM` binds the new item's
predicate result outside the accumulator. `mapM` puts the accumulator first.
So a `WriterList` log from `filterM` lists the items last-first, while `mapM`
logs them in input order. For the commutative `WriterSum` and `WriterProd` the
difference cannot be seen (`CombineReverse`). For List, the same order makes
`filterM` vary the last item's verdict slowest, which gives the enumeration
order the library's own test expects.

On an empty input the library returns `None` rather than `pure([])`, because the
fold is seeded with `None` and never reaches the step that picks the monad. The
model keeps this: every traversal returns an `Option`, and is `None` exactly
when the input is empty.

## Model

| member | source | states |
|---|---|---|
| Functions.Curry | src/funcpy/functions.py:9-14 | `curry(f, arg)` for a two-argument `f`: the function of the remaining argument with `arg` fixed first; `CurryFixesFirst` states it |
| Functions.CurryFixesFirst | src/funcpy/functions.py:9-14 | `curry(f, arg)` applied to the rest calls `f` with `arg` first and the rest second |
| Functions.Reduce | src/funcpy/functions.py:48 | `functools.reduce`, a left fold from `init`; `ReduceSnoc` states how it takes one more item, and the `*Last` lemmas of Traversals use it |
| Functions.ReduceSnoc | src/funcpy/functions.py:48 | `reduce` is a left fold: the fold of `xs + [x]` is the step applied to the fold of `xs` and to `x` |
| Functions.Map | src/funcpy/list.py:20 | Python's `map`, materialised: same length, and element `i` is `f` of input element `i` |
| MaybeMonad.Pure | src/funcpy/maybe.py:16-18 | `Maybe.pure` is `Just(v)`; the identity laws below state its role |
| MaybeMonad.Bind | src/funcpy/maybe.py:20-22 | `bind` succeeds exactly when the input is `Just` and `k` of its value succeeds, and then gives `k`'s result |
| MaybeMonad.Equals | src/funcpy/maybe.py:27-28 | `__eq__` holds exactly for structurally equal values: two `Nothing`s, or two `Just`s holding equal values |
| MaybeMonad.EqualityExamples | tests/test_monad.py:52-60 | `Just(2) != Nothing` and `Maybe.pure(2) == Just(2)` |
| MaybeMonad.NothingAbsorbs | src/funcpy/maybe.py:22 | binding `Nothing` gives `Nothing`, whatever the continuation |
| MaybeMonad.LeftIdentity | src/funcpy/maybe.py:16-22 | monad law: `pure(x).bind(k) == k(x)` |
| MaybeMonad.RightIdentity | src/funcpy/maybe.py:16-22 | monad law: `m.bind(pure) == m` |
| MaybeMonad.Associativity | src/funcpy/maybe.py:20-22 | monad law: binding `k1` and then `k2` equals binding `x -> k1(x).bind(k2)` |
| MaybeMonad.Apply | src/funcpy/monad.py:23-34 | `apply`: bind the function, bind the argument, and wrap the application in `pure`; `ApplyOutcome` gives its result |
| MaybeMonad.LiftM | src/funcpy/monad.py:36-40 | `liftM(f, a)` is `pure(f).apply(a)`; `LiftMIsMap` gives its result |
| MaybeMonad.LiftM2 | src/funcpy/monad.py:42-45 | `liftM2` is `pure(f).apply(a).apply(b)`; `LiftM2IsNestedBind` gives its result |
| MaybeMonad.LiftM3 | src/funcpy/monad.py:47-49 | the chain with three `apply`s; `LiftM3Outcome` gives its result |
| MaybeMonad.LiftM4 | src/funcpy/monad.py:51-53 | the chain with four `apply`s; `LiftM4Outcome` gives its result |
| MaybeMonad.LiftM5 | src/funcpy/monad.py:55-57 | the chain with five `apply`s; `LiftM5Outcome` gives its result |
| MaybeMonad.ApplyOutcome | src/funcpy/monad.py:23-34 | `apply` is `Just(f(a))` when both the function and the argument are present, and `Nothing` otherwise |
| MaybeMonad.ApplyExamples | tests/test_monad.py:75-78 | `pure(x + 1).apply(Just(1)) == Just(2)`, and `apply(Nothing)` gives `Nothing` |
| MaybeMonad.BindExamples | tests/test_monad.py:47-72 | the bind and liftM cases of the tests: `Just(8)` and `Just(2)` from `Just`, and `Nothing` stays `Nothing` |
| MaybeMonad.LiftMIsMap | src/funcpy/monad.py:36-40 | `liftM(f, a)` is `a` bound to `pure(f(x))`: `Just(f(v))` from `Just(v)`, `Nothing` from `Nothing` |
| MaybeMonad.LiftM2IsNestedBind | src/funcpy/monad.py:42-45 | `liftM2(f, a, b)` binds `a` and then `b` and wraps `f(x)(y)`; it is `Just` exactly when both are |
| MaybeMonad.LiftM3Outcome | src/funcpy/monad.py:47-49 | `liftM3` is `Just(f(a)(b)(c))` when all three are present, else `Nothing` |
| MaybeMonad.LiftM4Outcome | src/funcpy/monad.py:51-53 | `liftM4` is `Just` of `f` applied to the four values when all are present, else `Nothing` |
| MaybeMonad.LiftM5Outcome | src/funcpy/monad.py:55-57 | `liftM5` is `Just` of `f` applied to the five values when all are present, else `Nothing` |
| ListMonad.Pure | src/funcpy/list.py:15-17 | `List.pure` is the one-element List; the identity laws below state its role |
| ListMonad.Join | src/funcpy/list.py:21 | the `lambda xs, ys: xs + ys` that `bind` folds with |
| ListMonad.Concat | src/funcpy/list.py:21 | `reduce` with `+` from `[]`; `ConcatPrepend` and `ConcatOfParts` state what it computes |
| ListMonad.Bind | src/funcpy/list.py:19-21 | `bind` is the concatenation, in element order, of `k`'s results, computed by the source's map and then a `reduce` with `+` from `[]` |
| ListMonad.Length | src/funcpy/list.py:26-27 | `__len__`, the number of stored elements; `LengthAndElements` and `BindLength` state it |
| ListMonad.Elements | src/funcpy/list.py:23-24 | `__iter__`, the stored elements in order; `LengthAndElements` states it |
| ListMonad.Equals | src/funcpy/list.py:32-33 | `__eq__` against a List holds exactly for equal element sequences |
| ListMonad.EqualsSeq | src/funcpy/list.py:32-33 | `__eq__` against a plain sequence holds exactly when the elements are that sequence |
| ListMonad.ConcatPrepend | src/funcpy/list.py:21 | the `reduce` with `+` from `[]` splits off its first part: `concat([p] + ps) == p + concat(ps)` |
| ListMonad.ConcatOfParts | src/funcpy/list.py:20-21 | concatenating the mapped parts equals the recursive flattening of `k` over the elements |
| ListMonad.FlatMapAppend | src/funcpy/list.py:19-21 | flattening distributes over appending the inputs |
| ListMonad.BindSingletons | src/funcpy/list.py:19-21 | when `k` always gives one element `h(x)`, `bind` is `map(h)` |
| ListMonad.FlatMapUniformLength | src/funcpy/list.py:19-21 | when `k` always gives `n` elements, the flattening has `n` per input element |
| ListMonad.FlatMapCongruence | src/funcpy/list.py:19-21 | pointwise-equal continuations flatten to the same result |
| ListMonad.BindEmpty | src/funcpy/list.py:19-21 | binding the empty List gives the empty List |
| ListMonad.BindLength | src/funcpy/list.py:19-27 | the length of `bind` is the sum of the lengths of `k`'s results |
| ListMonad.BindDistributes | src/funcpy/list.py:19-21 | `bind` over `xs + ys` is `bind` over `xs` followed by `bind` over `ys` |
| ListMonad.BindExample | tests/test_monad.py:113-114 | `List([1,2,3]).bind(x -> List([x+1, x-1])) == [2, 0, 3, 1, 4, 2]` |
| ListMonad.LengthAndElements | src/funcpy/list.py:23-27 | iterating a List gives its elements, and `len` is their number |
| ListMonad.LeftIdentity | src/funcpy/list.py:15-21 | monad law: `pure(x).bind(k) == k(x)` |
| ListMonad.RightIdentity | src/funcpy/list.py:15-21 | monad law: `m.bind(pure) == m` |
| ListMonad.FlatMapAssociative | src/funcpy/list.py:19-21 | flattening by `k1` then by `k2` equals flattening once by the composite |
| ListMonad.Associativity | src/funcpy/list.py:19-21 | monad law: binding `k1` and then `k2` equals binding `x -> k1(x).bind(k2)` |
| ListMonad.Apply | src/funcpy/monad.py:23-34 | `apply` over List; `ApplyOrder` gives its result and length |
| ListMonad.LiftM | src/funcpy/monad.py:36-40 | `liftM(f, a)` is `pure(f).apply(a)`; `LiftMIsMap` gives its result |
| ListMonad.LiftM2 | src/funcpy/monad.py:42-45 | `liftM2` is `pure(f).apply(a).apply(b)`; `LiftM2IsNestedBind` and `LiftM2Rows` give its result |
| ListMonad.LiftM3 | src/funcpy/monad.py:47-49 | the chain with three `apply`s; `LiftM3Count` states it |
| ListMonad.LiftM4 | src/funcpy/monad.py:51-53 | the chain with four `apply`s; `LiftM4Count` states it |
| ListMonad.LiftM5 | src/funcpy/monad.py:55-57 | the chain with five `apply`s; `LiftM5Count` states it |
| ListMonad.BindPureIsMap | src/funcpy/list.py:15-21 | binding `x -> pure(f(x))` maps `f` over the elements |
| ListMonad.ApplyOrder | src/funcpy/monad.py:23-34 | `apply` maps each function in turn over all the arguments; its length is the product of the two lengths |
| ListMonad.LiftMIsMap | src/funcpy/monad.py:36-40 | `liftM(f, a)` maps `f` over the elements, keeping their order and number |
| ListMonad.LiftMExamples | tests/test_monad.py:109-118 | `liftM(x + 1)` over 1..5 is 2..6, and `pure(str).apply` over 1..5 shows each number in order |
| ListMonad.LiftM2IsNestedBind | src/funcpy/monad.py:42-45 | `liftM2(f, a, b)` binds `a` then `b` and wraps `f(x)(y)`: `a`'s elements outermost, `|a| * |b|` results |
| ListMonad.FlatMapOfMap | src/funcpy/list.py:19-21 | flattening after a `map` equals flattening by the composed continuation |
| ListMonad.LiftM2PureRight | src/funcpy/monad.py:42-45 | with a one-element second argument, `liftM2` maps `x -> f(x)(y)` over the first |
| ListMonad.FlatMapRows | src/funcpy/list.py:19-21 | flattening rows of `f(x)` mapped over `ys` gives the row-by-row table |
| ListMonad.LiftM2Rows | src/funcpy/monad.py:42-45 | `liftM2(f, a, b)` is the table of `f(x)(y)`, one row per element `x` of `a`, in the order of `b` |
| ListMonad.LiftM3Count | src/funcpy/monad.py:47-49 | `liftM3` is `liftM2` followed by one more `apply`, with the product of the three lengths as its length |
| ListMonad.LiftM4Count | src/funcpy/monad.py:51-53 | `liftM4` is `liftM3` followed by one more `apply`, with the product of the four lengths as its length |
| ListMonad.LiftM5Count | src/funcpy/monad.py:55-57 | `liftM5` is `liftM4` followed by one more `apply`, with the product of the five lengths as its length |
| WriterMonad.StrMonoid | src/funcpy/writer.py:52-58 | the `WriterStr` monoid, `""` and `+`; `StrMonoidLaws` states its laws |
| WriterMonad.SeqMonoid | src/funcpy/writer.py:85-91 | the `WriterList` monoid, `[]` and `+`; `SeqMonoidLaws` states its laws |
| WriterMonad.SumMonoid | src/funcpy/writer.py:117-123 | the `WriterSum` monoid, `0` and `+` on integers; `SumMonoidLaws` states its laws |
| WriterMonad.ProdMonoid | src/funcpy/writer.py:149-155 | the `WriterProd` monoid, `1` and `*` on integers; `ProdMonoidLaws` states its laws |
| WriterMonad.StrMonoidLaws | src/funcpy/writer.py:52-58 | `""` and string `+` form a monoid |
| WriterMonad.SeqMonoidLaws | src/funcpy/writer.py:85-91 | `[]` and list `+` form a monoid |
| WriterMonad.SumMonoidLaws | src/funcpy/writer.py:117-123 | `0` and `+` form a monoid |
| WriterMonad.ProdMonoidLaws | src/funcpy/writer.py:149-155 | `1` and `*` form a monoid |
| WriterMonad.Pure | src/funcpy/writer.py:19-21 | `_Writer.pure`: the value with the monoid identity as its log; the identity laws below state its role |
| WriterMonad.Bind | src/funcpy/writer.py:23-25 | `_Writer.bind`: `k`'s value, with the earlier log combined before `k`'s log; the laws, `TellSplice` and `SeqBindChainExample` state it |
| WriterMonad.Tell | src/funcpy/writer.py:60-62 | `tell(log)` (the same in the four subclasses): no value and exactly `log`; `TellSplice` states its use |
| WriterMonad.Equals | src/funcpy/writer.py:30-31 | `__eq__` holds exactly for equal values with equal logs |
| WriterMonad.LeftIdentity | src/funcpy/writer.py:19-25 | monad law, for any monoid: `pure(x).bind(k) == k(x)` |
| WriterMonad.RightIdentity | src/funcpy/writer.py:19-25 | monad law, for any monoid: `w.bind(pure) == w` |
| WriterMonad.Associativity | src/funcpy/writer.py:23-25 | monad law, for any monoid: binding `k1` and then `k2` equals binding `x -> k1(x).bind(k2)` |
| WriterMonad.TellSplice | src/funcpy/writer.py:61-62 | `tell(log).bind(_ -> w)` keeps `w`'s value and puts `log` before `w`'s log |
| WriterMonad.StrBindExample | tests/test_monad.py:129-130 | `WriterStr.pure(5).bind(x -> WriterStr(x + 1, "Added 1")) == WriterStr(6, "Added 1")` |
| WriterMonad.SeqBindChainExample | tests/test_monad.py:131-132 | two binds on a `WriterList` log `["Added 1", "Added 2"]`, in call order, and give 8 |
| WriterMonad.StrTellExample | tests/test_monad.py:133-137 | nested binds with a `tell` give `WriterStr(3, "Added 1, 2")` |
| WriterMonad.Apply | src/funcpy/monad.py:23-34 | `apply` over Writer; `ApplyLogs` gives its value and log |
| WriterMonad.LiftM | src/funcpy/monad.py:36-40 | `liftM(f, a)` is `pure(f).apply(a)`; `LiftMKeepsLog` gives its result |
| WriterMonad.LiftM2 | src/funcpy/monad.py:42-45 | `liftM2` is `pure(f).apply(a).apply(b)`; `LiftM2IsNestedBind` gives its result |
| WriterMonad.LiftM3 | src/funcpy/monad.py:47-49 | the chain with three `apply`s; `LiftM3Logs` gives its result |
| WriterMonad.LiftM4 | src/funcpy/monad.py:51-53 | the chain with four `apply`s; `LiftM4Logs` gives its result |
| WriterMonad.LiftM5 | src/funcpy/monad.py:55-57 | the chain with five `apply`s; `LiftM5Logs` gives its result |
| WriterMonad.ApplyLogs | src/funcpy/monad.py:23-34 | `apply` applies the function's value to the argument's value; the function's log comes first |
| WriterMonad.LiftMKeepsLog | src/funcpy/monad.py:36-40 | `liftM(f, a)` applies `f` to the value and leaves the log as it is |
| WriterMonad.LiftM2IsNestedBind | src/funcpy/monad.py:42-45 | `liftM2(f, a, b)` binds `a` then `b`: the value is `f(a)(b)`, and `a`'s log precedes `b`'s |
| WriterMonad.LiftM3Logs | src/funcpy/monad.py:47-49 | `liftM3` applies `f` to the three values and combines the three logs left to right |
| WriterMonad.LiftM4Logs | src/funcpy/monad.py:51-53 | `liftM4` applies `f` to the four values and combines the four logs left to right |
| WriterMonad.LiftM5Logs | src/funcpy/monad.py:55-57 | `liftM5` applies `f` to the five values and combines the five logs left to right |
| Traversals.Append | src/funcpy/functions.py:46 | the two-argument `lambda vals, val: vals + [val]` of both folds |
| Traversals.AppendCurried | src/funcpy/functions.py:46 | that lambda curried, as `liftM2` takes it; `AppendCurriedAppends` states it |
| Traversals.AppendCurriedAppends | src/funcpy/functions.py:46 | the curried `lambda vals, val: vals + [val]` appends `val` to `vals` |
| Traversals.MaybeKeepIf | src/funcpy/functions.py:46 | `lambda b: liftM2(append, acc, pure(x)) if b else acc` over Maybe; `MaybeFilterStepJust` states it |
| Traversals.MaybeFilterStep | src/funcpy/functions.py:39-46 | `folding_func` of `filterM` over Maybe; `MaybeFilterStepJust` and `MaybeFilterStepFails` state it |
| Traversals.MaybeFilterFolding | src/funcpy/functions.py:39-46 | `folding_func` as the function that `reduce` receives |
| Traversals.MaybeFilterM | src/funcpy/functions.py:38-48 | `filterM` over Maybe is `None` exactly when the input is empty |
| Traversals.MaybeFilterMLast | src/funcpy/functions.py:39-48 | the `reduce` over Maybe applies `folding_func` last to the last item |
| Traversals.MaybeFilterStepJust | src/funcpy/functions.py:43-46 | a step whose predicate gives `Just(b)` appends `x` exactly when `b` holds, from `pure([])` on the first item |
| Traversals.MaybeFilterStepFails | src/funcpy/functions.py:46 | a step is `Nothing` exactly when the predicate result or the accumulator is `Nothing` |
| Traversals.MaybeFilterMAllJust | src/funcpy/functions.py:38-48 | when every predicate result is `Just`, `filterM` is `Just` of the ordinary filter, in input order |
| Traversals.MaybeFilterMFailsLast | src/funcpy/functions.py:46-48 | `filterM` on a non-empty input fails exactly when it failed before the last item or that item's predicate is `Nothing` |
| Traversals.MaybeFilterMFails | src/funcpy/functions.py:38-48 | `filterM` is `Nothing` exactly when some item's predicate result is `Nothing` |
| Traversals.MaybeFilterMExamples | tests/test_monad.py:81-84 | `x > 5` over `[2,4,6,8,10]` gives `Just([6,8,10])`, and a predicate that is `Nothing` on some item gives `Nothing` |
| Traversals.MaybeMapStep | src/funcpy/functions.py:52-59 | `folding_func` of `mapM` over Maybe; `MaybeMapStepJust` and `MaybeMapStepFails` state it |
| Traversals.MaybeMapFolding | src/funcpy/functions.py:52-59 | `folding_func` as the function that `reduce` receives |
| Traversals.MaybeMapM | src/funcpy/functions.py:51-61 | `mapM` over Maybe is `None` exactly when the input is empty |
| Traversals.MaybeMapMLast | src/funcpy/functions.py:52-61 | the `reduce` over Maybe applies `folding_func` last to the last item |
| Traversals.MaybeMapStepJust | src/funcpy/functions.py:56-59 | a step whose result is `Just(v)` appends `v`, from `pure([])` on the first item |
| Traversals.MaybeMapStepFails | src/funcpy/functions.py:59 | a step is `Nothing` exactly when the Kleisli result or the accumulator is `Nothing` |
| Traversals.MaybeMapMAllJust | src/funcpy/functions.py:51-61 | when every result is `Just(f(x))`, `mapM` is `Just` of `map(f)`, in input order and of the same length |
| Traversals.MaybeMapMFailsLast | src/funcpy/functions.py:59-61 | `mapM` on a non-empty input fails exactly when it failed before the last item or that item's result is `Nothing` |
| Traversals.MaybeMapMFails | src/funcpy/functions.py:51-61 | `mapM` is `Nothing` exactly when some item's result is `Nothing` |
| Traversals.MaybeMapMShowsAll | tests/test_monad.py:87-88 | when every result is `Just(str(x))`, `mapM` over 1..5 is `Just` of the five strings in order |
| Traversals.MaybeMapMRefusesOne | tests/test_monad.py:89-90 | when the result for 1 is `Nothing`, `mapM` over 1..5 is `Nothing` |
| Traversals.SubsequencesCount | src/funcpy/functions.py:38-48 | the subsequence enumeration that List `filterM` produces has `2^n` members |
| Traversals.SubsequencesMembers | src/funcpy/functions.py:38-48 | the enumeration `Subsequences(xs)` holds a sequence exactly when it is a subsequence of `xs` |
| Traversals.ListKeepIf | src/funcpy/functions.py:46 | `lambda b: liftM2(append, acc, pure(x)) if b else acc` over List; `ListKeepIfOutcome` states it |
| Traversals.ListKeepIfOutcome | src/funcpy/functions.py:46 | the step's continuation appends `x` to every accumulated result on `True` and keeps them on `False` |
| Traversals.ListAppendEach | src/funcpy/functions.py:46 | `liftM2(append, acc, pure(x))` over List appends `x` to each accumulated result, in order |
| Traversals.FlatMapKeepIf | src/funcpy/functions.py:46 | binding the verdicts gives one block of results per verdict, the verdicts outermost |
| Traversals.ListFilterStep | src/funcpy/functions.py:39-46 | `folding_func` of `filterM` over List; `ListFilterStepBranches` states it |
| Traversals.ListFilterFolding | src/funcpy/functions.py:39-46 | `folding_func` as the function that `reduce` receives |
| Traversals.ListFilterM | src/funcpy/functions.py:38-48 | `filterM` over List is `None` exactly when the input is empty |
| Traversals.ListFilterMLast | src/funcpy/functions.py:39-48 | the `reduce` over List applies `folding_func` last to the last item |
| Traversals.ListFilterStepBranches | src/funcpy/functions.py:43-46 | a step branches the results so far over the verdicts for `x`, from `pure([])` on the first item |
| Traversals.ListFilterMBranches | src/funcpy/functions.py:38-48 | `filterM` over List enumerates the branches item by item, with the last item's verdicts outermost |
| Traversals.BranchCount | src/funcpy/functions.py:46 | one step multiplies the number of results by the number of verdicts |
| Traversals.ListFilterMCount | src/funcpy/functions.py:38-48 | the number of `filterM` results is the product of the numbers of verdicts |
| Traversals.ListFilterMSubsequences | src/funcpy/functions.py:38-48 | with the verdicts `[True, False]` for every item, `filterM` gives every subsequence, those keeping the last item first |
| Traversals.BranchesBoth | src/funcpy/functions.py:46 | branching over `[True, False]` at each item builds the subsequences |
| Traversals.ListFilterMExample | tests/test_monad.py:121-122 | `filterM(_ -> List([True, False]), [1,2,3])` is the eight subsequences in the order the test expects |
| Traversals.RowsOfAppend | src/funcpy/functions.py:59 | `liftM2(append, choices, vals)` extends each choice by every value in turn, choices outermost |
| Traversals.ListMapStep | src/funcpy/functions.py:52-59 | `folding_func` of `mapM` over List; `ListMapStepGrows` states it |
| Traversals.ListMapFolding | src/funcpy/functions.py:52-59 | `folding_func` as the function that `reduce` receives |
| Traversals.ListMapM | src/funcpy/functions.py:51-61 | `mapM` over List is `None` exactly when the input is empty |
| Traversals.ListMapMLast | src/funcpy/functions.py:52-61 | the `reduce` over List applies `folding_func` last to the last item |
| Traversals.ListMapStepGrows | src/funcpy/functions.py:56-59 | a step extends every choice so far by every result for `x`, from `pure([])` on the first item |
| Traversals.ListMapMChoices | src/funcpy/functions.py:51-61 | `mapM` over List gives every choice of one result per item, earlier items varying slowest |
| Traversals.ChoiceLast | src/funcpy/functions.py:59 | a choice over a non-empty input is a choice over the earlier items followed by a result for the last item, and conversely |
| Traversals.GrowMembers | src/funcpy/functions.py:59 | one step's results are exactly a choice so far followed by a result for the item |
| Traversals.ChoicesMembers | src/funcpy/functions.py:51-61 | the enumeration `Choices(k, items)` holds a sequence exactly when it picks one of `k`'s results for every item |
| Traversals.GrowCount | src/funcpy/functions.py:59 | one step multiplies the number of choices by the number of results for the item |
| Traversals.ListMapMCount | src/funcpy/functions.py:51-61 | the number of `mapM` results is the product of the numbers of results per item |
| Traversals.ListMapMPure | src/funcpy/functions.py:51-61 | with one result `f(x)` per item, `mapM` over List has the one result `map(f)` |
| Traversals.CombineReverse | src/funcpy/functions.py:46 | for a commutative monoid, such as `WriterSum` and `WriterProd`, combining the logs in reverse order gives the same log |
| Traversals.WriterKeepIf | src/funcpy/functions.py:46 | `lambda b: liftM2(append, acc, pure(x)) if b else acc` over Writer; `WriterFilterStepLog` states it |
| Traversals.WriterFilterStep | src/funcpy/functions.py:39-46 | `folding_func` of `filterM` over Writer; `WriterFilterStepLog` states it |
| Traversals.WriterFilterFolding | src/funcpy/functions.py:39-46 | `folding_func` as the function that `reduce` receives |
| Traversals.WriterFilterM | src/funcpy/functions.py:38-48 | `filterM` over Writer is `None` exactly when the input is empty |
| Traversals.WriterFilterMLast | src/funcpy/functions.py:39-48 | the `reduce` over Writer applies `folding_func` last to the last item |
| Traversals.WriterFilterStepLog | src/funcpy/functions.py:43-46 | a step appends `x` when the predicate's value holds, and puts the predicate's log before the accumulated log |
| Traversals.WriterFilterMLogs | src/funcpy/functions.py:38-48 | `filterM` over Writer keeps the items whose predicate value holds, in input order, and combines the predicate logs last item first |
| Traversals.WriterMapStep | src/funcpy/functions.py:52-59 | `folding_func` of `mapM` over Writer; `WriterMapStepLog` states it |
| Traversals.WriterMapFolding | src/funcpy/functions.py:52-59 | `folding_func` as the function that `reduce` receives |
| Traversals.WriterMapM | src/funcpy/functions.py:51-61 | `mapM` over Writer is `None` exactly when the input is empty |
| Traversals.WriterMapMLast | src/funcpy/functions.py:52-61 | the `reduce` over Writer applies `folding_func` last to the last item |
| Traversals.WriterMapStepLog | src/funcpy/functions.py:56-59 | a step appends the result's value and puts the accumulated log before the result's log |
| Traversals.WriterMapMLogs | src/funcpy/functions.py:51-61 | `mapM` over Writer maps the values in input order and combines the logs in input order |
| Traversals.WriterFilterMOrderExample | src/funcpy/functions.py:46 | in a `WriterList` where every item logs itself and is kept, `filterM` over `a, b, c` logs `c, b, a` |
| Traversals.WriterMapMOrderExample | src/funcpy/functions.py:59 | in a `WriterList` where every item logs itself, `mapM` over `a, b, c` logs `a, b, c` |

## Left out

- `curry`'s probing: the source first calls `f(arg)` and falls back to partial application when that raises `TypeError` (src/funcpy/functions.py:11-14). Exceptions are not modelled. Functions of several arguments are curried Dafny arrows, so `curry(f, a)` inside `apply` is plain application. `Curry` keeps the two-argument form for the `append` lambda of the traversals.
- `num_args` and the commented-out `curry_dec` (src/funcpy/functions.py:17-35): reflection over signatures, and dead code.
- Runtime discovery of the monad through `type(...)` (src/funcpy/functions.py:41, 54; src/funcpy/monad.py:34): the monad is fixed statically, with one traversal per monad. Mixing monads in one traversal is not modelled.
- Floating-point and complex logs of `WriterSum` and `WriterProd`: the model uses integers only, because floating-point addition and multiplication are not associative.
- The identity of the `Nothing` singleton: `Nothing` is a constructor, so `Just(None)` and `Nothing` are distinct, as the source's `is` test makes them.
- The `__str__` methods: they depend on Python's `str` of arbitrary payloads. For the same reason, `str` in the mapM and apply test cases is a function parameter (`show`) of the lemmas that state those cases.
- The overrides in `maybe.py`, `list.py` and `writer.py` that exist only for type hints and call `super()`.
- Equality between values of unrelated types, and between different Writer subclasses.
- The value of `tell` is Python's `None`; here it is the unit value `()`.
