# chainit / chainiter — a verified model of the lazy iterator wrapper

The repository ships one class twice: `ChainIter` in `chainiter/klass.py` and
`ChainIt` in `chainit/klass.py`. Both wrap any iterable in a single-pass
generator (`_iter`). They offer chainable operations that wrap that cursor in
a new wrapper: `map`, `filter`, `filter_map`, `flat_map`, `enumerate`, `take`,
`take_while`, `zip` and `zip_longest`. They also offer terminal operations
that drain it, fully or in part: `collect`, `collect_list`, `collect_set`,
`collect_frozenset`, `find`, `fold`, `reduce` and `nth`.

The two classes are identical apart from their names and one detail: `zip` and
`zip_longest` pass the wrapper as `self.__iter__()` in one file and as
`iter(self)` in the other, and both of these are the wrapper itself. One model
serves both. The table cites `chainiter/klass.py`. The same code sits at the
same lines of `chainit/klass.py` up to line 92; from `find` on (line 106 in
`chainiter`) it sits 4 lines earlier, because `filter_map` is written on fewer
lines there.

Layout:

- `wrappers.dfy` (module `Wrappers`): `Option` is the `None` marker, `Result`
  is a value or a raised exception, and `Error` lists the two exceptions the
  wrapper raises itself.
- `transforms.dfy` (module `Transforms`): each chainable operation as a
  function from the elements the old cursor still holds to the elements the
  new wrapper will yield, with the lemmas about them.
- `terminals.dfy` (module `Terminals`): the left fold and the first-match
  index that specify `fold`, `reduce` and `find`.
- `chain.dfy` (module `Chain`): the class `ChainIter`. Its field `rest` is the
  cursor: the elements the generator will still produce. The ghost field
  `source` and the predicate `Valid` record that the cursor only moves forward
  over what it was built from. Terminal operations are methods that update
  `rest`. `find` and `nth` are loops, as in the source. Chainable operations
  return a fresh wrapper.
- `doctests.dfy` (module `Doctests`): the usage examples from the docstrings,
  as client code whose results are proved, plus three extra scenarios for the
  edge cases the docstrings do not show (`nth` past the end of `range(5)`,
  `take(-1)`, `reduce` on an empty cursor).

## Model

| member | source | states |
|---|---|---|
| `Chain.ChainIter.constructor` | chainiter/klass.py:22-23 | wrapping consumes nothing: the cursor holds the whole source |
| `Chain.ChainIter.Next` | chainiter/klass.py:28-29 | returns the head and removes exactly that one element; on an empty cursor signals the end (StopIteration) and changes nothing |
| `Chain.ChainIter.Collect` | chainiter/klass.py:31-37 | returns every remaining element in yield order and leaves the cursor empty |
| `Chain.CollectFrozenset` | chainiter/klass.py:39-45 | returns exactly the set of remaining elements and leaves the cursor empty |
| `Chain.ChainIter.CollectList` | chainiter/klass.py:47-53 | returns every remaining element in yield order and leaves the cursor empty |
| `Chain.CollectSet` | chainiter/klass.py:55-61 | an element is in the result iff it was in the cursor; the cursor ends empty |
| `Chain.ChainIter.Enumerate` | chainiter/klass.py:71-77 | the new wrapper yields `Transforms.Enumerate` of the remaining elements |
| `Transforms.Enumerate` | chainiter/klass.py:71-77 | same length as the input; element `i` is the pair `(i, s[i])`, indices starting at 0 |
| `Transforms.EnumerateThenDropIndex` | chainiter/klass.py:82-89 | mapping the pairs back to their second component gives the input again |
| `Transforms.EnumerateIsZipWithIndices` | chainiter/klass.py:71-77 | enumerating equals zipping the indices 0, 1, 2, … with the input |
| `Chain.ChainIter.Filter` | chainiter/klass.py:79-91 | the new wrapper yields `Transforms.Filter` of the remaining elements |
| `Transforms.Filter` | chainiter/klass.py:79-91 | the output is no longer than the input and every element it yields satisfies the predicate |
| `Transforms.Positions` | chainiter/klass.py:79-91 | reference definition: the increasing list of all positions whose element satisfies the predicate, and no other positions |
| `Transforms.FilterIsSubsequence` | chainiter/klass.py:79-91 | `filter` yields exactly the elements at `Positions`, in that order: the in-order subsequence of matching elements |
| `Transforms.FilterAppend` | chainiter/klass.py:79-91 | filtering is streaming: the filter of a concatenation is the concatenation of the filters |
| `Chain.ChainIter.FilterMap` | chainiter/klass.py:93-104 | the new wrapper yields `Transforms.FilterMap` of the remaining elements |
| `Transforms.FilterMap` | chainiter/klass.py:93-104 | yields at most one value per input element |
| `Transforms.FilterMapIsSubsequence` | chainiter/klass.py:93-104 | yields, in order, the present value of `fn(x)` for exactly those `x` where `fn(x)` is not `None` |
| `Transforms.FilterMapAppend` | chainiter/klass.py:93-104 | `filter_map` is streaming over concatenation |
| `Transforms.FilterIsFilterMap` | chainiter/klass.py:79-104 | `filter(p)` equals `filter_map` of "keep `x` if `p(x)`" |
| `Chain.ChainIter.Find` | chainiter/klass.py:106-118 | returns the first remaining element satisfying the predicate and leaves the cursor strictly after it; with no match, returns `None` and leaves the cursor empty |
| `Terminals.FirstMatch` | chainiter/klass.py:114-118 | the index of the first element satisfying the predicate: every earlier element fails it, and it is the length when none matches |
| `Terminals.FindIsHeadOfFilter` | chainiter/klass.py:79-118 | `find(p)` finds something exactly when `filter(p)` yields something, and then returns the first element `filter(p)` would yield |
| `Chain.ChainIter.FlatMap` | chainiter/klass.py:120-126 | the new wrapper yields `Transforms.FlatMap` of the remaining elements |
| `Transforms.FlatMap` | chainiter/klass.py:120-126 | empty input yields nothing; otherwise the output starts with the whole of `fn(s[0])` |
| `Transforms.FlatMapAppend` | chainiter/klass.py:120-126 | flat-mapping a concatenation concatenates the flat-maps of its parts |
| `Transforms.FlatMapSplit` | chainiter/klass.py:120-126 | for every position `i`, the output is everything from the elements before `i`, then all of `fn(s[i])`, then everything from the elements after it |
| `Transforms.FlatMapSingletons` | chainiter/klass.py:120-142 | flat-mapping to one-element sequences is `map` |
| `Chain.ChainIter.Fold` | chainiter/klass.py:128-134 | returns the left fold of the remaining elements from the initializer (the initializer itself when none remain) and leaves the cursor empty |
| `Terminals.FoldLeft` | chainiter/klass.py:134 | reference definition of `functools.reduce(fn, it, init)`: the left fold `fn(...fn(init, s[0])..., s[k-1])`, which is `init` on an empty input |
| `Terminals.FoldLeftAppend` | chainiter/klass.py:128-134 | folding a concatenation folds the second part starting from the first part's result |
| `Terminals.FoldLeftSnoc` | chainiter/klass.py:128-134 | the fold is `fn` applied to the fold of all but the last element and the last element: `fn(...fn(init, s[0])..., s[k-1])` |
| `Chain.ChainIter.Map` | chainiter/klass.py:136-142 | the new wrapper yields `Transforms.Map` of the remaining elements |
| `Transforms.Map` | chainiter/klass.py:136-142 | same length as the input, element `i` is `fn(s[i])` |
| `Transforms.MapAppend` | chainiter/klass.py:136-142 | mapping is streaming over concatenation |
| `Chain.ChainIter.Nth` | chainiter/klass.py:144-159 | a negative `n` returns `None` and consumes nothing; `n` below the remaining length returns element `n` and leaves the cursor just after it; otherwise returns `None` with the cursor drained |
| `Chain.ChainIter.Reduce` | chainiter/klass.py:161-167 | on a non-empty cursor, the fold seeded with the first element over the rest; on an empty one, the error `functools.reduce` raises; the cursor ends empty |
| `Chain.ChainIter.Take` | chainiter/klass.py:169-175 | a negative count is rejected at call time; otherwise a fresh wrapper that yields `Transforms.Take` of the remaining elements |
| `Transforms.Take` | chainiter/klass.py:169-175 | an error iff the count is negative; otherwise the prefix of length `min(n, len(s))` (counts above `sys.maxsize` clipped) |
| `Transforms.Islice` | chainiter/klass.py:175 | yields the prefix of length `min(n, len(s))` |
| `Transforms.IsliceIslice` | chainiter/klass.py:169-175 | taking `m` after taking `n` takes `min(n, m)` |
| `Chain.ChainIter.TakeWhile` | chainiter/klass.py:177-189 | the new wrapper yields `Transforms.TakeWhile` of the remaining elements |
| `Transforms.TakeWhile` | chainiter/klass.py:177-189 | the longest prefix whose elements all satisfy the predicate: a prefix, all of it satisfies, and the next element (if any) fails |
| `Transforms.TakeWhileStops` | chainiter/klass.py:177-189 | nothing after the first failing element affects the output, however much follows it |
| `Terminals.TakeWhileUpToFirstFailure` | chainiter/klass.py:177-189 | `take_while(p)` ends exactly where `find(not p)` would stop |
| `Chain.ChainIter.Zip` | chainiter/klass.py:191-198 | the new wrapper yields `Transforms.Zip` of the remaining elements and the other iterable |
| `Transforms.Zip` | chainiter/klass.py:191-198 | `min(len(s), len(o))` pairs, pair `i` is `(s[i], o[i])` |
| `Transforms.ZipUnzip` | chainiter/klass.py:191-198 | projecting the pairs gives back both inputs cut to the shorter length |
| `Chain.ChainIter.ZipLongest` | chainiter/klass.py:200-206 | the new wrapper yields `Transforms.ZipLongest` of the remaining elements and the other iterable |
| `Transforms.ZipLongest` | chainiter/klass.py:200-206 | `max(len(s), len(o))` pairs, pair `i` holds each side's element `i`, or `None` where that side has ended (written with the helper `At`, which gives a sequence's element at a position or `None` past its end) |
| `Transforms.ZipLongestExtendsZip` | chainiter/klass.py:191-206 | `zip_longest` agrees with `zip` on the common length, and beyond it exactly the shorter side is padded |
| `Doctests.CollectRange` | chainiter/klass.py:34-59 | `collect`, `collect_list` and `collect_set` of `range(3)` give `(0, 1, 2)`, `[0, 1, 2]` and `{0, 1, 2}` |
| `Doctests.EnumerateAbc` | chainiter/klass.py:74-75 | `"abc"` enumerated is `((0, 'a'), (1, 'b'), (2, 'c'))` |
| `Doctests.EvenPositions` | chainiter/klass.py:82-89 | enumerate, keep even indices and drop the index on `"abcd"` gives `('a', 'c')` |
| `Doctests.FilterMapLookup` | chainiter/klass.py:98-100 | looking up `range(5)` in `{1: "one", 2: "two", 4: "four"}` gives `('one', 'two', 'four')` |
| `Doctests.FindInRange` | chainiter/klass.py:109-112 | in `range(5)`, the first element above 3 is 4 and no element is negative |
| `Doctests.FlatMapUpper` | chainiter/klass.py:123-124 | flat-mapping `("hello ", "world")` through upper-casing gives the characters of `"HELLO WORLD"` |
| `Doctests.FoldAndReduce` | chainiter/klass.py:131-165 | folding `range(4)` with `+` from 10 gives 16 and reducing it gives 6; an extra scenario, not in the docstrings: reducing an empty cursor is the error |
| `Doctests.MapUpper` | chainiter/klass.py:139-140 | mapping upper-casing over `"abc"` gives `('A', 'B', 'C')` |
| `Doctests.NthOfAbc` | chainiter/klass.py:147-150 | `"abc".nth(2)` is `'c'` and `nth(3)` on it is `None`; an extra scenario, not in the docstrings: `nth(10)` on `range(5)` is `None` |
| `Doctests.TakeThree` | chainiter/klass.py:172-173 | `range(10).take(3)` gives `(0, 1, 2)`; an extra scenario, not in the docstrings: a negative count is rejected |
| `Doctests.PowersOfTwoBelowTen` | chainiter/klass.py:180-187 | `take_while(x < 10)` over the powers of two gives `(1, 2, 4, 8)`, whatever follows 16 |
| `Doctests.ZipRanges` | chainiter/klass.py:195-204 | zipping `range(5)` with `range(3, 0, -1)` gives three pairs; `zip_longest` gives five, the last two padded with `None` |

Behaviour of the code worth noting (the model follows the code):

- `itertools.islice` rejects a negative stop with a ValueError, raised as soon
  as `take` is called, before any element is pulled. `Transforms.Take`
  returns `Err(NegativeStop)` for it. A count above `sys.maxsize` is clipped
  by `islice` rather than rejected; `Transforms.MaxSize` is the 64-bit CPython
  value.
- `find`, `nth` and the padding of `zip_longest` all use `None` as the absent
  marker. When an element is itself `None`, the code cannot tell it apart
  from that marker: `find` and `nth` return `None` both for "found `None`" and
  for "nothing found", and `zip_longest` yields the same pair for a padded
  position and for a real `None` element. The model wraps present elements in
  `Some` (`Find`, `Nth`, `ZipLongest`), so it separates cases that Python
  cannot.
- `functools.reduce` without an initializer raises a TypeError on an empty
  iterable; the model returns `Err(EmptyReduce)`.
- `nth` with a negative `n` returns `None` before touching the cursor, so it
  consumes nothing. With `n` at or past the number of remaining elements, the
  loop drains the cursor and returns `None`.

## Left out

- `collect_with` hands the wrapper to an arbitrary caller-supplied function; its result is whatever that function does, so it is not modelled.
- The `chainit`/`chainiter` decorators (`decorator.py`) and the package re-exports (`__init__.py`) are not part of this model: they only copy function metadata, forward arguments and wrap the return value.
- Infinite sources: every sequence here is finite. `Transforms.TakeWhileStops` captures what matters for an unbounded source under `take_while`: nothing past the first failing element is used.
- Laziness and timing: the model states what each wrapper yields, not when callbacks run. Exceptions raised by caller callbacks are not modelled; callbacks are total functions.
- Sharing of one generator between an old wrapper and the wrapper chained from it is not modelled. Chaining is treated as a hand-over: the chainable methods leave the old wrapper untouched, and it must not be used again. The elements a chained wrapper pulls from the old one are not removed from the old wrapper's `rest`. This also covers the element `zip` pulls from the wrapper and discards when `other` ends first. Zipping a wrapper with itself (`it.zip(it)`) pulls from one generator in turns in Python, pairing consecutive elements; `Transforms.Zip(rest, rest)` instead pairs each element with itself, so that use is not modelled.
- `__iter__` returns the wrapper itself; it is modelled implicitly. `zip` and `zip_longest` take the other iterable as the sequence of elements it will produce, which may be another wrapper's `rest`.
- `islice` also accepts `None` as an unbounded stop. `take` is typed with an integer count, so this is not modelled.
- `collect_set` needs hashable elements in Python. The model asks only for Dafny equality (`T(==)`).
