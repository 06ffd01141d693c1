/** What the consuming operations compute from the elements the cursor still
    holds. */
module Terminals {
  import Transforms

  /** `functools.reduce(fn, it, init)`: the left fold
      fn(... fn(fn(init, s[0]), s[1]) ..., s[|s| - 1]). */
  function FoldLeft<A, T>(f: (A, T) -> A, init: A, s: seq<T>): A
  {
    if s == [] then init else FoldLeft(f, f(init, s[0]), s[1..])
  }

  /** Folding a concatenation folds the second part from the first part's result. */
  lemma {:induction false} FoldLeftAppend<A, T>(f: (A, T) -> A, init: A, a: seq<T>, b: seq<T>)
    ensures FoldLeft(f, init, a + b) == FoldLeft(f, FoldLeft(f, init, a), b)
  {
    if a == [] {
      assert a + b == b;
    } else {
      assert (a + b)[0] == a[0];
      assert (a + b)[1..] == a[1..] + b;
      FoldLeftAppend(f, f(init, a[0]), a[1..], b);
    }
  }

  /** The fold applies `f` to the fold of all but the last element and the
      last element: the accumulator is threaded left to right. */
  lemma FoldLeftSnoc<A, T>(f: (A, T) -> A, init: A, s: seq<T>, x: T)
    ensures FoldLeft(f, init, s + [x]) == f(FoldLeft(f, init, s), x)
  {
    FoldLeftAppend(f, init, s, [x]);
    assert [x][1..] == [];
  }

  /** The index of the first element satisfying `p`, or |s| when there is none. */
  function FirstMatch<T>(s: seq<T>, p: T -> bool): (k: nat)
    ensures k <= |s|
    ensures forall j :: 0 <= j < k ==> !p(s[j])
    ensures k < |s| ==> p(s[k])
  {
    if s == [] || p(s[0]) then 0 else 1 + FirstMatch(s[1..], p)
  }

  /** `take_while` stops exactly at the element `find` would return for the
      negated predicate. */
  lemma TakeWhileUpToFirstFailure<T>(s: seq<T>, p: T -> bool)
    ensures Transforms.TakeWhile(s, p) == s[..FirstMatch(s, x => !p(x))]
  {
  }

  /** `find(p)` returns the first element `filter(p)` would yield, and finds
      nothing exactly when `filter(p)` yields nothing. */
  lemma {:induction false} FindIsHeadOfFilter<T>(s: seq<T>, p: T -> bool)
    ensures FirstMatch(s, p) < |s| <==> Transforms.Filter(s, p) != []
    ensures FirstMatch(s, p) < |s| ==> Transforms.Filter(s, p)[0] == s[FirstMatch(s, p)]
  {
    if s != [] && !p(s[0]) {
      FindIsHeadOfFilter(s[1..], p);
    }
  }
}
