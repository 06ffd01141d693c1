/** The chainable operations of the wrapper, each as the sequence of elements
    the new wrapper will yield when it is drained. The input is the sequence of
    elements the old cursor still holds; laziness is abstracted away. */
module Transforms {
  import opened Wrappers

  /** The largest stop `itertools.islice` accepts (sys.maxsize on a 64-bit
      CPython); larger counts are clipped to it. */
  const MaxSize: int := 0x7FFF_FFFF_FFFF_FFFF

  // ---------------------------------------------------------------- map

  /** `map(fn, it)`: one output per input, in order. */
  function Map<T, U>(s: seq<T>, f: T -> U): (r: seq<U>)
    ensures |r| == |s|
    ensures forall i :: 0 <= i < |s| ==> r[i] == f(s[i])
  {
    if s == [] then [] else [f(s[0])] + Map(s[1..], f)
  }

  /** Mapping is streaming: the output for a prefix is a prefix of the output. */
  lemma MapAppend<T, U>(a: seq<T>, b: seq<T>, f: T -> U)
    ensures Map(a + b, f) == Map(a, f) + Map(b, f)
  {
  }

  // ---------------------------------------------------------------- filter

  /** `filter(fn, it)`: the elements satisfying `p`, in order. */
  function Filter<T>(s: seq<T>, p: T -> bool): (r: seq<T>)
    ensures |r| <= |s|
    ensures forall i :: 0 <= i < |r| ==> p(r[i])
  {
    if s == [] then []
    else if p(s[0]) then [s[0]] + Filter(s[1..], p)
    else Filter(s[1..], p)
  }

  /** Filtering is streaming: filtering a concatenation filters each part. */
  lemma {:induction false} FilterAppend<T>(a: seq<T>, b: seq<T>, p: T -> bool)
    ensures Filter(a + b, p) == Filter(a, p) + Filter(b, p)
  {
    if a != [] {
      assert (a + b)[0] == a[0];
      assert (a + b)[1..] == a[1..] + b;
      FilterAppend(a[1..], b, p);
    } else {
      assert a + b == b;
    }
  }

  /** Reference definition: the positions of `s`, in increasing order, whose
      element satisfies `p` -- every such position and no other. */
  ghost function Positions<T>(s: seq<T>, p: T -> bool): (ix: seq<nat>)
    ensures forall j :: 0 <= j < |ix| ==> ix[j] < |s| && p(s[ix[j]])
    ensures forall j, k :: 0 <= j < k < |ix| ==> ix[j] < ix[k]
    ensures forall i :: 0 <= i < |s| && p(s[i]) ==> i in ix
    decreases |s|
  {
    if s == [] then []
    else
      var front := Positions(s[..|s| - 1], p);
      assert forall i :: 0 <= i < |s| - 1 ==> s[..|s| - 1][i] == s[i];
      if p(s[|s| - 1]) then front + [|s| - 1] else front
  }

  /** `filter` yields exactly the in-order subsequence of the elements that
      satisfy the predicate: the elements at `Positions(s, p)`, in that order. */
  lemma {:induction false} FilterIsSubsequence<T>(s: seq<T>, p: T -> bool)
    ensures |Filter(s, p)| == |Positions(s, p)|
    ensures forall j :: 0 <= j < |Positions(s, p)| ==> Filter(s, p)[j] == s[Positions(s, p)[j]]
    decreases |s|
  {
    if s != [] {
      var a, x := s[..|s| - 1], s[|s| - 1];
      assert s == a + [x];
      FilterAppend(a, [x], p);
      FilterIsSubsequence(a, p);
      assert [x][1..] == [];
    }
  }

  // ---------------------------------------------------------------- filter_map

  /** `(r for e in it if (r := fn(e)) is not None)`. */
  function FilterMap<T, U>(s: seq<T>, f: T -> Option<U>): (r: seq<U>)
    ensures |r| <= |s|
  {
    if s == [] then []
    else match f(s[0])
      case Some(y) => [y] + FilterMap(s[1..], f)
      case None => FilterMap(s[1..], f)
  }

  lemma {:induction false} FilterMapAppend<T, U>(a: seq<T>, b: seq<T>, f: T -> Option<U>)
    ensures FilterMap(a + b, f) == FilterMap(a, f) + FilterMap(b, f)
  {
    if a != [] {
      assert (a + b)[0] == a[0];
      assert (a + b)[1..] == a[1..] + b;
      FilterMapAppend(a[1..], b, f);
    } else {
      assert a + b == b;
    }
  }

  /** `filter_map` yields, in order, `fn(x)` for exactly those `x` where
      `fn(x)` is present. */
  lemma {:induction false} FilterMapIsSubsequence<T, U>(s: seq<T>, f: T -> Option<U>)
    ensures var ix := Positions(s, x => f(x).Some?);
      |FilterMap(s, f)| == |ix| &&
      forall j :: 0 <= j < |ix| ==> f(s[ix[j]]) == Some(FilterMap(s, f)[j])
    decreases |s|
  {
    if s != [] {
      var a, x := s[..|s| - 1], s[|s| - 1];
      assert s == a + [x];
      FilterMapAppend(a, [x], f);
      FilterMapIsSubsequence(a, f);
      assert [x][1..] == [];
    }
  }

  /** `filter` is the special case of `filter_map` that keeps the element itself. */
  lemma {:induction false} FilterIsFilterMap<T>(s: seq<T>, p: T -> bool)
    ensures Filter(s, p) == FilterMap(s, x => if p(x) then Some(x) else None)
  {
    if s != [] {
      FilterIsFilterMap(s[1..], p);
    }
  }

  // ---------------------------------------------------------------- flat_map

  /** `chain.from_iterable(map(fn, it))`. */
  function FlatMap<T, U>(s: seq<T>, f: T -> seq<U>): (r: seq<U>)
    ensures s == [] ==> r == []
    ensures s != [] ==> |f(s[0])| <= |r| && r[..|f(s[0])|] == f(s[0])
  {
    if s == [] then [] else f(s[0]) + FlatMap(s[1..], f)
  }

  lemma {:induction false} FlatMapAppend<T, U>(a: seq<T>, b: seq<T>, f: T -> seq<U>)
    ensures FlatMap(a + b, f) == FlatMap(a, f) + FlatMap(b, f)
  {
    if a != [] {
      assert (a + b)[0] == a[0];
      assert (a + b)[1..] == a[1..] + b;
      FlatMapAppend(a[1..], b, f);
    } else {
      assert a + b == b;
    }
  }

  /** Each inner sequence is yielded whole, after everything produced by the
      elements before it and before everything produced by those after it. */
  lemma FlatMapSplit<T, U>(s: seq<T>, i: nat, f: T -> seq<U>)
    requires i < |s|
    ensures FlatMap(s, f) == FlatMap(s[..i], f) + f(s[i]) + FlatMap(s[i + 1..], f)
  {
    var tail := s[i..];
    assert s == s[..i] + tail;
    FlatMapAppend(s[..i], tail, f);
    assert tail[0] == s[i] && tail[1..] == s[i + 1..];
    assert FlatMap(tail, f) == f(s[i]) + FlatMap(s[i + 1..], f);
  }

  /** Flat-mapping to singletons is mapping. */
  lemma {:induction false} FlatMapSingletons<T, U>(s: seq<T>, f: T -> U)
    ensures FlatMap(s, x => [f(x)]) == Map(s, f)
  {
    if s != [] {
      FlatMapSingletons(s[1..], f);
    }
  }

  // ---------------------------------------------------------------- enumerate

  function EnumerateFrom<T>(s: seq<T>, start: int): (r: seq<(int, T)>)
    ensures |r| == |s|
    ensures forall i :: 0 <= i < |s| ==> r[i] == (start + i, s[i])
  {
    if s == [] then [] else [(start, s[0])] + EnumerateFrom(s[1..], start + 1)
  }

  /** `enumerate(it)`: each element paired with its position, from 0. */
  function Enumerate<T>(s: seq<T>): (r: seq<(int, T)>)
    ensures |r| == |s|
    ensures forall i :: 0 <= i < |s| ==> r[i] == (i, s[i])
  {
    EnumerateFrom(s, 0)
  }

  /** Dropping the index again gives back the input. */
  lemma EnumerateThenDropIndex<T>(s: seq<T>)
    ensures Map(Enumerate(s), (t: (int, T)) => t.1) == s
  {
  }

  /** `enumerate` is zipping with the indices 0, 1, 2, ... */
  lemma EnumerateIsZipWithIndices<T>(s: seq<T>)
    ensures Enumerate(s) == Zip(seq(|s|, i => i), s)
  {
  }

  // ---------------------------------------------------------------- take

  /** `islice(it, n)` for a valid count: pulls and yields elements one at a
      time until `n` have been yielded or the input ends. */
  function Islice<T>(s: seq<T>, n: nat): (r: seq<T>)
    ensures |r| == Min(n, |s|)
    ensures r == s[..|r|]
  {
    if n == 0 || s == [] then [] else [s[0]] + Islice(s[1..], n - 1)
  }

  /** `take(n)`: a ValueError for a negative count, raised when `take` is
      called; otherwise the prefix of length min(n, |s|) (counts beyond
      MaxSize are clipped to it). */
  function Take<T>(s: seq<T>, n: int): (r: Result<seq<T>, Error>)
    ensures r.Err? <==> n < 0
    ensures r.Err? ==> r.error == NegativeStop
    ensures r.Ok? ==> |r.value| == Min(Min(n, MaxSize), |s|) && r.value == s[..|r.value|]
  {
    if n < 0 then Err(NegativeStop) else Ok(Islice(s, Min(n, MaxSize)))
  }

  /** Taking twice takes the smaller count. */
  lemma IsliceIslice<T>(s: seq<T>, n: nat, m: nat)
    ensures Islice(Islice(s, n), m) == Islice(s, Min(n, m))
  {
  }

  // ---------------------------------------------------------------- take_while

  /** `takewhile(fn, it)`: the longest prefix whose elements all satisfy `p`. */
  function TakeWhile<T>(s: seq<T>, p: T -> bool): (r: seq<T>)
    ensures |r| <= |s| && r == s[..|r|]
    ensures forall i :: 0 <= i < |r| ==> p(r[i])
    ensures |r| < |s| ==> !p(s[|r|])
  {
    if s == [] || !p(s[0]) then [] else [s[0]] + TakeWhile(s[1..], p)
  }

  /** Nothing after the first failing element matters: once an element fails,
      whatever the source holds beyond it (even unboundedly many elements)
      leaves the output unchanged. */
  lemma {:induction false} TakeWhileStops<T>(a: seq<T>, b: seq<T>, k: nat, p: T -> bool)
    requires k < |a| && !p(a[k])
    ensures TakeWhile(a + b, p) == TakeWhile(a, p)
    decreases |a|
  {
    assert (a + b)[0] == a[0];
    if k > 0 && p(a[0]) {
      assert (a + b)[1..] == a[1..] + b;
      TakeWhileStops(a[1..], b, k - 1, p);
    }
  }

  // ---------------------------------------------------------------- zip

  /** `zip(it, other)`: positional pairs until the shorter side ends. */
  function Zip<T, U>(s: seq<T>, o: seq<U>): (r: seq<(T, U)>)
    ensures |r| == Min(|s|, |o|)
    ensures forall i :: 0 <= i < |r| ==> r[i] == (s[i], o[i])
  {
    if s == [] || o == [] then [] else [(s[0], o[0])] + Zip(s[1..], o[1..])
  }

  /** Unzipping gives back both sides, cut to the shorter length. */
  lemma ZipUnzip<T, U>(s: seq<T>, o: seq<U>)
    ensures Map(Zip(s, o), (t: (T, U)) => t.0) == s[..Min(|s|, |o|)]
    ensures Map(Zip(s, o), (t: (T, U)) => t.1) == o[..Min(|s|, |o|)]
  {
  }

  // ---------------------------------------------------------------- zip_longest

  /** The element at position `i`, or the padding marker past the end. */
  function At<T>(s: seq<T>, i: nat): Option<T>
  {
    if i < |s| then Some(s[i]) else None
  }

  /** `zip_longest(it, other)`: positional pairs until both sides end, the
      shorter side padded with the absent marker. */
  function ZipLongest<T, U>(s: seq<T>, o: seq<U>): (r: seq<(Option<T>, Option<U>)>)
    ensures |r| == Max(|s|, |o|)
    ensures forall i :: 0 <= i < |r| ==> r[i] == (At(s, i), At(o, i))
    decreases |s| + |o|
  {
    if s == [] && o == [] then []
    else
      var rest := ZipLongest(if s == [] then s else s[1..], if o == [] then o else o[1..]);
      assert forall i :: 0 <= i < |rest| ==> At(s, i + 1) == rest[i].0 && At(o, i + 1) == rest[i].1;
      [(At(s, 0), At(o, 0))] + rest
  }

  /** `zip_longest` agrees with `zip` on the common length and pads exactly
      one side after it. */
  lemma ZipLongestExtendsZip<T, U>(s: seq<T>, o: seq<U>)
    ensures forall i :: 0 <= i < Min(|s|, |o|) ==>
      ZipLongest(s, o)[i] == (Some(Zip(s, o)[i].0), Some(Zip(s, o)[i].1))
    ensures forall i :: Min(|s|, |o|) <= i < Max(|s|, |o|) ==>
      (ZipLongest(s, o)[i].0.None? <==> |s| < |o|) &&
      (ZipLongest(s, o)[i].1.None? <==> |o| < |s|)
  {
  }
}
