/** The wrapper itself: a single-pass cursor. `rest` stands for the elements
    the wrapped generator has not produced yet. */
module Chain {
  import opened Wrappers
  import Transforms
  import Terminals

  class ChainIter<T> {
    /** The elements the cursor will still produce, in order. */
    var rest: seq<T>
    /** Everything the cursor was built over; `rest` is always a suffix of it. */
    ghost var source: seq<T>

    /** The cursor only moves forward: what has been produced is the prefix of
        `source` that `rest` no longer holds, and it can never come back. */
    ghost predicate Valid()
      reads this
    {
      |rest| <= |source| && rest == source[|source| - |rest|..]
    }

    /** Wrapping a source consumes nothing of it. */
    constructor (s: seq<T>)
      ensures Valid() && source == s && rest == s
    {
      rest := s;
      source := s;
    }

    /** `__next__`: the head of the cursor, which is removed; at the end, the
        StopIteration signal (`None`) and nothing changes. */
    method Next() returns (r: Option<T>)
      requires Valid()
      modifies this
      ensures Valid() && source == old(source)
      ensures old(rest) == [] ==> r == None && rest == []
      ensures old(rest) != [] ==> r == Some(old(rest)[0]) && rest == old(rest)[1..]
    {
      if rest == [] {
        r := None;
      } else {
        r := Some(rest[0]);
        rest := rest[1..];
      }
    }

    // ------------------------------------------------------------ terminal operations

    /** `collect`: every remaining element, in yield order; the cursor ends empty. */
    method Collect() returns (r: seq<T>)
      requires Valid()
      modifies this
      ensures Valid() && source == old(source)
      ensures r == old(rest) && rest == []
    {
      r := rest;
      rest := [];
    }

    /** `collect_list`: the same elements as `collect`, as a list. */
    method CollectList() returns (r: seq<T>)
      requires Valid()
      modifies this
      ensures Valid() && source == old(source)
      ensures r == old(rest) && rest == []
    {
      r := Collect();
    }

    /** `find`: the first remaining element satisfying `p`, with the cursor
        left just after it; `None` and an empty cursor when nothing matches. */
    method Find(p: T -> bool) returns (r: Option<T>)
      requires Valid()
      modifies this
      ensures Valid() && source == old(source)
      ensures var k := Terminals.FirstMatch(old(rest), p);
        if k < |old(rest)| then r == Some(old(rest)[k]) && rest == old(rest)[k + 1..]
        else r == None && rest == []
    {
      ghost var k := 0;
      while rest != []
        invariant Valid() && source == old(source)
        invariant k <= |old(rest)| && rest == old(rest)[k..]
        invariant forall j :: 0 <= j < k ==> !p(old(rest)[j])
        decreases |rest|
      {
        var elem := rest[0];
        rest := rest[1..];
        if p(elem) {
          return Some(elem);
        }
        k := k + 1;
      }
      return None;
    }

    /** `fold`: the left fold of the remaining elements from `init`; the cursor
        ends empty. */
    method Fold<A>(f: (A, T) -> A, init: A) returns (r: A)
      requires Valid()
      modifies this
      ensures Valid() && source == old(source)
      ensures r == Terminals.FoldLeft(f, init, old(rest)) && rest == []
    {
      r := Terminals.FoldLeft(f, init, rest);
      rest := [];
    }

    /** `reduce`: a fold seeded with the first element; an error when there is
        no element at all. The cursor ends empty either way. */
    method Reduce(f: (T, T) -> T) returns (r: Result<T, Error>)
      requires Valid()
      modifies this
      ensures Valid() && source == old(source)
      ensures old(rest) == [] ==> r == Err(EmptyReduce)
      ensures old(rest) != [] ==> r == Ok(Terminals.FoldLeft(f, old(rest)[0], old(rest)[1..]))
      ensures rest == []
    {
      if rest == [] {
        r := Err(EmptyReduce);
      } else {
        r := Ok(Terminals.FoldLeft(f, rest[0], rest[1..]));
        rest := [];
      }
    }

    /** `nth`: the element at position `n` of the remaining ones, with the
        cursor left just after it. A negative `n` consumes nothing; an `n`
        past the end drains the cursor. Both give `None`. */
    method Nth(n: int) returns (r: Option<T>)
      requires Valid()
      modifies this
      ensures Valid() && source == old(source)
      ensures n < 0 ==> r == None && rest == old(rest)
      ensures 0 <= n < |old(rest)| ==> r == Some(old(rest)[n]) && rest == old(rest)[n + 1..]
      ensures |old(rest)| <= n ==> r == None && rest == []
    {
      if n < 0 {
        return None;
      }
      var idx := 0;
      while rest != []
        invariant Valid() && source == old(source)
        invariant idx <= n && idx <= |old(rest)| && rest == old(rest)[idx..]
        decreases |rest|
      {
        var elem := rest[0];
        rest := rest[1..];
        if idx == n {
          return Some(elem);
        }
        idx := idx + 1;
      }
      return None;
    }

    // ------------------------------------------------------------ chainable operations
    // Each returns a new wrapper over what the pipeline will yield; the old
    // wrapper is handed over and is not used again.

    method Enumerate() returns (r: ChainIter<(int, T)>)
      ensures fresh(r) && r.Valid() && r.rest == Transforms.Enumerate(rest)
    {
      r := new ChainIter(Transforms.Enumerate(rest));
    }

    method Filter(p: T -> bool) returns (r: ChainIter<T>)
      ensures fresh(r) && r.Valid() && r.rest == Transforms.Filter(rest, p)
    {
      r := new ChainIter(Transforms.Filter(rest, p));
    }

    method FilterMap<U>(f: T -> Option<U>) returns (r: ChainIter<U>)
      ensures fresh(r) && r.Valid() && r.rest == Transforms.FilterMap(rest, f)
    {
      r := new ChainIter(Transforms.FilterMap(rest, f));
    }

    method FlatMap<U>(f: T -> seq<U>) returns (r: ChainIter<U>)
      ensures fresh(r) && r.Valid() && r.rest == Transforms.FlatMap(rest, f)
    {
      r := new ChainIter(Transforms.FlatMap(rest, f));
    }

    method Map<U>(f: T -> U) returns (r: ChainIter<U>)
      ensures fresh(r) && r.Valid() && r.rest == Transforms.Map(rest, f)
    {
      r := new ChainIter(Transforms.Map(rest, f));
    }

    /** A negative count is rejected when `take` is called, before any pull. */
    method Take(n: int) returns (r: Result<ChainIter<T>, Error>)
      ensures n < 0 ==> r == Err(NegativeStop)
      ensures 0 <= n ==> r.Ok? && fresh(r.value) && r.value.Valid()
      ensures r.Ok? ==> Transforms.Take(rest, n) == Ok(r.value.rest)
    {
      match Transforms.Take(rest, n)
      case Err(e) => r := Err(e);
      case Ok(prefix) =>
        var it := new ChainIter(prefix);
        r := Ok(it);
    }

    method TakeWhile(p: T -> bool) returns (r: ChainIter<T>)
      ensures fresh(r) && r.Valid() && r.rest == Transforms.TakeWhile(rest, p)
    {
      r := new ChainIter(Transforms.TakeWhile(rest, p));
    }

    /** `other` is any iterable, given by the elements it will produce; it may
        be another wrapper's `rest`. */
    method Zip<U>(other: seq<U>) returns (r: ChainIter<(T, U)>)
      ensures fresh(r) && r.Valid() && r.rest == Transforms.Zip(rest, other)
    {
      r := new ChainIter(Transforms.Zip(rest, other));
    }

    method ZipLongest<U>(other: seq<U>) returns (r: ChainIter<(Option<T>, Option<U>)>)
      ensures fresh(r) && r.Valid() && r.rest == Transforms.ZipLongest(rest, other)
    {
      r := new ChainIter(Transforms.ZipLongest(rest, other));
    }
  }

  /** `collect_set`: exactly the distinct remaining elements; the cursor ends
      empty. Elements must be comparable, as Python requires them hashable. */
  method CollectSet<T(==)>(it: ChainIter<T>) returns (r: set<T>)
    requires it.Valid()
    modifies it
    ensures it.Valid() && it.source == old(it.source)
    ensures forall x :: x in r <==> x in old(it.rest)
    ensures it.rest == []
  {
    r := set x | x in it.rest;
    it.rest := [];
  }

  /** `collect_frozenset`: the same set as `collect_set`, immutable. */
  method CollectFrozenset<T(==)>(it: ChainIter<T>) returns (r: set<T>)
    requires it.Valid()
    modifies it
    ensures it.Valid() && it.source == old(it.source)
    ensures forall x :: x in r <==> x in old(it.rest)
    ensures it.rest == []
  {
    r := CollectSet(it);
  }
}
