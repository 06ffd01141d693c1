/** The documented usage examples of the wrapper, as client code whose
    outcome is proved from the contracts of the model alone. */
module Doctests {
  import opened Wrappers
  import opened Chain
  import Transforms
  import Terminals

  /** `str.upper` on a single ASCII letter. */
  function Upper(c: char): char
  {
    if 'a' <= c <= 'z' then (c as int - 32) as char else c
  }

  method CollectRange() returns (r: seq<int>, l: seq<int>, s: set<int>)
    ensures r == [0, 1, 2] && l == [0, 1, 2] && s == {0, 1, 2}
  {
    var it := new ChainIter([0, 1, 2]);
    r := it.Collect();
    it := new ChainIter([0, 1, 2]);
    l := it.CollectList();
    it := new ChainIter([0, 1, 2]);
    s := CollectSet(it);
  }

  method EnumerateAbc() returns (r: seq<(int, char)>)
    ensures r == [(0, 'a'), (1, 'b'), (2, 'c')]
  {
    var it := new ChainIter("abc");
    var e := it.Enumerate();
    r := e.Collect();
  }

  method EvenPositions() returns (r: seq<char>)
    ensures r == "ac"
  {
    var it := new ChainIter("abcd");
    var e := it.Enumerate();
    var f := e.Filter((t: (int, char)) => t.0 % 2 == 0);
    var m := f.Map((t: (int, char)) => t.1);
    r := m.Collect();
    assert e.rest == [(0, 'a'), (1, 'b'), (2, 'c'), (3, 'd')];
    assert f.rest == [(0, 'a'), (2, 'c')];
  }

  method FilterMapLookup() returns (r: seq<string>)
    ensures r == ["one", "two", "four"]
  {
    var d := map[1 := "one", 2 := "two", 4 := "four"];
    var it := new ChainIter([0, 1, 2, 3, 4]);
    var fm := it.FilterMap((x: int) => if x in d then Some(d[x]) else None);
    r := fm.Collect();
  }

  method FindInRange() returns (found: Option<int>, missing: Option<int>)
    ensures found == Some(4) && missing == None
  {
    var it := new ChainIter([0, 1, 2, 3, 4]);
    found := it.Find(x => x > 3);
    assert Terminals.FirstMatch([0, 1, 2, 3, 4], x => x > 3) == 4;
    it := new ChainIter([0, 1, 2, 3, 4]);
    missing := it.Find(x => x < 0);
  }

  method FlatMapUpper() returns (r: string)
    ensures r == "HELLO WORLD"
  {
    var it := new ChainIter(["hello ", "world"]);
    var fm := it.FlatMap((w: string) => Transforms.Map(w, Upper));
    r := fm.Collect();
    assert Transforms.Map("world", Upper) == "WORLD";
    assert Transforms.Map("hello ", Upper) == "HELLO ";
  }

  method FoldAndReduce() returns (folded: int, reduced: Result<int, Error>, empty: Result<int, Error>)
    ensures folded == 16 && reduced == Ok(6) && empty == Err(EmptyReduce)
  {
    var it := new ChainIter([0, 1, 2, 3]);
    folded := it.Fold((x: int, y: int) => x + y, 10);
    it := new ChainIter([0, 1, 2, 3]);
    reduced := it.Reduce((x: int, y: int) => x + y);
    it := new ChainIter([]);
    empty := it.Reduce((x: int, y: int) => x + y);
  }

  method MapUpper() returns (r: string)
    ensures r == "ABC"
  {
    var it := new ChainIter("abc");
    var m := it.Map(Upper);
    r := m.Collect();
  }

  method NthOfAbc() returns (third: Option<char>, fourth: Option<char>, tenth: Option<int>)
    ensures third == Some('c') && fourth == None && tenth == None
  {
    var it := new ChainIter("abc");
    third := it.Nth(2);
    it := new ChainIter("abc");
    fourth := it.Nth(3);
    var r := new ChainIter([0, 1, 2, 3, 4]);
    tenth := r.Nth(10);
  }

  method TakeThree() returns (r: seq<int>, rejected: bool)
    ensures r == [0, 1, 2] && rejected
  {
    var it := new ChainIter([0, 1, 2, 3, 4, 5, 6, 7, 8, 9]);
    var t := it.Take(3);
    r := t.value.Collect();
    var bad := it.Take(-1);
    rejected := bad == Err(NegativeStop);
  }

  /** Powers of two below 10, from an unbounded source: whatever follows 16
      is never looked at. */
  lemma PowersOfTwoBelowTen(more: seq<int>)
    ensures Transforms.TakeWhile([1, 2, 4, 8, 16] + more, x => x < 10) == [1, 2, 4, 8]
  {
    Transforms.TakeWhileStops([1, 2, 4, 8, 16], more, 4, x => x < 10);
  }

  method ZipRanges() returns (short: seq<(int, int)>, long: seq<(Option<int>, Option<int>)>)
    ensures short == [(0, 3), (1, 2), (2, 1)]
    ensures long == [(Some(0), Some(3)), (Some(1), Some(2)), (Some(2), Some(1)), (Some(3), None), (Some(4), None)]
  {
    var it := new ChainIter([0, 1, 2, 3, 4]);
    var z := it.Zip([3, 2, 1]);
    short := z.Collect();
    it := new ChainIter([0, 1, 2, 3, 4]);
    var zl := it.ZipLongest([3, 2, 1]);
    long := zl.Collect();
  }
}
