/**
  Python's `collections.Counter` as the scripts use it: keys are remembered in
  insertion order (so `len(counts)` and iteration are well defined), every
  stored count is positive, and a missing key reads as 0.
*/
module Tally {

  datatype Counter = Counter(keys: seq<string>, count: map<string, nat>)

  /** Positions `i` and `j` of `s` hold different keys. */
  predicate Differ(s: seq<string>, i: int, j: int)
    requires 0 <= i < |s| && 0 <= j < |s|
  {
    s[i] != s[j]
  }

  /** No key occurs twice. The pairs are matched on `Differ` only, so that a
      proof considers the pairs it names rather than all of them. */
  predicate Distinct(s: seq<string>) {
    forall i, j :: 0 <= i < j < |s| ==> Differ(s, i, j)
  }

  lemma DistinctAppend(s: seq<string>, x: string)
    requires Distinct(s) && x !in s
    ensures Distinct(s + [x])
  {
    var s' := s + [x];
    forall i, j | 0 <= i < j < |s'| ensures Differ(s', i, j) {
      if j < |s| {
        assert Differ(s, i, j);
      } else {
        assert s'[i] == s[i];
      }
    }
  }

  lemma DistinctSplit(s: seq<string>)
    requires Distinct(s) && s != []
    ensures Distinct(s[1..]) && s[0] !in s[1..]
    ensures Distinct(s[..|s| - 1]) && s[|s| - 1] !in s[..|s| - 1]
  {
    var tail, init := s[1..], s[..|s| - 1];
    forall i, j | 0 <= i < j < |tail| ensures Differ(tail, i, j) {
      assert Differ(s, i + 1, j + 1);
    }
    forall i, j | 0 <= i < j < |init| ensures Differ(init, i, j) {
      assert Differ(s, i, j);
    }
    forall j | 0 <= j < |tail| ensures tail[j] != s[0] {
      assert Differ(s, 0, j + 1);
    }
    forall j | 0 <= j < |init| ensures init[j] != s[|s| - 1] {
      assert Differ(s, j, |s| - 1);
    }
  }

  predicate Valid(c: Counter) {
    && Distinct(c.keys)
    && (forall x :: x in c.keys ==> x in c.count)
    && (forall x :: x in c.count ==> x in c.keys)
    && (forall x :: x in c.count ==> c.count[x] > 0)
  }

  function Empty(): (c: Counter)
    ensures Valid(c)
  {
    Counter([], map[])
  }

  /** `counts.get(x, 0)`. */
  function Get(c: Counter, x: string): nat {
    if x in c.count then c.count[x] else 0
  }

  /** `counts[x] += 1`. */
  function Add(c: Counter, x: string): Counter {
    if x in c.count then Counter(c.keys, c.count[x := c.count[x] + 1])
    else Counter(c.keys + [x], c.count[x := 1])
  }

  /** `counts[x] += 1` keeps the counter well formed. */
  lemma AddValid(c: Counter, x: string)
    requires Valid(c)
    ensures Valid(Add(c, x))
  {
    if x !in c.count {
      DistinctAppend(c.keys, x);
    }
  }

  /** `counts[x] += 1` raises the count of `x` by one and no other. */
  lemma AddGet(c: Counter, x: string, y: string)
    ensures Get(Add(c, x), y) == Get(c, y) + (if y == x then 1 else 0)
  {
  }

  /** `counts[x] += 1` makes `x` a key and adds no other. */
  lemma AddKeys(c: Counter, x: string)
    ensures Add(c, x).count.Keys == c.count.Keys + {x}
  {
  }

  /** `Counter(xs)`: the tally of a list, filled left to right. */
  function Of(xs: seq<string>): Counter {
    if xs == [] then Empty() else Add(Of(xs[..|xs| - 1]), xs[|xs| - 1])
  }

  lemma {:induction false} OfValid(xs: seq<string>)
    ensures Valid(Of(xs))
  {
    if xs != [] {
      OfValid(xs[..|xs| - 1]);
      AddValid(Of(xs[..|xs| - 1]), xs[|xs| - 1]);
    }
  }

  /** Tallying one more element is one more `counts[x] += 1`. */
  lemma OfAppend(xs: seq<string>, x: string)
    ensures Of(xs + [x]) == Add(Of(xs), x)
  {
    assert (xs + [x])[..|xs|] == xs;
  }

  /** Each count of `Counter(xs)` is the number of occurrences in `xs`. */
  lemma {:induction false} OfCounts(xs: seq<string>, x: string)
    ensures Get(Of(xs), x) == multiset(xs)[x]
  {
    if xs != [] {
      var init := xs[..|xs| - 1];
      assert xs == init + [xs[|xs| - 1]];
      OfCounts(init, x);
      AddGet(Of(init), xs[|xs| - 1], x);
    }
  }

  /** The keys of `Counter(xs)` are the distinct elements of `xs`. */
  lemma {:induction false} OfKeys(xs: seq<string>)
    ensures Of(xs).count.Keys == set x | x in xs
  {
    if xs != [] {
      var init := xs[..|xs| - 1];
      assert xs == init + [xs[|xs| - 1]];
      OfKeys(init);
      AddKeys(Of(init), xs[|xs| - 1]);
    }
  }

  /** The sum of the counts, taken over the keys. */
  function SumOver(keys: seq<string>, count: map<string, nat>): nat
    requires forall x :: x in keys ==> x in count
  {
    if keys == [] then 0 else count[keys[0]] + SumOver(keys[1..], count)
  }

  function Total(c: Counter): nat
    requires Valid(c)
  {
    SumOver(c.keys, c.count)
  }

  lemma {:induction false} SumOverAppend(keys: seq<string>, x: string, count: map<string, nat>)
    requires forall y :: y in keys + [x] ==> y in count
    ensures SumOver(keys + [x], count) == SumOver(keys, count) + count[x]
  {
    if keys != [] {
      assert (keys + [x])[1..] == keys[1..] + [x];
      SumOverAppend(keys[1..], x, count);
    }
  }

  lemma {:induction false} SumOverUnchanged(keys: seq<string>, count: map<string, nat>, count': map<string, nat>)
    requires forall y :: y in keys ==> y in count && y in count' && count[y] == count'[y]
    ensures SumOver(keys, count) == SumOver(keys, count')
  {
    if keys != [] {
      SumOverUnchanged(keys[1..], count, count');
    }
  }

  lemma {:induction false} SumOverBump(keys: seq<string>, x: string, count: map<string, nat>)
    requires Distinct(keys) && x in keys
    requires forall y :: y in keys ==> y in count
    ensures SumOver(keys, count[x := count[x] + 1]) == SumOver(keys, count) + 1
  {
    var count' := count[x := count[x] + 1];
    DistinctSplit(keys);
    if keys[0] == x {
      SumOverUnchanged(keys[1..], count, count');
    } else {
      SumOverBump(keys[1..], x, count);
    }
  }

  /** Adding one element raises the total by one. */
  lemma AddTotal(c: Counter, x: string)
    requires Valid(c)
    ensures Valid(Add(c, x)) && Total(Add(c, x)) == Total(c) + 1
  {
    AddValid(c, x);
    if x in c.count {
      SumOverBump(c.keys, x, c.count);
    } else {
      var count' := c.count[x := 1];
      SumOverAppend(c.keys, x, count');
      SumOverUnchanged(c.keys, c.count, count');
    }
  }

  /** The counts of `Counter(xs)` sum to `len(xs)`. */
  lemma {:induction false} OfTotal(xs: seq<string>)
    ensures Valid(Of(xs)) && Total(Of(xs)) == |xs|
  {
    OfValid(xs);
    if xs != [] {
      OfTotal(xs[..|xs| - 1]);
      AddTotal(Of(xs[..|xs| - 1]), xs[|xs| - 1]);
    }
  }

  lemma {:induction false} DistinctCard(s: seq<string>)
    requires Distinct(s)
    ensures |set x | x in s| == |s|
  {
    if s != [] {
      var init := s[..|s| - 1];
      var last := s[|s| - 1];
      assert s == init + [last];
      DistinctSplit(s);
      DistinctCard(init);
      assert (set x | x in s) == (set x | x in init) + {last};
    }
  }

  /** `len(counts)` is the number of distinct keys. */
  lemma KeysCard(c: Counter)
    requires Valid(c)
    ensures |c.keys| == |c.count.Keys|
  {
    DistinctCard(c.keys);
    assert (set x | x in c.keys) == c.count.Keys;
  }
}
