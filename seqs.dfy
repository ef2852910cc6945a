/** Order-preserving filtering of a sequence: the shape of Go's
    "append the matching elements to a fresh slice in a loop". */
module Seqs {

  /** The elements of `s` that satisfy `keep`, in their original order. */
  function Filter<T>(s: seq<T>, keep: T -> bool): (r: seq<T>)
    ensures |r| <= |s|
    ensures forall x | x in r :: x in s && keep(x)
    ensures forall x | x in s && keep(x) :: x in r
  {
    if |s| == 0 then []
    else
      var init := s[..|s| - 1];
      assert s == init + [s[|s| - 1]];
      Filter(init, keep) + (if keep(s[|s| - 1]) then [s[|s| - 1]] else [])
  }

  /** Filtering distributes over concatenation: relative order is kept. */
  lemma {:induction false} FilterAppend<T>(a: seq<T>, b: seq<T>, keep: T -> bool)
    ensures Filter(a + b, keep) == Filter(a, keep) + Filter(b, keep)
    decreases |b|
  {
    if |b| == 0 {
      assert a + b == a;
    } else {
      var init, x := b[..|b| - 1], b[|b| - 1];
      var tail := if keep(x) then [x] else [];
      FilterAppend(a, init, keep);
      assert (a + b)[..|a + b| - 1] == a + init;
      assert (a + b)[|a + b| - 1] == x;
      assert Filter(a + b, keep) == Filter(a + init, keep) + tail;
      assert Filter(b, keep) == Filter(init, keep) + tail;
    }
  }

  /** Filtering a single element keeps it exactly when it satisfies `keep`. */
  lemma FilterSingleton<T>(x: T, keep: T -> bool)
    ensures Filter([x], keep) == if keep(x) then [x] else []
  {
    assert [x][..0] == [];
  }

  /** Filtering by a predicate and by its negation splits `s` in two:
      lengths add up and, counting repetitions, every element lands on
      exactly one side. */
  lemma {:induction false} FilterPartition<T>(s: seq<T>, keep: T -> bool, drop: T -> bool)
    requires forall x :: drop(x) == !keep(x)
    ensures |Filter(s, keep)| + |Filter(s, drop)| == |s|
    ensures multiset(Filter(s, keep)) + multiset(Filter(s, drop)) == multiset(s)
  {
    if |s| > 0 {
      var init, x := s[..|s| - 1], s[|s| - 1];
      FilterPartition(init, keep, drop);
      assert drop(x) == !keep(x);
      FilterSnoc(s, keep);
      FilterSnoc(s, drop);
      PartitionStep(Filter(init, keep), Filter(init, drop), keep(x), Filter(s, keep), Filter(s, drop), s);
    }
  }

  /** One unfolding of `Filter`: the last element is kept or dropped. */
  lemma FilterSnoc<T>(s: seq<T>, keep: T -> bool)
    requires |s| > 0
    ensures Filter(s, keep) ==
      Filter(s[..|s| - 1], keep) + (if keep(s[|s| - 1]) then [s[|s| - 1]] else [])
  {
  }

  /** Adding one element to one side of a partition. */
  lemma PartitionStep<T>(k: seq<T>, d: seq<T>, b: bool, k': seq<T>, d': seq<T>, s': seq<T>)
    requires |s'| > 0
    requires |k| + |d| == |s'| - 1 && multiset(k) + multiset(d) == multiset(s'[..|s'| - 1])
    requires k' == k + (if b then [s'[|s'| - 1]] else [])
    requires d' == d + (if b then [] else [s'[|s'| - 1]])
    ensures |k'| + |d'| == |s'| && multiset(k') + multiset(d') == multiset(s')
  {
    assert s' == s'[..|s'| - 1] + [s'[|s'| - 1]];
  }

  /** Appending two elements one at a time appends both. */
  lemma AppendTwo<T>(a: seq<T>, x: T, y: T)
    ensures a + [x] + [y] == a + [x, y]
  {
  }
}
