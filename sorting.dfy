/** Sorting by a two-part key (a rank that separates sticky from non-sticky
    entries, then the name). Both comparators of the assembly tool are of
    this shape; only the rank given to sticky entries differs. */
module Sorting {
  import opened Text

  datatype SortKey = SortKey(rank: nat, name: string)

  /** Lexicographic order on keys: rank first, then Go's string order. */
  predicate KeyLess(a: SortKey, b: SortKey)
  {
    a.rank < b.rank || (a.rank == b.rank && StrLess(a.name, b.name))
  }

  lemma KeyLessIrreflexive(a: SortKey)
    ensures !KeyLess(a, a)
  {
    StrLessIrreflexive(a.name);
  }

  lemma KeyLessAsymmetric(a: SortKey, b: SortKey)
    ensures !(KeyLess(a, b) && KeyLess(b, a))
  {
    StrLessAsymmetric(a.name, b.name);
  }

  lemma KeyLessTotal(a: SortKey, b: SortKey)
    ensures a == b || KeyLess(a, b) || KeyLess(b, a)
  {
    StrLessTotal(a.name, b.name);
  }

  /** "Not less than" is transitive, which is what insertion relies on. */
  lemma NotLessTransitive(a: SortKey, b: SortKey, c: SortKey)
    requires !KeyLess(b, a) && !KeyLess(c, b)
    ensures !KeyLess(c, a)
  {
    KeyLessTotal(a, b);
    KeyLessTotal(b, c);
    if KeyLess(c, a) {
      if a != b && b != c {
        if a.rank == b.rank && b.rank == c.rank && c.rank == a.rank {
          StrLessTransitive(a.name, b.name, c.name);
          StrLessTransitive(c.name, a.name, b.name);
          StrLessAsymmetric(b.name, c.name);
        }
      } else if a == b {
        KeyLessAsymmetric(c, a);
      } else {
        KeyLessAsymmetric(c, a);
      }
    }
  }

  /** No element is strictly less than an element before it. */
  ghost predicate Ordered<T>(s: seq<T>, key: T -> SortKey)
  {
    forall i, j :: 0 <= i < j < |s| ==> !KeyLess(key(s[j]), key(s[i]))
  }

  /** Insertion of `x` into `r`, moving it left past every element it is
      strictly less than (one pass of Go's insertionSort). */
  function Insert<T>(r: seq<T>, x: T, key: T -> SortKey): (t: seq<T>)
    ensures multiset(t) == multiset(r) + multiset{x}
    ensures Ordered(r, key) ==> Ordered(t, key)
    decreases |r|
  {
    if |r| == 0 || !KeyLess(key(x), key(r[|r| - 1])) then
      var t := r + [x];
      assert Ordered(r, key) ==> Ordered(t, key) by {
        if Ordered(r, key) && |r| > 0 {
          forall i, j | 0 <= i < j < |t| ensures !KeyLess(key(t[j]), key(t[i])) {
            if j == |r| && i < |r| - 1 {
              NotLessTransitive(key(r[i]), key(r[|r| - 1]), key(x));
            }
          }
        }
      }
      t
    else
      var last := r[|r| - 1];
      var init := r[..|r| - 1];
      assert r == init + [last];
      var u := Insert(init, x, key);
      var t := u + [last];
      assert Ordered(r, key) ==> Ordered(t, key) by {
        if Ordered(r, key) {
          forall i | 0 <= i < |u| ensures !KeyLess(key(last), key(u[i])) {
            assert u[i] in multiset(u);
            if u[i] == x {
              KeyLessAsymmetric(key(x), key(last));
            } else {
              assert u[i] in multiset(init);
              var k :| 0 <= k < |init| && init[k] == u[i];
              assert r[k] == u[i];
            }
          }
        }
      }
      t
  }

  /** Sorting by repeated insertion, the algorithm Go's `sort.Sort` runs on
      short slices: the result is an ordered permutation of the input. */
  function SortBy<T>(s: seq<T>, key: T -> SortKey): (r: seq<T>)
    ensures multiset(r) == multiset(s)
    ensures Ordered(r, key)
  {
    if |s| == 0 then []
    else
      var init := s[..|s| - 1];
      assert s == init + [s[|s| - 1]];
      Insert(SortBy(init, key), s[|s| - 1], key)
  }

  /** When no two elements share a key, there is only one ordered
      arrangement of them: any ordered permutation is the same sequence. */
  lemma {:induction false} OrderedPermutationUnique<T>(a: seq<T>, b: seq<T>, key: T -> SortKey)
    requires multiset(a) == multiset(b)
    requires Ordered(a, key) && Ordered(b, key)
    requires forall i, j :: 0 <= i < j < |a| ==> key(a[i]) != key(a[j])
    ensures a == b
    decreases |a|
  {
    assert |a| == |multiset(a)| == |b|;
    if |a| > 0 {
      OrderedHeadsAgree(a, b, key);
      DropHead(a, b);
      assert Ordered(a[1..], key) && Ordered(b[1..], key);
      OrderedPermutationUnique(a[1..], b[1..], key);
      assert a == [a[0]] + a[1..] && b == [b[0]] + b[1..];
    }
  }

  /** Two ordered permutations with distinct keys start with the same
      element. */
  lemma OrderedHeadsAgree<T>(a: seq<T>, b: seq<T>, key: T -> SortKey)
    requires |a| > 0 && |b| > 0 && multiset(a) == multiset(b)
    requires Ordered(a, key) && Ordered(b, key)
    requires forall i, j :: 0 <= i < j < |a| ==> key(a[i]) != key(a[j])
    ensures a[0] == b[0]
  {
    assert b[0] in multiset(a);
    assert a[0] in multiset(b);
    var i :| 0 <= i < |a| && a[i] == b[0];
    var j :| 0 <= j < |b| && b[j] == a[0];
    if i != 0 {
      assert !KeyLess(key(b[0]), key(a[0]));
      if j != 0 {
        assert !KeyLess(key(a[0]), key(b[0]));
      }
      KeyLessTotal(key(a[0]), key(b[0]));
      assert false;
    }
  }

  /** Removing equal heads keeps two sequences permutations of each other. */
  lemma DropHead<T>(a: seq<T>, b: seq<T>)
    requires |a| > 0 && |b| > 0 && a[0] == b[0] && multiset(a) == multiset(b)
    ensures multiset(a[1..]) == multiset(b[1..])
  {
    assert a == [a[0]] + a[1..] && b == [b[0]] + b[1..];
    assert multiset(a[1..]) == multiset(a) - multiset{a[0]};
    assert multiset(b[1..]) == multiset(b) - multiset{b[0]};
  }
}
