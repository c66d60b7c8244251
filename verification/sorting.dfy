/**
 Stable sorting, as sort.SliceStable does it: the only sorted arrangement that leaves elements the order
 does not tell apart as they were.
 */
module Sorting {

  /** An order that tells elements apart by rank: what a `less` for sorting has to be. */
  ghost predicate WeakOrder<T(!new)>(less: (T, T) -> bool) {
    && (forall x, y {:trigger OneWay(less, x, y)} :: OneWay(less, x, y))
    && (forall x, y, z {:trigger Steps(less, x, y, z)} :: Steps(less, x, y, z))
  }

  predicate OneWay<T>(less: (T, T) -> bool, x: T, y: T) {
    less(x, y) ==> !less(y, x)
  }

  predicate Steps<T>(less: (T, T) -> bool, x: T, y: T, z: T) {
    !less(x, y) && !less(y, z) ==> !less(x, z)
  }

  ghost predicate Sorted<T>(less: (T, T) -> bool, s: seq<T>) {
    forall i, j :: 0 <= i < j < |s| ==> !less(s[j], s[i])
  }

  /** x goes before everything that does not have to come before it. */
  function Insert<T>(less: (T, T) -> bool, x: T, s: seq<T>): (r: seq<T>)
    ensures |r| == |s| + 1
  {
    if s == [] then [x]
    else if less(s[0], x) then [s[0]] + Insert(less, x, s[1..])
    else [x] + s
  }

  function StableSort<T>(less: (T, T) -> bool, s: seq<T>): (r: seq<T>)
    ensures |r| == |s|
  {
    if s == [] then [] else Insert(less, s[0], StableSort(less, s[1..]))
  }

  /** Two sorted runs into one; on a tie the first run goes first. */
  function Merge<T>(less: (T, T) -> bool, a: seq<T>, b: seq<T>): seq<T>
    decreases |a| + |b|
  {
    if a == [] then b
    else if b == [] then a
    else if less(b[0], a[0]) then [b[0]] + Merge(less, a, b[1..])
    else [a[0]] + Merge(less, a[1..], b)
  }

  function Min(a: nat, b: nat): nat { if a < b then a else b }

  /** At most the first k elements. */
  function First<T>(k: nat, s: seq<T>): (r: seq<T>)
    ensures |r| <= |s|
  {
    s[..Min(k, |s|)]
  }

  /** At most the last k elements. */
  function Last<T>(k: nat, s: seq<T>): seq<T> {
    s[|s| - Min(k, |s|)..]
  }

  function Filter<T>(keep: T -> bool, s: seq<T>): (r: seq<T>)
    ensures |r| <= |s|
  {
    if s == [] then []
    else if keep(s[0]) then [s[0]] + Filter(keep, s[1..])
    else Filter(keep, s[1..])
  }

  // ----- It sorts, stably -----

  lemma {:induction false} InsertAdds<T>(less: (T, T) -> bool, x: T, s: seq<T>)
    ensures multiset(Insert(less, x, s)) == multiset{x} + multiset(s)
  {
    if s != [] && less(s[0], x) {
      InsertAdds(less, x, s[1..]);
      assert s == [s[0]] + s[1..];
    }
  }

  lemma {:induction false} SortPermutes<T>(less: (T, T) -> bool, s: seq<T>)
    ensures multiset(StableSort(less, s)) == multiset(s)
  {
    if s != [] {
      SortPermutes(less, s[1..]);
      InsertAdds(less, s[0], StableSort(less, s[1..]));
      assert s == [s[0]] + s[1..];
    }
  }

  lemma {:induction false} SortedCons<T(!new)>(less: (T, T) -> bool, x: T, s: seq<T>)
    requires WeakOrder(less) && Sorted(less, s) && (s != [] ==> !less(s[0], x))
    ensures Sorted(less, [x] + s)
  {
    forall i | 0 <= i < |s|
      ensures !less(s[i], x)
    {
      assert i > 0 ==> !less(s[i], s[0]);
      assert Steps(less, s[i], s[0], x);
    }
  }

  lemma {:induction false} SortedTail<T>(less: (T, T) -> bool, s: seq<T>)
    requires Sorted(less, s) && s != []
    ensures Sorted(less, s[1..])
  {
  }

  lemma {:induction false} InsertSorts<T(!new)>(less: (T, T) -> bool, x: T, s: seq<T>)
    requires WeakOrder(less) && Sorted(less, s)
    ensures Sorted(less, Insert(less, x, s))
    ensures Insert(less, x, s)[0] == x || (s != [] && Insert(less, x, s)[0] == s[0])
  {
    if s != [] && less(s[0], x) {
      SortedTail(less, s);
      InsertSorts(less, x, s[1..]);
      assert OneWay(less, s[0], x);
      SortedCons(less, s[0], Insert(less, x, s[1..]));
    } else {
      SortedCons(less, x, s);
    }
  }

  lemma {:induction false} SortIsSorted<T(!new)>(less: (T, T) -> bool, s: seq<T>)
    requires WeakOrder(less)
    ensures Sorted(less, StableSort(less, s))
  {
    if s != [] {
      SortIsSorted(less, s[1..]);
      InsertSorts(less, s[0], StableSort(less, s[1..]));
    }
  }

  lemma {:induction false} SortOfSorted<T(!new)>(less: (T, T) -> bool, s: seq<T>)
    requires Sorted(less, s)
    ensures StableSort(less, s) == s
  {
    if s != [] {
      SortedTail(less, s);
      SortOfSorted(less, s[1..]);
      assert s == [s[0]] + s[1..];
      assert s[1..] != [] ==> !less(s[1], s[0]);
    }
  }

  /** Whatever part of the elements one looks at, sorting the whole sorts the part. */
  lemma {:induction false} FilterInsert<T(!new)>(less: (T, T) -> bool, keep: T -> bool, x: T, s: seq<T>)
    requires WeakOrder(less) && Sorted(less, s)
    ensures Filter(keep, Insert(less, x, s)) ==
            if keep(x) then Insert(less, x, Filter(keep, s)) else Filter(keep, s)
  {
    if s != [] && less(s[0], x) {
      SortedTail(less, s);
      FilterInsert(less, keep, x, s[1..]);
      FilterCons(keep, s[0], Insert(less, x, s[1..]));
    } else {
      FilterCons(keep, x, s);
      FilterHead(less, keep, s, x);
    }
  }

  lemma {:induction false} FilterSnoc<T>(keep: T -> bool, s: seq<T>, x: T)
    ensures Filter(keep, s + [x]) == if keep(x) then Filter(keep, s) + [x] else Filter(keep, s)
  {
    if s == [] {
      assert s + [x] == [x];
    } else {
      FilterSnoc(keep, s[1..], x);
      assert (s + [x])[1..] == s[1..] + [x];
    }
  }

  lemma {:induction false} FilterCons<T>(keep: T -> bool, x: T, s: seq<T>)
    ensures Filter(keep, [x] + s) == if keep(x) then [x] + Filter(keep, s) else Filter(keep, s)
  {
    assert ([x] + s)[1..] == s;
  }

  lemma {:induction false} FilterHead<T(!new)>(less: (T, T) -> bool, keep: T -> bool, s: seq<T>, x: T)
    requires WeakOrder(less) && Sorted(less, s) && (s != [] ==> !less(s[0], x))
    ensures Filter(keep, s) != [] ==> !less(Filter(keep, s)[0], x)
  {
    if s != [] && !keep(s[0]) {
      SortedTail(less, s);
      if s[1..] != [] {
        assert !less(s[1], s[0]) && Steps(less, s[1], s[0], x);
      }
      FilterHead(less, keep, s[1..], x);
    }
  }

  lemma {:induction false} SortCons<T>(less: (T, T) -> bool, x: T, s: seq<T>)
    ensures StableSort(less, [x] + s) == Insert(less, x, StableSort(less, s))
  {
    assert ([x] + s)[1..] == s;
  }

  lemma {:induction false} FilterSort<T(!new)>(less: (T, T) -> bool, keep: T -> bool, s: seq<T>)
    requires WeakOrder(less)
    ensures Filter(keep, StableSort(less, s)) == StableSort(less, Filter(keep, s))
  {
    if s != [] {
      FilterSort(less, keep, s[1..]);
      SortIsSorted(less, s[1..]);
      FilterInsert(less, keep, s[0], StableSort(less, s[1..]));
      SortCons(less, s[0], Filter(keep, s[1..]));
    }
  }

  /** Elements the order does not tell from each other keep the order they came in. */
  lemma {:induction false} SortKeepsTied<T(!new)>(less: (T, T) -> bool, tied: T -> bool, s: seq<T>)
    requires WeakOrder(less) && forall x, y :: tied(x) && tied(y) ==> !less(x, y)
    ensures Filter(tied, StableSort(less, s)) == Filter(tied, s)
  {
    var some := Filter(tied, s);
    FilterSort(less, tied, s);
    FilterKeeps(tied, s);
    assert forall i :: 0 <= i < |some| ==> some[i] in some && tied(some[i]);
    SortOfSorted(less, some);
  }

  /** As are those it does not tell from x. */
  lemma {:induction false} SortIsStable<T(!new)>(less: (T, T) -> bool, s: seq<T>, x: T)
    requires WeakOrder(less)
    ensures var tied := y => !less(x, y) && !less(y, x); Filter(tied, StableSort(less, s)) == Filter(tied, s)
  {
    var tied := y => !less(x, y) && !less(y, x);
    FilterSort(less, tied, s);
    FilterKeeps(tied, s);
    forall i, j | 0 <= i < j < |Filter(tied, s)|
      ensures !less(Filter(tied, s)[j], Filter(tied, s)[i])
    {
      var a, b := Filter(tied, s)[i], Filter(tied, s)[j];
      assert a in Filter(tied, s) && b in Filter(tied, s);
      assert !less(b, x) && !less(x, a) && Steps(less, b, x, a);
    }
    SortOfSorted(less, Filter(tied, s));
  }

  lemma {:induction false} FilterKeeps<T>(keep: T -> bool, s: seq<T>)
    ensures forall x :: x in Filter(keep, s) ==> x in s && keep(x)
  {
    if s != [] {
      FilterKeeps(keep, s[1..]);
    }
  }

  // ----- Merging -----

  /** Sorting a concatenation is merging the sorted parts. */
  lemma {:induction false} SortConcat<T(!new)>(less: (T, T) -> bool, a: seq<T>, b: seq<T>)
    requires WeakOrder(less)
    ensures StableSort(less, a + b) == Merge(less, StableSort(less, a), StableSort(less, b))
  {
    if a == [] {
      assert a + b == b;
    } else {
      SortConcat(less, a[1..], b);
      assert (a + b)[1..] == a[1..] + b;
      SortIsSorted(less, a[1..]);
      SortIsSorted(less, b);
      InsertMerge(less, a[0], StableSort(less, a[1..]), StableSort(less, b));
    }
  }

  lemma {:induction false} InsertMerge<T(!new)>(less: (T, T) -> bool, x: T, a: seq<T>, b: seq<T>)
    requires WeakOrder(less) && Sorted(less, a) && Sorted(less, b)
    ensures Insert(less, x, Merge(less, a, b)) == Merge(less, Insert(less, x, a), b)
    decreases |a| + |b|
  {
    if a == [] {
      InsertIntoSecond(less, x, b);
    } else if b == [] {
    } else if less(b[0], a[0]) {
      SortedTail(less, b);
      InsertMerge(less, x, a, b[1..]);
      assert Merge(less, a, b)[1..] == Merge(less, a, b[1..]);
      if less(b[0], x) {
        InsertSorts(less, x, a);
      } else {
        assert OneWay(less, b[0], a[0]) && Steps(less, a[0], b[0], x);
        assert Insert(less, x, a) == [x] + a && ([x] + a)[1..] == a;
      }
    } else {
      SortedTail(less, a);
      InsertMerge(less, x, a[1..], b);
      assert Merge(less, a, b)[1..] == Merge(less, a[1..], b);
      if less(a[0], x) {
        assert Insert(less, x, a)[1..] == Insert(less, x, a[1..]);
      } else {
        assert Steps(less, b[0], a[0], x);
        assert ([x] + a)[1..] == a;
      }
    }
  }

  lemma {:induction false} InsertIntoSecond<T(!new)>(less: (T, T) -> bool, x: T, b: seq<T>)
    requires WeakOrder(less) && Sorted(less, b)
    ensures Insert(less, x, b) == Merge(less, [x], b)
  {
    if b != [] && less(b[0], x) {
      SortedTail(less, b);
      InsertIntoSecond(less, x, b[1..]);
    } else {
      assert [x][1..] == [];
    }
  }

  /** The first k of a merge come from the first k of each run. */
  lemma {:induction false} FirstOfMerge<T>(less: (T, T) -> bool, k: nat, a: seq<T>, b: seq<T>)
    ensures First(k, Merge(less, a, b)) == First(k, Merge(less, First(k, a), First(k, b)))
    decreases |a| + |b|, 1
  {
    if k == 0 {
    } else if a == [] || b == [] {
      MergeWithNothing(less, k, a, b);
    } else if less(b[0], a[0]) {
      FirstTakesSecond(less, k, a, b);
    } else {
      FirstTakesFirst(less, k, a, b);
    }
  }

  lemma {:induction false} FirstTakesSecond<T>(less: (T, T) -> bool, k: nat, a: seq<T>, b: seq<T>)
    requires k > 0 && a != [] && b != [] && less(b[0], a[0])
    ensures First(k, Merge(less, a, b)) == First(k, Merge(less, First(k, a), First(k, b)))
    decreases |a| + |b|, 0
  {
    FirstOfMerge(less, k - 1, a, b[1..]);
    FirstOfMerge(less, k - 1, First(k, a), First(k - 1, b[1..]));
    MergeTakesSecond(less, k, a, b);
  }

  lemma {:induction false} FirstTakesFirst<T>(less: (T, T) -> bool, k: nat, a: seq<T>, b: seq<T>)
    requires k > 0 && a != [] && b != [] && !less(b[0], a[0])
    ensures First(k, Merge(less, a, b)) == First(k, Merge(less, First(k, a), First(k, b)))
    decreases |a| + |b|, 0
  {
    FirstOfMerge(less, k - 1, a[1..], b);
    FirstOfMerge(less, k - 1, First(k - 1, a[1..]), First(k, b));
    MergeTakesFirst(less, k, a, b);
  }

  lemma {:induction false} MergeWithNothing<T>(less: (T, T) -> bool, k: nat, a: seq<T>, b: seq<T>)
    requires a == [] || b == []
    ensures First(k, Merge(less, a, b)) == First(k, Merge(less, First(k, a), First(k, b)))
  {
    FirstOfFirst(k, a);
    FirstOfFirst(k, b);
    if a == [] {
      assert First(k, a) == [];
    } else {
      assert First(k, b) == [];
    }
  }

  lemma {:induction false} MergeTakesSecond<T>(less: (T, T) -> bool, k: nat, a: seq<T>, b: seq<T>)
    requires k > 0 && a != [] && b != [] && less(b[0], a[0])
    requires First(k - 1, Merge(less, a, b[1..])) == First(k - 1, Merge(less, First(k - 1, a), First(k - 1, b[1..])))
    requires First(k - 1, Merge(less, First(k, a), First(k - 1, b[1..])))
             == First(k - 1, Merge(less, First(k - 1, First(k, a)), First(k - 1, First(k - 1, b[1..]))))
    ensures First(k, Merge(less, a, b)) == First(k, Merge(less, First(k, a), First(k, b)))
  {
    FirstTail(k, a);
    FirstTail(k, b);
    FirstOfMore(k - 1, k, a);
    FirstOfFirst(k - 1, b[1..]);
    FirstCons(k, b[0], Merge(less, a, b[1..]));
    FirstCons(k, b[0], Merge(less, First(k, a), First(k - 1, b[1..])));
  }

  lemma {:induction false} MergeTakesFirst<T>(less: (T, T) -> bool, k: nat, a: seq<T>, b: seq<T>)
    requires k > 0 && a != [] && b != [] && !less(b[0], a[0])
    requires First(k - 1, Merge(less, a[1..], b)) == First(k - 1, Merge(less, First(k - 1, a[1..]), First(k - 1, b)))
    requires First(k - 1, Merge(less, First(k - 1, a[1..]), First(k, b)))
             == First(k - 1, Merge(less, First(k - 1, First(k - 1, a[1..])), First(k - 1, First(k, b))))
    ensures First(k, Merge(less, a, b)) == First(k, Merge(less, First(k, a), First(k, b)))
  {
    FirstTail(k, a);
    FirstTail(k, b);
    FirstOfMore(k - 1, k, b);
    FirstOfFirst(k - 1, a[1..]);
    FirstCons(k, a[0], Merge(less, a[1..], b));
    FirstCons(k, a[0], Merge(less, First(k - 1, a[1..]), First(k, b)));
  }

  lemma {:induction false} FirstTail<T>(k: nat, s: seq<T>)
    requires k > 0 && s != []
    ensures First(k, s) != [] && First(k, s)[0] == s[0] && First(k, s)[1..] == First(k - 1, s[1..])
  {
  }

  lemma {:induction false} FirstOfMore<T>(k: nat, n: nat, s: seq<T>)
    requires k <= n
    ensures First(k, First(n, s)) == First(k, s)
  {
  }

  lemma {:induction false} FirstOfFirst<T>(k: nat, s: seq<T>)
    ensures First(k, First(k, s)) == First(k, s)
  {
  }

  lemma {:induction false} FirstCons<T>(k: nat, x: T, s: seq<T>)
    requires k > 0
    ensures First(k, [x] + s) == [x] + First(k - 1, s)
  {
  }

  lemma {:induction false} FirstIsSorted<T>(less: (T, T) -> bool, k: nat, s: seq<T>)
    requires Sorted(less, s)
    ensures Sorted(less, First(k, s)) && Sorted(less, Last(k, s))
  {
  }

  // ----- Only one arrangement -----

  /** No two different elements of s are tied. */
  ghost predicate Distinguishes<T(!new)>(less: (T, T) -> bool, s: multiset<T>) {
    forall x, y :: x in s && y in s && !less(x, y) && !less(y, x) ==> x == y && s[x] == 1
  }

  lemma {:induction false} TiedIsSame<T(!new)>(less: (T, T) -> bool, s: multiset<T>, x: T, y: T)
    requires Distinguishes(less, s) && x in s && y in s && !less(x, y) && !less(y, x)
    ensures x == y
  {
  }

  lemma {:induction false} SubDistinguishes<T(!new)>(less: (T, T) -> bool, s: multiset<T>, t: multiset<T>)
    requires Distinguishes(less, t) && s <= t
    ensures Distinguishes(less, s)
  {
  }

  lemma {:induction false} SortedIsUnique<T(!new)>(less: (T, T) -> bool, a: seq<T>, b: seq<T>)
    requires WeakOrder(less) && Sorted(less, a) && Sorted(less, b)
    requires multiset(a) == multiset(b) && Distinguishes(less, multiset(a))
    ensures a == b
  {
    if a != [] {
      assert a[0] in multiset(b) && b != [];
      assert b[0] in multiset(a);
      HeadIsLeast(less, a, b[0]);
      HeadIsLeast(less, b, a[0]);
      TiedIsSame(less, multiset(a), a[0], b[0]);
      TailOf(a);
      TailOf(b);
      SubDistinguishes(less, multiset(a[1..]), multiset(a));
      SortedTail(less, a);
      SortedTail(less, b);
      SortedIsUnique(less, a[1..], b[1..]);
    } else {
      assert |multiset(b)| == 0;
    }
  }

  lemma {:induction false} TailOf<T>(s: seq<T>)
    requires s != []
    ensures s == [s[0]] + s[1..] && multiset(s[1..]) == multiset(s) - multiset{s[0]}
  {
    assert s == [s[0]] + s[1..];
  }

  lemma {:induction false} HeadIsLeast<T(!new)>(less: (T, T) -> bool, a: seq<T>, x: T)
    requires WeakOrder(less) && Sorted(less, a) && x in a
    ensures !less(x, a[0])
  {
    assert OneWay(less, a[0], a[0]);
  }

  /** With no ties at all, the order elements came in does not matter. */
  lemma {:induction false} SortIgnoresOrder<T(!new)>(less: (T, T) -> bool, a: seq<T>, b: seq<T>)
    requires WeakOrder(less) && multiset(a) == multiset(b) && Distinguishes(less, multiset(a))
    ensures StableSort(less, a) == StableSort(less, b)
  {
    SortIsSorted(less, a);
    SortIsSorted(less, b);
    SortPermutes(less, a);
    SortPermutes(less, b);
    SortedIsUnique(less, StableSort(less, a), StableSort(less, b));
  }

  // ----- Bounded merges of many batches -----

  function Concat<T>(batches: seq<seq<T>>): seq<T> {
    if batches == [] then [] else batches[0] + Concat(batches[1..])
  }

  /** Every batch sorted and cut to its first k. */
  function CutAll<T>(less: (T, T) -> bool, k: nat, batches: seq<seq<T>>): (r: seq<seq<T>>)
    ensures |r| == |batches|
  {
    if batches == [] then [] else [First(k, StableSort(less, batches[0]))] + CutAll(less, k, batches[1..])
  }

  /** Cutting every batch to its first k beforehand does not change the first k of the whole. */
  lemma {:induction false} CutMerges<T(!new)>(less: (T, T) -> bool, k: nat, batches: seq<seq<T>>)
    requires WeakOrder(less)
    ensures First(k, StableSort(less, Concat(CutAll(less, k, batches)))) == First(k, StableSort(less, Concat(batches)))
  {
    if batches != [] {
      var b, rest := batches[0], Concat(batches[1..]);
      var cut, cutRest := First(k, StableSort(less, b)), Concat(CutAll(less, k, batches[1..]));
      CutMerges(less, k, batches[1..]);
      assert CutAll(less, k, batches)[1..] == CutAll(less, k, batches[1..]);
      SortConcat(less, b, rest);
      SortConcat(less, cut, cutRest);
      SortIsSorted(less, b);
      FirstIsSorted(less, k, StableSort(less, b));
      SortOfSorted(less, cut);
      FirstOfMerge(less, k, StableSort(less, b), StableSort(less, rest));
      FirstOfMerge(less, k, cut, StableSort(less, cutRest));
      FirstOfFirst(k, StableSort(less, b));
    }
  }
}
