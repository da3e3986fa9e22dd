/** Generic sequence operations used by several parts of the site:
    `Array.prototype.filter` and the stable `Array.prototype.sort` of V8
    (stable since 2019) with a descending numeric comparator. */
module Sequences {

  /** `s.filter(keep)`. */
  function Filter<T(==)>(keep: T -> bool, s: seq<T>): (r: seq<T>)
    ensures |r| <= |s|
    ensures forall i :: 0 <= i < |r| ==> keep(r[i]) && r[i] in s
    ensures forall i :: 0 <= i < |s| && keep(s[i]) ==> s[i] in r
  {
    if s == [] then []
    else (if keep(s[0]) then [s[0]] else []) + Filter(keep, s[1..])
  }

  /** `s.map(f)`. */
  function Map<A, B>(f: A -> B, s: seq<A>): (r: seq<B>)
    ensures |r| == |s|
    ensures forall i :: 0 <= i < |s| ==> r[i] == f(s[i])
  {
    if s == [] then [] else [f(s[0])] + Map(f, s[1..])
  }

  /** Mapping a sequence with one more element in front. */
  lemma MapCons<A, B>(f: A -> B, x: A, s: seq<A>)
    ensures Map(f, [x] + s) == [f(x)] + Map(f, s)
  {
    assert ([x] + s)[1..] == s;
  }

  /** The loop `for (const x of s) if (keep(x)) out.push(make(x))`. */
  function Collect<A, B>(keep: A -> bool, make: A -> B, s: seq<A>): (r: seq<B>)
    ensures |r| <= |s|
  {
    if s == [] then []
    else if keep(s[0]) then [make(s[0])] + Collect(keep, make, s[1..])
    else Collect(keep, make, s[1..])
  }

  /** The loop keeps exactly the elements that pass, in their order, and
      makes one output from each: a filter followed by a map. */
  lemma {:induction false} CollectIsFilterMap<A, B>(keep: A -> bool, make: A -> B, s: seq<A>)
    ensures Collect(keep, make, s) == Map(make, Filter(keep, s))
  {
    if s != [] {
      CollectIsFilterMap(keep, make, s[1..]);
      var f := Filter(keep, s[1..]);
      if keep(s[0]) {
        assert ([s[0]] + f)[1..] == f;
      } else {
        assert [] + f == f;
      }
    }
  }

  /** `a` is `b` with some elements left out, the rest in their order. */
  predicate IsSubsequence<T(==)>(a: seq<T>, b: seq<T>)
    decreases |b|
  {
    if a == [] then true
    else if b == [] then false
    else if a[0] == b[0] then IsSubsequence(a[1..], b[1..])
    else IsSubsequence(a, b[1..])
  }

  /** Filtering keeps the survivors in their original order. */
  lemma {:induction false} FilterIsSubsequence<T>(keep: T -> bool, s: seq<T>)
    ensures IsSubsequence(Filter(keep, s), s)
  {
    if s != [] {
      FilterIsSubsequence(keep, s[1..]);
      if keep(s[0]) {
        assert Filter(keep, s)[1..] == Filter(keep, s[1..]);
      } else {
        assert Filter(keep, s) == Filter(keep, s[1..]);
        SubsequenceOfTail(Filter(keep, s[1..]), s);
      }
    }
  }

  /** A subsequence of the tail of `b` is a subsequence of `b`. */
  lemma {:induction false} SubsequenceOfTail<T>(a: seq<T>, b: seq<T>)
    requires b != [] && IsSubsequence(a, b[1..])
    ensures IsSubsequence(a, b)
    decreases |a| + |b|
  {
    if a != [] && a[0] == b[0] {
      DropHead(a, b[1..]);
    }
  }

  /** Dropping the first element of a subsequence leaves a subsequence. */
  lemma {:induction false} DropHead<T>(a: seq<T>, c: seq<T>)
    requires a != [] && IsSubsequence(a, c)
    ensures IsSubsequence(a[1..], c)
    decreases |a| + |c|
  {
    if a[0] == c[0] {
      SubsequenceOfTail(a[1..], c);
    } else {
      DropHead(a, c[1..]);
      SubsequenceOfTail(a[1..], c);
    }
  }

  /** Filtering with a predicate every element meets changes nothing. */
  lemma {:induction false} FilterAll<T>(keep: T -> bool, s: seq<T>)
    requires forall i :: 0 <= i < |s| ==> keep(s[i])
    ensures Filter(keep, s) == s
  {
    if s != [] {
      FilterAll(keep, s[1..]);
    }
  }

  /** Filtering distributes over concatenation. */
  lemma {:induction false} FilterAppend<T>(keep: T -> bool, a: seq<T>, b: seq<T>)
    ensures Filter(keep, a + b) == Filter(keep, a) + Filter(keep, b)
  {
    if a != [] {
      assert (a + b)[1..] == a[1..] + b;
      FilterAppend(keep, a[1..], b);
    } else {
      assert a + b == b;
    }
  }

  /** `filter` keeps every copy of an element that passes and no copy of
      one that fails. */
  lemma {:induction false} FilterMultiset<T>(keep: T -> bool, s: seq<T>)
    ensures forall x :: multiset(Filter(keep, s))[x] == if keep(x) then multiset(s)[x] else 0
  {
    if s != [] {
      FilterMultiset(keep, s[1..]);
      assert s == [s[0]] + s[1..];
      assert multiset(s) == multiset{s[0]} + multiset(s[1..]);
    }
  }

  /** The category filter of the site's list pages:
      `selected === all ? items : items.filter(x => x.category === selected)`,
      with `inCategory(x, c)` standing for `x.category === c`. Everything
      passes the sentinel `all`; any other choice keeps exactly the items
      in that category, in their order (`SelectCategoryCounts`: every copy
      of each). */
  function SelectCategory<T(==)>(items: seq<T>, inCategory: (T, string) -> bool, all: string, selected: string): (r: seq<T>)
    ensures selected == all ==> r == items
    ensures selected != all ==> IsSubsequence(r, items)
    ensures selected != all ==> forall i :: 0 <= i < |r| ==> inCategory(r[i], selected)
    ensures selected != all ==> forall i :: 0 <= i < |items| && inCategory(items[i], selected) ==> items[i] in r
  {
    if selected == all then items
    else
      var keep := (x: T) => inCategory(x, selected);
      FilterIsSubsequence(keep, items);
      Filter(keep, items)
  }

  /** A category other than `all` shows each item of it as many times as
      the full list holds it, and nothing else. */
  lemma SelectCategoryCounts<T>(items: seq<T>, inCategory: (T, string) -> bool, all: string, selected: string)
    requires selected != all
    ensures forall x :: multiset(SelectCategory(items, inCategory, all, selected))[x]
                     == if inCategory(x, selected) then multiset(items)[x] else 0
  {
    var keep := (x: T) => inCategory(x, selected);
    FilterMultiset(keep, items);
    assert SelectCategory(items, inCategory, all, selected) == Filter(keep, items);
  }

  // ---------------------------------------------------------------------
  // Stable sort, largest key first.

  /** `s` is ordered by `key`, largest first. */
  predicate NonIncreasing<T(==)>(s: seq<T>, key: T -> int) {
    forall i, j :: 0 <= i < j < |s| ==> key(s[i]) >= key(s[j])
  }

  /** The elements of `s` whose key is `k`, in their order in `s`. */
  function WithKey<T(==)>(s: seq<T>, key: T -> int, k: int): seq<T> {
    if s == [] then []
    else (if key(s[0]) == k then [s[0]] else []) + WithKey(s[1..], key, k)
  }

  /** Inserts `x` into a sorted sequence before the first element whose key
      is not larger than its own. In the sort below `x` comes earlier in the
      input than every element of `s`, so it goes before those of equal
      key. */
  function InsertDesc<T(==)>(x: T, s: seq<T>, key: T -> int): (r: seq<T>)
    requires NonIncreasing(s, key)
    ensures NonIncreasing(r, key)
    ensures multiset(r) == multiset(s) + multiset{x}
    ensures |r| == |s| + 1
  {
    if s == [] || key(x) >= key(s[0]) then [x] + s
    else
      var t := InsertDesc(x, s[1..], key);
      assert multiset(s) == multiset{s[0]} + multiset(s[1..]) by {
        assert s == [s[0]] + s[1..];
      }
      assert forall j :: 0 <= j < |s[1..] + [x]| ==> key((s[1..] + [x])[j]) <= key(s[0]);
      BoundedByPermutation(t, s[1..] + [x], key, key(s[0]));
      ConsNonIncreasing(s[0], t, key);
      [s[0]] + t
  }

  /** An element no smaller than the rest can go in front. */
  lemma ConsNonIncreasing<T>(h: T, t: seq<T>, key: T -> int)
    requires NonIncreasing(t, key)
    requires forall j :: 0 <= j < |t| ==> key(t[j]) <= key(h)
    ensures NonIncreasing([h] + t, key)
  {
    forall i, j | 0 <= i < j < |[h] + t|
      ensures key(([h] + t)[i]) >= key(([h] + t)[j])
    {
      assert ([h] + t)[j] == t[j - 1];
      if i > 0 {
        assert ([h] + t)[i] == t[i - 1];
      }
    }
  }

  /** A bound on the keys of `b` holds for any reordering `a` of it. */
  lemma BoundedByPermutation<T>(a: seq<T>, b: seq<T>, key: T -> int, m: int)
    requires multiset(a) == multiset(b)
    requires forall j :: 0 <= j < |b| ==> key(b[j]) <= m
    ensures forall j :: 0 <= j < |a| ==> key(a[j]) <= m
  {
    forall j | 0 <= j < |a|
      ensures key(a[j]) <= m
    {
      assert a[j] in multiset(b);
      var i :| 0 <= i < |b| && b[i] == a[j];
    }
  }

  /** `s.sort((a, b) => key(b) - key(a))`: a stable sort, largest key first. */
  function SortDesc<T(==)>(s: seq<T>, key: T -> int): (r: seq<T>)
    ensures NonIncreasing(r, key)
    ensures multiset(r) == multiset(s)
    ensures |r| == |s|
  {
    if s == [] then []
    else
      assert s == [s[0]] + s[1..];
      InsertDesc(s[0], SortDesc(s[1..], key), key)
  }

  lemma {:induction false} WithKeyInsert<T>(x: T, s: seq<T>, key: T -> int, k: int)
    requires NonIncreasing(s, key)
    ensures WithKey(InsertDesc(x, s, key), key, k)
         == (if key(x) == k then [x] else []) + WithKey(s, key, k)
  {
    if s == [] || key(x) >= key(s[0]) {
      assert ([x] + s)[1..] == s;
    } else {
      var t := InsertDesc(x, s[1..], key);
      var r := InsertDesc(x, s, key);
      WithKeyInsert(x, s[1..], key, k);
      var head := if key(s[0]) == k then [s[0]] else [];
      assert r == [s[0]] + t && r[0] == s[0] && r[1..] == t;
      assert WithKey(r, key, k) == head + WithKey(t, key, k);
      assert WithKey(s, key, k) == head + WithKey(s[1..], key, k);
      if key(x) == k {
        // s[0] has a key larger than x's, so it is not among the k's.
        assert head == [];
      }
    }
  }

  /** Stability: among elements with equal keys the sort keeps input order. */
  lemma {:induction false} SortDescStable<T>(s: seq<T>, key: T -> int, k: int)
    ensures WithKey(SortDesc(s, key), key, k) == WithKey(s, key, k)
  {
    if s != [] {
      SortDescStable(s[1..], key, k);
      WithKeyInsert(s[0], SortDesc(s[1..], key), key, k);
    }
  }
}
