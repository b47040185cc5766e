/**
 * The list and LINQ operations the reconciliation engine relies on, over sequences:
 * `OrderBy` / `List.Sort` as a stable insertion sort under a total preorder on keys,
 * `Distinct` in first-appearance order, and occurrence counts (`Where(..).Count()`).
 */
module Collections {

  // ---------------------------------------------------------------------------
  // Ordering
  // ---------------------------------------------------------------------------

  /** `le(a, b)` says that `a` sorts no later than `b`: the culture-sensitive string comparer
      behind `OrderBy` and `List.Sort`, kept abstract. It must be total and transitive. */
  ghost predicate TotalPreorder(le: (string, string) -> bool) {
    (forall a, b :: le(a, b) || le(b, a)) &&
    (forall a, b, c :: le(a, b) && le(b, c) ==> le(a, c))
  }

  /** Two keys the comparer ranks equal (it returns 0 for them). */
  predicate Equivalent(le: (string, string) -> bool, a: string, b: string) {
    le(a, b) && le(b, a)
  }

  /** `s` is in non-decreasing order of `key`. */
  ghost predicate SortedBy<T>(le: (string, string) -> bool, key: T -> string, s: seq<T>) {
    forall i, j :: 0 <= i < j < |s| ==> le(key(s[i]), key(s[j]))
  }

  /** The key used when sorting plain strings (`List<string>.Sort()`). */
  function Identity(s: string): string { s }

  /** Puts `x` in front of the first element of `s` it sorts no later than: `x` is taken to come
      before every element of `s` in the input, so it stays ahead of those with an equal key. */
  function Insert<T>(le: (string, string) -> bool, key: T -> string, x: T, s: seq<T>): seq<T>
  {
    if s == [] then [x]
    else if le(key(x), key(s[0])) then [x] + s
    else [s[0]] + Insert(le, key, x, s[1..])
  }

  /** `xs.OrderBy(key)`: a stable sort of `xs` by `key`. */
  function SortBy<T>(le: (string, string) -> bool, key: T -> string, xs: seq<T>): seq<T>
  {
    if xs == [] then [] else Insert(le, key, xs[0], SortBy(le, key, xs[1..]))
  }

  /** The elements of `xs` whose key the comparer ranks equal to `k`, in their order in `xs`. */
  function KeyClass<T>(le: (string, string) -> bool, key: T -> string, k: string, xs: seq<T>): seq<T>
  {
    if xs == [] then []
    else (if Equivalent(le, key(xs[0]), k) then [xs[0]] else []) + KeyClass(le, key, k, xs[1..])
  }

  lemma {:induction false} InsertPermutes<T>(le: (string, string) -> bool, key: T -> string, x: T, s: seq<T>)
    ensures multiset(Insert(le, key, x, s)) == multiset(s) + multiset{x}
  {
    if s != [] && !le(key(x), key(s[0])) {
      InsertPermutes(le, key, x, s[1..]);
      assert s == [s[0]] + s[1..];
    }
  }

  /** Sorting only reorders: the result is a permutation of the input. */
  lemma {:induction false} SortByPermutes<T>(le: (string, string) -> bool, key: T -> string, xs: seq<T>)
    ensures |SortBy(le, key, xs)| == |xs|
    ensures multiset(SortBy(le, key, xs)) == multiset(xs)
  {
    if xs != [] {
      SortByPermutes(le, key, xs[1..]);
      InsertPermutes(le, key, xs[0], SortBy(le, key, xs[1..]));
      assert xs == [xs[0]] + xs[1..];
      assert |multiset(SortBy(le, key, xs))| == |SortBy(le, key, xs)|;
    }
  }

  lemma {:induction false} InsertSorted<T>(le: (string, string) -> bool, key: T -> string, x: T, s: seq<T>)
    requires TotalPreorder(le)
    requires SortedBy(le, key, s)
    ensures SortedBy(le, key, Insert(le, key, x, s))
  {
    if s == [] {
    } else if le(key(x), key(s[0])) {
      var r := [x] + s;
      forall i, j | 0 <= i < j < |r| ensures le(key(r[i]), key(r[j])) {
        if i == 0 {
          assert le(key(s[0]), key(s[j - 1])) || j == 1;
        }
      }
    } else {
      var t := Insert(le, key, x, s[1..]);
      InsertSorted(le, key, x, s[1..]);
      InsertPermutes(le, key, x, s[1..]);
      var r := [s[0]] + t;
      forall i, j | 0 <= i < j < |r| ensures le(key(r[i]), key(r[j])) {
        if i == 0 {
          assert r[j] in multiset(t);
          assert r[j] == x || r[j] in s[1..];
        }
      }
    }
  }

  /** The result of `SortBy` is ordered by key. */
  lemma {:induction false} SortBySorted<T>(le: (string, string) -> bool, key: T -> string, xs: seq<T>)
    requires TotalPreorder(le)
    ensures SortedBy(le, key, SortBy(le, key, xs))
  {
    if xs != [] {
      SortBySorted(le, key, xs[1..]);
      InsertSorted(le, key, xs[0], SortBy(le, key, xs[1..]));
    }
  }

  lemma KeyClassCons<T>(le: (string, string) -> bool, key: T -> string, k: string, a: T, t: seq<T>)
    ensures KeyClass(le, key, k, [a] + t)
         == (if Equivalent(le, key(a), k) then [a] else []) + KeyClass(le, key, k, t)
  {
    assert ([a] + t)[1..] == t;
  }

  lemma {:induction false} InsertKeyClass<T>(le: (string, string) -> bool, key: T -> string, k: string, x: T, s: seq<T>)
    requires TotalPreorder(le)
    ensures KeyClass(le, key, k, Insert(le, key, x, s))
         == (if Equivalent(le, key(x), k) then [x] else []) + KeyClass(le, key, k, s)
  {
    if s == [] {
    } else if le(key(x), key(s[0])) {
      KeyClassCons(le, key, k, x, s);
    } else {
      var t := Insert(le, key, x, s[1..]);
      assert Insert(le, key, x, s) == [s[0]] + t;
      InsertKeyClass(le, key, k, x, s[1..]);
      KeyClassCons(le, key, k, s[0], t);
      KeyClassCons(le, key, k, s[0], s[1..]);
      assert s == [s[0]] + s[1..];
      // s[0] sorts strictly before x, so the two cannot both be in the class of k
      if Equivalent(le, key(x), k) && Equivalent(le, key(s[0]), k) {
        assert false;
      }
    }
  }

  /** Stability: within every class of equal keys, `SortBy` keeps the input order. */
  lemma {:induction false} SortByStable<T>(le: (string, string) -> bool, key: T -> string, k: string, xs: seq<T>)
    requires TotalPreorder(le)
    ensures KeyClass(le, key, k, SortBy(le, key, xs)) == KeyClass(le, key, k, xs)
  {
    if xs != [] {
      SortByStable(le, key, k, xs[1..]);
      InsertKeyClass(le, key, k, xs[0], SortBy(le, key, xs[1..]));
    }
  }

  // ---------------------------------------------------------------------------
  // Distinct and counting
  // ---------------------------------------------------------------------------

  /** Position of the first occurrence of `x` in `xs`. */
  function FirstIndex<T(==)>(xs: seq<T>, x: T): (i: nat)
    requires x in xs
    ensures i < |xs| && xs[i] == x && x !in xs[..i]
  {
    if xs[0] == x then 0 else 1 + FirstIndex(xs[1..], x)
  }

  /** `xs.Distinct()`: each value once, in order of first appearance. */
  function Distinct<T(==)>(xs: seq<T>): seq<T>
  {
    if xs == [] then []
    else
      var d := Distinct(xs[..|xs| - 1]);
      if xs[|xs| - 1] in d then d else d + [xs[|xs| - 1]]
  }

  ghost predicate NoRepeats<T>(s: seq<T>) {
    forall i, j :: 0 <= i < j < |s| ==> s[i] != s[j]
  }

  lemma {:induction false} FirstIndexAppend<T>(xs: seq<T>, y: T, x: T)
    requires x in xs
    ensures FirstIndex(xs + [y], x) == FirstIndex(xs, x)
  {
    if xs[0] != x {
      assert (xs + [y])[1..] == xs[1..] + [y];
      FirstIndexAppend(xs[1..], y, x);
    }
  }

  lemma {:induction false} FirstIndexLast<T>(xs: seq<T>, y: T)
    requires y !in xs
    ensures FirstIndex(xs + [y], y) == |xs|
  {
    if xs != [] {
      assert (xs + [y])[1..] == xs[1..] + [y];
      FirstIndexLast(xs[1..], y);
    }
  }

  /** `d` holds every value of `xs` and nothing else, each once, in order of first appearance in `xs`. */
  ghost predicate DistinctOf<T>(d: seq<T>, xs: seq<T>) {
    (forall i :: 0 <= i < |xs| ==> xs[i] in d) &&
    (forall i :: 0 <= i < |d| ==> d[i] in xs) &&
    NoRepeats(d) &&
    (forall i, j :: 0 <= i < j < |d| ==> FirstIndex(xs, d[i]) < FirstIndex(xs, d[j]))
  }

  lemma DistinctStep<T>(front: seq<T>, y: T)
    requires DistinctOf(Distinct(front), front)
    ensures DistinctOf(Distinct(front + [y]), front + [y])
  {
    var xs := front + [y];
    assert xs[..|front|] == front;
    var d := Distinct(front);
    assert y in d <==> y in front;
    forall x | x in d ensures FirstIndex(xs, x) == FirstIndex(front, x) {
      FirstIndexAppend(front, y, x);
    }
    if y in d {
      assert Distinct(xs) == d;
      forall i | 0 <= i < |xs| ensures xs[i] in d {
        if i < |front| { assert xs[i] == front[i]; }
      }
    } else {
      FirstIndexLast(front, y);
      var r := d + [y];
      assert Distinct(xs) == r;
      forall i | 0 <= i < |xs| ensures xs[i] in r {
        if i < |front| { assert xs[i] == front[i] && front[i] in d; }
      }
      forall i | 0 <= i < |r| ensures r[i] in xs {
        if i < |d| { assert r[i] == d[i] && d[i] in front; }
      }
      forall i, j | 0 <= i < j < |r| ensures r[i] != r[j] && FirstIndex(xs, r[i]) < FirstIndex(xs, r[j]) {
        if j == |d| {
          assert r[i] in d;
        } else {
          assert r[i] == d[i] && r[j] == d[j];
        }
      }
    }
  }

  /** `Distinct` keeps every value of `xs` and nothing else, each once, in first-appearance order. */
  lemma {:induction false} DistinctSpec<T>(xs: seq<T>)
    ensures DistinctOf(Distinct(xs), xs)
  {
    if xs != [] {
      var n := |xs| - 1;
      DistinctSpec(xs[..n]);
      DistinctStep(xs[..n], xs[n]);
      assert xs == xs[..n] + [xs[n]];
    }
  }

  /** Number of occurrences of `x` in `xs`. */
  function CountOf<T(==)>(xs: seq<T>, x: T): nat
  {
    if xs == [] then 0
    else CountOf(xs[..|xs| - 1], x) + (if xs[|xs| - 1] == x then 1 else 0)
  }

  /** Sum of the occurrence counts in `xs` of each value of `ds`. */
  function SumCounts<T(==)>(ds: seq<T>, xs: seq<T>): nat
  {
    if ds == [] then 0
    else SumCounts(ds[..|ds| - 1], xs) + CountOf(xs, ds[|ds| - 1])
  }

  lemma {:induction false} CountOfAbsent<T>(xs: seq<T>, x: T)
    requires x !in xs
    ensures CountOf(xs, x) == 0
  {
    if xs != [] {
      assert xs[..|xs| - 1] <= xs;
      CountOfAbsent(xs[..|xs| - 1], x);
    }
  }

  lemma {:induction false} SumCountsAppend<T>(ds: seq<T>, xs: seq<T>, y: T)
    requires NoRepeats(ds)
    ensures SumCounts(ds, xs + [y]) == SumCounts(ds, xs) + (if y in ds then 1 else 0)
  {
    if ds != [] {
      var n := |ds| - 1;
      assert (xs + [y])[..|xs|] == xs;
      SumCountsAppend(ds[..n], xs, y);
      assert ds == ds[..n] + [ds[n]];
      assert y in ds <==> y in ds[..n] || y == ds[n];
      assert y == ds[n] ==> y !in ds[..n];
    }
  }

  /** Counting each distinct value once and adding the counts gives the length:
      the subtotals of a group add up to the group's size. */
  lemma {:induction false} DistinctCountsSum<T>(xs: seq<T>)
    ensures SumCounts(Distinct(xs), xs) == |xs|
  {
    if xs != [] {
      var n := |xs| - 1;
      var front, y := xs[..n], xs[n];
      assert xs == front + [y];
      DistinctCountsSum(front);
      DistinctSpec(front);
      assert y in front <==> y in Distinct(front);
      var d := Distinct(front);
      SumCountsAppend(d, front, y);
      if y !in d {
        CountOfAbsent(front, y);
        assert (d + [y])[..|d|] == d;
      }
    }
  }

  /** A value occurs in `xs` exactly when it has a positive count. */
  lemma {:induction false} CountOfPositive<T>(xs: seq<T>, x: T)
    ensures CountOf(xs, x) > 0 <==> x in xs
  {
    if xs != [] {
      var n := |xs| - 1;
      assert xs == xs[..n] + [xs[n]];
      CountOfPositive(xs[..n], x);
    }
  }
}
