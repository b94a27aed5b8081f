/** The merge sort of utlist and uthash as functions on sequences, and its
    correctness: a stable sort, in a counted number of passes.

    `Pass(cmp, k, s)` is one turn of the outer loop of the macros: it merges
    neighbouring runs of length `k`.  `BottomUp` repeats it with doubled run
    length until one merge covers the list. */
module MergeSort {
  import opened BitArith
  import opened Order

  /** The run of at most `k` elements at the front, and what follows it. */
  function Take<T>(k: nat, s: seq<T>): seq<T> {
    if |s| <= k then s else s[..k]
  }

  function Drop<T>(k: nat, s: seq<T>): seq<T> {
    if |s| <= k then [] else s[k..]
  }

  lemma TakeDrop<T>(k: nat, s: seq<T>)
    ensures Take(k, s) + Drop(k, s) == s
  {
  }

  /** Two-way merge; on a tie the element of `xs` goes first. */
  function Merge<T>(cmp: (T, T) -> int, xs: seq<T>, ys: seq<T>): seq<T> {
    if xs == [] then ys
    else if ys == [] then xs
    else if cmp(xs[0], ys[0]) <= 0 then [xs[0]] + Merge(cmp, xs[1..], ys)
    else [ys[0]] + Merge(cmp, xs, ys[1..])
  }

  function Pass<T>(cmp: (T, T) -> int, k: nat, s: seq<T>): seq<T>
    requires k > 0
    decreases |s|
  {
    if s == [] then []
    else
      var rest := Drop(k, s);
      Merge(cmp, Take(k, s), Take(k, rest)) + Pass(cmp, k, Drop(k, rest))
  }

  lemma {:induction false} MergeLength<T>(cmp: (T, T) -> int, xs: seq<T>, ys: seq<T>)
    ensures multiset(Merge(cmp, xs, ys)) == multiset(xs) + multiset(ys)
    ensures |Merge(cmp, xs, ys)| == |xs| + |ys|
    decreases |xs| + |ys|
  {
    if xs == [] || ys == [] {
    } else if cmp(xs[0], ys[0]) <= 0 {
      MergeLength(cmp, xs[1..], ys);
      MultisetCons(xs);
    } else {
      MergeLength(cmp, xs, ys[1..]);
      MultisetCons(ys);
    }
  }

  lemma MultisetCons<T>(s: seq<T>)
    requires s != []
    ensures multiset(s) == multiset{s[0]} + multiset(s[1..])
  {
    assert s == [s[0]] + s[1..];
  }

  lemma {:induction false} PassPermutes<T>(cmp: (T, T) -> int, k: nat, s: seq<T>)
    requires k > 0
    ensures multiset(Pass(cmp, k, s)) == multiset(s)
    ensures |Pass(cmp, k, s)| == |s|
    decreases |s|
  {
    if s != [] {
      var rest := Drop(k, s);
      TakeDrop(k, s);
      TakeDrop(k, rest);
      MergeLength(cmp, Take(k, s), Take(k, rest));
      PassPermutes(cmp, k, Drop(k, rest));
      assert multiset(s) == multiset(Take(k, s)) + multiset(rest);
    }
  }

  /** Repeated passes with run length k, 2k, 4k, ... */
  function BottomUp<T>(cmp: (T, T) -> int, k: nat, s: seq<T>): seq<T>
    requires k > 0
    decreases if |s| > 2 * k then |s| - k else 0
  {
    PassPermutes(cmp, k, s);
    if |s| <= 2 * k then Pass(cmp, k, s) else BottomUp(cmp, 2 * k, Pass(cmp, k, s))
  }

  function Sort<T>(cmp: (T, T) -> int, s: seq<T>): seq<T> {
    BottomUp(cmp, 1, s)
  }

  // ---------------------------------------------------------------- order

  lemma {:induction false} MergeSorted<T>(cmp: (T, T) -> int, u: set<T>, xs: seq<T>, ys: seq<T>)
    requires TotalPreorder(cmp, u) && Within(xs, u) && Within(ys, u)
    requires Sorted(cmp, xs) && Sorted(cmp, ys)
    ensures Sorted(cmp, Merge(cmp, xs, ys))
    decreases |xs| + |ys|
  {
    if xs == [] || ys == [] {
    } else if cmp(xs[0], ys[0]) <= 0 {
      MergeSorted(cmp, u, xs[1..], ys);
      MergeLength(cmp, xs[1..], ys);
      ConsSorted(cmp, u, xs[0], xs[1..], ys, Merge(cmp, xs[1..], ys));
    } else {
      MergeSorted(cmp, u, xs, ys[1..]);
      MergeLength(cmp, xs, ys[1..]);
      ConsSorted(cmp, u, ys[0], xs, ys[1..], Merge(cmp, xs, ys[1..]));
    }
  }

  lemma ConsSorted<T>(cmp: (T, T) -> int, u: set<T>, h: T, xs: seq<T>, ys: seq<T>, m: seq<T>)
    requires TotalPreorder(cmp, u) && Within(xs, u) && Within(ys, u) && h in u
    requires Sorted(cmp, xs) && Sorted(cmp, ys) && Sorted(cmp, m)
    requires multiset(m) == multiset(xs) + multiset(ys)
    requires xs != [] ==> cmp(h, xs[0]) <= 0
    requires ys != [] ==> cmp(h, ys[0]) <= 0
    ensures Sorted(cmp, [h] + m)
  {
    if xs != [] { BelowHead(cmp, u, h, xs); }
    if ys != [] { BelowHead(cmp, u, h, ys); }
    forall z | z in m ensures cmp(h, z) <= 0 {
      assert z in multiset(m);
    }
    SortedCons(cmp, h, m);
  }

  /** Merging is stable: within a class, all of `xs` comes before all of `ys`. */
  lemma {:induction false} MergeStable<T>(cmp: (T, T) -> int, u: set<T>, x: T, xs: seq<T>, ys: seq<T>)
    requires TotalPreorder(cmp, u) && Within(xs, u) && Within(ys, u) && x in u
    requires Sorted(cmp, xs)
    ensures Class(cmp, x, Merge(cmp, xs, ys)) == Class(cmp, x, xs) + Class(cmp, x, ys)
    decreases |xs| + |ys|
  {
    hide Class, Sorted, TotalPreorder, Within;
    if xs == [] {
      ClassNil(cmp, x);
    } else if ys == [] {
      ClassNil(cmp, x);
    } else if cmp(xs[0], ys[0]) <= 0 {
      SortedTail(cmp, u, xs);
      MergeStable(cmp, u, x, xs[1..], ys);
      TookLeft(cmp, x, xs, ys, Merge(cmp, xs[1..], ys));
    } else {
      WithinTail(u, ys);
      MergeStable(cmp, u, x, xs, ys[1..]);
      if cmp(x, ys[0]) == 0 {
        AboveClass(cmp, u, x, ys[0], xs);
      }
      TookRight(cmp, x, xs, ys, Merge(cmp, xs, ys[1..]));
    }
  }

  lemma ClassNil<T>(cmp: (T, T) -> int, x: T)
    ensures Class(cmp, x, []) == []
  {
  }

  lemma TookLeft<T>(cmp: (T, T) -> int, x: T, xs: seq<T>, ys: seq<T>, m: seq<T>)
    requires xs != [] && Class(cmp, x, m) == Class(cmp, x, xs[1..]) + Class(cmp, x, ys)
    ensures Class(cmp, x, [xs[0]] + m) == Class(cmp, x, xs) + Class(cmp, x, ys)
  {
    hide Class;
    var h := if cmp(x, xs[0]) == 0 then [xs[0]] else [];
    ClassCons(cmp, x, xs[0], m);
    ClassHead(cmp, x, xs);
    Regroup(h, Class(cmp, x, xs[1..]), Class(cmp, x, ys));
  }

  /** The head of `ys` passes nothing of its own class. */
  lemma TookRight<T>(cmp: (T, T) -> int, x: T, xs: seq<T>, ys: seq<T>, m: seq<T>)
    requires ys != [] && Class(cmp, x, m) == Class(cmp, x, xs) + Class(cmp, x, ys[1..])
    requires cmp(x, ys[0]) == 0 ==> Class(cmp, x, xs) == []
    ensures Class(cmp, x, [ys[0]] + m) == Class(cmp, x, xs) + Class(cmp, x, ys)
  {
    hide Class;
    ClassCons(cmp, x, ys[0], m);
    ClassHead(cmp, x, ys);
  }

  /** Every aligned block of length `k` is sorted. */
  ghost predicate RunsSorted<T>(cmp: (T, T) -> int, k: nat, s: seq<T>)
    requires k > 0
    decreases |s|
  {
    s != [] ==> Sorted(cmp, Take(k, s)) && RunsSorted(cmp, k, Drop(k, s))
  }

  lemma {:induction false} SingletonRuns<T>(cmp: (T, T) -> int, s: seq<T>)
    ensures RunsSorted(cmp, 1, s)
    decreases |s|
  {
    if s != [] { SingletonRuns(cmp, Drop(1, s)); }
  }

  lemma {:induction false} PassDoublesRuns<T>(cmp: (T, T) -> int, u: set<T>, k: nat, s: seq<T>)
    requires k > 0 && TotalPreorder(cmp, u) && Within(s, u) && RunsSorted(cmp, k, s)
    ensures RunsSorted(cmp, 2 * k, Pass(cmp, k, s))
    decreases |s|
  {
    if s != [] {
      var xs, ys, zs := Take(k, s), Take(k, Drop(k, s)), Drop(k, Drop(k, s));
      var m, t := Merge(cmp, xs, ys), Pass(cmp, k, zs);
      MergeSorted(cmp, u, xs, ys);
      MergeLength(cmp, xs, ys);
      PassPermutes(cmp, k, zs);
      PassDoublesRuns(cmp, u, k, zs);
      PutRun(cmp, 2 * k, m, t);
    }
  }

  lemma PutRun<T>(cmp: (T, T) -> int, k: nat, m: seq<T>, t: seq<T>)
    requires k > 0 && Sorted(cmp, m) && RunsSorted(cmp, k, t)
    requires |m| == k || (|m| <= k && t == [])
    ensures RunsSorted(cmp, k, m + t)
  {
    if t == [] {
      assert m + t == m;
    } else {
      assert Take(k, m + t) == m && Drop(k, m + t) == t;
    }
  }

  lemma {:induction false} PassStable<T>(cmp: (T, T) -> int, u: set<T>, x: T, k: nat, s: seq<T>)
    requires k > 0 && TotalPreorder(cmp, u) && Within(s, u) && x in u && RunsSorted(cmp, k, s)
    ensures Class(cmp, x, Pass(cmp, k, s)) == Class(cmp, x, s)
    decreases |s|
  {
    if s != [] {
      var xs, rest := Take(k, s), Drop(k, s);
      var ys, zs := Take(k, rest), Drop(k, rest);
      MergeStable(cmp, u, x, xs, ys);
      PassStable(cmp, u, x, k, zs);
      ClassConcat(cmp, x, Merge(cmp, xs, ys), Pass(cmp, k, zs));
      TakeDrop(k, s);
      TakeDrop(k, rest);
      ClassConcat(cmp, x, xs, rest);
      ClassConcat(cmp, x, ys, zs);
      Regroup(Class(cmp, x, xs), Class(cmp, x, ys), Class(cmp, x, zs));
    }
  }

  lemma {:induction false} BottomUpCorrect<T>(cmp: (T, T) -> int, u: set<T>, k: nat, s: seq<T>)
    requires k > 0 && TotalPreorder(cmp, u) && Within(s, u) && RunsSorted(cmp, k, s)
    ensures StableSortOf(cmp, u, s, BottomUp(cmp, k, s))
    decreases if |s| > 2 * k then |s| - k else 0
  {
    var t := Pass(cmp, k, s);
    PassPermutes(cmp, k, s);
    WithinPermutation(u, s, t);
    PassDoublesRuns(cmp, u, k, s);
    forall x | x in u ensures Class(cmp, x, t) == Class(cmp, x, s) {
      PassStable(cmp, u, x, k, s);
    }
    if |s| > 2 * k {
      BottomUpCorrect(cmp, u, 2 * k, t);
    }
  }

  /** The merge sort of the macros is a stable sort. */
  lemma SortCorrect<T>(cmp: (T, T) -> int, u: set<T>, s: seq<T>)
    requires TotalPreorder(cmp, u) && Within(s, u)
    ensures StableSortOf(cmp, u, s, Sort(cmp, s))
  {
    SingletonRuns(cmp, s);
    BottomUpCorrect(cmp, u, 1, s);
  }

  /** ... and the only one: any other stable sort of `s` is the same sequence. */
  lemma SortUnique<T>(cmp: (T, T) -> int, u: set<T>, s: seq<T>, t: seq<T>)
    requires TotalPreorder(cmp, u) && Within(s, u)
    ensures StableSortOf(cmp, u, s, t) <==> t == Sort(cmp, s)
  {
    SortCorrect(cmp, u, s);
    if StableSortOf(cmp, u, s, t) {
      StableSortUnique(cmp, u, s, t, Sort(cmp, s));
    }
  }

  // ---------------------------------------------------------------- cost

  /** The number of passes the macros make over a list of `n` elements when
      the first pass has run length `k`. */
  function Passes(k: nat, n: nat): (r: nat)
    requires k > 0
    ensures r >= 1
    decreases if n > 2 * k then n - k else 0
  {
    if n <= 2 * k then 1 else 1 + Passes(2 * k, n)
  }

  /** `Passes(1, n)` is max(1, ceil(log2 n)): the least exponent, at least
      one, whose power of two reaches `n`. */
  lemma {:induction false} PassesIsCeilLog(k: nat, n: nat)
    requires k > 0
    ensures n <= k * Pow2(Passes(k, n))
    ensures Passes(k, n) > 1 ==> k * Pow2(Passes(k, n) - 1) < n
    decreases if n > 2 * k then n - k else 0
  {
    var p := Passes(k, n);
    if n > 2 * k {
      PassesIsCeilLog(2 * k, n);
      assert Pow2(p) == 2 * Pow2(p - 1);
      assert k * Pow2(p) == 2 * k * Pow2(p - 1);
      if p > 2 {
        assert Pow2(p - 1) == 2 * Pow2(p - 2);
        assert k * Pow2(p - 1) == 2 * k * Pow2(p - 2);
      } else {
        assert Pow2(1) == 2;
      }
    } else {
      assert Pow2(1) == 2;
    }
  }
}
