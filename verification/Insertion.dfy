/** Ordered insertion as uthash and utlist do it, and the fact that building a
    list by ordered insertion gives the list the merge sort would give. */
module Insertion {
  import opened Order
  import opened MergeSort

  /** HASH_ADD_INORDER: `x` goes before the first element strictly above it. */
  function InsertAfterEquals<T>(cmp: (T, T) -> int, x: T, s: seq<T>): seq<T> {
    if s == [] || cmp(s[0], x) > 0 then [x] + s
    else [s[0]] + InsertAfterEquals(cmp, x, s[1..])
  }

  /** DL_INSERT_INORDER, CDL_INSERT_INORDER: `x` goes before the first element not below it. */
  function InsertBeforeEquals<T>(cmp: (T, T) -> int, x: T, s: seq<T>): seq<T> {
    if s == [] || cmp(s[0], x) >= 0 then [x] + s
    else [s[0]] + InsertBeforeEquals(cmp, x, s[1..])
  }

  /** The list after inserting the elements of `s` one by one into an empty list. */
  function BuildAfterEquals<T>(cmp: (T, T) -> int, s: seq<T>): seq<T> {
    if s == [] then []
    else InsertAfterEquals(cmp, s[|s| - 1], BuildAfterEquals(cmp, s[..|s| - 1]))
  }

  function BuildBeforeEquals<T>(cmp: (T, T) -> int, s: seq<T>): seq<T> {
    if s == [] then []
    else InsertBeforeEquals(cmp, s[|s| - 1], BuildBeforeEquals(cmp, s[..|s| - 1]))
  }

  /** The list after prepending the elements of `s` one by one to an empty list. */
  function BuildPrepend<T>(s: seq<T>): seq<T> {
    if s == [] then [] else [s[|s| - 1]] + BuildPrepend(s[..|s| - 1])
  }

  /** Where the scan of HASH_ADD_INORDER stops: everything before is at or
      below `x`, the next element, if any, is strictly above. */
  lemma {:induction false} AfterEqualsAt<T>(cmp: (T, T) -> int, x: T, s: seq<T>, k: nat)
    requires k <= |s|
    requires forall i :: 0 <= i < k ==> cmp(s[i], x) <= 0
    requires k < |s| ==> cmp(s[k], x) > 0
    ensures InsertAfterEquals(cmp, x, s) == s[..k] + [x] + s[k..]
  {
    if k > 0 {
      AfterEqualsAt(cmp, x, s[1..], k - 1);
      assert s[..k] == [s[0]] + s[1..][..k - 1];
      assert s[k..] == s[1..][k - 1..];
    }
  }

  lemma {:induction false} BeforeEqualsAt<T>(cmp: (T, T) -> int, x: T, s: seq<T>, k: nat)
    requires k <= |s|
    requires forall i :: 0 <= i < k ==> cmp(s[i], x) < 0
    requires k < |s| ==> cmp(s[k], x) >= 0
    ensures InsertBeforeEquals(cmp, x, s) == s[..k] + [x] + s[k..]
  {
    if k > 0 {
      BeforeEqualsAt(cmp, x, s[1..], k - 1);
      assert s[..k] == [s[0]] + s[1..][..k - 1];
      assert s[k..] == s[1..][k - 1..];
    }
  }

  lemma {:induction false} AfterEqualsPermutes<T>(cmp: (T, T) -> int, x: T, s: seq<T>)
    ensures multiset(InsertAfterEquals(cmp, x, s)) == multiset(s) + multiset{x}
  {
    if s != [] && cmp(s[0], x) <= 0 {
      AfterEqualsPermutes(cmp, x, s[1..]);
      MultisetCons(s);
    }
  }

  lemma {:induction false} BeforeEqualsPermutes<T>(cmp: (T, T) -> int, x: T, s: seq<T>)
    ensures multiset(InsertBeforeEquals(cmp, x, s)) == multiset(s) + multiset{x}
  {
    if s != [] && cmp(s[0], x) < 0 {
      BeforeEqualsPermutes(cmp, x, s[1..]);
      MultisetCons(s);
    }
  }

  lemma {:induction false} AfterEqualsSorted<T>(cmp: (T, T) -> int, u: set<T>, x: T, s: seq<T>)
    requires TotalPreorder(cmp, u) && Within(s, u) && x in u && Sorted(cmp, s)
    ensures Sorted(cmp, InsertAfterEquals(cmp, x, s))
  {
    if s != [] {
      SortedTail(cmp, u, s);
      if cmp(s[0], x) > 0 {
        BelowHead(cmp, u, x, s);
        SortedCons(cmp, x, s);
      } else {
        AfterEqualsSorted(cmp, u, x, s[1..]);
        AfterEqualsPermutes(cmp, x, s[1..]);
        InsertedBelow(cmp, s[0], x, s[1..], InsertAfterEquals(cmp, x, s[1..]));
        SortedCons(cmp, s[0], InsertAfterEquals(cmp, x, s[1..]));
      }
    }
  }

  lemma {:induction false} BeforeEqualsSorted<T>(cmp: (T, T) -> int, u: set<T>, x: T, s: seq<T>)
    requires TotalPreorder(cmp, u) && Within(s, u) && x in u && Sorted(cmp, s)
    ensures Sorted(cmp, InsertBeforeEquals(cmp, x, s))
  {
    if s != [] {
      SortedTail(cmp, u, s);
      if cmp(s[0], x) >= 0 {
        BelowHead(cmp, u, x, s);
        SortedCons(cmp, x, s);
      } else {
        BeforeEqualsSorted(cmp, u, x, s[1..]);
        BeforeEqualsPermutes(cmp, x, s[1..]);
        InsertedBelow(cmp, s[0], x, s[1..], InsertBeforeEquals(cmp, x, s[1..]));
        SortedCons(cmp, s[0], InsertBeforeEquals(cmp, x, s[1..]));
      }
    }
  }

  lemma InsertedBelow<T>(cmp: (T, T) -> int, h: T, x: T, s: seq<T>, m: seq<T>)
    requires multiset(m) == multiset(s) + multiset{x}
    requires cmp(h, x) <= 0 && forall z :: z in s ==> cmp(h, z) <= 0
    ensures forall z :: z in m ==> cmp(h, z) <= 0
  {
    forall z | z in m ensures cmp(h, z) <= 0 {
      assert z in multiset(m);
    }
  }

  lemma StrictlyApart<T>(cmp: (T, T) -> int, u: set<T>, y: T, x: T, h: T)
    requires TotalPreorder(cmp, u) && y in u && x in u && h in u
    requires cmp(y, x) == 0 && cmp(h, x) < 0
    ensures cmp(y, h) != 0
  {
    assert cmp(x, y) <= 0;
    assert cmp(y, h) <= 0 ==> cmp(x, h) <= 0;
  }

  /** `x` joins its class at the end. */
  lemma {:induction false} AfterEqualsClass<T>(cmp: (T, T) -> int, u: set<T>, y: T, x: T, s: seq<T>)
    requires TotalPreorder(cmp, u) && Within(s, u) && x in u && y in u && Sorted(cmp, s)
    ensures Class(cmp, y, InsertAfterEquals(cmp, x, s)) == Class(cmp, y, s) + Class(cmp, y, [x])
  {
    ClassOne(cmp, y, x);
    if s == [] {
      assert [x] + s == [x];
    } else if cmp(s[0], x) > 0 {
      ClassCons(cmp, y, x, s);
      if cmp(y, x) == 0 { AboveClass(cmp, u, y, x, s); }
    } else {
      SortedTail(cmp, u, s);
      AfterEqualsClass(cmp, u, y, x, s[1..]);
      var i := InsertAfterEquals(cmp, x, s[1..]);
      ClassCons(cmp, y, s[0], i);
      Regroup(if cmp(y, s[0]) == 0 then [s[0]] else [], Class(cmp, y, s[1..]), Class(cmp, y, [x]));
    }
  }

  /** `x` joins its class at the front. */
  lemma {:induction false} BeforeEqualsClass<T>(cmp: (T, T) -> int, u: set<T>, y: T, x: T, s: seq<T>)
    requires TotalPreorder(cmp, u) && Within(s, u) && x in u && y in u && Sorted(cmp, s)
    ensures Class(cmp, y, InsertBeforeEquals(cmp, x, s)) == Class(cmp, y, [x]) + Class(cmp, y, s)
  {
    ClassOne(cmp, y, x);
    if s == [] || cmp(s[0], x) >= 0 {
      ClassCons(cmp, y, x, s);
    } else {
      SortedTail(cmp, u, s);
      BeforeEqualsClass(cmp, u, y, x, s[1..]);
      var i := InsertBeforeEquals(cmp, x, s[1..]);
      ClassCons(cmp, y, s[0], i);
      if cmp(y, x) == 0 {
        StrictlyApart(cmp, u, y, x, s[0]);
        assert Class(cmp, y, s) == Class(cmp, y, s[1..]);
        assert Class(cmp, y, [s[0]] + i) == Class(cmp, y, i);
      } else {
        assert Class(cmp, y, i) == Class(cmp, y, s[1..]);
        assert Class(cmp, y, [s[0]] + i) == Class(cmp, y, s);
      }
    }
  }

  lemma {:induction false} BuildAfterEqualsStable<T>(cmp: (T, T) -> int, u: set<T>, s: seq<T>)
    requires TotalPreorder(cmp, u) && Within(s, u)
    ensures StableSortOf(cmp, u, s, BuildAfterEquals(cmp, s))
  {
    if s != [] {
      var x, r := s[|s| - 1], s[..|s| - 1];
      var b := BuildAfterEquals(cmp, r);
      assert s == r + [x];
      WithinParts(u, r, [x]);
      BuildAfterEqualsStable(cmp, u, r);
      WithinPermutation(u, r, b);
      AfterEqualsSorted(cmp, u, x, b);
      AfterEqualsPermutes(cmp, x, b);
      forall y | y in u ensures Class(cmp, y, BuildAfterEquals(cmp, s)) == Class(cmp, y, s) {
        ClassConcat(cmp, y, r, [x]);
        AfterEqualsClass(cmp, u, y, x, b);
      }
    }
  }

  lemma {:induction false} PrependPermutes<T>(s: seq<T>)
    ensures multiset(BuildPrepend(s)) == multiset(s)
  {
    if s != [] {
      PrependPermutes(s[..|s| - 1]);
      assert s == s[..|s| - 1] + [s[|s| - 1]];
    }
  }

  lemma {:induction false} BuildBeforeEqualsStable<T>(cmp: (T, T) -> int, u: set<T>, s: seq<T>)
    requires TotalPreorder(cmp, u) && Within(s, u)
    ensures StableSortOf(cmp, u, BuildPrepend(s), BuildBeforeEquals(cmp, s))
  {
    if s != [] {
      var x, r := s[|s| - 1], s[..|s| - 1];
      var b, p := BuildBeforeEquals(cmp, r), BuildPrepend(r);
      assert s == r + [x];
      WithinParts(u, r, [x]);
      BuildBeforeEqualsStable(cmp, u, r);
      PrependPermutes(r);
      WithinPermutation(u, r, b);
      BeforeEqualsSorted(cmp, u, x, b);
      BeforeEqualsPermutes(cmp, x, b);
      forall y | y in u ensures Class(cmp, y, BuildBeforeEquals(cmp, s)) == Class(cmp, y, BuildPrepend(s)) {
        ClassConcat(cmp, y, [x], p);
        BeforeEqualsClass(cmp, u, y, x, b);
      }
    }
  }

  /** Adding elements one at a time with HASH_ADD_INORDER gives the same order
      as adding them all at the end and then running HASH_SRT. */
  lemma AddInOrderIsAddThenSort<T>(cmp: (T, T) -> int, u: set<T>, s: seq<T>)
    requires TotalPreorder(cmp, u) && Within(s, u)
    ensures BuildAfterEquals(cmp, s) == Sort(cmp, s)
  {
    BuildAfterEqualsStable(cmp, u, s);
    SortUnique(cmp, u, s, BuildAfterEquals(cmp, s));
  }

  /** Building a list with DL_INSERT_INORDER gives the same list as building
      it with DL_PREPEND and then running DL_SORT. */
  lemma InsertInOrderIsPrependThenSort<T>(cmp: (T, T) -> int, u: set<T>, s: seq<T>)
    requires TotalPreorder(cmp, u) && Within(s, u)
    ensures BuildBeforeEquals(cmp, s) == Sort(cmp, BuildPrepend(s))
  {
    BuildBeforeEqualsStable(cmp, u, s);
    PrependPermutes(s);
    WithinPermutation(u, s, BuildPrepend(s));
    SortUnique(cmp, u, BuildPrepend(s), BuildBeforeEquals(cmp, s));
  }
}
