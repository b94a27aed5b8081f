/** Comparison functions in the C style (negative, zero, positive), what it
    means to be a stable sort, and why there is only one of them.

    Elements may be heap references, so "total preorder" is always stated over
    a set `u` of elements rather than over a whole type. */
module Order {

  /** `cmp` orders the elements of `u`: it is antisymmetric in sign and transitive. */
  ghost predicate TotalPreorder<T>(cmp: (T, T) -> int, u: set<T>) {
    && (forall x, y :: x in u && y in u ==> (cmp(x, y) <= 0 <==> cmp(y, x) >= 0))
    && (forall x, y, z :: x in u && y in u && z in u && cmp(x, y) <= 0 && cmp(y, z) <= 0 ==> cmp(x, z) <= 0)
  }

  ghost predicate Within<T>(s: seq<T>, u: set<T>) {
    forall x :: x in s ==> x in u
  }

  ghost predicate Sorted<T>(cmp: (T, T) -> int, s: seq<T>) {
    forall i, j :: 0 <= i < j < |s| ==> cmp(s[i], s[j]) <= 0
  }

  /** The elements of `s` that compare equal to `x`, in the order of `s`. */
  ghost function Class<T>(cmp: (T, T) -> int, x: T, s: seq<T>): seq<T> {
    if s == [] then []
    else (if cmp(x, s[0]) == 0 then [s[0]] else []) + Class(cmp, x, s[1..])
  }

  /** `t` is `s` sorted without reordering elements that compare equal. */
  ghost predicate StableSortOf<T>(cmp: (T, T) -> int, u: set<T>, s: seq<T>, t: seq<T>) {
    && Sorted(cmp, t)
    && multiset(t) == multiset(s)
    && (forall x :: x in u ==> Class(cmp, x, t) == Class(cmp, x, s))
  }

  lemma Reflexive<T>(cmp: (T, T) -> int, u: set<T>, x: T)
    requires TotalPreorder(cmp, u) && x in u
    ensures cmp(x, x) == 0
  {
    assert cmp(x, x) <= 0 <==> cmp(x, x) >= 0;
  }

  lemma {:induction false} ClassConcat<T>(cmp: (T, T) -> int, x: T, a: seq<T>, b: seq<T>)
    ensures Class(cmp, x, a + b) == Class(cmp, x, a) + Class(cmp, x, b)
  {
    if a == [] {
      assert a + b == b;
    } else {
      assert (a + b)[1..] == a[1..] + b;
      ClassConcat(cmp, x, a[1..], b);
      var h := if cmp(x, a[0]) == 0 then [a[0]] else [];
      calc {
        Class(cmp, x, a + b);
        h + (Class(cmp, x, a[1..]) + Class(cmp, x, b));
        (h + Class(cmp, x, a[1..])) + Class(cmp, x, b);
        Class(cmp, x, a) + Class(cmp, x, b);
      }
    }
  }

  lemma Regroup<T>(a: seq<T>, b: seq<T>, c: seq<T>)
    ensures a + (b + c) == (a + b) + c
  {
  }

  lemma ClassOne<T>(cmp: (T, T) -> int, x: T, y: T)
    ensures Class(cmp, x, [y]) == if cmp(x, y) == 0 then [y] else []
  {
    assert Class(cmp, x, [y][1..]) == [];
  }

  /** An element that is in no class with `x` leaves no trace in its class. */
  lemma {:induction false} ClassMember<T>(cmp: (T, T) -> int, x: T, s: seq<T>)
    ensures forall y :: y in Class(cmp, x, s) ==> y in s && cmp(x, y) == 0
    ensures Class(cmp, x, s) == [] <==> (forall y :: y in s ==> cmp(x, y) != 0)
  {
    if s != [] {
      ClassMember(cmp, x, s[1..]);
      assert s == [s[0]] + s[1..];
    }
  }

  /** Sorted sequences are determined by their classes: a stable sort is unique. */
  lemma {:induction false} SortedUnique<T>(cmp: (T, T) -> int, u: set<T>, a: seq<T>, b: seq<T>)
    requires TotalPreorder(cmp, u) && Within(a, u) && Within(b, u)
    requires Sorted(cmp, a) && Sorted(cmp, b)
    requires forall x :: x in u ==> Class(cmp, x, a) == Class(cmp, x, b)
    ensures a == b
  {
    if a == [] && b == [] {
    } else if a == [] {
      HeadsAgree(cmp, u, b, a);
    } else {
      HeadsAgree(cmp, u, a, b);
      SortedTail(cmp, u, a);
      SortedTail(cmp, u, b);
      forall x | x in u ensures Class(cmp, x, a[1..]) == Class(cmp, x, b[1..]) {
        ClassTail(cmp, x, a);
        ClassTail(cmp, x, b);
      }
      SortedUnique(cmp, u, a[1..], b[1..]);
      assert a == [a[0]] + a[1..] && b == [b[0]] + b[1..];
    }
  }

  lemma SortedTail<T>(cmp: (T, T) -> int, u: set<T>, s: seq<T>)
    requires Within(s, u) && s != [] && Sorted(cmp, s)
    ensures Sorted(cmp, s[1..]) && Within(s[1..], u)
    ensures forall z :: z in s[1..] ==> cmp(s[0], z) <= 0
  {
  }

  lemma ClassTail<T>(cmp: (T, T) -> int, x: T, s: seq<T>)
    requires s != []
    ensures Class(cmp, x, s[1..]) == Class(cmp, x, s)[if cmp(x, s[0]) == 0 then 1 else 0..]
  {
  }

  lemma ClassHead<T>(cmp: (T, T) -> int, x: T, s: seq<T>)
    requires s != []
    ensures Class(cmp, x, s) == (if cmp(x, s[0]) == 0 then [s[0]] else []) + Class(cmp, x, s[1..])
  {
  }

  lemma HeadsAgree<T>(cmp: (T, T) -> int, u: set<T>, a: seq<T>, b: seq<T>)
    requires TotalPreorder(cmp, u) && Within(a, u) && Within(b, u)
    requires Sorted(cmp, a) && Sorted(cmp, b) && a != []
    requires forall x :: x in u ==> Class(cmp, x, a) == Class(cmp, x, b)
    ensures b != [] && a[0] == b[0]
  {
    var x := a[0];
    Reflexive(cmp, u, x);
    assert Class(cmp, x, b) == Class(cmp, x, a) && Class(cmp, x, a)[0] == x;
    ClassMember(cmp, x, b);
    assert x in b;
    var k :| 0 <= k < |b| && b[k] == x;
    var y := b[0];
    assert cmp(y, x) <= 0;
    Reflexive(cmp, u, y);
    assert Class(cmp, y, a) == Class(cmp, y, b) && Class(cmp, y, b)[0] == y;
    ClassMember(cmp, y, a);
    assert y in a;
    var l :| 0 <= l < |a| && a[l] == y;
    assert cmp(x, y) <= 0;
    assert cmp(x, y) == 0;
  }

  lemma StableSortUnique<T>(cmp: (T, T) -> int, u: set<T>, s: seq<T>, a: seq<T>, b: seq<T>)
    requires TotalPreorder(cmp, u) && Within(s, u)
    requires StableSortOf(cmp, u, s, a) && StableSortOf(cmp, u, s, b)
    ensures a == b
  {
    SameElements(s, a);
    SameElements(s, b);
    SortedUnique(cmp, u, a, b);
  }

  /** What is at or below the head of a sorted sequence is below all of it. */
  lemma BelowHead<T>(cmp: (T, T) -> int, u: set<T>, h: T, s: seq<T>)
    requires TotalPreorder(cmp, u) && Within(s, u) && h in u
    requires Sorted(cmp, s) && s != [] && cmp(h, s[0]) <= 0
    ensures forall y :: y in s ==> cmp(h, y) <= 0
  {
    forall y | y in s ensures cmp(h, y) <= 0 {
      var i :| 0 <= i < |s| && s[i] == y;
      assert i > 0 ==> cmp(s[0], s[i]) <= 0;
    }
  }

  /** A sorted sequence whose head is strictly above `y` has nothing in y's class. */
  lemma AboveClass<T>(cmp: (T, T) -> int, u: set<T>, x: T, y: T, s: seq<T>)
    requires TotalPreorder(cmp, u) && Within(s, u) && x in u && y in u
    requires Sorted(cmp, s) && s != [] && cmp(s[0], y) > 0 && cmp(x, y) == 0
    ensures Class(cmp, x, s) == []
  {
    Reflexive(cmp, u, s[0]);
    BelowHead(cmp, u, s[0], s);
    forall z | z in s && cmp(x, z) == 0 ensures false {
      NotBelow(cmp, u, s[0], z, x, y);
    }
    ClassMember(cmp, x, s);
  }

  lemma NotBelow<T>(cmp: (T, T) -> int, u: set<T>, h: T, z: T, x: T, y: T)
    requires TotalPreorder(cmp, u) && h in u && z in u && x in u && y in u
    requires cmp(h, z) <= 0 && cmp(x, z) == 0 && cmp(x, y) == 0
    ensures cmp(h, y) <= 0
  {
    assert cmp(z, x) <= 0;
    assert cmp(z, y) <= 0;
  }

  lemma SameElements<T>(s: seq<T>, t: seq<T>)
    requires multiset(s) == multiset(t)
    ensures |s| == |t|
    ensures forall x :: x in s <==> x in t
  {
    assert |multiset(s)| == |multiset(t)|;
    forall x ensures x in s <==> x in t {
      assert x in s <==> x in multiset(s);
      assert x in t <==> x in multiset(t);
    }
  }

  lemma WithinParts<T>(u: set<T>, a: seq<T>, b: seq<T>)
    ensures Within(a + b, u) <==> Within(a, u) && Within(b, u)
  {
    if Within(a + b, u) {
      forall x | x in a || x in b ensures x in u {
        assert x in a + b;
      }
    }
  }

  lemma WithinTail<T>(u: set<T>, s: seq<T>)
    requires Within(s, u) && s != []
    ensures s[0] in u && Within(s[1..], u)
  {
  }

  lemma WithinPermutation<T>(u: set<T>, s: seq<T>, t: seq<T>)
    requires multiset(s) == multiset(t) && Within(s, u)
    ensures Within(t, u)
  {
    SameElements(s, t);
  }

  lemma SortedCons<T>(cmp: (T, T) -> int, h: T, m: seq<T>)
    requires Sorted(cmp, m) && forall z :: z in m ==> cmp(h, z) <= 0
    ensures Sorted(cmp, [h] + m)
  {
  }

  lemma ClassCons<T>(cmp: (T, T) -> int, x: T, h: T, s: seq<T>)
    ensures Class(cmp, x, [h] + s) == (if cmp(x, h) == 0 then [h] else []) + Class(cmp, x, s)
  {
    assert ([h] + s)[1..] == s;
  }
}
