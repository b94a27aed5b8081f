/** A Python dictionary with string keys: a map that remembers the order in
    which its keys were inserted. */
module OrderedDict {

  datatype Dict<V> = Dict(keys: seq<string>, at: map<string, V>)

  ghost predicate NoDuplicates(s: seq<string>) {
    forall i, j :: 0 <= i < j < |s| ==> s[i] != s[j]
  }

  ghost predicate Ok<V>(d: Dict<V>) {
    NoDuplicates(d.keys) && forall k :: k in d.keys <==> k in d.at
  }

  lemma OkKeys<V>(d: Dict<V>)
    requires Ok(d)
    ensures NoDuplicates(d.keys) && (forall k :: k in d.keys <==> k in d.at.Keys) && (d.at == map[] <==> d.keys == [])
  {
    if d.keys != [] {
      assert d.keys[0] in d.at;
    } else {
      assert forall k :: k !in d.at;
    }
  }

  /** `d[k] = v`: a key that is present keeps its place. */
  function Set<V>(d: Dict<V>, k: string, v: V): (d': Dict<V>)
    ensures Ok(d) ==> Ok(d')
  {
    Dict(if k in d.at then d.keys else d.keys + [k], d.at[k := v])
  }

  function EmptyDict<V>(): (d: Dict<V>)
    ensures Ok(d)
  {
    Dict([], map[])
  }

  lemma NextIsNew(s: seq<string>, i: nat)
    requires NoDuplicates(s) && i < |s|
    ensures s[i] !in s[..i] && s[..i + 1] == s[..i] + [s[i]]
  {
  }

  /** The members of `s` that are in `keep`, in their order. */
  function Filter(s: seq<string>, keep: set<string>): seq<string> {
    if s == [] then []
    else
      var k := s[|s| - 1];
      Filter(s[..|s| - 1], keep) + if k in keep then [k] else []
  }

  lemma {:induction false} FilterMembers(s: seq<string>, keep: set<string>)
    ensures forall k :: k in Filter(s, keep) <==> k in s && k in keep
    ensures NoDuplicates(s) ==> NoDuplicates(Filter(s, keep))
  {
    if s != [] {
      var front := s[..|s| - 1];
      FilterMembers(front, keep);
      assert s == front + [s[|s| - 1]];
    }
  }

  lemma {:induction false} FilterAgree(s: seq<string>, a: set<string>, b: set<string>)
    requires forall k :: k in s ==> (k in a <==> k in b)
    ensures Filter(s, a) == Filter(s, b)
  {
    if s != [] { FilterAgree(s[..|s| - 1], a, b); }
  }

  lemma FilterSnoc(s: seq<string>, k: string, keep: set<string>)
    ensures Filter(s + [k], keep) == Filter(s, keep) + if k in keep then [k] else []
  {
    assert (s + [k])[..|s|] == s;
  }

  lemma {:induction false} FilterTwice(s: seq<string>, a: set<string>, b: set<string>)
    ensures Filter(Filter(s, a), b) == Filter(s, a * b)
  {
    if s != [] {
      var front, k := s[..|s| - 1], s[|s| - 1];
      FilterTwice(front, a, b);
      if k in a {
        FilterSnoc(Filter(front, a), k, b);
      } else {
        assert Filter(s, a) == Filter(front, a);
      }
    }
  }

  lemma {:induction false} FilterAll(s: seq<string>, keep: set<string>)
    requires forall k :: k in s ==> k in keep
    ensures Filter(s, keep) == s
  {
    if s != [] {
      var front := s[..|s| - 1];
      FilterAll(front, keep);
      assert s == front + [s[|s| - 1]];
    }
  }

  function Restrict<V>(m: map<string, V>, keep: set<string>): map<string, V> {
    map k | k in m && k in keep :: m[k]
  }

  /** The entries whose keys are in `keep`, in their order. */
  function Select<V>(d: Dict<V>, keep: set<string>): (d': Dict<V>)
    ensures Ok(d) ==> Ok(d')
  {
    FilterMembers(d.keys, keep);
    Dict(Filter(d.keys, keep), Restrict(d.at, keep))
  }

  /** `del d[k]` for a key that is present. */
  function Remove<V>(d: Dict<V>, k: string): (d': Dict<V>)
    ensures Ok(d) ==> Ok(d')
  {
    Select(d, d.at.Keys - {k})
  }

  lemma RestrictSet<V>(m: map<string, V>, a: set<string>, b: set<string>, k: string, v: V)
    requires forall x :: x in m && x != k ==> (x in a <==> x in b)
    requires k in m ==> (k in a <==> k in b)
    ensures Restrict(m[k := v], b) == if k in b then Restrict(m, a)[k := v] else Restrict(m, a)
  {
  }

  lemma RestrictTwice<V>(m: map<string, V>, a: set<string>, b: set<string>)
    ensures Restrict(Restrict(m, a), b) == Restrict(m, a * b)
  {
  }

  lemma RestrictAgree<V>(m: map<string, V>, a: set<string>, b: set<string>)
    requires forall k :: k in m ==> (k in a <==> k in b)
    ensures Restrict(m, a) == Restrict(m, b)
  {
  }

  /** Selecting twice, and selecting by sets that agree on the keys. */
  lemma SelectTwice<V>(d: Dict<V>, a: set<string>, b: set<string>, c: set<string>)
    requires Ok(d) && forall k :: k in d.at.Keys ==> (k in a * b <==> k in c)
    ensures Select(Select(d, a), b) == Select(d, c)
  {
    hide Filter, Restrict, Ok;
    OkKeys(d);
    FilterTwice(d.keys, a, b);
    FilterAgree(d.keys, a * b, c);
    RestrictTwice(d.at, a, b);
    RestrictAgree(d.at, a * b, c);
  }

  lemma SelectAll<V>(d: Dict<V>, keep: set<string>)
    requires Ok(d) && forall k :: k in d.at.Keys ==> k in keep
    ensures Select(d, keep) == d
  {
    FilterAll(d.keys, keep);
    assert Restrict(d.at, keep) == d.at;
  }

  /** What assignment and deletion do, entry by entry and in the order of keys. */
  lemma SetLaw<V>(d: Dict<V>, k: string, v: V)
    requires Ok(d)
    ensures Set(d, k, v).keys == if k in d.keys then d.keys else d.keys + [k]
    ensures forall x :: x in Set(d, k, v).at <==> x == k || x in d.at
    ensures forall x :: x in Set(d, k, v).at ==> Set(d, k, v).at[x] == if x == k then v else d.at[x]
  {
  }

  lemma RemoveLaw<V>(d: Dict<V>, before: seq<string>, k: string, behind: seq<string>)
    requires Ok(d) && d.keys == before + [k] + behind
    ensures Remove(d, k).keys == before + behind
    ensures forall x :: x in Remove(d, k).at <==> x != k && x in d.at
    ensures forall x :: x in Remove(d, k).at ==> Remove(d, k).at[x] == d.at[x]
  {
    hide Filter;
    var keep := d.at.Keys - {k};
    Beside(d, before, k, behind);
    FilterAll(before, keep);
    FilterAll(behind, keep);
    FilterSnoc(before, k, keep);
    FilterConcat(before + [k], behind, keep);
    assert before + [] == before;
  }

  lemma Beside<V>(d: Dict<V>, before: seq<string>, k: string, behind: seq<string>)
    requires Ok(d) && d.keys == before + [k] + behind
    ensures forall x :: x in before || x in behind ==> x in d.at.Keys - {k}
  {
    assert d.keys[|before|] == k;
    forall i | 0 <= i < |before| ensures before[i] in d.at.Keys - {k} {
      assert d.keys[i] == before[i];
    }
    forall i | 0 <= i < |behind| ensures behind[i] in d.at.Keys - {k} {
      assert d.keys[|before| + 1 + i] == behind[i];
    }
  }

  lemma {:induction false} FilterConcat(a: seq<string>, b: seq<string>, keep: set<string>)
    ensures Filter(a + b, keep) == Filter(a, keep) + Filter(b, keep)
  {
    if b == [] {
      assert a + b == a;
    } else {
      var front, k := b[..|b| - 1], b[|b| - 1];
      assert a + b == a + front + [k];
      assert b == front + [k];
      FilterConcat(a, front, keep);
      FilterSnoc(a + front, k, keep);
      FilterSnoc(front, k, keep);
    }
  }

  /** Entries are selected by membership in `a` before, and in `b` after the
      assignment, which differ in a new `k` at most. */
  lemma SelectSet<V>(d: Dict<V>, a: set<string>, b: set<string>, k: string, v: V)
    requires Ok(d) && forall x :: x in d.at && x != k ==> (x in a <==> x in b)
    requires k in d.at ==> (k in a <==> k in b)
    ensures Select(Set(d, k, v), b) == if k in b then Set(Select(d, a), k, v) else Select(d, a)
  {
    hide Filter, Restrict, Ok;
    OkKeys(d);
    FilterAgree(d.keys, a, b);
    FilterSnoc(d.keys, k, b);
    RestrictSet(d.at, a, b, k, v);
    RestrictKeys(d.at, a);
  }

  lemma RestrictKeys<V>(m: map<string, V>, keep: set<string>)
    ensures Restrict(m, keep).Keys == m.Keys * keep
  {
  }

  /** Removing a new key again leaves the order as it was. */
  lemma RemoveSet<V>(d: Dict<V>, k: string, v: V)
    requires Ok(d) && k !in d.at
    ensures Remove(Set(d, k, v), k) == d
  {
    hide Filter, Restrict, Ok;
    var keep := Set(d, k, v).at.Keys - {k};
    SelectSet(d, keep, keep, k, v);
    SelectAll(d, keep);
  }

  lemma SelectRemove<V>(d: Dict<V>, a: set<string>, b: set<string>, k: string)
    requires Ok(d) && k in d.at && forall x :: x in d.at && x != k ==> (x in a <==> x in b)
    ensures Select(Remove(d, k), b) == if k in a then Remove(Select(d, a), k) else Select(d, a)
  {
    hide Filter, Restrict, Ok, Select;
    SelectTwice(d, d.at.Keys - {k}, b, a - {k});
    if k in a {
      SelectKeys(d, a);
      SelectTwice(d, a, Select(d, a).at.Keys - {k}, a - {k});
    } else {
      SelectTwice(d, a, a, a);
      SelectTwice(d, a, a, a - {k});
    }
  }

  lemma SelectKeys<V>(d: Dict<V>, keep: set<string>)
    ensures Select(d, keep).at.Keys == d.at.Keys * keep
  {
  }
}
