/** How far the bound on chain lengths goes: a table that has stopped expanding,
    and the one that a constant hash function leads to, element by element. */
module ConstantHash {
  import opened Elements
  import opened BitArith
  import opened Buckets
  import opened ChainStats
  import opened Expand
  import opened TableCore
  import opened HashTables
  import opened Uthash

  ghost predicate SameHash(nodes: seq<Elem>, c: nat)
    reads nodes`tag
  {
    forall x :: x in nodes ==> x.tag.hashv == c
  }

  /** Only chain `b` has elements. */
  ghost predicate OnlyChain(cs: seq<seq<Elem>>, b: nat) {
    b < |cs| && forall i :: 0 <= i < |cs| && i != b ==> cs[i] == []
  }

  lemma {:induction false} SumsOfOne(cs: seq<seq<Elem>>, b: nat, ideal: nat)
    requires OnlyChain(cs, b)
    ensures SumLens(cs) == |cs[b]|
    ensures SumExcess(cs, ideal) == if |cs[b]| > ideal then |cs[b]| - ideal else 0
  {
    if b == 0 {
      SumsOfEmpty(cs[1..], ideal);
    } else {
      assert OnlyChain(cs[1..], b - 1);
      SumsOfOne(cs[1..], b - 1, ideal);
    }
  }

  lemma HasFirst(c: seq<Elem>)
    ensures c == [] || c[0] in c
  {
  }

  /** With one hash value for all, there is one chain, of all elements. */
  lemma OneChain(t: Table, cs: seq<seq<Elem>>, nodes: seq<Elem>, c: nat)
    requires TableOk(t, cs, Elems(nodes)) && SameHash(nodes, c) && Distinct(nodes)
    ensures t.st.numBuckets > 0 && OnlyChain(cs, ToBkt(c, t.st.numBuckets))
    ensures |cs[ToBkt(c, t.st.numBuckets)]| == |nodes| == t.st.numItems
    ensures t.st.numBuckets == Pow2(t.st.log2NumBuckets) == |cs| == t.buckets.Length
  {
    hide StatsOk, ChainOk, Separate, Complete, Counted;
    ToBktIsMod(c, t.st.log2NumBuckets);
    var b := ToBkt(c, t.st.numBuckets);
    forall i, x | 0 <= i < |cs| && x in cs[i] ensures i == b {
      assert x in Elems(nodes) && BktOf(x, |cs|) == i;
    }
    forall i | 0 <= i < |cs| && i != b ensures cs[i] == [] {
      HasFirst(cs[i]);
    }
    SumsOfOne(cs, b, 0);
    ElemsCount(nodes);
  }

  /** Counters and multiplier of the one chain after `n` additions. */
  predicate Profile(n: nat, st: Counters, mult: nat) {
    if n < 10 then st == Counters(32, 5, n, 0, 0, 0, false) && mult == 0
    else if n < 100 then st == Counters(64, 6, n, 1, 9, 1, false) && mult == 9
    else st == Counters(128, 7, n, 1, 99, 2, true) && mult == 99
  }

  lemma Powers()
    ensures Pow2(5) == 32 && Pow2(6) == 64 && Pow2(7) == 128
  {
    assert Pow2(2) == 4 && Pow2(3) == 8 && Pow2(4) == 16;
  }

  /** The ideal length is one as long as there are no more items than buckets. */
  lemma IdealIsOne(n: nat, lb: nat)
    requires 0 < n <= Pow2(lb)
    ensures CeilShift(n, lb) == 1
  {
    hide Pow2, CeilShift;
    CeilShiftIsCeil(n, lb);
    assert n <= Pow2(lb) * 1;
    assert Pow2(lb) * 0 == 0;
  }

  /** What an expansion makes of a table with one chain. */
  lemma AfterExpansion(n: nat, st0: Counters, t: Table, cs: seq<seq<Elem>>, b: nat)
    requires Doubled(st0, t.st) && Judged(st0, t.st) && FreshStats(t, cs)
    requires t.st.numItems == n && OnlyChain(cs, b) && |cs[b]| == n
    requires 1 < n <= Pow2(t.st.log2NumBuckets) && !st0.noexpand
    ensures b < t.buckets.Length && t.buckets[b].expandMult == n - 1
    ensures t.st == Counters(2 * st0.numBuckets, st0.log2NumBuckets + 1, n, 1, n - 1,
                             if n - 1 > n / 2 then st0.ineffExpands + 1 else 0,
                             n - 1 > n / 2 && st0.ineffExpands + 1 > 1)
  {
    hide CeilShift, MultOf, Tallied, SumExcess, Pow2;
    IdealIsOne(n, t.st.log2NumBuckets);
    TalliedAt(t.buckets[..], cs, 1, b);
    MultExact(n, 1);
    SumsOfOne(cs, b, 1);
    assert Shr(n, 1) == n / 2 by { assert Shr(n / 2, 0) == n / 2; }
  }

  /** One more element: the profile moves on by one. */
  lemma ProfileNext(n: nat, st0: Counters, bkt: Bucket, b: nat, t: Table, cs: seq<seq<Elem>>, b': nat, c: nat)
    requires n > 0 && Profile(n, st0, bkt.expandMult) && bkt.count == n
    requires Grew(t, st0, b, bkt, cs)
    requires b == ToBkt(c, st0.numBuckets) && t.st.numBuckets > 0 && b' == ToBkt(c, t.st.numBuckets)
    requires OnlyChain(cs, b') && |cs[b']| == n + 1
    ensures b' < t.buckets.Length && Profile(n + 1, t.st, t.buckets[b'].expandMult)
  {
    hide OnlyChain, ToBkt, FreshStats, Judged, Pow2;
    Powers();
    if ChainFull(bkt, st0) {
      AfterExpansion(n + 1, st0, t, cs, b');
    }
  }

  /** The table after `n` additions with the hash value `c`. */
  ghost predicate Degenerate(head: Elem?, r: Rep, c: nat, n: nat)
    reads r.nodes`next, r.nodes`prev, r.nodes`tag, r.nodes`hhNext, r.nodes`hhPrev
    reads r.table, if r.table == null then {} else {r.table.buckets}
  {
    && Valid(head, r) && SameHash(r.nodes, c) && |r.nodes| == n
    && (r.table != null ==>
          && r.table.st.numBuckets > 0 && ToBkt(c, r.table.st.numBuckets) < r.table.buckets.Length
          && r.table.buckets[ToBkt(c, r.table.st.numBuckets)].count == n
          && Profile(n, r.table.st, r.table.buckets[ToBkt(c, r.table.st.numBuckets)].expandMult))
  }

  lemma SameHashSnoc(nodes: seq<Elem>, e: Elem, c: nat)
    requires SameHash(nodes, c) && e.tag.hashv == c
    ensures SameHash(nodes + [e], c)
  {
  }

  /** The chain of the hash value, in a valid table. */
  lemma ChainOf(head: Elem, r: Rep, c: nat)
    requires Valid(head, r) && SameHash(r.nodes, c)
    ensures r.table != null && r.table.st.numBuckets > 0 && r.table.buckets.Length == |r.chains|
    ensures OnlyChain(r.chains, ToBkt(c, r.table.st.numBuckets))
    ensures |r.chains[ToBkt(c, r.table.st.numBuckets)]| == |r.nodes|
    ensures r.table.buckets[ToBkt(c, r.table.st.numBuckets)].count == |r.nodes|
  {
    hide OnlyChain, ToBkt, SameHash;
    ValidParts(head, r);
    HashParts(head, r.table, r.nodes, r.chains);
    OneChain(r.table, r.chains, r.nodes, c);
    HashOkPasses(head, r.table, r.nodes, r.chains);
    OnlyChainIn(r.chains, ToBkt(c, r.table.st.numBuckets));
  }

  lemma OnlyChainIn(cs: seq<seq<Elem>>, b: nat)
    requires OnlyChain(cs, b)
    ensures b < |cs|
  {
  }

  /** One more addition to a table with one chain. */
  method AddOne(head: Elem?, add: Elem, key: Key, c: nat, ghost r: Rep, ghost n: nat)
    returns (head': Elem, ghost r': Rep)
    requires Degenerate(head, r, c, n) && add !in r.nodes && (n == 0 <==> r.table == null)
    modifies add, r.table, if r.table == null then {} else {r.table.buckets}
    modifies Elems(r.nodes)`next, Elems(r.nodes)`hhNext, Elems(r.nodes)`hhPrev
    ensures Degenerate(head', r', c, n + 1) && r'.nodes == r.nodes + [add] && r'.table != null
    ensures if r.table == null then fresh(r'.table) && fresh(r'.table.buckets)
            else r'.table == r.table && (r'.table.buckets == old(r.table.buckets) || fresh(r'.table.buckets))
  {
    hide Valid, Grew, ToBkt, Profile, OnlyChain, SameHash;
    ghost var st0, b0, bkt;
    if r.table != null {
      st0, b0 := r.table.st, ToBkt(c, r.table.st.numBuckets);
      bkt := r.table.buckets[b0];
    }
    head', r' := AddByHash(head, add, key, c, r);
    assert SameHash(r.nodes, c);
    SameHashSnoc(r.nodes, add, c);
    ChainOf(head', r', c);
    if r.table == null {
      FirstProfile(r'.table, c);
    } else {
      ProfileNext(n, st0, bkt, b0, r'.table, r'.chains, ToBkt(c, r'.table.st.numBuckets), c);
    }
  }

  lemma FirstProfile(t: Table, c: nat)
    requires NewTable(t, c)
    ensures t.st.numBuckets == INITIAL_NUM_BUCKETS && ToBkt(c, t.st.numBuckets) < t.buckets.Length
    ensures Profile(1, t.st, t.buckets[ToBkt(c, t.st.numBuckets)].expandMult)
  {
    hide ToBkt;
  }

  /** Adding any number of elements, with any keys, under a hash function that is
      constant: one chain of them all; no more expansion from the 100th element
      on; and the bound on the chain fails exactly from the 1001st element on. */
  method AddAll(es: seq<Elem>, keys: seq<Key>, c: nat) returns (head: Elem?, ghost r: Rep)
    requires Distinct(es) && |keys| == |es|
    modifies Elems(es)
    ensures Degenerate(head, r, c, |es|) && r.nodes == es && (es == [] <==> r.table == null)
  {
    hide Degenerate, Distinct;
    head, r := null, EMPTY;
    EmptyDegenerate(c);
    var i := 0;
    while i < |es|
      invariant i <= |es| && Degenerate(head, r, c, i) && r.nodes == es[..i] && (i == 0 <==> r.table == null)
      invariant Elems(r.nodes) <= Elems(es)
      invariant r.table != null ==> fresh(r.table) && fresh(r.table.buckets)
    {
      NotYet(es, i);
      head, r := AddOne(head, es[i], keys[i], c, r, i);
      assert es[..i + 1] == es[..i] + [es[i]];
      i := i + 1;
    }
    assert es[..i] == es;
  }

  lemma EmptyDegenerate(c: nat)
    ensures Degenerate(null, EMPTY, c, 0) && Elems(EMPTY.nodes) == {}
  {
  }

  lemma NotYet(es: seq<Elem>, i: nat)
    requires Distinct(es) && i < |es|
    ensures es[i] !in es[..i] && Elems(es[..i]) <= Elems(es) && Elems(es[..i + 1]) <= Elems(es) && es[i] in Elems(es)
  {
  }

  /** What that profile means: expansion stops at 100 elements, and the chain is
      longer than (expand_mult + 1) * max(10, ideal) exactly beyond 1000. */
  lemma BoundFailsBeyond1000(head: Elem, r: Rep, c: nat, n: nat)
    requires Degenerate(head, r, c, n)
    ensures r.table != null && r.table.st.numBuckets > 0
    ensures var b := ToBkt(c, r.table.st.numBuckets);
            && b < |r.chains| && |r.chains[b]| == n && OnlyChain(r.chains, b)
            && (r.table.st.noexpand <==> n >= 100)
            && (n <= (r.table.buckets[b].expandMult + 1) * Max(10, r.table.st.idealChainMaxlen) <==> n <= 1000)
  {
    hide Valid, ToBkt, OnlyChain, SameHash;
    ChainOf(head, r, c);
    OnlyChainIn(r.chains, ToBkt(c, r.table.st.numBuckets));
  }

  // ------------------------------------------------------------ tables with noexpand

  /** Counters, and count and multiplier of the chain of hash value `c`. */
  ghost predicate Shows(t: Table, c: nat, st: Counters, count: nat, mult: nat)
    reads t, t.buckets
  {
    && t.st == st && st.numBuckets > 0 && ToBkt(c, st.numBuckets) < t.buckets.Length
    && t.buckets[ToBkt(c, st.numBuckets)].count == count && t.buckets[ToBkt(c, st.numBuckets)].expandMult == mult
  }

  /** HASH_ADD to a table with `noexpand`: one more in the chain, and no other change. */
  method AddStalled(head: Elem, add: Elem, key: Key, c: nat, ghost r: Rep, ghost st: Counters, ghost count: nat,
                    ghost mult: nat)
    returns (head': Elem, ghost r': Rep)
    requires Valid(head, r) && add !in r.nodes && r.table != null && st.noexpand && Shows(r.table, c, st, count, mult)
    modifies add, r.table, r.table.buckets
    modifies Elems(r.nodes)`next, Elems(r.nodes)`hhNext, Elems(r.nodes)`hhPrev
    ensures Valid(head', r') && r'.nodes == r.nodes + [add] && r'.table == r.table
    ensures Shows(r.table, c, st.(numItems := st.numItems + 1), count + 1, mult)
    ensures r.table.buckets == old(r.table.buckets) || fresh(r.table.buckets)
  {
    hide Valid, ToBkt;
    head', r' := AddByHash(head, add, key, c, r);
  }

  /** Adding any elements of one hash value to a table with `noexpand`: multiplier
      and ideal length stay, the chain grows by all of them, and so its bound
      holds afterwards exactly if the bucket has room for them beforehand. */
  method AddAllStalled(head: Elem, es: seq<Elem>, keys: seq<Key>, c: nat, ghost r: Rep)
    returns (head': Elem, ghost r': Rep)
    requires Valid(head, r) && r.table != null && r.table.st.noexpand
    requires Distinct(es) && Apart(es, r.nodes) && |keys| == |es|
    modifies Elems(es), r.table, r.table.buckets
    modifies Elems(r.nodes)`next, Elems(r.nodes)`hhNext, Elems(r.nodes)`hhPrev
    ensures Valid(head', r') && r'.nodes == r.nodes + es && r'.table == r.table
    ensures r.table.st == old(r.table.st).(numItems := old(r.table.st.numItems) + |es|)
    ensures var b := ToBkt(c, r.table.st.numBuckets);
            && r.table.st.numBuckets > 0 && b < old(r.table.buckets.Length) && b < r.table.buckets.Length
            && b < |r.chains| && b < |r'.chains| && |r'.chains[b]| == |r.chains[b]| + |es|
            && r.table.buckets[b].expandMult == old(r.table.buckets[b].expandMult)
            && (|r'.chains[b]| <= (r.table.buckets[b].expandMult + 1) * Max(10, r.table.st.idealChainMaxlen) <==>
                  old(r.table.buckets[b].count) + |es| <=
                  (old(r.table.buckets[b].expandMult) + 1) * Max(10, old(r.table.st.idealChainMaxlen)))
  {
    hide Valid, ToBkt, Distinct, Apart, Shows, Elems;
    ghost var st := r.table.st;
    ghost var count, mult := Showing(head, r, c);
    head', r' := head, r;
    var i := 0;
    StartPile(es, r.nodes);
    while i < |es|
      invariant i <= |es| && Valid(head', r') && r'.nodes == r.nodes + es[..i] && r'.table == r.table
      invariant Shows(r.table, c, st.(numItems := st.numItems + i), count + i, mult)
      invariant Elems(r'.nodes) <= Elems(r.nodes) + Elems(es)
      invariant r.table.buckets == old(r.table.buckets) || fresh(r.table.buckets)
    {
      NextOnPile(es, r.nodes, i);
      head', r' := AddStalled(head', es[i], keys[i], c, r', st.(numItems := st.numItems + i), count + i, mult);
      i := i + 1;
    }
    assert es[..i] == es;
    ShownLength(head', r', c, st.(numItems := st.numItems + i), count + i, mult);
  }

  /** What a valid table shows for a hash value. */
  lemma Showing(head: Elem, r: Rep, c: nat) returns (count: nat, mult: nat)
    requires Valid(head, r) && r.table != null
    ensures Shows(r.table, c, r.table.st, count, mult)
    ensures var b := ToBkt(c, r.table.st.numBuckets);
            && r.table.st.numBuckets > 0 && b < r.table.buckets.Length == |r.chains|
            && count == r.table.buckets[b].count == |r.chains[b]| && mult == r.table.buckets[b].expandMult
  {
    hide Valid, ToBkt;
    ValidParts(head, r);
    HashParts(head, r.table, r.nodes, r.chains);
    BucketOf(r.table, r.chains, Elems(r.nodes), c);
    HashOkPasses(head, r.table, r.nodes, r.chains);
    var b := ToBkt(c, r.table.st.numBuckets);
    count, mult := r.table.buckets[b].count, r.table.buckets[b].expandMult;
  }

  lemma ShownLength(head: Elem, r: Rep, c: nat, st: Counters, count: nat, mult: nat)
    requires Valid(head, r) && r.table != null && Shows(r.table, c, st, count, mult)
    ensures var b := ToBkt(c, st.numBuckets);
            && r.table.st == st && b < r.table.buckets.Length && b < |r.chains|
            && |r.chains[b]| == count && r.table.buckets[b].expandMult == mult
  {
    hide Valid, ToBkt;
    var n, m := Showing(head, r, c);
  }

  lemma StartPile(es: seq<Elem>, nodes: seq<Elem>)
    ensures nodes + es[..0] == nodes && Elems(nodes) <= Elems(nodes) + Elems(es)
  {
  }

  lemma NextOnPile(es: seq<Elem>, nodes: seq<Elem>, i: nat)
    requires Distinct(es) && Apart(es, nodes) && i < |es|
    ensures es[i] !in nodes + es[..i] && nodes + es[..i + 1] == nodes + es[..i] + [es[i]]
    ensures es[i] in Elems(es) && Elems(nodes + es[..i + 1]) <= Elems(nodes) + Elems(es)
  {
  }
}
