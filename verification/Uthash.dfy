/** The hash table as its users see it: a head pointer, NULL when empty. */
module Uthash {
  import opened Elements
  import ChainStats
  import opened MergeSort
  import opened Insertion
  import opened Buckets
  import opened Expand
  import opened TableCore
  import opened AppList
  import opened HashTables

  /** `s` without its element `x`. */
  ghost function Without<T>(s: seq<T>, x: T): seq<T> {
    if s == [] then [] else if s[0] == x then s[1..] else [s[0]] + Without(s[1..], x)
  }

  lemma {:induction false} WithoutAt(s: seq<Elem>, k: nat)
    requires Distinct(s) && k < |s|
    ensures Without(s, s[k]) == RemoveAt(s, k)
  {
    if k > 0 {
      WithoutAt(s[1..], k - 1);
      assert s[1..][..k - 1] == s[1..k];
      assert RemoveAt(s, k) == [s[0]] + RemoveAt(s[1..], k - 1);
    }
  }

  /** What a head pointer stands for: the elements in application order, their
      chains, and the table their `tbl` fields point to. */
  datatype Rep = Rep(nodes: seq<Elem>, chains: seq<seq<Elem>>, table: Table?)

  const EMPTY := Rep([], [], null)

  ghost predicate Valid(head: Elem?, r: Rep)
    reads r.nodes`next, r.nodes`prev, r.nodes`tag, r.nodes`hhNext, r.nodes`hhPrev
    reads r.table, if r.table == null then {} else {r.table.buckets}
  {
    if r.nodes == [] then head == null && r == EMPTY
    else r.table != null && HashOk(head, r.table, r.nodes, r.chains)
  }

  lemma ValidDistinct(head: Elem?, r: Rep)
    requires Valid(head, r)
    ensures Distinct(r.nodes)
  {
  }

  lemma ValidParts(head: Elem, r: Rep)
    requires Valid(head, r)
    ensures r.nodes != [] && r.table != null && HashOk(head, r.table, r.nodes, r.chains)
    ensures head in r.nodes && head.tag.tbl == r.table
  {
    hide TableOk;
  }

  lemma ValidAgain(head: Elem, r: Rep)
    requires r.table != null && HashOk(head, r.table, r.nodes, r.chains)
    ensures Valid(head, r)
  {
  }

  lemma ValidEmpty(r: Rep)
    requires Valid(null, r)
    ensures r == EMPTY
  {
    hide TableOk;
  }

  /** HASH_ADD_KEYPTR_BYHASHVALUE. */
  method AddByHash(head: Elem?, add: Elem, key: Key, hashv: nat, ghost r: Rep) returns (head': Elem, ghost r': Rep)
    requires Valid(head, r) && add !in r.nodes
    modifies add, r.table, if r.table == null then {} else {r.table.buckets}
    modifies Elems(r.nodes)`next, Elems(r.nodes)`hhNext, Elems(r.nodes)`hhPrev
    ensures Valid(head', r') && r'.nodes == r.nodes + [add] && add.tag == Tag(r'.table, key, hashv)
    ensures if r.table == null then
              r'.table != null && fresh(r'.table) && fresh(r'.table.buckets) && NewTable(r'.table, hashv)
            else r'.table == r.table && Grown(r.table, hashv, r'.chains)
  {
    hide Valid, HashOk, Grown, NewTable;
    ghost var cs;
    if head == null {
      ValidEmpty(r);
      var t;
      t, cs := FirstEntry(add, key, hashv);
      head' := add;
      r' := Rep([add], cs, t);
    } else {
      ValidParts(head, r);
      head' := head;
      var t := head.tag.tbl;
      cs := AddEntry(head, add, key, hashv, t, r.nodes, r.chains);
      r' := Rep(r.nodes + [add], cs, t);
    }
    ValidAgain(head', r');
  }

  lemma InOrderNotEmpty(cmp: (Elem, Elem) -> int, add: Elem, s: seq<Elem>)
    ensures InsertAfterEquals(cmp, add, s) != [] && InsertAfterEquals(cmp, add, []) == [add]
  {
  }

  /** HASH_ADD_KEYPTR_BYHASHVALUE_INORDER. */
  method AddByHashInOrder(head: Elem?, add: Elem, key: Key, hashv: nat, cmp: (Elem, Elem) -> int, ghost r: Rep)
    returns (head': Elem, ghost r': Rep)
    requires Valid(head, r) && add !in r.nodes
    modifies add, r.table, if r.table == null then {} else {r.table.buckets}
    modifies Elems(r.nodes)`next, Elems(r.nodes)`prev, Elems(r.nodes)`hhNext, Elems(r.nodes)`hhPrev
    ensures Valid(head', r') && r'.nodes == InsertAfterEquals(cmp, add, r.nodes) && add.tag == Tag(r'.table, key, hashv)
    ensures if r.table == null then
              r'.table != null && fresh(r'.table) && fresh(r'.table.buckets) && NewTable(r'.table, hashv)
            else r'.table == r.table && Grown(r.table, hashv, r'.chains)
  {
    hide Valid, HashOk, Grown, NewTable, InsertAfterEquals;
    ghost var cs;
    InOrderNotEmpty(cmp, add, r.nodes);
    if head == null {
      ValidEmpty(r);
      var t;
      t, cs := FirstEntry(add, key, hashv);
      head' := add;
      r' := Rep([add], cs, t);
    } else {
      ValidParts(head, r);
      var t := head.tag.tbl;
      head', cs := AddEntryInOrder(head, add, key, hashv, cmp, t, r.nodes, r.chains);
      r' := Rep(InsertAfterEquals(cmp, add, r.nodes), cs, t);
    }
    ValidAgain(head', r');
  }

  /** HASH_FIND_BYHASHVALUE: the first match of the bucket, which is a match of
      the table, and null only if the table has none. */
  method FindByHash(head: Elem?, key: Key, hashv: nat, ghost r: Rep) returns (out: Elem?)
    requires Valid(head, r)
    ensures out == null ==> forall x :: x in r.nodes ==> !Match(x, key, hashv)
    ensures out != null ==> out in r.nodes && Match(out, key, hashv)
    ensures r.table != null ==> r.table.st.numBuckets > 0 && ToBkt(hashv, r.table.st.numBuckets) < |r.chains|
    ensures r.table != null ==> FirstMatch(out, r.chains[ToBkt(hashv, r.table.st.numBuckets)], key, hashv)
  {
    hide Valid, HashOk, ToBkt, FirstMatch;
    out := null;
    if head != null {
      ValidParts(head, r);
      out := FindEntry(head, key, hashv, r.table, r.nodes, r.chains);
    } else {
      ValidEmpty(r);
    }
  }

  /** Both neighbours are missing exactly if the element is alone. */
  lemma Position(head: Elem, del: Elem, r: Rep) returns (k: nat)
    requires Valid(head, r) && del in r.nodes
    ensures k < |r.nodes| && r.nodes[k] == del && RemoveAt(r.nodes, k) == Without(r.nodes, del)
    ensures del.prev == null && del.next == null <==> |r.nodes| == 1
    ensures |r.nodes| == 1 ==> Without(r.nodes, del) == []
    ensures head.tag.tbl == r.table
  {
    k :| 0 <= k < |r.nodes| && r.nodes[k] == del;
    AppNeighbours(r.nodes, k);
    WithoutAt(r.nodes, k);
    assert head in r.nodes;
  }

  /** HASH_DELETE_HH.  `released` is the memory given back. */
  method Delete(head: Elem, del: Elem, ghost r: Rep) returns (head': Elem?, ghost r': Rep, ghost released: set<object>)
    requires Valid(head, r) && del in r.nodes && r.table != null
    modifies r.table, r.table.buckets
    modifies Elems(r.nodes)`next, Elems(r.nodes)`prev, Elems(r.nodes)`hhNext, Elems(r.nodes)`hhPrev
    ensures Valid(head', r') && r'.nodes == Without(r.nodes, del)
    ensures r.table.buckets == old(r.table.buckets)
    ensures r'.table == (if |r.nodes| == 1 then null else r.table)
    ensures released == if |r.nodes| == 1 then {r.table, r.table.buckets} else {}
    ensures |r.nodes| > 1 ==> r.table.st == old(r.table.st).(numItems := old(r.table.st.numItems) - 1)
  {
    hide Valid, HashOk, Without;
    ghost var k := Position(head, del, r);
    ValidParts(head, r);
    if del.prev == null && del.next == null {
      head', r', released := null, EMPTY, {r.table, r.table.buckets};
      EmptyValid();
    } else {
      var t := head.tag.tbl;
      ghost var cs;
      head', cs := DeleteEntry(head, del, t, r.nodes, k, r.chains);
      r', released := Rep(Without(r.nodes, del), cs, t), {};
      ValidAgain(head', r');
    }
  }

  lemma EmptyValid()
    ensures Valid(null, EMPTY)
  {
  }

  /** HASH_SRT. */
  method SortTable(head: Elem?, cmp: (Elem, Elem) -> int, ghost r: Rep) returns (head': Elem?, ghost r': Rep)
    requires Valid(head, r)
    modifies r.table, Elems(r.nodes)`next, Elems(r.nodes)`prev
    ensures Valid(head', r') && r' == r.(nodes := Sort(cmp, r.nodes))
    ensures r.table != null ==> r.table.buckets == old(r.table.buckets) && r.table.st == old(r.table.st)
  {
    hide Valid, HashOk, Sort;
    head', r' := head, r.(nodes := Sort(cmp, r.nodes));
    if head != null {
      ValidParts(head, r);
      head' := SortEntries(head, cmp, head.tag.tbl, r.nodes, r.chains);
      ValidAgain(head', r');
    } else {
      ValidEmpty(r);
      NothingToSort(cmp);
    }
  }

  lemma NothingToSort(cmp: (Elem, Elem) -> int)
    ensures Sort(cmp, []) == []
  {
  }

  /** All links that HASH_FSCK follows come to an end. */
  ghost predicate Ends(head: Elem?, r: Rep, ms: set<Elem>)
    reads head, r.nodes`next, r.table, if r.table == null then {} else {r.table.buckets}, ms`hhNext
  {
    head != null ==>
      && r.table != null && head.tag.tbl == r.table && head == First(r.nodes) && Chain(r.nodes, null)
      && ChainsEnd(r.table, r.chains, ms)
  }

  /** What HASH_FSCK names in its messages: back links, bucket counts, item counts. */
  ghost predicate Checked(head: Elem?, r: Rep, ms: set<Elem>)
    requires Ends(head, r, ms)
    reads head, r.nodes`next, r.nodes`prev, r.table, if r.table == null then {} else {r.table.buckets}
    reads ms`hhNext, ms`hhPrev
  {
    head != null ==>
      BucketsRight(r.table, r.chains, ms) && Back(r.nodes, null) && r.table.st.numItems == |r.nodes|
  }

  lemma WhatIsNamed(t: Table, cs: seq<seq<Elem>>, ms: set<Elem>)
    requires ChainsEnd(t, cs, ms)
    ensures |cs| == t.buckets.Length && Covers(ms, cs)
    ensures BucketsRight(t, cs, ms) <==>
              && (forall b :: 0 <= b < |cs| ==> HPrev(cs[b]) && t.buckets[b].count == |cs[b]|)
              && t.st.numItems == ChainStats.SumLens(cs)
  {
  }

  /** HASH_FSCK, on any structure whose links come to an end: it passes exactly
      if what it names is right. */
  method Fsck(head: Elem?, ghost r: Rep, ghost ms: set<Elem>) returns (ok: bool)
    requires Ends(head, r, ms)
    ensures ok <==> Checked(head, r, ms)
    ensures head != null ==>
              (ok <==> && (forall b :: 0 <= b < |r.chains| ==>
                             HPrev(r.chains[b]) && r.table.buckets[b].count == |r.chains[b]|)
                       && Back(r.nodes, null) && r.table.st.numItems == |r.nodes| == ChainStats.SumLens(r.chains))
  {
    hide ChainsEnd, BucketsRight, Chain, Back, HPrev;
    ok := true;
    if head != null {
      WhatIsNamed(r.table, r.chains, ms);
      ok := FsckBuckets(head.tag.tbl, r.chains, ms);
      if ok {
        ok := FsckOrder(head, head.tag.tbl, r.nodes);
      }
    }
  }

  /** Every operation leaves a table that passes. */
  lemma ValidPasses(head: Elem?, r: Rep)
    requires Valid(head, r)
    ensures Ends(head, r, Elems(r.nodes)) && Checked(head, r, Elems(r.nodes))
  {
    hide HashOk, ChainsEnd, BucketsRight;
    if head != null {
      ValidParts(head, r);
      HashOkPasses(head, r.table, r.nodes, r.chains);
    }
  }

  /** HASH_COUNT. */
  method Count(head: Elem?, ghost r: Rep) returns (n: nat)
    requires Valid(head, r)
    ensures n == |r.nodes|
  {
    ElemsCount(r.nodes);
    n := if head != null then head.tag.tbl.st.numItems else 0;
  }

  /** What the invariant says about the length of chains, which every operation
      keeps: bounded while expansion is possible; and when it is not. */
  lemma ChainsAreBounded(head: Elem?, r: Rep, b: nat)
    requires Valid(head, r) && r.table != null && b < |r.chains|
    ensures b < r.table.buckets.Length == r.table.st.numBuckets && r.table.buckets[b].count == |r.chains[b]|
    ensures r.table.st.noexpand <==> r.table.st.ineffExpands == 2
    ensures r.table.st.ineffExpands <= 2
    ensures !r.table.st.noexpand ==>
              |r.chains[b]| <= (r.table.buckets[b].expandMult + 1) * Max(10, r.table.st.idealChainMaxlen)
  {
    hide ListOk, ChainsOk, Complete, Separate;
    assert r.table.buckets[..][b] == r.table.buckets[b];
    assert Bounded(r.table.buckets[..][b], r.table.st.idealChainMaxlen) || r.table.st.noexpand;
  }
}
