/** The uthash table: application order and buckets together. */
module HashTables {
  import opened Elements
  import opened MergeSort
  import opened Insertion
  import opened BitArith
  import opened Buckets
  import opened ChainStats
  import opened Expand
  import opened TableCore
  import opened AppList

  const INITIAL_NUM_BUCKETS := 32
  const INITIAL_NUM_BUCKETS_LOG2 := 5

  /** The non-empty table `t` reached from `head` holds the elements `s` in
      application order and the chains `cs`. */
  ghost predicate HashOk(head: Elem?, t: Table, s: seq<Elem>, cs: seq<seq<Elem>>)
    reads s`next, s`prev, s`tag, s`hhNext, s`hhPrev, t, t.buckets
  {
    s != [] && ListOk(head, t, s) && TableOk(t, cs, Elems(s))
  }

  /** The two halves of a table; a table, its bucket array and its elements
      are different objects. */
  lemma HashParts(head: Elem?, t: Table, s: seq<Elem>, cs: seq<seq<Elem>>)
    requires HashOk(head, t, s, cs)
    ensures s != [] && ListOk(head, t, s) && TableOk(t, cs, Elems(s)) && Distinct(s)
    ensures head in s && head.tag.tbl == t
    ensures OtherObjects(t, Elems(s))
  {
    hide TableOk, Chain, Back;
  }

  ghost predicate OtherObjects(t: Table, ms: set<Elem>)
    reads t`buckets
  {
    t.buckets as object != t && t.buckets as object !in ms && t as object !in ms
  }

  lemma HashAgain(head: Elem, t: Table, s: seq<Elem>, cs: seq<seq<Elem>>)
    requires s != [] && ListOk(head, t, s) && TableOk(t, cs, Elems(s))
    ensures HashOk(head, t, s, cs)
  {
  }

  /** HASH_ADD_TO_TABLE once the application order is in place. */
  method FinishAdd(head: Elem, t: Table, add: Elem, ghost s: seq<Elem>, ghost s': seq<Elem>,
                   ghost cs: seq<seq<Elem>>)
    returns (ghost cs': seq<seq<Elem>>)
    requires ListOk(head, t, s') && s' != [] && TableOk(t, cs, Elems(s))
    requires add !in Elems(s) && Elems(s') == Elems(s) + {add} && OtherObjects(t, Elems(s'))
    modifies t`st, t`buckets, t.buckets, Elems(s')`hhNext, Elems(s')`hhPrev
    ensures HashOk(head, t, s', cs') && Grown(t, add.tag.hashv, cs')
  {
    hide ListOk, TableOk, FreshStats, Grown, HashOk, Elems;
    ghost var ms := Elems(s);
    assert Elems(s') == ms + {add};
    cs' := AddToTable(t, add, cs, ms);
    HashAgain(head, t, s', cs');
  }

  /** The hash-table half of deletion, after the application order was repaired. */
  method FinishDel(head: Elem, t: Table, del: Elem, ghost s: seq<Elem>, ghost s': seq<Elem>,
                   ghost cs: seq<seq<Elem>>)
    returns (ghost cs': seq<seq<Elem>>)
    requires ListOk(head, t, s') && s' != [] && TableOk(t, cs, Elems(s))
    requires del in Elems(s) && Elems(s') == Elems(s) - {del} && OtherObjects(t, Elems(s))
    modifies t`st, t.buckets, Elems(s)`hhNext, Elems(s)`hhPrev
    ensures HashOk(head, t, s', cs') && t.st == old(t.st).(numItems := old(t.st.numItems) - 1)
  {
    hide ListOk, TableOk, HashOk, Elems;
    ghost var ms := Elems(s);
    assert Elems(s') == ms - {del};
    cs' := DelFromTable(t, del, cs, ms);
    HashAgain(head, t, s', cs');
  }

  lemma ElemsInOrder(cmp: (Elem, Elem) -> int, x: Elem, s: seq<Elem>)
    ensures Elems(InsertAfterEquals(cmp, x, s)) == Elems(s) + {x} && InsertAfterEquals(cmp, x, s) != []
  {
    AfterEqualsPermutes(cmp, x, s);
    assert multiset(InsertAfterEquals(cmp, x, s)) == multiset(s + [x]);
    InPlaceSort.ElemsOfPermutation(InsertAfterEquals(cmp, x, s), s + [x]);
    ElemsAppend(s, x);
  }

  lemma ElemsRemove(s: seq<Elem>, k: nat)
    requires k < |s| && Distinct(s)
    ensures Elems(RemoveAt(s, k)) == Elems(s) - {s[k]}
  {
    RemoveElems(s, k);
  }

  /** The application-order half of HASH_ADD_KEYPTR_BYHASHVALUE leaves the buckets alone. */
  method AppendBeside(head: Elem, add: Elem, key: Key, hashv: nat, t: Table,
                      ghost s: seq<Elem>, ghost cs: seq<seq<Elem>>)
    requires s != [] && ListOk(head, t, s) && TableOk(t, cs, Elems(s)) && OtherObjects(t, Elems(s)) && add !in s
    modifies add`tag, add`next, add`prev, t`tail, Elems(s)`next
    ensures ListOk(head, t, s + [add]) && TableOk(t, cs, Elems(s)) && add.tag == Tag(t, key, hashv)
  {
    hide ListOk, TableOk;
    ghost var ms := Elems(s);
    assert t.buckets as object != add && t as object != add && add !in ms;
    AppendNew(head, add, key, hashv, t, s);
  }

  /** HASH_ADD_KEYPTR_BYHASHVALUE on a non-empty table. */
  method AddEntry(head: Elem, add: Elem, key: Key, hashv: nat, t: Table,
                  ghost s: seq<Elem>, ghost cs: seq<seq<Elem>>)
    returns (ghost cs': seq<seq<Elem>>)
    requires HashOk(head, t, s, cs) && add !in s
    modifies add`tag, add`next, add`prev, add`hhNext, add`hhPrev
    modifies t, t.buckets, Elems(s)`next, Elems(s)`hhNext, Elems(s)`hhPrev
    ensures HashOk(head, t, s + [add], cs') && add.tag == Tag(t, key, hashv) && Grown(t, hashv, cs')
  {
    hide HashOk, ListOk, TableOk, Grew, ToBkt, Distinct;
    HashParts(head, t, s, cs);
    ElemsAppend(s, add);
    assert t.buckets as object != add && t as object != add && add !in Elems(s);
    AppendBeside(head, add, key, hashv, t, s, cs);
    cs' := FinishAdd(head, t, add, s, s + [add], cs);
  }

  method InsertBeside(head: Elem, add: Elem, key: Key, hashv: nat, cmp: (Elem, Elem) -> int, t: Table,
                      ghost s: seq<Elem>, ghost cs: seq<seq<Elem>>)
    returns (head': Elem)
    requires s != [] && ListOk(head, t, s) && TableOk(t, cs, Elems(s)) && OtherObjects(t, Elems(s)) && add !in s
    modifies add`tag, add`next, add`prev, t`tail, Elems(s)`next, Elems(s)`prev
    ensures ListOk(head', t, InsertAfterEquals(cmp, add, s)) && TableOk(t, cs, Elems(s))
    ensures add.tag == Tag(t, key, hashv)
  {
    hide ListOk, TableOk, InsertAfterEquals;
    ghost var ms := Elems(s);
    assert t.buckets as object != add && t as object != add && add !in ms;
    head' := InsertNew(head, add, key, hashv, cmp, t, s);
  }

  /** HASH_ADD_KEYPTR_BYHASHVALUE_INORDER on a non-empty table. */
  method AddEntryInOrder(head: Elem, add: Elem, key: Key, hashv: nat, cmp: (Elem, Elem) -> int, t: Table,
                         ghost s: seq<Elem>, ghost cs: seq<seq<Elem>>)
    returns (head': Elem, ghost cs': seq<seq<Elem>>)
    requires HashOk(head, t, s, cs) && add !in s
    modifies add`tag, add`next, add`prev, add`hhNext, add`hhPrev
    modifies t, t.buckets, Elems(s)`next, Elems(s)`prev, Elems(s)`hhNext, Elems(s)`hhPrev
    ensures HashOk(head', t, InsertAfterEquals(cmp, add, s), cs') && add.tag == Tag(t, key, hashv)
    ensures Grown(t, hashv, cs')
  {
    hide HashOk, ListOk, TableOk, Grew, ToBkt, Distinct, InsertAfterEquals;
    HashParts(head, t, s, cs);
    ghost var s' := InsertAfterEquals(cmp, add, s);
    ElemsInOrder(cmp, add, s);
    assert t.buckets as object != add && t as object != add && add !in Elems(s);
    head' := InsertBeside(head, add, key, hashv, cmp, t, s, cs);
    cs' := FinishAdd(head', t, add, s, s', cs);
  }

  /** A table that holds its first element, of the given hash value. */
  ghost predicate NewTable(t: Table, hashv: nat)
    reads t, t.buckets
  {
    && t.st == Counters(INITIAL_NUM_BUCKETS, INITIAL_NUM_BUCKETS_LOG2, 1, 0, 0, 0, false)
    && ToBkt(hashv, INITIAL_NUM_BUCKETS) < t.buckets.Length
    && t.buckets[ToBkt(hashv, INITIAL_NUM_BUCKETS)].count == 1
    && t.buckets[ToBkt(hashv, INITIAL_NUM_BUCKETS)].expandMult == 0
  }

  /** HASH_MAKE_TABLE and the first addition. */
  method FirstEntry(add: Elem, key: Key, hashv: nat) returns (t: Table, ghost cs: seq<seq<Elem>>)
    modifies add
    ensures HashOk(add, t, [add], cs) && add.tag == Tag(t, key, hashv)
    ensures fresh(t) && fresh(t.buckets) && NewTable(t, hashv)
  {
    hide TableOk, HashOk, ToBkt, FreshStats;
    add.next, add.prev := null, null;
    t := new Table(INITIAL_NUM_BUCKETS, INITIAL_NUM_BUCKETS_LOG2, add);
    add.tag := Tag(t, key, hashv);
    cs := seq(INITIAL_NUM_BUCKETS, _ => []);
    EmptyTableOk(t, cs);
    assert Elems([]) == {} && Elems([add]) == {add};
    cs := FinishAdd(add, t, add, [], [add], cs);
  }

  lemma EmptyTableOk(t: Table, cs: seq<seq<Elem>>)
    requires t.st == Counters(INITIAL_NUM_BUCKETS, INITIAL_NUM_BUCKETS_LOG2, 0, 0, 0, 0, false)
    requires t.buckets.Length == |cs| == INITIAL_NUM_BUCKETS
    requires forall b :: 0 <= b < |cs| ==> cs[b] == [] && t.buckets[b] == Bucket(null, 0, 0)
    ensures TableOk(t, cs, {})
  {
    assert Pow2(5) == 32 by {
      assert Pow2(2) == 4 && Pow2(3) == 8;
    }
    SumsOfEmpty(cs, 0);
  }

  /** Everything a lookup needs to know about one bucket: the chain is in
      order, and holds every element that has the hash value. */
  lemma BucketOf(t: Table, cs: seq<seq<Elem>>, ms: set<Elem>, hashv: nat)
    requires TableOk(t, cs, ms) && t.st.numBuckets > 0
    ensures var b := ToBkt(hashv, t.st.numBuckets);
            && b < |cs| == t.buckets.Length && ChainOk(t.buckets[b].hhHead, cs[b])
            && (forall x :: x in cs[b] ==> x in ms)
            && (forall x :: x in ms && x.tag.hashv == hashv ==> x in cs[b])
  {
    ToBktIsMod(hashv, t.st.log2NumBuckets);
    hide StatsOk, Counted, ChainOk, Separate;
    assert t.buckets[..][ToBkt(hashv, t.st.numBuckets)] == t.buckets[ToBkt(hashv, t.st.numBuckets)];
  }

  /** What the first match of its bucket says about the whole table. */
  lemma MatchOf(s: seq<Elem>, c: seq<Elem>, out: Elem?, key: Key, hashv: nat)
    requires FirstMatch(out, c, key, hashv) && Elems(c) <= Elems(s)
    requires forall x :: x in Elems(s) && x.tag.hashv == hashv ==> x in c
    ensures out == null ==> forall x :: x in s ==> !Match(x, key, hashv)
    ensures out != null ==> out in s && Match(out, key, hashv)
  {
    if out == null {
      forall x | x in s ensures !Match(x, key, hashv) {
        assert x in Elems(s);
      }
    } else {
      assert out in Elems(c);
    }
  }

  /** HASH_FIND_BYHASHVALUE on a non-empty table: the first match of the bucket. */
  method FindEntry(head: Elem, key: Key, hashv: nat, ghost t: Table, ghost s: seq<Elem>, ghost cs: seq<seq<Elem>>)
    returns (out: Elem?)
    requires HashOk(head, t, s, cs)
    ensures out == null ==> forall x :: x in s ==> !Match(x, key, hashv)
    ensures out != null ==> out in s && Match(out, key, hashv)
    ensures t.st.numBuckets > 0 && ToBkt(hashv, t.st.numBuckets) < |cs|
    ensures FirstMatch(out, cs[ToBkt(hashv, t.st.numBuckets)], key, hashv)
  {
    hide HashOk, TableOk, ListOk, ToBkt, ChainOk, Distinct, FirstMatch;
    HashParts(head, t, s, cs);
    TableParts(t, cs, Elems(s));
    BucketOf(t, cs, Elems(s), hashv);
    var b := ToBkt(hashv, head.tag.tbl.st.numBuckets);
    out := FindInBkt(head.tag.tbl.buckets[b].hhHead, key, hashv, cs[b]);
    MatchOf(s, cs[b], out, key, hashv);
  }

  /** The application-order half of HASH_DELETE_HH leaves the buckets alone. */
  method UnlinkBeside(head: Elem, del: Elem, t: Table, ghost s: seq<Elem>, ghost k: nat, ghost cs: seq<seq<Elem>>)
    returns (head': Elem)
    requires ListOk(head, t, s) && TableOk(t, cs, Elems(s)) && OtherObjects(t, Elems(s))
    requires k < |s| && s[k] == del && |s| > 1
    modifies t`tail, Elems(s)`next, Elems(s)`prev
    ensures ListOk(head', t, RemoveAt(s, k)) && TableOk(t, cs, Elems(s))
  {
    hide ListOk, TableOk, RemoveAt;
    head' := UnlinkList(head, del, t, s, k);
  }

  /** HASH_DELETE_HH when other elements remain. */
  method DeleteEntry(head: Elem, del: Elem, t: Table, ghost s: seq<Elem>, ghost k: nat, ghost cs: seq<seq<Elem>>)
    returns (head': Elem, ghost cs': seq<seq<Elem>>)
    requires HashOk(head, t, s, cs) && k < |s| && s[k] == del && |s| > 1
    modifies t, t.buckets, Elems(s)`next, Elems(s)`prev, Elems(s)`hhNext, Elems(s)`hhPrev
    ensures HashOk(head', t, RemoveAt(s, k), cs') && t.buckets == old(t.buckets)
    ensures t.st == old(t.st).(numItems := old(t.st.numItems) - 1)
  {
    hide HashOk, ListOk, TableOk, Distinct;
    HashParts(head, t, s, cs);
    ghost var s' := RemoveAt(s, k);
    assert s' != [];
    ElemsRemove(s, k);
    head' := UnlinkBeside(head, del, t, s, k, cs);
    cs' := FinishDel(head', t, del, s, s', cs);
  }

  /** HASH_SRT on a non-empty table: buckets are not touched. */
  method SortEntries(head: Elem, cmp: (Elem, Elem) -> int, t: Table, ghost s: seq<Elem>, ghost cs: seq<seq<Elem>>)
    returns (head': Elem)
    requires HashOk(head, t, s, cs)
    modifies Elems(s)`next, Elems(s)`prev, t`tail
    ensures HashOk(head', t, Sort(cmp, s), cs)
  {
    hide ListOk, TableOk, HashOk, Sort, Distinct;
    HashParts(head, t, s, cs);
    ghost var passes, moves;
    head', passes, moves := SortApp(head, cmp, t, s);
    HashAgain(head', t, Sort(cmp, s), cs);
  }

  /** The bucket loop of HASH_FSCK for one chain.  It needs no more than that the
      chain ends, and passes exactly if back links and stored count are right. */
  method FsckBucket(bkt: Bucket, ghost c: seq<Elem>) returns (ok: bool, count: nat)
    requires bkt.hhHead == First(c) && HNext(c)
    ensures count == |c| && (ok <==> HPrev(c) && bkt.count == |c|)
  {
    count, ok := 0, true;
    var thh, prev := bkt.hhHead, null;
    while thh != null
      invariant count <= |c|
      invariant thh == if count < |c| then c[count] else null
      invariant prev == if count == 0 then null else c[count - 1]
      invariant ok <==> forall i {:trigger c[i].hhPrev} :: 0 <= i < count ==>
                          c[i].hhPrev == if i == 0 then null else c[i - 1]
      decreases |c| - count
    {
      if prev != thh.hhPrev { ok := false; }
      count := count + 1;
      prev := thh;
      thh := thh.hhNext;
    }
    if bkt.count != count { ok := false; }
  }

  lemma {:induction false} SumLensSnoc(cs: seq<seq<Elem>>, i: nat)
    requires i < |cs|
    ensures SumLens(cs[..i + 1]) == SumLens(cs[..i]) + |cs[i]|
  {
    assert cs[..i + 1] == cs[..i] + [cs[i]];
    SumLensConcat(cs[..i], [cs[i]]);
    assert SumLens([cs[i]]) == |cs[i]| + SumLens<Elem>([]);
  }

  /** Following `hh_next` from every bucket ends, after the elements `cs`. */
  ghost predicate ChainsEnd(t: Table, cs: seq<seq<Elem>>, ms: set<Elem>)
    reads t, t.buckets, ms`hhNext
  {
    && Covers(ms, cs) && t.st.numBuckets == t.buckets.Length == |cs|
    && forall b :: 0 <= b < |cs| ==> t.buckets[b].hhHead == First(cs[b]) && HNext(cs[b])
  }

  /** What the bucket half of HASH_FSCK names: back links and counts. */
  ghost predicate BucketsRight(t: Table, cs: seq<seq<Elem>>, ms: set<Elem>)
    requires t.buckets.Length == |cs| && Covers(ms, cs)
    reads t, t.buckets, ms`hhPrev
  {
    (forall b :: 0 <= b < |cs| ==> HPrev(cs[b]) && t.buckets[b].count == |cs[b]|) && t.st.numItems == SumLens(cs)
  }

  /** The bucket half of HASH_FSCK passes exactly if what it names is right. */
  method FsckBuckets(t: Table, ghost cs: seq<seq<Elem>>, ghost ms: set<Elem>) returns (ok: bool)
    requires ChainsEnd(t, cs, ms)
    ensures ok <==> BucketsRight(t, cs, ms)
  {
    hide SumLens, HNext, HPrev;
    ok := true;
    var i, total := 0, 0;
    SumsOfEmpty(cs[..0], 0);
    while i < t.st.numBuckets
      invariant i <= t.st.numBuckets && total == SumLens(cs[..i])
      invariant ok <==> forall b :: 0 <= b < i ==> HPrev(cs[b]) && t.buckets[b].count == |cs[b]|
    {
      var o, n := FsckBucket(t.buckets[i], cs[i]);
      SumLensSnoc(cs, i);
      total := total + n;
      ok := ok && o;
      i := i + 1;
    }
    assert cs[..i] == cs;
    ok := ok && total == t.st.numItems;
  }

  lemma {:induction false} ElemsCount(s: seq<Elem>)
    requires Distinct(s)
    ensures |Elems(s)| == |s|
  {
    if s != [] {
      var r := s[..|s| - 1];
      assert forall i :: 0 <= i < |r| ==> r[i] == s[i];
      assert s == r + [s[|s| - 1]];
      ElemsCount(r);
      assert Elems(s) == Elems(r) + {s[|s| - 1]};
      assert s[|s| - 1] !in Elems(r);
    } else {
      assert Elems(s) == {};
    }
  }

  /** The application-order half of HASH_FSCK, for any list that ends. */
  method FsckOrder(head: Elem, t: Table, ghost s: seq<Elem>) returns (ok: bool)
    requires head == First(s) && Chain(s, null)
    ensures ok <==> Back(s, null) && t.st.numItems == |s|
  {
    ok := true;
    var count: nat, thh: Elem?, prev: Elem? := 0, head, null;
    while thh != null
      invariant count <= |s|
      invariant thh == if count < |s| then s[count] else null
      invariant prev == if count == 0 then null else s[count - 1]
      invariant ok <==> forall i {:trigger s[i].prev} :: 0 <= i < count ==>
                          s[i].prev == if i == 0 then null else s[i - 1]
      decreases |s| - count
    {
      count := count + 1;
      if prev != thh.prev { ok := false; }
      prev := thh;
      thh := thh.next;
    }
    ok := ok && count == t.st.numItems;
  }

  /** A sound table has all that HASH_FSCK looks for. */
  lemma HashOkPasses(head: Elem?, t: Table, s: seq<Elem>, cs: seq<seq<Elem>>)
    requires HashOk(head, t, s, cs)
    ensures head == First(s) && Chain(s, null) && ChainsEnd(t, cs, Elems(s))
    ensures BucketsRight(t, cs, Elems(s)) && Back(s, null) && t.st.numItems == |s|
  {
    hide Complete, Separate, Placed, StatsOk;
    ElemsCount(s);
    forall b | 0 <= b < |cs| ensures t.buckets[b].hhHead == First(cs[b]) && HNext(cs[b]) && HPrev(cs[b]) {
      assert t.buckets[..][b] == t.buckets[b];
      assert ChainOk(t.buckets[..][b].hhHead, cs[b]);
    }
    forall b | 0 <= b < |cs| ensures t.buckets[b].count == |cs[b]| {
      assert t.buckets[..][b] == t.buckets[b];
    }
  }
}
