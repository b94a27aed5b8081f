/** HASH_EXPAND_BUCKETS: doubling the bucket array and moving every element. */
module Expand {
  import opened Elements
  import opened BitArith
  import opened Buckets
  import opened ChainStats

  /** HASH_TO_BKT. */
  function ToBkt(hashv: nat, n: nat): nat
    requires n > 0
  {
    BitAnd(hashv, n - 1)
  }

  lemma ToBktIsMod(hashv: nat, k: nat)
    ensures ToBkt(hashv, Pow2(k)) == hashv % Pow2(k) < Pow2(k)
  {
    MaskIsMod(hashv, k);
  }

  /** The bucket that element `e` belongs in when there are `n`. */
  ghost function BktOf(e: Elem, n: nat): nat
    requires n > 0
    reads e`tag
  {
    e.tag.hashv % n
  }

  /** Every chain element is in `ms` and in its own bucket. */
  ghost predicate Placed(cs: seq<seq<Elem>>, ms: set<Elem>)
    reads ms`tag
  {
    forall b, x :: 0 <= b < |cs| && x in cs[b] ==> x in ms && BktOf(x, |cs|) == b
  }

  /** The elements of the old chain `c` that go to new bucket `b` of `n`, in
      the order they end up there: last moved first. */
  ghost function Split(c: seq<Elem>, b: nat, n: nat): seq<Elem>
    requires n > 0
    reads c`tag
  {
    if c == [] then []
    else
      var e := c[|c| - 1];
      (if BktOf(e, n) == b then [e] else []) + Split(c[..|c| - 1], b, n)
  }

  /** The old bucket whose elements can reach new bucket `b`. */
  function Home(b: nat, nb: nat): nat {
    if b < nb then b else b - nb
  }

  /** What new bucket `b` holds once old chains 0..i-1 and the first `j`
      elements of old chain `i` have been moved. */
  ghost function MovedTo(cs: seq<seq<Elem>>, b: nat, i: nat, j: nat, ms: set<Elem>): seq<Elem>
    requires b < 2 * |cs| && (i < |cs| ==> j <= |cs[i]|) && Covers(ms, cs)
    reads ms`tag
  {
    var h := Home(b, |cs|);
    if h < i then Split(cs[h], b, 2 * |cs|)
    else if h == i then Split(cs[i][..j], b, 2 * |cs|)
    else []
  }

  ghost predicate Partial(cs: seq<seq<Elem>>, nc: seq<seq<Elem>>, i: nat, j: nat, ms: set<Elem>)
    requires i < |cs| ==> j <= |cs[i]|
    reads ms`tag
  {
    Covers(ms, cs) && |nc| == 2 * |cs| && forall b :: 0 <= b < |nc| ==> nc[b] == MovedTo(cs, b, i, j, ms)
  }

  /** `nc` is the doubled bucket array made from `cs`. */
  ghost predicate Rehashed(cs: seq<seq<Elem>>, nc: seq<seq<Elem>>, ms: set<Elem>)
    reads ms`tag
  {
    && Covers(ms, cs) && |nc| == 2 * |cs|
    && forall b :: 0 <= b < |nc| ==> nc[b] == Split(cs[Home(b, |cs|)], b, 2 * |cs|)
  }

  lemma {:induction false} SplitMembers(c: seq<Elem>, b: nat, n: nat)
    requires n > 0
    ensures forall x :: x in Split(c, b, n) <==> x in c && BktOf(x, n) == b
  {
    if c != [] {
      var e, r := c[|c| - 1], c[..|c| - 1];
      SplitMembers(r, b, n);
      assert c == r + [e];
      forall x ensures x in Split(c, b, n) <==> x in c && BktOf(x, n) == b {
        assert x in c <==> x in r || x == e;
      }
    }
  }

  lemma SplitPush(c: seq<Elem>, j: nat, b: nat, n: nat)
    requires j < |c| && n > 0
    ensures Split(c[..j + 1], b, n) == (if BktOf(c[j], n) == b then [c[j]] else []) + Split(c[..j], b, n)
  {
    var d := c[..j + 1];
    assert d[|d| - 1] == c[j] && d[..|d| - 1] == c[..j];
  }

  /** Moving one element takes the new chains one step further. */
  lemma PartialStep(cs: seq<seq<Elem>>, nc: seq<seq<Elem>>, i: nat, j: nat, ms: set<Elem>)
    requires i < |cs| && j < |cs[i]| && Partial(cs, nc, i, j, ms) && Placed(cs, ms)
    ensures var e := cs[i][j];
            var b := BktOf(e, 2 * |cs|);
            && b < |nc| && Home(b, |cs|) == i
            && Partial(cs, nc[b := [e] + nc[b]], i, j + 1, ms)
  {
    var e := cs[i][j];
    assert e in cs[i] && BktOf(e, |cs|) == i;
    ModDouble(e.tag.hashv, |cs|);
    var b := BktOf(e, 2 * |cs|);
    var nc' := nc[b := [e] + nc[b]];
    forall d | 0 <= d < |nc'| ensures nc'[d] == MovedTo(cs, d, i, j + 1, ms) {
      assert nc[d] == MovedTo(cs, d, i, j, ms);
      if Home(d, |cs|) == i {
        SplitPush(cs[i], j, d, 2 * |cs|);
      }
    }
  }

  /** Nothing of old chain `i` beyond position `j` is in the new chains yet. */
  lemma NotYetMoved(cs: seq<seq<Elem>>, nc: seq<seq<Elem>>, i: nat, j: nat, ms: set<Elem>)
    requires i < |cs| && j < |cs[i]| && Partial(cs, nc, i, j, ms) && Separate(cs) && Distinct(cs[i])
    ensures InNone(cs[i][j], nc)
  {
    var e := cs[i][j];
    forall b | 0 <= b < |nc| ensures e !in nc[b] {
      var h := Home(b, |cs|);
      assert nc[b] == MovedTo(cs, b, i, j, ms);
      if h < i {
        SplitMembers(cs[h], b, 2 * |cs|);
        assert Apart(cs[i], cs[h]);
        assert e in cs[i];
      } else if h == i {
        SplitMembers(cs[i][..j], b, 2 * |cs|);
      }
    }
  }

  lemma SeparateByBucket(cs: seq<seq<Elem>>)
    requires forall b, x :: 0 <= b < |cs| && x in cs[b] ==> BktOf(x, |cs|) == b
    ensures Separate(cs)
  {
    forall i, j | 0 <= i < |cs| && 0 <= j < |cs| && i != j ensures Apart(cs[i], cs[j]) {
      forall x | x in cs[i] ensures x !in cs[j] {
        assert BktOf(x, |cs|) == i;
      }
    }
  }

  lemma PartialSeparate(cs: seq<seq<Elem>>, nc: seq<seq<Elem>>, i: nat, j: nat, ms: set<Elem>)
    requires i < |cs| ==> j <= |cs[i]|
    requires Partial(cs, nc, i, j, ms)
    ensures Separate(nc) && Covers(ms, nc)
  {
    hide BktOf;
    forall b, x | 0 <= b < |nc| && x in nc[b] ensures BktOf(x, |nc|) == b && x in ms {
      var h := Home(b, |cs|);
      assert nc[b] == MovedTo(cs, b, i, j, ms);
      if h < i {
        SplitMembers(cs[h], b, 2 * |cs|);
        assert x in cs[h];
      } else if h == i {
        SplitMembers(cs[i][..j], b, 2 * |cs|);
        assert x in cs[i];
      }
    }
    SeparateByBucket(nc);
  }

  /** Finishing one old chain is starting the next. */
  lemma PartialNext(cs: seq<seq<Elem>>, nc: seq<seq<Elem>>, i: nat, ms: set<Elem>)
    requires i < |cs| && Partial(cs, nc, i, |cs[i]|, ms)
    ensures Partial(cs, nc, i + 1, 0, ms)
  {
    assert cs[i][..|cs[i]|] == cs[i];
    forall b | 0 <= b < |nc| ensures nc[b] == MovedTo(cs, b, i + 1, 0, ms) {
      assert nc[b] == MovedTo(cs, b, i, |cs[i]|, ms);
    }
  }

  lemma AllMoved(cs: seq<seq<Elem>>, nc: seq<seq<Elem>>, i: nat, ms: set<Elem>)
    requires i == |cs| && Partial(cs, nc, i, 0, ms) && SumLens(nc) == SumLens(cs[..i])
    ensures Rehashed(cs, nc, ms) && SumLens(nc) == SumLens(cs)
  {
    forall b | 0 <= b < |nc| ensures nc[b] == Split(cs[Home(b, |cs|)], b, 2 * |cs|) {
      assert nc[b] == MovedTo(cs, b, |cs|, 0, ms);
    }
    assert cs[..i] == cs;
  }

  /** Expansion puts every element where it belongs ... */
  lemma RehashedPlaced(cs: seq<seq<Elem>>, nc: seq<seq<Elem>>, ms: set<Elem>)
    requires Rehashed(cs, nc, ms)
    ensures Placed(nc, ms) && Separate(nc)
  {
    hide BktOf, Split, Home;
    forall b, x | 0 <= b < |nc| && x in nc[b] ensures BktOf(x, |nc|) == b && x in ms {
      RehashedFrom(cs, nc, b, x, ms);
    }
    SeparateByBucket(nc);
  }

  lemma RehashedFrom(cs: seq<seq<Elem>>, nc: seq<seq<Elem>>, b: nat, x: Elem, ms: set<Elem>)
    requires Rehashed(cs, nc, ms) && b < |nc| && x in nc[b]
    ensures BktOf(x, |nc|) == b && x in cs[Home(b, |cs|)] && x in ms
  {
    SplitMembers(cs[Home(b, |cs|)], b, 2 * |cs|);
  }

  /** ... and loses none. */
  lemma RehashedTo(cs: seq<seq<Elem>>, nc: seq<seq<Elem>>, h: nat, x: Elem, ms: set<Elem>)
    requires Rehashed(cs, nc, ms) && Placed(cs, ms) && h < |cs| && x in cs[h]
    ensures var b := BktOf(x, |nc|); b < |nc| && x in nc[b]
  {
    assert BktOf(x, |cs|) == h;
    ModDouble(x.tag.hashv, |cs|);
    SplitMembers(cs[h], BktOf(x, 2 * |cs|), 2 * |cs|);
  }

  /** An element of old bucket `i` goes to bucket `i` or `i + num_buckets`, nowhere else. */
  lemma RehashedOnlyTwo(cs: seq<seq<Elem>>, nc: seq<seq<Elem>>, i: nat, x: Elem, b: nat, ms: set<Elem>)
    requires Rehashed(cs, nc, ms) && Placed(cs, ms) && i < |cs| && x in cs[i]
    ensures |nc| == 2 * |cs|
    ensures b < |nc| && x in nc[b] ==> b == i || b == i + |cs|
    ensures x in nc[i] || x in nc[i + |cs|]
  {
    assert BktOf(x, |cs|) == i;
    Halved(x, |cs|);
    RehashedTo(cs, nc, i, x, ms);
    hide BktOf, Split;
    if b < |nc| && x in nc[b] {
      RehashedFrom(cs, nc, b, x, ms);
    }
  }

  lemma Halved(x: Elem, n: nat)
    requires n > 0
    ensures BktOf(x, 2 * n) == BktOf(x, n) || BktOf(x, 2 * n) == BktOf(x, n) + n
  {
    ModDouble(x.tag.hashv, n);
  }

  // ------------------------------------------------------------ the loops

  /** The new buckets count their elements and carry the right multiplier. */
  ghost predicate Tallied(bs: seq<Bucket>, nc: seq<seq<Elem>>, ideal: nat) {
    |bs| == |nc| && forall b :: 0 <= b < |nc| ==> bs[b].count == |nc[b]| && bs[b].expandMult == MultOf(|nc[b]|, ideal)
  }

  /** The bucket array under construction. */
  ghost predicate NewOk(st: Counters, nbs: array<Bucket>, nc: seq<seq<Elem>>, ms: set<Elem>)
    reads nbs, ms`hhNext, ms`hhPrev
  {
    && ChainsOk(nbs[..], nc, ms)
    && Tallied(nbs[..], nc, st.idealChainMaxlen)
    && st.nonidealItems == SumExcess(nc, st.idealChainMaxlen)
  }

  /** Of the counters, only `nonidealItems` has moved. */
  predicate OnlyNonideal(st0: Counters, st: Counters) {
    st == st0.(nonidealItems := st.nonidealItems)
  }

  lemma TalliedPush(bs: seq<Bucket>, nc: seq<seq<Elem>>, ideal: nat, b: nat, e: Elem, bk: Bucket)
    requires b < |nc| && Tallied(bs, nc, ideal)
    requires bk.count == bs[b].count + 1 && bk.expandMult == NextMult(bk.count, bs[b].expandMult, ideal)
    ensures Tallied(bs[b := bk], nc[b := [e] + nc[b]], ideal)
  {
  }

  /** The body of the inner loop: count the element, then link it in. */
  method MoveElem(t: Table, nbs: array<Bucket>, e: Elem, b: nat, ghost nc: seq<seq<Elem>>, ghost ms: set<Elem>)
    requires b < |nc| && NewOk(t.st, nbs, nc, ms) && Separate(nc) && InNone(e, nc) && e in ms
    modifies t`st, nbs, e`hhNext, e`hhPrev, Elems(nc[b])`hhPrev
    ensures OnlyNonideal(old(t.st), t.st)
    ensures NewOk(t.st, nbs, nc[b := [e] + nc[b]], ms)
  {
    ghost var bs := nbs[..];
    nbs[b] := nbs[b].(count := nbs[b].count + 1);
    if nbs[b].count > t.st.idealChainMaxlen {
      t.st := t.st.(nonidealItems := t.st.nonidealItems + 1);
      if nbs[b].count > nbs[b].expandMult * t.st.idealChainMaxlen {
        nbs[b] := nbs[b].(expandMult := nbs[b].expandMult + 1);
      }
    }
    ghost var bk := nbs[b];
    assert nbs[..] == bs[b := bk];
    assert bk.expandMult == NextMult(bk.count, bs[b].expandMult, t.st.idealChainMaxlen);
    SumExcessPush(nc, b, e, t.st.idealChainMaxlen);
    TalliedPush(bs, nc, t.st.idealChainMaxlen, b, e, bk.(hhHead := e));
    hide Tallied, SumExcess;
    assert ChainsOk(nbs[..], nc, ms);
    assert ms + {e} == ms;
    PushFront(nbs, b, e, nc, ms);
    assert nbs[..] == bs[b := bk.(hhHead := e)];
  }

  /** `hhNext` still runs along `c` from position `j` on. */
  ghost predicate HNextFrom(c: seq<Elem>, j: nat)
    reads c`hhNext
  {
    forall i {:trigger c[i].hhNext} :: j <= i < |c| ==> c[i].hhNext == if i + 1 < |c| then c[i + 1] else null
  }

  /** The old chains and what every loop of the expansion knows about them. */
  ghost predicate OldOk(n: nat, lb: nat, cs: seq<seq<Elem>>, ms: set<Elem>)
    reads ms`tag
  {
    && n == |cs| == Pow2(lb)
    && Separate(cs) && Placed(cs, ms)
    && forall i :: 0 <= i < |cs| ==> Distinct(cs[i])
  }

  lemma StepFacts(n: nat, lb: nat, cs: seq<seq<Elem>>, nc: seq<seq<Elem>>, i: nat, j: nat, ms: set<Elem>)
    requires i < |cs| && j < |cs[i]| && OldOk(n, lb, cs, ms) && Partial(cs, nc, i, j, ms)
    ensures n > 0
    ensures var e := cs[i][j];
            var b := ToBkt(e.tag.hashv, n * 2);
            && b < |nc| && InNone(e, nc) && Separate(nc) && e in ms && Elems(nc[b]) <= ms
            && Partial(cs, nc[b := [e] + nc[b]], i, j + 1, ms)
            && SumLens(nc[b := [e] + nc[b]]) == SumLens(nc) + 1
  {
    var e := cs[i][j];
    NotYetMoved(cs, nc, i, j, ms);
    PartialSeparate(cs, nc, i, j, ms);
    PartialStep(cs, nc, i, j, ms);
    ToBktIsMod(e.tag.hashv, lb + 1);
    assert Pow2(lb + 1) == n * 2 == 2 * |cs|;
    var b := BktOf(e, 2 * |cs|);
    SumLensUpdate(nc, b, [e] + nc[b]);
    assert e in cs[i];
  }

  lemma ChainApart(c: seq<Elem>, j: nat)
    requires j < |c| && Distinct(c)
    ensures forall m :: j < m < |c| ==> c[m] != c[j]
  {
  }

  /** Move the element at position `j` of old chain `i`; `nxt` is the one after it. */
  method MoveNext(t: Table, nbs: array<Bucket>, e: Elem, ghost i: nat, ghost j: nat,
                  ghost cs: seq<seq<Elem>>, ghost nc: seq<seq<Elem>>, ghost ms: set<Elem>)
    returns (nxt: Elem?, ghost nc': seq<seq<Elem>>)
    requires i < |cs| && OldOk(t.st.numBuckets, t.st.log2NumBuckets, cs, ms)
    requires j < |cs[i]| && e == cs[i][j] && HNextFrom(cs[i], j)
    requires Partial(cs, nc, i, j, ms) && NewOk(t.st, nbs, nc, ms)
    modifies t`st, nbs, e`hhNext, ms`hhPrev
    ensures OnlyNonideal(old(t.st), t.st)
    ensures nxt == (if j + 1 < |cs[i]| then cs[i][j + 1] else null) && HNextFrom(cs[i], j + 1)
    ensures Partial(cs, nc', i, j + 1, ms) && NewOk(t.st, nbs, nc', ms) && SumLens(nc') == SumLens(nc) + 1
  {
    StepFacts(t.st.numBuckets, t.st.log2NumBuckets, cs, nc, i, j, ms);
    ChainApart(cs[i], j);
    hide OldOk, Partial, NewOk, Separate, SumLens, MovedTo, Distinct, ChainsOk, InNone;
    nxt := e.hhNext;
    var b := ToBkt(e.tag.hashv, t.st.numBuckets * 2);
    MoveElem(t, nbs, e, b, nc, ms);
    nc' := nc[b := [e] + nc[b]];
  }

  /** The inner loop: move all of old chain `i`. */
  method MoveChain(t: Table, nbs: array<Bucket>, head: Elem?, ghost i: nat,
                   ghost cs: seq<seq<Elem>>, ghost nc0: seq<seq<Elem>>, ghost ms: set<Elem>)
    returns (ghost nc: seq<seq<Elem>>)
    requires i < |cs| && OldOk(t.st.numBuckets, t.st.log2NumBuckets, cs, ms) && head == First(cs[i])
    requires HNextFrom(cs[i], 0)
    requires Partial(cs, nc0, i, 0, ms) && NewOk(t.st, nbs, nc0, ms)
    modifies t`st, nbs, Elems(cs[i])`hhNext, ms`hhPrev
    ensures OnlyNonideal(old(t.st), t.st)
    ensures Partial(cs, nc, i + 1, 0, ms) && NewOk(t.st, nbs, nc, ms)
    ensures SumLens(nc) == SumLens(nc0) + |cs[i]|
  {
    nc := nc0;
    ghost var j := 0;
    var thh := head;
    hide OldOk, Partial, NewOk, SumLens, HNextFrom;
    while thh != null
      invariant j <= |cs[i]| && thh == (if j < |cs[i]| then cs[i][j] else null)
      invariant OnlyNonideal(old(t.st), t.st)
      invariant OldOk(t.st.numBuckets, t.st.log2NumBuckets, cs, ms) && HNextFrom(cs[i], j)
      invariant Partial(cs, nc, i, j, ms) && NewOk(t.st, nbs, nc, ms)
      invariant SumLens(nc) == SumLens(nc0) + j
      decreases |cs[i]| - j
    {
      thh, nc := MoveNext(t, nbs, thh, i, j, cs, nc, ms);
      j := j + 1;
    }
    PartialNext(cs, nc, i, ms);
  }

  /** Old buckets from `i` on still hold their chains. */
  ghost predicate Unmoved(bs: seq<Bucket>, cs: seq<seq<Elem>>, i: nat, ms: set<Elem>)
    reads ms`hhNext
  {
    && |bs| == |cs| && Covers(ms, cs)
    && forall h :: i <= h < |cs| ==> bs[h].hhHead == First(cs[h]) && HNextFrom(cs[h], 0)
  }

  lemma LensUpTo(cs: seq<seq<Elem>>, i: nat)
    requires i < |cs|
    ensures SumLens(cs[..i + 1]) == SumLens(cs[..i]) + |cs[i]|
  {
    assert cs[..i + 1] == cs[..i] + [cs[i]];
    SumLensConcat(cs[..i], [cs[i]]);
    assert SumLens([cs[i]]) == |cs[i]| + SumLens([cs[i]][1..]);
  }

  /** One turn of the outer loop. */
  method MoveBucket(t: Table, nbs: array<Bucket>, i: nat,
                    ghost cs: seq<seq<Elem>>, ghost nc0: seq<seq<Elem>>, ghost ms: set<Elem>)
    returns (ghost nc: seq<seq<Elem>>)
    requires i < |cs| && OldOk(t.st.numBuckets, t.st.log2NumBuckets, cs, ms) && nbs != t.buckets
    requires Unmoved(t.buckets[..], cs, i, ms)
    requires Partial(cs, nc0, i, 0, ms) && NewOk(t.st, nbs, nc0, ms) && SumLens(nc0) == SumLens(cs[..i])
    modifies t`st, nbs, ms`hhNext, ms`hhPrev
    ensures OnlyNonideal(old(t.st), t.st)
    ensures Unmoved(t.buckets[..], cs, i + 1, ms)
    ensures Partial(cs, nc, i + 1, 0, ms) && NewOk(t.st, nbs, nc, ms) && SumLens(nc) == SumLens(cs[..i + 1])
  {
    ghost var bs := t.buckets[..];
    assert bs[i].hhHead == First(cs[i]) && HNextFrom(cs[i], 0);
    OthersApart(cs, i);
    LensUpTo(cs, i);
    assert nbs as object !in ms && t.buckets as object !in ms && t as object !in ms;
    assert t as object != nbs && t as object != t.buckets;
    hide OldOk, Partial, NewOk, SumLens, Separate, HNextFrom;
    nc := MoveChain(t, nbs, t.buckets[i].hhHead, i, cs, nc0, ms);
    assert t.buckets[..] == bs;
    forall h | i + 1 <= h < |cs| ensures bs[h].hhHead == First(cs[h]) && HNextFrom(cs[h], 0) {
      assert Elems(cs[h]) !! Elems(cs[i]);
    }
  }

  /** The outer loop. */
  method Redistribute(t: Table, nbs: array<Bucket>,
                      ghost cs: seq<seq<Elem>>, ghost nc0: seq<seq<Elem>>, ghost ms: set<Elem>)
    returns (ghost nc: seq<seq<Elem>>)
    requires OldOk(t.st.numBuckets, t.st.log2NumBuckets, cs, ms) && nbs != t.buckets
    requires Unmoved(t.buckets[..], cs, 0, ms)
    requires Partial(cs, nc0, 0, 0, ms) && NewOk(t.st, nbs, nc0, ms) && SumLens(nc0) == SumLens(cs[..0])
    modifies t`st, nbs, ms`hhNext, ms`hhPrev
    ensures OnlyNonideal(old(t.st), t.st)
    ensures Rehashed(cs, nc, ms) && NewOk(t.st, nbs, nc, ms) && SumLens(nc) == SumLens(cs)
  {
    nc := nc0;
    var i := 0;
    assert t.st.numBuckets == |cs|;
    assert nbs as object !in ms && t.buckets as object !in ms && t as object !in ms;
    hide OldOk, Partial, SumLens, Unmoved, NewOk, Rehashed;
    while i < t.st.numBuckets
      invariant i <= |cs| == t.st.numBuckets && nbs != t.buckets
      invariant OnlyNonideal(old(t.st), t.st)
      invariant OldOk(t.st.numBuckets, t.st.log2NumBuckets, cs, ms) && Unmoved(t.buckets[..], cs, i, ms)
      invariant Partial(cs, nc, i, 0, ms) && NewOk(t.st, nbs, nc, ms) && SumLens(nc) == SumLens(cs[..i])
    {
      nc := MoveBucket(t, nbs, i, cs, nc, ms);
      i := i + 1;
    }
    AllMoved(cs, nc, i, ms);
  }

  /** `ideal` is what the header's formula gives for `n` items in 2^lb buckets. */
  ghost predicate IdealFor(ideal: nat, n: nat, lb: nat) {
    ideal == CeilShift(n, lb)
  }

  /** The ideal chain length for the doubled bucket count. */
  method SetIdeal(t: Table)
    requires t.st.numBuckets == Pow2(t.st.log2NumBuckets)
    modifies t`st
    ensures t.st == old(t.st).(idealChainMaxlen := t.st.idealChainMaxlen, nonidealItems := 0)
    ensures IdealFor(t.st.idealChainMaxlen, t.st.numItems, t.st.log2NumBuckets + 1)
  {
    t.st := t.st.(idealChainMaxlen := Shr(t.st.numItems, t.st.log2NumBuckets + 1)
      + if BitAnd(t.st.numItems, t.st.numBuckets * 2 - 1) != 0 then 1 else 0);
    t.st := t.st.(nonidealItems := 0);
  }

  /** An expansion is ineffective if more than half of the items are beyond
      the ideal length; two of them in a row inhibit further expansion. */
  ghost predicate Judged(st0: Counters, st: Counters) {
    && st.ineffExpands == (if st.nonidealItems > Shr(st.numItems, 1) then st0.ineffExpands + 1 else 0)
    && st.noexpand == (st0.noexpand || st.ineffExpands > 1)
  }

  /** In plain numbers, with the number of elements beyond their ideal place. */
  lemma JudgedMeaning(st0: Counters, st: Counters, nc: seq<seq<Elem>>)
    requires Judged(st0, st) && st.nonidealItems == SumExcess(nc, st.idealChainMaxlen)
    ensures st.ineffExpands == if 2 * SumExcess(nc, st.idealChainMaxlen) > st.numItems then st0.ineffExpands + 1 else 0
    ensures st.noexpand <==> st0.noexpand || st.ineffExpands >= 2
  {
    hide SumExcess;
    assert Shr(st.numItems, 1) == st.numItems / 2 by { assert Shr(st.numItems / 2, 0) == st.numItems / 2; }
  }

  predicate Doubled(st0: Counters, st: Counters) {
    st.numBuckets == 2 * st0.numBuckets && st.log2NumBuckets == st0.log2NumBuckets + 1
  }

  /** The end of the expansion: install the new array and judge its effect. */
  method Install(t: Table, nbs: array<Bucket>)
    requires t.st.numBuckets == Pow2(t.st.log2NumBuckets)
    modifies t`buckets, t`st
    ensures t.buckets == nbs && Doubled(old(t.st), t.st) && Pow2(t.st.log2NumBuckets) == t.st.numBuckets
    ensures t.st.numItems == old(t.st.numItems) && Judged(old(t.st), t.st)
    ensures t.st.idealChainMaxlen == old(t.st.idealChainMaxlen) && t.st.nonidealItems == old(t.st.nonidealItems)
  {
    t.st := t.st.(numBuckets := t.st.numBuckets * 2);
    t.st := t.st.(log2NumBuckets := t.st.log2NumBuckets + 1);
    t.buckets := nbs;
    t.st := t.st.(ineffExpands := if t.st.nonidealItems > Shr(t.st.numItems, 1) then t.st.ineffExpands + 1 else 0);
    if t.st.ineffExpands > 1 {
      t.st := t.st.(noexpand := true);
    }
  }

  lemma ExpandStart(bs: seq<Bucket>, cs: seq<seq<Elem>>, nbs: seq<Bucket>, ideal: nat, ms: set<Elem>)
    returns (nc: seq<seq<Elem>>)
    requires ChainsOk(bs, cs, ms) && |nbs| == 2 * |cs|
    requires forall b :: 0 <= b < |nbs| ==> nbs[b] == Bucket(null, 0, 0)
    ensures Unmoved(bs, cs, 0, ms) && Partial(cs, nc, 0, 0, ms)
    ensures ChainsOk(nbs, nc, ms) && Tallied(nbs, nc, ideal) && SumExcess(nc, ideal) == 0
    ensures SumLens(nc) == SumLens(cs[..0])
  {
    nc := seq(|nbs|, _ => []);
    SumsOfEmpty(nc, ideal);
  }

  /** `nbs` holds the doubled chains `nc`, with their statistics in `t`. */
  ghost predicate Built(ideal: nat, nonideal: nat, nbs: array<Bucket>,
                        cs: seq<seq<Elem>>, nc: seq<seq<Elem>>, ms: set<Elem>)
    reads nbs, ms`tag, ms`hhNext, ms`hhPrev
  {
    && Rehashed(cs, nc, ms) && SumLens(nc) == SumLens(cs)
    && ChainsOk(nbs[..], nc, ms) && Tallied(nbs[..], nc, ideal) && nonideal == SumExcess(nc, ideal)
  }

  /** Build the new bucket array. */
  method BuildBuckets(t: Table, ghost cs: seq<seq<Elem>>, ghost ms: set<Elem>)
    returns (nbs: array<Bucket>, ghost nc: seq<seq<Elem>>)
    requires OldOk(t.st.numBuckets, t.st.log2NumBuckets, cs, ms) && ChainsOk(t.buckets[..], cs, ms)
    requires t.st.nonidealItems == 0
    modifies t`st, ms`hhNext, ms`hhPrev
    ensures OnlyNonideal(old(t.st), t.st)
    ensures fresh(nbs) && Built(t.st.idealChainMaxlen, t.st.nonidealItems, nbs, cs, nc, ms)
  {
    assert t.st.numBuckets == |cs| == Pow2(t.st.log2NumBuckets);
    nbs := new Bucket[t.st.numBuckets * 2](_ => Bucket(null, 0, 0));
    hide OldOk, ChainsOk, Tallied, SumExcess, SumLens, Unmoved, Partial, Rehashed;
    nc := ExpandStart(t.buckets[..], cs, nbs[..], t.st.idealChainMaxlen, ms);
    nc := Redistribute(t, nbs, cs, nc, ms);
  }

  /** The table after an expansion, in terms of the chains before it. */
  ghost predicate Expanded(t: Table, cs: seq<seq<Elem>>, nc: seq<seq<Elem>>, ms: set<Elem>)
    reads t, t.buckets, ms`tag, ms`hhNext, ms`hhPrev
  {
    && t.st.numBuckets == 2 * |cs| == Pow2(t.st.log2NumBuckets)
    && Built(t.st.idealChainMaxlen, t.st.nonidealItems, t.buckets, cs, nc, ms)
    && IdealFor(t.st.idealChainMaxlen, t.st.numItems, t.st.log2NumBuckets)
  }

  /** HASH_EXPAND_BUCKETS. */
  method ExpandBuckets(t: Table, ghost cs: seq<seq<Elem>>, ghost ms: set<Elem>) returns (ghost nc: seq<seq<Elem>>)
    requires OldOk(t.st.numBuckets, t.st.log2NumBuckets, cs, ms) && ChainsOk(t.buckets[..], cs, ms)
    modifies t`st, t`buckets
    modifies ms`hhNext, ms`hhPrev
    ensures fresh(t.buckets) && Doubled(old(t.st), t.st) && t.st.numItems == old(t.st.numItems)
    ensures Expanded(t, cs, nc, ms)
    ensures Judged(old(t.st), t.st)
    ensures t.st.ineffExpands ==
            if 2 * SumExcess(nc, t.st.idealChainMaxlen) > t.st.numItems then old(t.st.ineffExpands) + 1 else 0
    ensures t.st.noexpand <==> old(t.st.noexpand) || t.st.ineffExpands >= 2
  {
    hide OldOk, ChainsOk, Built, IdealFor, SumExcess, Pow2, Shr;
    OldCount(t.st.numBuckets, t.st.log2NumBuckets, cs, ms);
    ghost var st0 := t.st;
    var nbs;
    SetIdeal(t);
    nbs, nc := BuildBuckets(t, cs, ms);
    assert nbs as object != t;
    BuiltExcess(t.st.idealChainMaxlen, t.st.nonidealItems, nbs, cs, nc, ms);
    Install(t, nbs);
    JudgedMeaning(st0, t.st, nc);
  }

  lemma OldCount(n: nat, lb: nat, cs: seq<seq<Elem>>, ms: set<Elem>)
    requires OldOk(n, lb, cs, ms)
    ensures n == |cs| == Pow2(lb)
  {
  }

  lemma BuiltExcess(ideal: nat, nonideal: nat, nbs: array<Bucket>,
                    cs: seq<seq<Elem>>, nc: seq<seq<Elem>>, ms: set<Elem>)
    requires Built(ideal, nonideal, nbs, cs, nc, ms)
    ensures nonideal == SumExcess(nc, ideal)
  {
    hide Rehashed, ChainsOk, Tallied, SumExcess, SumLens;
  }
}
