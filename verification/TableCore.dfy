/** The bucket side of a hash table: adding to and deleting from its bucket,
    with expansion, and the invariant both keep. */
module TableCore {
  import opened Elements
  import opened BitArith
  import opened Buckets
  import opened ChainStats
  import opened Expand

  function Max(a: nat, b: nat): nat {
    if a >= b then a else b
  }

  /** The bound on one chain while expansion is possible. */
  predicate Bounded(b: Bucket, ideal: nat) {
    b.count <= (b.expandMult + 1) * Max(CAPACITY, ideal)
  }

  /** The expansion bookkeeping of a table. */
  ghost predicate StatsOk(bs: seq<Bucket>, ideal: nat, ineff: nat, noexpand: bool) {
    && ineff <= 2 && (noexpand <==> ineff == 2)
    && (!noexpand ==> forall b :: 0 <= b < |bs| ==> Bounded(bs[b], ideal))
  }

  /** Bucket counts are chain lengths. */
  ghost predicate Counted(bs: seq<Bucket>, cs: seq<seq<Elem>>) {
    |bs| == |cs| && forall b :: 0 <= b < |cs| ==> bs[b].count == |cs[b]|
  }

  /** Every element of `ms` is in its bucket's chain. */
  ghost predicate Complete(cs: seq<seq<Elem>>, ms: set<Elem>)
    reads ms`tag
  {
    |cs| > 0 && forall x :: x in ms ==> BktOf(x, |cs|) < |cs| && x in cs[BktOf(x, |cs|)]
  }

  /** The part of the invariant that does not look at links and counters:
      2^lb = n chains, every element of `ms` in exactly its own. */
  ghost predicate Shape(n: nat, lb: nat, cs: seq<seq<Elem>>, ms: set<Elem>)
    reads ms`tag
  {
    OldOk(n, lb, cs, ms) && Complete(cs, ms) && SumLens(cs) == |ms|
  }

  /** The array `buckets` holds the chains `cs`, and these exactly the elements `ms`. */
  ghost predicate Sound(n: nat, lb: nat, buckets: array<Bucket>, cs: seq<seq<Elem>>, ms: set<Elem>)
    reads buckets, ms`tag, ms`hhNext, ms`hhPrev
  {
    Shape(n, lb, cs, ms) && ChainsOk(buckets[..], cs, ms) && Counted(buckets[..], cs)
  }

  /** `t` is a sound table of the elements `ms`, with its counters in order. */
  ghost predicate TableOk(t: Table, cs: seq<seq<Elem>>, ms: set<Elem>)
    reads t`buckets, t.buckets, t`st, ms`tag, ms`hhNext, ms`hhPrev
  {
    && Sound(t.st.numBuckets, t.st.log2NumBuckets, t.buckets, cs, ms) && t.st.numItems == |ms|
    && StatsOk(t.buckets[..], t.st.idealChainMaxlen, t.st.ineffExpands, t.st.noexpand)
  }

  /** What the statistics say right after an expansion. */
  ghost predicate FreshStats(t: Table, cs: seq<seq<Elem>>)
    reads t, t.buckets
  {
    && IdealFor(t.st.idealChainMaxlen, t.st.numItems, t.st.log2NumBuckets)
    && Tallied(t.buckets[..], cs, t.st.idealChainMaxlen)
    && t.st.nonidealItems == SumExcess(cs, t.st.idealChainMaxlen)
  }

  /** The header's claims about a table that has just been expanded, in plain
      arithmetic: the ideal length is ceil(items / buckets), `nonideal_items`
      counts the elements beyond it, and `expand_mult` brackets every count. */
  lemma FreshStatsMeaning(t: Table, cs: seq<seq<Elem>>, ms: set<Elem>)
    requires TableOk(t, cs, ms) && FreshStats(t, cs) && ms != {}
    ensures var n, buckets, ideal := t.st.numItems, t.st.numBuckets, t.st.idealChainMaxlen;
            && n == |ms| && n <= buckets * ideal && (forall c: nat :: n <= buckets * c ==> ideal <= c)
            && t.st.nonidealItems == SumExcess(cs, ideal)
            && forall b :: 0 <= b < |cs| ==>
                 var count, mult := t.buckets[..][b].count, t.buckets[..][b].expandMult;
                 && count == |cs[b]| && (mult == 0 <==> count <= ideal)
                 && (count > ideal ==> (mult - 1) * ideal < count) && count <= (mult + 1) * ideal
  {
    hide CeilShift, MultOf, ChainsOk, Separate, Placed, Complete, StatsOk, Tallied, SumExcess;
    var ideal := t.st.idealChainMaxlen;
    CeilShiftIsCeil(t.st.numItems, t.st.log2NumBuckets);
    assert ideal > 0;
    forall b | 0 <= b < |cs|
      ensures var count, mult := t.buckets[..][b].count, t.buckets[..][b].expandMult;
              && count == |cs[b]| && (mult == 0 <==> count <= ideal)
              && (count > ideal ==> (mult - 1) * ideal < count) && count <= (mult + 1) * ideal
    {
      TalliedAt(t.buckets[..], cs, ideal, b);
      MultBounds(|cs[b]|, ideal);
    }
  }

  lemma TalliedAt(bs: seq<Bucket>, cs: seq<seq<Elem>>, ideal: nat, b: nat)
    requires Tallied(bs, cs, ideal) && b < |cs|
    ensures b < |bs| && bs[b].count == |cs[b]| && bs[b].expandMult == MultOf(|cs[b]|, ideal)
  {
  }

  // ------------------------------------------------------------ adding

  /** Linking `e` in at the front of its chain, seen from the outside. */
  lemma PushFacts(cs: seq<seq<Elem>>, ms: set<Elem>, e: Elem, b: nat)
    requires Separate(cs) && Placed(cs, ms) && Complete(cs, ms) && (forall i :: 0 <= i < |cs| ==> Distinct(cs[i]))
    requires e !in ms && |cs| > 0 && b == BktOf(e, |cs|) && b < |cs|
    ensures InNone(e, cs)
    ensures var cs' := cs[b := [e] + cs[b]];
            && Separate(cs') && Placed(cs', ms + {e}) && Complete(cs', ms + {e})
            && (forall i :: 0 <= i < |cs'| ==> Distinct(cs'[i]))
            && SumLens(cs') == SumLens(cs) + 1
  {
    hide BktOf, Distinct;
    var cs' := cs[b := [e] + cs[b]];
    PushApart(cs, b, e);
    SumLensUpdate(cs, b, [e] + cs[b]);
    InsertDistinct(cs[b], 0, e);
    assert InsertAt(cs[b], 0, e) == cs'[b];
    forall x | x in ms + {e} ensures BktOf(x, |cs'|) < |cs'| && x in cs'[BktOf(x, |cs'|)] {
      if x == e { assert cs'[b][0] == e; }
    }
  }

  lemma ShapePush(n: nat, lb: nat, cs: seq<seq<Elem>>, ms: set<Elem>, e: Elem) returns (b: nat)
    requires Shape(n, lb, cs, ms) && e !in ms
    ensures n == |cs| > 0 && b == ToBkt(e.tag.hashv, n) && b < |cs|
    ensures Separate(cs) && InNone(e, cs) && |ms + {e}| == |ms| + 1
    ensures Shape(n, lb, cs[b := [e] + cs[b]], ms + {e})
  {
    ToBktIsMod(e.tag.hashv, lb);
    b := BktOf(e, |cs|);
    PushFacts(cs, ms, e, b);
  }

  lemma CountedPush(bs: seq<Bucket>, cs: seq<seq<Elem>>, b: nat, e: Elem)
    requires Counted(bs, cs) && b < |cs|
    ensures Counted(bs[b := Bucket(e, bs[b].count + 1, bs[b].expandMult)], cs[b := [e] + cs[b]])
  {
  }

  /** Count `e` into bucket `b` and link it in. */
  method CountAndLink(buckets: array<Bucket>, b: nat, e: Elem, ghost cs: seq<seq<Elem>>, ghost ms: set<Elem>)
    requires ChainsOk(buckets[..], cs, ms) && Separate(cs) && b < |cs| && InNone(e, cs)
    modifies buckets, e`hhNext, e`hhPrev, Elems(cs[b])`hhPrev
    ensures ChainsOk(buckets[..], cs[b := [e] + cs[b]], ms + {e})
    ensures buckets[..] ==
            old(buckets[..])[b := Bucket(e, old(buckets[b]).count + 1, old(buckets[b]).expandMult)]
  {
    ghost var bs := buckets[..];
    hide ChainOk, Separate, InNone;
    buckets[b] := buckets[b].(count := buckets[b].count + 1);
    assert buckets[..] == bs[b := bs[b].(count := bs[b].count + 1)];
    assert ChainsOk(buckets[..], cs, ms);
    PushFront(buckets, b, e, cs, ms);
    assert buckets[..] == bs[b := Bucket(e, bs[b].count + 1, bs[b].expandMult)];
  }

  /** Everything about bucket `b` that linking needs to know beforehand. */
  lemma LinkFacts(buckets: array<Bucket>, b: nat, e: Elem, n: nat, lb: nat, cs: seq<seq<Elem>>, ms: set<Elem>)
    requires Sound(n, lb, buckets, cs, ms) && e !in ms && n > 0 && b == ToBkt(e.tag.hashv, n)
    ensures b < |cs| == buckets.Length && ChainsOk(buckets[..], cs, ms) && Separate(cs) && InNone(e, cs)
    ensures Elems(cs[b]) <= ms && Shape(n, lb, cs[b := [e] + cs[b]], ms + {e})
    ensures Counted(buckets[..][b := Bucket(e, buckets[b].count + 1, buckets[b].expandMult)], cs[b := [e] + cs[b]])
  {
    hide ChainOk, ToBkt;
    var b' := ShapePush(n, lb, cs, ms, e);
    CountedPush(buckets[..], cs, b, e);
  }

  lemma SoundAgain(n: nat, lb: nat, buckets: array<Bucket>, cs: seq<seq<Elem>>, ms: set<Elem>)
    requires Shape(n, lb, cs, ms) && ChainsOk(buckets[..], cs, ms) && Counted(buckets[..], cs)
    ensures Sound(n, lb, buckets, cs, ms)
  {
  }

  /** The linking half of HASH_ADD_TO_BKT. */
  method LinkIntoBkt(buckets: array<Bucket>, b: nat, e: Elem,
                     ghost n: nat, ghost lb: nat, ghost cs: seq<seq<Elem>>, ghost ms: set<Elem>)
    requires Sound(n, lb, buckets, cs, ms) && e !in ms && n > 0 && b == ToBkt(e.tag.hashv, n)
    modifies buckets, e`hhNext, e`hhPrev, ms`hhPrev
    ensures b < |cs| == buckets.Length && Sound(n, lb, buckets, cs[b := [e] + cs[b]], ms + {e})
    ensures buckets[..] ==
            old(buckets[..])[b := Bucket(e, old(buckets[..])[b].count + 1, old(buckets[..])[b].expandMult)]
  {
    hide Sound, Shape, ChainsOk, Counted, ToBkt, Separate, InNone, Elems;
    LinkFacts(buckets, b, e, n, lb, cs, ms);
    assert buckets as object !in ms + {e};
    CountAndLink(buckets, b, e, cs, ms);
    SoundAgain(n, lb, buckets, cs[b := [e] + cs[b]], ms + {e});
  }

  /** The expansion bookkeeping right after an expansion. */
  lemma FreshBounds(bs: seq<Bucket>, nc: seq<seq<Elem>>, ideal: nat, n: nat, lb: nat)
    requires Tallied(bs, nc, ideal) && IdealFor(ideal, n, lb) && n > 0
    ensures ideal >= 1 && Counted(bs, nc)
    ensures forall b :: 0 <= b < |bs| ==> Bounded(bs[b], ideal)
  {
    CeilShiftIsCeil(n, lb);
    assert ideal != 0;
    hide CeilShift, MultOf;
    forall b | 0 <= b < |bs| ensures Bounded(bs[b], ideal) {
      MultBounds(|nc[b]|, ideal);
      MulMonotone(bs[b].expandMult + 1, ideal, Max(CAPACITY, ideal));
    }
  }

  lemma RehashedComplete(cs: seq<seq<Elem>>, nc: seq<seq<Elem>>, ms: set<Elem>)
    requires Rehashed(cs, nc, ms) && Placed(cs, ms) && Complete(cs, ms)
    ensures Complete(nc, ms)
  {
    forall x | x in ms ensures BktOf(x, |nc|) < |nc| && x in nc[BktOf(x, |nc|)] {
      RehashedTo(cs, nc, BktOf(x, |cs|), x, ms);
    }
  }

  /** After an expansion the table is sound again, and its statistics are fresh. */
  lemma ExpandedOk(t: Table, cs: seq<seq<Elem>>, nc: seq<seq<Elem>>, ms: set<Elem>, st0: Counters)
    requires Expanded(t, cs, nc, ms) && Judged(st0, t.st) && st0.ineffExpands <= 1 && !st0.noexpand
    requires Placed(cs, ms) && Complete(cs, ms) && SumLens(cs) == |ms| == t.st.numItems && |ms| > 0
    ensures TableOk(t, nc, ms) && FreshStats(t, nc) && Rehashed(cs, nc, ms)
  {
    FreshBounds(t.buckets[..], nc, t.st.idealChainMaxlen, t.st.numItems, t.st.log2NumBuckets);
    RehashedPlaced(cs, nc, ms);
    RehashedComplete(cs, nc, ms);
    hide IdealFor, Tallied, Rehashed, Placed, Complete, SumLens, Separate, Bounded;
    assert forall i :: 0 <= i < |nc| ==> ChainOk(t.buckets[..][i].hhHead, nc[i]);
  }

  /** Without an expansion the one longer chain is still within its bound. */
  lemma UnexpandedOk(bs: seq<Bucket>, b: nat, e: Elem, ideal: nat, ineff: nat, noexpand: bool)
    requires StatsOk(bs, ideal, ineff, noexpand) && b < |bs|
    requires bs[b].count + 1 < (bs[b].expandMult + 1) * CAPACITY || noexpand
    ensures StatsOk(bs[b := Bucket(e, bs[b].count + 1, bs[b].expandMult)], ideal, ineff, noexpand)
  {
    MulMonotone(bs[b].expandMult + 1, CAPACITY, Max(CAPACITY, ideal));
  }

  lemma SoundParts(n: nat, lb: nat, buckets: array<Bucket>, cs: seq<seq<Elem>>, ms: set<Elem>)
    requires Sound(n, lb, buckets, cs, ms)
    ensures OldOk(n, lb, cs, ms) && Placed(cs, ms) && Complete(cs, ms) && SumLens(cs) == |ms|
    ensures ChainsOk(buckets[..], cs, ms)
  {
    hide ChainsOk, Separate, Complete;
  }

  /** Expansion of a sound table. */
  method ExpandSound(t: Table, ghost cs: seq<seq<Elem>>, ghost ms: set<Elem>) returns (ghost nc: seq<seq<Elem>>)
    requires Sound(t.st.numBuckets, t.st.log2NumBuckets, t.buckets, cs, ms)
    requires t.st.numItems == |ms| && |ms| > 0 && !t.st.noexpand && t.st.ineffExpands <= 1
    modifies t`st, t`buckets, ms`hhNext, ms`hhPrev
    ensures TableOk(t, nc, ms) && FreshStats(t, nc) && Rehashed(cs, nc, ms)
    ensures fresh(t.buckets) && Doubled(old(t.st), t.st) && Judged(old(t.st), t.st)
    ensures t.st.numItems == old(t.st.numItems)
  {
    hide TableOk, FreshStats, Sound, OldOk, ChainsOk, Placed, Complete, SumLens, Expanded, Judged, Rehashed, Doubled;
    ghost var st0 := t.st;
    SoundParts(t.st.numBuckets, t.st.log2NumBuckets, t.buckets, cs, ms);
    nc := ExpandBuckets(t, cs, ms);
    ExpandedOk(t, cs, nc, ms, st0);
  }

  /** One more element makes bucket `bkt` expand the table. */
  predicate ChainFull(bkt: Bucket, st: Counters) {
    bkt.count + 1 >= (bkt.expandMult + 1) * CAPACITY && !st.noexpand
  }

  /** The table after one element was added to bucket `b`, which was `bkt`,
      when the counters were `st0`: either expanded, which happens exactly if
      the chain was full, or as before but for one more element in one chain. */
  ghost predicate Grew(t: Table, st0: Counters, b: nat, bkt: Bucket, cs: seq<seq<Elem>>)
    reads t, t.buckets
  {
    if ChainFull(bkt, st0) then
      Doubled(st0, t.st) && Judged(st0, t.st) && FreshStats(t, cs) && t.st.numItems == st0.numItems + 1
    else
      && t.st == st0.(numItems := st0.numItems + 1) && b < t.buckets.Length
      && t.buckets[b].count == bkt.count + 1 && t.buckets[b].expandMult == bkt.expandMult
  }

  /** An addition to a table, in plain numbers: the table doubles exactly if the
      chain is about to hold (expand_mult + 1) * 10 elements and `noexpand` is 0;
      then the ideal length is ceil(items / buckets), and the expansion counts as
      ineffective exactly if more than half of the items are beyond it. */
  lemma GrewMeaning(t: Table, st0: Counters, b: nat, bkt: Bucket, cs: seq<seq<Elem>>)
    requires Grew(t, st0, b, bkt, cs)
    ensures var full := bkt.count + 1 >= 10 * (bkt.expandMult + 1) && !st0.noexpand;
            var st := t.st;
            && st.numItems == st0.numItems + 1
            && st.numBuckets == (if full then 2 * st0.numBuckets else st0.numBuckets)
            && st.log2NumBuckets == (if full then st0.log2NumBuckets + 1 else st0.log2NumBuckets)
            && st.ineffExpands == (if !full then st0.ineffExpands
                                   else if 2 * SumExcess(cs, st.idealChainMaxlen) > st.numItems
                                   then st0.ineffExpands + 1 else 0)
            && (st.noexpand <==> st0.noexpand || (full && st.ineffExpands >= 2))
            && (!full ==> st.idealChainMaxlen == st0.idealChainMaxlen)
            && (full ==> st.numItems <= Pow2(st.log2NumBuckets) * st.idealChainMaxlen &&
                         forall c: nat :: st.numItems <= Pow2(st.log2NumBuckets) * c ==> st.idealChainMaxlen <= c)
  {
    hide SumExcess, Tallied, Judged, CeilShift, Pow2;
    assert (bkt.expandMult + 1) * CAPACITY == 10 * (bkt.expandMult + 1);
    if ChainFull(bkt, st0) {
      JudgedMeaning(st0, t.st, cs);
      CeilShiftIsCeil(t.st.numItems, t.st.log2NumBuckets);
    }
  }

  /** What an addition with this hash value does to the table. */
  twostate predicate Grown(t: Table, hashv: nat, new cs: seq<seq<Elem>>)
    reads t, t.buckets
  {
    && old(t.st.numBuckets) > 0 && ToBkt(hashv, old(t.st.numBuckets)) < old(t.buckets.Length)
    && (t.buckets == old(t.buckets) || fresh(t.buckets))
    && Grew(t, old(t.st), ToBkt(hashv, old(t.st.numBuckets)), old(t.buckets[ToBkt(hashv, t.st.numBuckets)]), cs)
  }

  /** In particular, a table with `noexpand` never expands again. */
  twostate lemma GrownKeeps(t: Table, hashv: nat, new cs: seq<seq<Elem>>)
    requires Grown(t, hashv, cs)
    ensures t.buckets == old(t.buckets) || fresh(t.buckets)
    ensures old(t.st.noexpand) ==> t.st.noexpand && t.st.numBuckets == old(t.st.numBuckets)
    ensures old(t.st.noexpand) ==> t.st == old(t.st).(numItems := old(t.st.numItems) + 1)
  {
    hide ToBkt, FreshStats, Judged;
  }

  lemma AddStart(t: Table, ms: set<Elem>, e: Elem)
    requires StatsOk(t.buckets[..], t.st.idealChainMaxlen, t.st.ineffExpands, t.st.noexpand) && e !in ms
    ensures !t.st.noexpand ==> t.st.ineffExpands <= 1
    ensures |ms + {e}| == |ms| + 1
  {
  }

  lemma TableAgain(t: Table, cs: seq<seq<Elem>>, ms: set<Elem>)
    requires Sound(t.st.numBuckets, t.st.log2NumBuckets, t.buckets, cs, ms) && t.st.numItems == |ms|
    requires StatsOk(t.buckets[..], t.st.idealChainMaxlen, t.st.ineffExpands, t.st.noexpand)
    ensures TableOk(t, cs, ms)
  {
  }

  /** HASH_ADD_TO_BKT: put `e` in front of its chain, and expand the buckets
      if the chain has become too long. */
  method AddToBkt(t: Table, b: nat, e: Elem, ghost cs: seq<seq<Elem>>, ghost ms: set<Elem>)
    returns (ghost cs': seq<seq<Elem>>)
    requires Sound(t.st.numBuckets, t.st.log2NumBuckets, t.buckets, cs, ms) && e !in ms
    requires t.st.numBuckets > 0 && b == ToBkt(e.tag.hashv, t.st.numBuckets)
    requires t.st.numItems == |ms| + 1
    requires StatsOk(t.buckets[..], t.st.idealChainMaxlen, t.st.ineffExpands, t.st.noexpand)
    modifies t`st, t`buckets, t.buckets, e`hhNext, e`hhPrev, ms`hhNext, ms`hhPrev
    ensures TableOk(t, cs', ms + {e}) && b < |cs| == old(t.buckets.Length)
    ensures t.buckets == old(t.buckets) || fresh(t.buckets)
    ensures Grew(t, old(t.st).(numItems := |ms|), b, old(t.buckets[b]), cs')
    ensures if ChainFull(old(t.buckets[b]), old(t.st)) then Rehashed(cs[b := [e] + cs[b]], cs', ms + {e})
            else cs' == cs[b := [e] + cs[b]]
  {
    hide Sound, StatsOk, TableOk, FreshStats, ToBkt, Rehashed;
    ghost var bs, ms' := t.buckets[..], ms + {e};
    AddStart(t, ms, e);
    assert t.buckets as object != t && t.buckets as object !in ms' && t as object !in ms';
    LinkIntoBkt(t.buckets, b, e, t.st.numBuckets, t.st.log2NumBuckets, cs, ms);
    cs' := cs[b := [e] + cs[b]];
    assert t.buckets[b] == t.buckets[..][b];
    if t.buckets[b].count >= (t.buckets[b].expandMult + 1) * CAPACITY && !t.st.noexpand {
      cs' := ExpandSound(t, cs', ms');
    } else {
      UnexpandedOk(bs, b, e, t.st.idealChainMaxlen, t.st.ineffExpands, t.st.noexpand);
      TableAgain(t, cs', ms');
    }
  }

  lemma TableParts(t: Table, cs: seq<seq<Elem>>, ms: set<Elem>)
    requires TableOk(t, cs, ms)
    ensures Sound(t.st.numBuckets, t.st.log2NumBuckets, t.buckets, cs, ms) && t.st.numItems == |ms|
    ensures StatsOk(t.buckets[..], t.st.idealChainMaxlen, t.st.ineffExpands, t.st.noexpand)
    ensures t.st.numBuckets > 0
  {
  }

  /** HASH_ADD_TO_TABLE. */
  method AddToTable(t: Table, e: Elem, ghost cs: seq<seq<Elem>>, ghost ms: set<Elem>)
    returns (ghost cs': seq<seq<Elem>>)
    requires TableOk(t, cs, ms) && e !in ms
    modifies t`st, t`buckets, t.buckets, e`hhNext, e`hhPrev, ms`hhNext, ms`hhPrev
    ensures TableOk(t, cs', ms + {e}) && Grown(t, e.tag.hashv, cs')
  {
    hide TableOk, Sound, StatsOk, ToBkt, Grew;
    TableParts(t, cs, ms);
    t.st := t.st.(numItems := t.st.numItems + 1);
    var b := ToBkt(e.tag.hashv, t.st.numBuckets);
    cs' := AddToBkt(t, b, e, cs, ms);
  }

  // ------------------------------------------------------------ deleting

  /** Taking `e` out of its chain, seen from the outside. */
  lemma RemoveFacts(cs: seq<seq<Elem>>, ms: set<Elem>, e: Elem, b: nat, k: nat)
    requires Separate(cs) && Placed(cs, ms) && Complete(cs, ms) && (forall i :: 0 <= i < |cs| ==> Distinct(cs[i]))
    requires b < |cs| && k < |cs[b]| && cs[b][k] == e
    ensures var cs' := cs[b := RemoveAt(cs[b], k)];
            && Separate(cs') && Placed(cs', ms - {e}) && Complete(cs', ms - {e})
            && (forall i :: 0 <= i < |cs'| ==> Distinct(cs'[i]))
            && SumLens(cs') == SumLens(cs) - 1
  {
    hide BktOf;
    var cs' := cs[b := RemoveAt(cs[b], k)];
    RemoveApart(cs, b, k);
    RemoveElems(cs[b], k);
    RemoveDistinct(cs[b], k);
    SumLensUpdate(cs, b, RemoveAt(cs[b], k));
    hide Distinct, Separate, RemoveAt;
    forall d, x | 0 <= d < |cs'| && x in cs'[d] ensures x in ms - {e} && BktOf(x, |cs'|) == d {
      assert x in cs[d];
    }
  }

  lemma ShapeRemove(n: nat, lb: nat, cs: seq<seq<Elem>>, ms: set<Elem>, e: Elem) returns (b: nat, k: nat)
    requires Shape(n, lb, cs, ms) && e in ms
    ensures n == |cs| > 0 && b == ToBkt(e.tag.hashv, n) && b < |cs|
    ensures k < |cs[b]| && cs[b][k] == e && Separate(cs) && |ms - {e}| == |ms| - 1
    ensures Shape(n, lb, cs[b := RemoveAt(cs[b], k)], ms - {e})
  {
    ToBktIsMod(e.tag.hashv, lb);
    b := BktOf(e, |cs|);
    k :| 0 <= k < |cs[b]| && cs[b][k] == e;
    RemoveFacts(cs, ms, e, b, k);
  }

  lemma CountedRemove(bs: seq<Bucket>, cs: seq<seq<Elem>>, b: nat, k: nat, h: Elem?)
    requires Counted(bs, cs) && b < |cs| && k < |cs[b]|
    ensures bs[b].count > 0
    ensures Counted(bs[b := Bucket(h, bs[b].count - 1, bs[b].expandMult)], cs[b := RemoveAt(cs[b], k)])
  {
  }

  lemma StatsRemove(bs: seq<Bucket>, b: nat, bk: Bucket, ideal: nat, ineff: nat, noexpand: bool)
    requires StatsOk(bs, ideal, ineff, noexpand) && b < |bs|
    requires bk.count <= bs[b].count && bk.expandMult == bs[b].expandMult
    ensures StatsOk(bs[b := bk], ideal, ineff, noexpand)
  {
  }

  /** Unlink `del` from its bucket: the bucket half of HASH_DELETE_HH. */
  method UnlinkFromBkt(t: Table, del: Elem, ghost cs: seq<seq<Elem>>, ghost ms: set<Elem>)
    returns (ghost cs': seq<seq<Elem>>)
    requires Sound(t.st.numBuckets, t.st.log2NumBuckets, t.buckets, cs, ms) && del in ms
    requires StatsOk(t.buckets[..], t.st.idealChainMaxlen, t.st.ineffExpands, t.st.noexpand)
    modifies t.buckets, ms`hhNext, ms`hhPrev
    ensures Sound(t.st.numBuckets, t.st.log2NumBuckets, t.buckets, cs', ms - {del})
    ensures StatsOk(t.buckets[..], t.st.idealChainMaxlen, t.st.ineffExpands, t.st.noexpand)
  {
    hide Sound, Shape, ChainsOk, Counted, StatsOk, ToBkt, Separate, Elems;
    ghost var bs := t.buckets[..];
    ghost var b', k := SoundRemove(t.st.numBuckets, t.st.log2NumBuckets, t.buckets, cs, ms, del);
    cs' := cs[b' := RemoveAt(cs[b'], k)];
    CountedRemove(bs, cs, b', k, null);
    assert t.buckets as object != t && t.buckets as object !in ms;
    var b := ToBkt(del.tag.hashv, t.st.numBuckets);
    DelInBkt(t.buckets, b, del, cs, k, ms);
    CountedRemove(bs, cs, b', k, t.buckets[b].hhHead);
    StatsRemove(bs, b, t.buckets[..][b], t.st.idealChainMaxlen, t.st.ineffExpands, t.st.noexpand);
    SoundAgain(t.st.numBuckets, t.st.log2NumBuckets, t.buckets, cs', ms - {del});
  }

  /** The place of an element in a sound table, and the shape without it. */
  lemma SoundRemove(n: nat, lb: nat, buckets: array<Bucket>, cs: seq<seq<Elem>>, ms: set<Elem>, e: Elem)
    returns (b: nat, k: nat)
    requires Sound(n, lb, buckets, cs, ms) && e in ms
    ensures n == |cs| == buckets.Length && n > 0 && b == ToBkt(e.tag.hashv, n) && b < |cs|
    ensures k < |cs[b]| && cs[b][k] == e && Separate(cs) && Elems(cs[b]) <= ms
    ensures Shape(n, lb, cs[b := RemoveAt(cs[b], k)], ms - {e}) && ChainsOk(buckets[..], cs, ms)
    ensures Counted(buckets[..], cs)
  {
    hide Shape, Separate, Counted, ToBkt;
    b, k := ShapeRemove(n, lb, cs, ms, e);
  }

  method DelFromTable(t: Table, del: Elem, ghost cs: seq<seq<Elem>>, ghost ms: set<Elem>)
    returns (ghost cs': seq<seq<Elem>>)
    requires TableOk(t, cs, ms) && del in ms
    modifies t`st, t.buckets, ms`hhNext, ms`hhPrev
    ensures TableOk(t, cs', ms - {del}) && t.st == old(t.st).(numItems := old(t.st.numItems) - 1)
  {
    hide TableOk, Sound, StatsOk;
    TableParts(t, cs, ms);
    assert |ms - {del}| == |ms| - 1 && |ms| > 0;
    assert t.buckets as object != t && t.buckets as object !in ms && t as object !in ms;
    cs' := UnlinkFromBkt(t, del, cs, ms);
    ghost var bs := t.buckets[..];
    t.st := t.st.(numItems := t.st.numItems - 1);
    assert t.buckets[..] == bs;
    TableAgain(t, cs', ms - {del});
  }
}
