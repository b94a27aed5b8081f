/** Bucket chains: the `hh_next`/`hh_prev` lists hanging off the bucket array. */
module Buckets {
  import opened Elements

  ghost predicate HNext(c: seq<Elem>)
    reads c`hhNext
  {
    forall i {:trigger c[i].hhNext} :: 0 <= i < |c| ==> c[i].hhNext == if i + 1 < |c| then c[i + 1] else null
  }

  ghost predicate HPrev(c: seq<Elem>)
    reads c`hhPrev
  {
    forall i {:trigger c[i].hhPrev} :: 0 <= i < |c| ==> c[i].hhPrev == if i == 0 then null else c[i - 1]
  }

  /** `head` starts a well-formed chain of exactly the elements `c`. */
  ghost predicate ChainOk(head: Elem?, c: seq<Elem>)
    reads c`hhNext, c`hhPrev
  {
    head == First(c) && Distinct(c) && HNext(c) && HPrev(c)
  }

  /** Every chain element is in `ms`. */
  ghost predicate Covers(ms: set<Elem>, cs: seq<seq<Elem>>) {
    forall i, x :: 0 <= i < |cs| && x in cs[i] ==> x in ms
  }

  ghost predicate InNone(e: Elem, cs: seq<seq<Elem>>) {
    forall i :: 0 <= i < |cs| ==> e !in cs[i]
  }

  /** Bucket by bucket, the array holds the chains `cs`, whose elements are in `ms`. */
  ghost predicate ChainsOk(bs: seq<Bucket>, cs: seq<seq<Elem>>, ms: set<Elem>)
    reads ms`hhNext, ms`hhPrev
  {
    |bs| == |cs| && Covers(ms, cs) && forall i :: 0 <= i < |cs| ==> ChainOk(bs[i].hhHead, cs[i])
  }

  ghost predicate Separate(cs: seq<seq<Elem>>) {
    forall i, j :: 0 <= i < |cs| && 0 <= j < |cs| && i != j ==> Apart(cs[i], cs[j])
  }

  /** Put `e` in front of one chain. */
  method LinkFront(head: Elem?, e: Elem, ghost c: seq<Elem>)
    requires ChainOk(head, c) && e !in c
    modifies e`hhNext, e`hhPrev, Elems(c)`hhPrev
    ensures ChainOk(e, [e] + c)
  {
    e.hhNext := head;
    e.hhPrev := null;
    if head != null {
      head.hhPrev := e;
    }
    InsertDistinct(c, 0, e);
    assert InsertAt(c, 0, e) == [e] + c;
    assert HNext(c);
    ghost var d := [e] + c;
    forall i {:trigger d[i].hhNext} | 0 <= i < |d| ensures d[i].hhNext == if i + 1 < |d| then d[i + 1] else null {
      if i > 0 { assert d[i] == c[i - 1]; }
    }
    forall i {:trigger d[i].hhPrev} | 0 <= i < |d| ensures d[i].hhPrev == if i == 0 then null else d[i - 1] {
      if i > 0 { assert d[i] == c[i - 1]; }
    }
  }

  /** A chain and its neighbours share no elements. */
  lemma OthersApart(cs: seq<seq<Elem>>, b: nat)
    requires b < |cs| && Separate(cs)
    ensures forall i :: 0 <= i < |cs| && i != b ==> Elems(cs[i]) !! Elems(cs[b])
  {
    forall i | 0 <= i < |cs| && i != b ensures Elems(cs[i]) !! Elems(cs[b]) {
      assert Apart(cs[i], cs[b]);
    }
  }

  lemma PushApart(cs: seq<seq<Elem>>, b: nat, e: Elem)
    requires b < |cs| && InNone(e, cs) && Separate(cs)
    ensures Separate(cs[b := [e] + cs[b]])
  {
    var ds := cs[b := [e] + cs[b]];
    forall i, j | 0 <= i < |ds| && 0 <= j < |ds| && i != j ensures Apart(ds[i], ds[j]) {
      assert Apart(cs[i], cs[j]);
      forall x | x in ds[i] ensures x !in ds[j] {}
    }
  }

  /** Put `e` in front of the chain of bucket `b`; counters are the caller's business. */
  method PushFront(buckets: array<Bucket>, b: nat, e: Elem, ghost cs: seq<seq<Elem>>, ghost ms: set<Elem>)
    requires ChainsOk(buckets[..], cs, ms) && Separate(cs) && b < |cs| && InNone(e, cs)
    modifies buckets, e`hhNext, e`hhPrev, Elems(cs[b])`hhPrev
    ensures ChainsOk(buckets[..], cs[b := [e] + cs[b]], ms + {e})
    ensures buckets[..] == old(buckets[..])[b := old(buckets[b]).(hhHead := e)]
  {
    ghost var bs := buckets[..];
    OthersApart(cs, b);
    hide ChainOk;
    LinkFront(buckets[b].hhHead, e, cs[b]);
    buckets[b] := buckets[b].(hhHead := e);
    assert buckets[..] == bs[b := bs[b].(hhHead := e)];
  }

  /** Take position `k` out of one chain. */
  method Unlink(head: Elem?, del: Elem, ghost c: seq<Elem>, ghost k: nat) returns (head': Elem?)
    requires ChainOk(head, c) && k < |c| && c[k] == del
    modifies Elems(c)`hhNext, Elems(c)`hhPrev
    ensures ChainOk(head', RemoveAt(c, k))
  {
    HNeighbours(c, k);
    head' := head;
    if head == del {
      head' := del.hhNext;
    }
    if del.hhPrev != null {
      del.hhPrev.hhNext := del.hhNext;
    }
    if del.hhNext != null {
      del.hhNext.hhPrev := del.hhPrev;
    }
    ghost var d := RemoveAt(c, k);
    RemoveDistinct(c, k);
    hide Distinct;
    forall i {:trigger d[i].hhNext} | 0 <= i < |d| ensures d[i].hhNext == if i + 1 < |d| then d[i + 1] else null {
      assert d[i] == if i < k then c[i] else c[i + 1];
    }
    forall i {:trigger d[i].hhPrev} | 0 <= i < |d| ensures d[i].hhPrev == if i == 0 then null else d[i - 1] {
      assert d[i] == if i < k then c[i] else c[i + 1];
    }
  }

  lemma HNeighbours(c: seq<Elem>, k: nat)
    requires k < |c| && Distinct(c) && HNext(c) && HPrev(c)
    ensures c[k].hhNext == if k + 1 < |c| then c[k + 1] else null
    ensures c[k].hhPrev == if k == 0 then null else c[k - 1]
    ensures forall i :: 0 <= i < |c| && i != k ==> c[i] != c[k]
  {
  }

  lemma RemoveApart(cs: seq<seq<Elem>>, b: nat, k: nat)
    requires b < |cs| && Separate(cs) && k < |cs[b]| && Distinct(cs[b])
    ensures Separate(cs[b := RemoveAt(cs[b], k)])
    ensures InNone(cs[b][k], cs[b := RemoveAt(cs[b], k)])
  {
    var ds := cs[b := RemoveAt(cs[b], k)];
    RemoveElems(cs[b], k);
    forall i, j | 0 <= i < |ds| && 0 <= j < |ds| && i != j ensures Apart(ds[i], ds[j]) {
      assert Apart(cs[i], cs[j]);
      forall x | x in ds[i] ensures x in cs[i] && x !in ds[j] {}
    }
    forall i | 0 <= i < |ds| ensures cs[b][k] !in ds[i] {
      assert i != b ==> Apart(cs[b], cs[i]);
      assert cs[b][k] in cs[b];
    }
  }

  lemma RemoveElems(s: seq<Elem>, k: nat)
    requires k < |s| && Distinct(s)
    ensures forall x :: x in RemoveAt(s, k) <==> x in s && x != s[k]
  {
    RemoveDistinct(s, k);
    forall x | x in s && x != s[k] ensures x in RemoveAt(s, k) {
      var i :| 0 <= i < |s| && s[i] == x;
      assert RemoveAt(s, k)[if i < k then i else i - 1] == x;
    }
  }

  /** HASH_DEL_IN_BKT. */
  method DelInBkt(buckets: array<Bucket>, b: nat, del: Elem, ghost cs: seq<seq<Elem>>, ghost k: nat,
                  ghost ms: set<Elem>)
    requires ChainsOk(buckets[..], cs, ms) && Separate(cs) && b < |cs| && buckets[b].count > 0
    requires k < |cs[b]| && cs[b][k] == del
    modifies buckets, Elems(cs[b])`hhNext, Elems(cs[b])`hhPrev
    ensures ChainsOk(buckets[..], cs[b := RemoveAt(cs[b], k)], ms - {del})
    ensures buckets[..] ==
            old(buckets[..])[b := Bucket(buckets[b].hhHead, old(buckets[b]).count - 1, old(buckets[b]).expandMult)]
  {
    ghost var bs := buckets[..];
    assert Distinct(cs[b]);
    OthersApart(cs, b);
    RemoveElems(cs[b], k);
    RemoveApart(cs, b, k);
    hide ChainOk, Distinct;
    buckets[b] := buckets[b].(count := buckets[b].count - 1);
    var h := Unlink(buckets[b].hhHead, del, cs[b], k);
    buckets[b] := buckets[b].(hhHead := h);
    assert buckets[..] == bs[b := Bucket(h, bs[b].count - 1, bs[b].expandMult)];
  }

  /** The test of HASH_FIND_IN_BKT: hash value, key length and key bytes agree. */
  predicate Match(e: Elem, key: Key, hashv: nat)
    reads e`tag
  {
    e.tag.hashv == hashv && |e.tag.key.bytes| == |key.bytes| && e.tag.key.bytes == key.bytes
  }

  /** `out` is the first match of the chain `c`, null if there is none. */
  ghost predicate FirstMatch(out: Elem?, c: seq<Elem>, key: Key, hashv: nat)
    reads c`tag
  {
    if out == null then forall x :: x in c ==> !Match(x, key, hashv)
    else exists i :: 0 <= i < |c| && c[i] == out && Match(c[i], key, hashv) &&
                     forall j :: 0 <= j < i ==> !Match(c[j], key, hashv)
  }

  /** HASH_FIND_IN_BKT: the first matching element of the chain. */
  method FindInBkt(head: Elem?, key: Key, hashv: nat, ghost c: seq<Elem>) returns (out: Elem?)
    requires ChainOk(head, c)
    ensures FirstMatch(out, c, key, hashv)
  {
    out := head;
    ghost var i := 0;
    while out != null
      invariant 0 <= i <= |c| && out == if i < |c| then c[i] else null
      invariant forall j :: 0 <= j < i ==> !Match(c[j], key, hashv)
      decreases |c| - i
    {
      if out.tag.hashv == hashv && |out.tag.key.bytes| == |key.bytes| {
        if out.tag.key.bytes == key.bytes { break; }
      }
      out := out.hhNext;
      i := i + 1;
    }
  }
}
