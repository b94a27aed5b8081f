/** The Bloom filter that uthash keeps when HASH_BLOOM is defined. */
module Bloom {
  import opened Elements
  import MergeSort
  import opened BitArith
  import opened Uthash
  import opened AssocList

  /** 1U << k, for a bit of one byte. */
  function Bit(k: nat): bv8
    requires k < 8
  {
    if k == 0 then 1 else if k == 1 then 2 else if k == 2 then 4 else if k == 3 then 8
    else if k == 4 then 16 else if k == 5 then 32 else if k == 6 then 64 else 128
  }

  lemma BitValue(k: nat)
    requires k < 8
    ensures Bit(k) as nat == Pow2(k)
  {
    assert Pow2(1) == 2 && Pow2(2) == 4 && Pow2(3) == 8 && Pow2(4) == 16;
    assert Pow2(5) == 32 && Pow2(6) == 64 && Pow2(7) == 128;
  }

  /** Setting a bit sets that bit and no other. */
  lemma SetBit(x: bv8, k: nat, j: nat)
    requires k < 8 && j < 8
    ensures (x | Bit(k)) & Bit(j) != 0 <==> x & Bit(j) != 0 || j == k
  {
  }

  predicate HasIn(bytes: seq<bv8>, i: nat)
    requires i / 8 < |bytes|
  {
    bytes[i / 8] & Bit(i % 8) != 0
  }

  /** HASH_BLOOM_BITSET. */
  function SetIn(bytes: seq<bv8>, idx: nat): seq<bv8>
    requires idx / 8 < |bytes|
  {
    bytes[idx / 8 := bytes[idx / 8] | Bit(idx % 8)]
  }

  lemma SetInSets(bytes: seq<bv8>, idx: nat, i: nat)
    requires idx / 8 < |bytes| && i / 8 < |bytes|
    ensures HasIn(SetIn(bytes, idx), i) <==> HasIn(bytes, i) || i == idx
  {
    hide Bit;
    SetBit(bytes[idx / 8], idx % 8, i % 8);
    SamePlace(i, idx);
  }

  lemma SamePlace(i: nat, j: nat)
    ensures i == j <==> i / 8 == j / 8 && i % 8 == j % 8
  {
  }

  class Filter {
    const nbits: nat // HASH_BLOOM
    var bv: seq<bv8> // a buffer whose length never changes

    predicate Valid()
      reads this
    {
      |bv| == Pow2(nbits) / 8 + if Pow2(nbits) % 8 != 0 then 1 else 0
    }

    /** The bit number of a hash value. */
    function Index(hashv: nat): (i: nat)
      ensures i == hashv % Pow2(nbits)
    {
      MaskIsMod(hashv, nbits);
      BitAnd(hashv, Pow2(nbits) - 1)
    }

    /** The buffer is just large enough for a bit per number. */
    lemma BufferLength()
      requires Valid()
      ensures 8 * (|bv| - 1) < Pow2(nbits) <= 8 * |bv|
    {
    }

    lemma IndexInRange(hashv: nat)
      requires Valid()
      ensures Index(hashv) / 8 < |bv|
    {
      MaskIsMod(hashv, nbits);
    }

    predicate Has(i: nat)
      reads this
    {
      i / 8 < |bv| && HasIn(bv, i)
    }

    /** HASH_BLOOM_MAKE. */
    constructor (nbits: nat)
      ensures Valid() && this.nbits == nbits && forall i: nat :: !Has(i)
    {
      this.nbits := nbits;
      bv := seq(Pow2(nbits) / 8 + if Pow2(nbits) % 8 != 0 then 1 else 0, _ => 0);
    }

    /** HASH_BLOOM_ADD sets one bit. */
    method Add(hashv: nat)
      requires Valid()
      modifies this
      ensures Valid() && forall i: nat :: Has(i) <==> old(Has(i)) || i == Index(hashv)
      ensures Index(hashv) / 8 < |old(bv)| && bv == SetIn(old(bv), Index(hashv))
    {
      IndexInRange(hashv);
      hide Bit, HasIn;
      var idx := Index(hashv);
      bv := bv[idx / 8 := bv[idx / 8] | Bit(idx % 8)];
      forall i: nat | i / 8 < |bv| ensures HasIn(bv, i) <==> HasIn(old(bv), i) || i == idx {
        SetInSets(old(bv), idx, i);
      }
    }

    /** HASH_BLOOM_TEST. */
    method Test(hashv: nat) returns (b: bool)
      requires Valid()
      ensures b <==> Has(Index(hashv))
    {
      IndexInRange(hashv);
      var idx := Index(hashv);
      b := bv[idx / 8] & Bit(idx % 8) != 0;
    }
  }

  /** The bits of every hash value in the table are set. */
  ghost predicate KnownIn(nbits: nat, bv: seq<bv8>, nodes: seq<Elem>)
    reads nodes`tag
  {
    forall x :: x in nodes ==> var i := BitAnd(x.tag.hashv, Pow2(nbits) - 1); i / 8 < |bv| && HasIn(bv, i)
  }

  /** The filter knows every hash value in the table. */
  ghost predicate Knows(b: Filter, nodes: seq<Elem>)
    reads b, nodes`tag
  {
    b.Valid() && KnownIn(b.nbits, b.bv, nodes)
  }

  /** There is a filter exactly while there is a table, and it knows the table. */
  ghost predicate FilterOk(b: Filter?, r: Rep)
    reads b, r.nodes`tag
  {
    (b == null <==> r.table == null) && (b != null ==> Knows(b, r.nodes))
  }

  /** The filter of `r'` comes with the table of `r'`: it is the old one or new. */
  twostate predicate FilterFollows(b: Filter?, r: Rep, new b': Filter?, new r': Rep) {
    && (b' != null ==> b' == b || fresh(b'))
    && (r'.table != null && fresh(r'.table) ==> b' != null && fresh(b'))
    && (r'.table != null && r'.table == r.table ==> b' == b)
  }

  lemma AbsentIfUnknown(nbits: nat, bv: seq<bv8>, r: Rep, a: Assoc, hash: Key -> nat, key: Key)
    requires Represents(r, a, hash) && KnownIn(nbits, bv, r.nodes)
    ensures var i := BitAnd(hash(key), Pow2(nbits) - 1);
            !(i / 8 < |bv| && HasIn(bv, i)) ==> Lookup(a, key) == null
  {
    hide HasIn, BitAnd, Pow2;
    LookupIs(a.order, a.keys, key);
  }

  lemma EmptyAbsent(r: Rep, a: Assoc, hash: Key -> nat, key: Key)
    requires Represents(r, a, hash) && r.nodes == []
    ensures Lookup(a, key) == null
  {
  }

  /** HASH_FIND with the filter gives the same answer as without it. */
  method FindKeyFiltered(head: Elem?, key: Key, hash: Key -> nat, b: Filter?, ghost r: Rep, ghost a: Assoc)
    returns (out: Elem?)
    requires Valid(head, r) && Represents(r, a, hash) && FilterOk(b, r)
    ensures out == Lookup(a, key)
  {
    hide Valid, Represents, Lookup, HasIn, BitAnd, Pow2, KnownIn;
    out := null;
    if head != null {
      ValidParts(head, r);
      AbsentIfUnknown(b.nbits, b.bv, r, a, hash, key);
      var hashv := hash(key);
      var maybe := b.Test(hashv);
      if maybe {
        out := FindKey(head, key, hash, r, a);
      }
    } else {
      ValidEmpty(r);
      EmptyAbsent(r, a, hash, key);
    }
  }

  lemma KnownAdd(nbits: nat, bv: seq<bv8>, nodes: seq<Elem>, nodes': seq<Elem>, add: Elem, idx: nat)
    requires KnownIn(nbits, bv, nodes) && idx == BitAnd(add.tag.hashv, Pow2(nbits) - 1) && idx / 8 < |bv|
    requires Elems(nodes') == Elems(nodes) + {add}
    ensures KnownIn(nbits, SetIn(bv, idx), nodes')
  {
    hide BitAnd, HasIn;
    forall x | x in nodes'
      ensures var i := BitAnd(x.tag.hashv, Pow2(nbits) - 1); i / 8 < |bv| && HasIn(SetIn(bv, idx), i)
    {
      assert x in Elems(nodes) + {add};
      var i := BitAnd(x.tag.hashv, Pow2(nbits) - 1);
      SetInSets(bv, idx, i);
    }
  }

  lemma KnownLess(nbits: nat, bv: seq<bv8>, nodes: seq<Elem>, fewer: seq<Elem>)
    requires KnownIn(nbits, bv, nodes) && Elems(fewer) <= Elems(nodes)
    ensures KnownIn(nbits, bv, fewer)
  {
    forall x | x in fewer ensures x in nodes { assert x in Elems(fewer); }
  }

  /** HASH_ADD and HASH_ADD_INORDER as far as the table is concerned: the old
      hash values stay. */
  method AddKeyBeside(head: Elem?, add: Elem, key: Key, hash: Key -> nat, place: Place,
                      ghost nbits: nat, ghost bv: seq<bv8>, ghost r: Rep, ghost a: Assoc)
    returns (head': Elem, ghost r': Rep)
    requires Valid(head, r) && Represents(r, a, hash) && add !in r.nodes && Lookup(a, key) == null
    requires KnownIn(nbits, bv, r.nodes)
    modifies add, r.table, if r.table == null then {} else {r.table.buckets}
    modifies Elems(r.nodes)`next, Elems(r.nodes)`prev, Elems(r.nodes)`hhNext, Elems(r.nodes)`hhPrev
    ensures Valid(head', r') && Represents(r', Assoc(Placed(place, add, a.order), a.keys[add := key]), hash)
    ensures KnownIn(nbits, bv, r.nodes) && Elems(r'.nodes) == Elems(r.nodes) + {add} && add.tag.hashv == hash(key)
    ensures r'.table != null && (r.table != null ==> r'.table == r.table) && SameOrFresh(r, r')
  {
    hide Valid, Represents, Lookup, KnownIn, Placed, SameOrFresh;
    RepresentsOrder(r, a, hash);
    PlacedElems(place, add, a.order);
    head', r' := AddKey(head, add, key, hash, place, r, a);
    TagOf(r', Assoc(Placed(place, add, a.order), a.keys[add := key]), hash, add);
  }

  lemma TagOf(r: Rep, a: Assoc, hash: Key -> nat, x: Elem)
    requires Represents(r, a, hash) && x in Elems(a.order)
    ensures r.nodes == a.order && x in a.keys && x.tag.hashv == hash(a.keys[x])
  {
  }

  /** HASH_BLOOM_ADD after the element is in the table. */
  method NoteHash(b: Filter, head: Elem, ghost r: Rep, ghost a: Assoc, hash: Key -> nat, ghost nodes: seq<Elem>,
                  add: Elem)
    requires Valid(head, r) && r.table != null && Represents(r, a, hash) && Elems(r.nodes) == Elems(nodes) + {add}
    requires Knows(b, nodes) && b as object != r.table && b as object != r.table.buckets
    modifies b
    ensures Valid(head, r) && Represents(r, a, hash) && Knows(b, r.nodes)
  {
    hide Valid, Represents, KnownIn, SetIn, BitAnd, Pow2, HasIn;
    assert b as object !in Elems(r.nodes);
    ghost var bv := b.bv;
    b.Add(add.tag.hashv);
    KnownAdd(b.nbits, bv, nodes, r.nodes, add, b.Index(add.tag.hashv));
  }

  /** HASH_ADD and HASH_ADD_INORDER with the filter, which is made together with
      the table and learns the new hash value. */
  method AddKeyFiltered(head: Elem?, add: Elem, key: Key, hash: Key -> nat, place: Place, nbits: nat, b: Filter?,
                        ghost r: Rep, ghost a: Assoc)
    returns (head': Elem, b': Filter, ghost r': Rep)
    requires Valid(head, r) && Represents(r, a, hash) && add !in r.nodes && Lookup(a, key) == null && FilterOk(b, r)
    modifies add, b, r.table, if r.table == null then {} else {r.table.buckets}
    modifies Elems(r.nodes)`next, Elems(r.nodes)`prev, Elems(r.nodes)`hhNext, Elems(r.nodes)`hhPrev
    ensures Valid(head', r') && Represents(r', Assoc(Placed(place, add, a.order), a.keys[add := key]), hash)
    ensures FilterOk(b', r') && SameOrFresh(r, r') && FilterFollows(b, r, b', r')
    ensures r'.table != null && (r.table != null ==> r'.table == r.table)
  {
    hide Valid, Represents, Lookup, KnownIn, Placed;
    ghost var a' := Assoc(Placed(place, add, a.order), a.keys[add := key]);
    ghost var bits, bv := if b == null then nbits else b.nbits, if b == null then [] else b.bv;
    NoTableNoNodes(head, r);
    if b == null { KnownNothing(r.nodes, bits, bv); }
    head', r' := AddKeyBeside(head, add, key, hash, place, bits, bv, r, a);
    if b == null {
      b' := new Filter(nbits);
      KnownNothing(r.nodes, nbits, b'.bv);
    } else {
      b' := b;
    }
    NoteHash(b', head', r', a', hash, r.nodes, add);
  }

  lemma NoTableNoNodes(head: Elem?, r: Rep)
    requires Valid(head, r)
    ensures r.table == null <==> r.nodes == []
    ensures r.table == null <==> head == null
  {
  }

  lemma KnownNothing(nodes: seq<Elem>, nbits: nat, bv: seq<bv8>)
    requires nodes == []
    ensures KnownIn(nbits, bv, nodes)
  {
  }

  /** HASH_DEL leaves the filter alone, which may now know too much; with the
      last element it goes together with the table. */
  method DeleteKeyFiltered(head: Elem, del: Elem, hash: Key -> nat, b: Filter?, ghost r: Rep, ghost a: Assoc)
    returns (head': Elem?, b': Filter?, ghost r': Rep)
    requires Valid(head, r) && Represents(r, a, hash) && del in r.nodes && r.table != null && FilterOk(b, r)
    modifies r.table, r.table.buckets
    modifies Elems(r.nodes)`next, Elems(r.nodes)`prev, Elems(r.nodes)`hhNext, Elems(r.nodes)`hhPrev
    ensures Valid(head', r') && Represents(r', a.(order := Without(a.order, del)), hash)
    ensures del in a.keys && Lookup(a.(order := Without(a.order, del)), a.keys[del]) == null
    ensures r'.table == (if |r.nodes| == 1 then null else r.table) && r'.nodes == Without(r.nodes, del)
    ensures FilterOk(b', r') && SameOrFresh(r, r') && FilterFollows(b, r, b', r')
  {
    hide Valid, Represents, Lookup, Without, KnownIn, SameOrFresh;
    RepresentsOrder(r, a, hash);
    WithoutElems(r.nodes, del);
    ghost var nbits, bv := b.nbits, b.bv;
    head', r' := DeleteKey(head, del, hash, r, a);
    KnownLess(nbits, bv, r.nodes, r'.nodes);
    NoTableNoNodes(head', r');
    b' := if head' == null then null else b;
  }

  /** The first half of HASH_REPLACE, which looks through the filter. */
  method EvictFiltered(head: Elem?, key: Key, hash: Key -> nat, b: Filter?, ghost r: Rep, ghost a: Assoc)
    returns (head': Elem?, b': Filter?, replaced: Elem?, ghost r': Rep)
    requires Valid(head, r) && Represents(r, a, hash) && FilterOk(b, r)
    modifies r.table, if r.table == null then {} else {r.table.buckets}
    modifies Elems(r.nodes)`next, Elems(r.nodes)`prev, Elems(r.nodes)`hhNext, Elems(r.nodes)`hhPrev
    ensures replaced == Lookup(a, key)
    ensures Valid(head', r') && Represents(r', a.(order := Remaining(a, key)), hash)
    ensures Lookup(a.(order := Remaining(a, key)), key) == null
    ensures r'.table == null || r'.table == r.table
    ensures replaced != null ==> replaced !in r'.nodes
    ensures Elems(r'.nodes) <= Elems(r.nodes) && SameOrFresh(r, r')
    ensures FilterOk(b', r') && FilterFollows(b, r, b', r')
  {
    hide Valid, Represents, Lookup, Remaining, Without, KnownIn;
    RepresentsOrder(r, a, hash);
    Filed(r, a, hash, key, head);
    replaced := FindKeyFiltered(head, key, hash, b, r, a);
    if replaced == null {
      head', b', r' := head, b, r;
    } else {
      head', b', r' := DeleteKeyFiltered(head, replaced, hash, b, r, a);
    }
  }

  /** HASH_REPLACE and HASH_REPLACE_INORDER with the filter. */
  method ReplaceKeyFiltered(head: Elem?, add: Elem, key: Key, hash: Key -> nat, place: Place, nbits: nat, b: Filter?,
                            ghost r: Rep, ghost a: Assoc)
    returns (head': Elem, b': Filter, replaced: Elem?, ghost r': Rep)
    requires Valid(head, r) && Represents(r, a, hash) && (add in r.nodes ==> Lookup(a, key) == add) && FilterOk(b, r)
    modifies add, b, r.table, if r.table == null then {} else {r.table.buckets}
    modifies Elems(r.nodes)`next, Elems(r.nodes)`prev, Elems(r.nodes)`hhNext, Elems(r.nodes)`hhPrev
    ensures replaced == Lookup(a, key)
    ensures Valid(head', r') && Represents(r', Assoc(Placed(place, add, Remaining(a, key)), a.keys[add := key]), hash)
    ensures FilterOk(b', r') && SameOrFresh(r, r') && FilterFollows(b, r, b', r')
  {
    hide Valid, Represents, Lookup, Remaining, Placed, KnownIn;
    var h, b1;
    ghost var a' := a.(order := Remaining(a, key));
    h, b1, replaced, r' := EvictFiltered(head, key, hash, b, r, a);
    assert add in r'.nodes ==> add in Elems(r'.nodes);
    head', b', r' := AddKeyFiltered(h, add, key, hash, place, nbits, b1, r', a');
  }

  /** HASH_SORT does not look at the filter. */
  method SortKeysFiltered(head: Elem?, cmp: (Elem, Elem) -> int, hash: Key -> nat, ghost b: Filter?, ghost r: Rep,
                          ghost a: Assoc)
    returns (head': Elem?, ghost r': Rep)
    requires Valid(head, r) && Represents(r, a, hash) && FilterOk(b, r)
    modifies r.table, Elems(r.nodes)`next, Elems(r.nodes)`prev
    ensures Valid(head', r') && Represents(r', a.(order := MergeSort.Sort(cmp, a.order)), hash)
    ensures FilterOk(b, r') && SameOrFresh(r, r') && r'.table == r.table
  {
    hide Valid, Represents, KnownIn, MergeSort.Sort;
    RepresentsOrder(r, a, hash);
    SortedElems(cmp, a.order);
    head', r' := SortKeys(head, cmp, hash, r, a);
    if b != null { KnownLess(b.nbits, b.bv, r.nodes, r'.nodes); }
  }

  /** One operation on the table with its filter. */
  method StepFiltered(head: Elem?, op: Op, hash: Key -> nat, nbits: nat, b: Filter?, ghost r: Rep, ghost a: Assoc)
    returns (head': Elem?, b': Filter?, out: Answer, ghost r': Rep)
    requires Valid(head, r) && Represents(r, a, hash) && Allowed(a, op) && FilterOk(b, r)
    modifies Given(op), b, r.table, if r.table == null then {} else {r.table.buckets}
    modifies Elems(r.nodes)`next, Elems(r.nodes)`prev, Elems(r.nodes)`hhNext, Elems(r.nodes)`hhPrev
    ensures Valid(head', r') && Represents(r', SpecStep(a, op).0, hash) && out == SpecStep(a, op).1
    ensures FilterOk(b', r') && SameOrFresh(r, r') && FilterFollows(b, r, b', r')
  {
    hide Valid, Represents, Lookup, Remaining, Without, Placed, MergeSort.Sort, KnownIn;
    RepresentsOrder(r, a, hash);
    out, head', b', r' := Done, head, b, r;
    match op
    case AddOp(e, key, place) => head', b', r' := AddKeyFiltered(head, e, key, hash, place, nbits, b, r, a);
    case FindOp(key) =>
      var found := FindKeyFiltered(head, key, hash, b, r, a);
      out := Entry(found);
    case DeleteOp(e) =>
      NotEmpty(head, r, e);
      head', b', r' := DeleteKeyFiltered(head, e, hash, b, r, a);
    case ReplaceOp(e, key, place) =>
      var replaced;
      head', b', replaced, r' := ReplaceKeyFiltered(head, e, key, hash, place, nbits, b, r, a);
      out := Entry(replaced);
    case SortOp(cmp) => head', r' := SortKeysFiltered(head, cmp, hash, b, r, a);
    case CountOp =>
      var n := Count(head, r);
      out := Number(n);
  }

  /** One round of a run with a filter. */
  method RoundFiltered(head: Elem?, op: Op, hash: Key -> nat, nbits: nat, b: Filter?, ghost r: Rep, ghost a: Assoc,
                       ghost pool: set<Elem>)
    returns (head': Elem?, b': Filter?, out: Answer, ghost r': Rep)
    requires Valid(head, r) && Represents(r, a, hash) && Allowed(a, op) && FilterOk(b, r)
    requires Given(op) <= pool && Elems(r.nodes) <= pool
    modifies pool, b, r.table, if r.table == null then {} else {r.table.buckets}
    ensures Valid(head', r') && Represents(r', SpecStep(a, op).0, hash) && out == SpecStep(a, op).1
    ensures FilterOk(b', r') && Elems(r'.nodes) <= pool && SameOrFresh(r, r') && FilterFollows(b, r, b', r')
  {
    hide Valid, SpecStep, Allowed, Given, Represents, Distinct, FilterOk;
    RepresentsOrder(r, a, hash);
    StepElems(a, op);
    head', b', out, r' := StepFiltered(head, op, hash, nbits, b, r, a);
    RepresentsOrder(r', SpecStep(a, op).0, hash);
  }

  /** Any run with HASH_BLOOM defined gives the answers of the association list, so
      the same as without; after every step the filter knows the table, and it
      was made together with it.  (Every step ends a run of its own.) */
  method RunFiltered(ops: seq<Op>, hash: Key -> nat, nbits: nat, ghost pool: set<Elem>)
    returns (head: Elem?, b: Filter?, outs: seq<Answer>, ghost r: Rep)
    requires RunAllowed(NOTHING, ops, pool)
    modifies pool
    ensures outs == SpecRun(NOTHING, ops).1
    ensures Valid(head, r) && Represents(r, SpecRun(NOTHING, ops).0, hash)
    ensures FilterOk(b, r) && (b != null ==> fresh(b))
  {
    hide Valid, Represents, SpecStep, Elems, Allowed, Given, SpecRun, FilterOk;
    head, b, outs, r := null, null, [], EMPTY;
    var i := 0;
    FilteredStart(ops, hash);
    while i < |ops|
      invariant i <= |ops| && Valid(head, r) && Represents(r, SpecRun(NOTHING, ops[..i]).0, hash)
      invariant outs == SpecRun(NOTHING, ops[..i]).1
      invariant FilterOk(b, r) && (b != null ==> fresh(b))
      invariant Elems(r.nodes) <= pool && (r.table != null ==> fresh(r.table) && fresh(r.table.buckets))
    {
      SpecRunNext(NOTHING, ops, i);
      ghost var a := SpecRun(NOTHING, ops[..i]).0;
      var out;
      head, b, out, r := RoundFiltered(head, ops[i], hash, nbits, b, r, a, pool);
      outs, i := outs + [out], i + 1;
    }
    assert ops[..i] == ops;
  }

  lemma FilteredStart(ops: seq<Op>, hash: Key -> nat)
    ensures Valid(null, EMPTY) && Represents(EMPTY, NOTHING, hash) && Elems(EMPTY.nodes) == {}
    ensures SpecRun(NOTHING, ops[..0]) == (NOTHING, []) && FilterOk(null, EMPTY)
  {
  }
}
