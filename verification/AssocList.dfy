/** A hash table behaves like a plain ordered association list, whatever the
    hash function: every run of operations gives the same answers. */
module AssocList {
  import opened Elements
  import opened MergeSort
  import opened Order
  import InPlaceSort
  import opened AppList
  import opened Insertion
  import opened Buckets
  import opened Expand
  import opened TableCore
  import opened HashTables
  import opened Uthash

  /** The simple form: elements in order, and what each is filed under. */
  datatype Assoc = Assoc(order: seq<Elem>, keys: map<Elem, Key>)

  /** Where an element is added: HASH_ADD and HASH_REPLACE put it at the end, the
      INORDER forms behind all elements that are not above, by their own comparison. */
  datatype Place = AtEnd | InOrder(cmp: (Elem, Elem) -> int)

  datatype Op =
    | AddOp(e: Elem, key: Key, place: Place)
    | FindOp(key: Key)
    | DeleteOp(e: Elem)
    | ReplaceOp(e: Elem, key: Key, place: Place)
    | SortOp(cmp: (Elem, Elem) -> int)
    | CountOp

  datatype Answer = Done | Entry(e: Elem?) | Number(n: nat)

  ghost function Placed(place: Place, e: Elem, order: seq<Elem>): seq<Elem> {
    match place
    case AtEnd => order + [e]
    case InOrder(cmp) => InsertAfterEquals(cmp, e, order)
  }

  ghost function LookupIn(order: seq<Elem>, keys: map<Elem, Key>, key: Key): Elem? {
    if order == [] then null
    else if order[0] in keys && keys[order[0]] == key then order[0]
    else LookupIn(order[1..], keys, key)
  }

  ghost function Lookup(a: Assoc, key: Key): Elem? {
    LookupIn(a.order, a.keys, key)
  }

  /** `a` without the entry filed under `key`, if there is one. */
  ghost function Remaining(a: Assoc, key: Key): seq<Elem> {
    var e := Lookup(a, key);
    if e == null then a.order else var x: Elem := e; Without(a.order, x)
  }

  /** One operation on the association list: the new list and the answer. */
  ghost function SpecStep(a: Assoc, op: Op): (Assoc, Answer) {
    match op
    case AddOp(e, key, place) => (Assoc(Placed(place, e, a.order), a.keys[e := key]), Done)
    case FindOp(key) => (a, Entry(Lookup(a, key)))
    case DeleteOp(e) => (a.(order := Without(a.order, e)), Done)
    case ReplaceOp(e, key, place) =>
      (Assoc(Placed(place, e, Remaining(a, key)), a.keys[e := key]), Entry(Lookup(a, key)))
    case SortOp(cmp) => (a.(order := Sort(cmp, a.order)), Done)
    case CountOp => (a, Number(|a.order|))
  }

  /** What the header asks of its callers: a key is added once, an element is in
      the table once, and only elements in the table are deleted. */
  ghost predicate Allowed(a: Assoc, op: Op) {
    match op
    case AddOp(e, key, _) => e !in a.order && Lookup(a, key) == null
    case FindOp(_) => true
    case DeleteOp(e) => e in a.order
    case ReplaceOp(e, key, _) => e in a.order ==> Lookup(a, key) == e
    case SortOp(_) => true
    case CountOp => true
  }

  /** The table `r` holds what the list `a` holds. */
  ghost predicate Represents(r: Rep, a: Assoc, hash: Key -> nat)
    reads r.nodes`tag
  {
    && r.nodes == a.order && Distinct(a.order)
    && (forall x :: x in a.order ==> x in a.keys && x.tag.key == a.keys[x] && x.tag.hashv == hash(x.tag.key))
    && (forall x, y :: x in a.order && y in a.order && a.keys[x] == a.keys[y] ==> x == y)
  }

  lemma {:induction false} LookupIs(order: seq<Elem>, keys: map<Elem, Key>, key: Key)
    ensures var e := LookupIn(order, keys, key);
            if e == null then forall x :: x in order && x in keys ==> keys[x] != key
            else e in order && e in keys && keys[e] == key
  {
    if order != [] { LookupIs(order[1..], keys, key); }
  }

  lemma WithoutElems(s: seq<Elem>, x: Elem)
    requires Distinct(s)
    ensures Distinct(Without(s, x))
    ensures forall y :: y in Without(s, x) <==> y in s && y != x
    ensures Elems(Without(s, x)) == Elems(s) - {x}
  {
    if x in s {
      var k :| 0 <= k < |s| && s[k] == x;
      ElemsRemove(s, k);
      WithoutAt(s, k);
      RemoveElems(s, k);
      RemoveDistinct(s, k);
    } else {
      WithoutAbsent(s, x);
    }
  }

  lemma {:induction false} WithoutAbsent(s: seq<Elem>, x: Elem)
    requires x !in s
    ensures Without(s, x) == s
  {
    if s != [] { WithoutAbsent(s[1..], x); }
  }

  // ------------------------------------------------------------ single operations

  /** With different keys, the match that the table finds is the one that the list finds. */
  lemma MatchIsLookup(r: Rep, a: Assoc, hash: Key -> nat, key: Key, out: Elem?)
    requires Represents(r, a, hash)
    requires out == null ==> forall x :: x in r.nodes ==> !Match(x, key, hash(key))
    requires out != null ==> out in r.nodes && Match(out, key, hash(key))
    ensures out == Lookup(a, key)
  {
    LookupIs(a.order, a.keys, key);
  }

  /** HASH_FIND. */
  method FindKey(head: Elem?, key: Key, hash: Key -> nat, ghost r: Rep, ghost a: Assoc) returns (out: Elem?)
    requires Valid(head, r) && Represents(r, a, hash)
    ensures out == Lookup(a, key)
  {
    hide Valid, Represents, Lookup, Distinct;
    var hashv := hash(key);
    out := FindByHash(head, key, hashv, r);
    MatchIsLookup(r, a, hash, key, out);
  }

  lemma RepresentsAdd(r: Rep, r': Rep, a: Assoc, e: Elem, key: Key, order: seq<Elem>, hash: Key -> nat)
    requires Represents(r, a, hash) && e !in a.order && Lookup(a, key) == null
    requires r'.nodes == order && Distinct(order) && Elems(order) == Elems(a.order) + {e}
    requires e.tag.key == key && e.tag.hashv == hash(key)
    ensures Represents(r', Assoc(order, a.keys[e := key]), hash)
  {
    LookupIs(a.order, a.keys, key);
    assert forall x :: x in order ==> x in Elems(a.order) + {e};
  }

  lemma RepresentsOrder(r: Rep, a: Assoc, hash: Key -> nat)
    requires Represents(r, a, hash)
    ensures r.nodes == a.order && Distinct(a.order)
  {
  }

  lemma PlacedElems(place: Place, e: Elem, order: seq<Elem>)
    ensures Elems(Placed(place, e, order)) == Elems(order) + {e} && Placed(place, e, order) != []
  {
    match place
    case AtEnd => ElemsAppend(order, e);
    case InOrder(cmp) => ElemsInOrder(cmp, e, order);
  }

  /** Where the table of `r'` comes from: it is the one of `r`, or new.  A table
      that has stopped expanding keeps its bucket count for good. */
  twostate predicate SameOrFresh(r: Rep, new r': Rep)
    reads r'.table
  {
    r'.table != null ==>
      (r'.table == r.table || fresh(r'.table)) &&
      (fresh(r'.table.buckets) || (r.table != null && r'.table.buckets == old(r.table.buckets))) &&
      (r'.table == r.table && old(r.table.st.noexpand) ==>
         r'.table.st.noexpand && r'.table.st.numBuckets == old(r.table.st.numBuckets))
  }

  /** The two ways of adding, by place. */
  method Put(head: Elem?, add: Elem, key: Key, hashv: nat, place: Place, ghost r: Rep)
    returns (head': Elem, ghost r': Rep)
    requires Valid(head, r) && add !in r.nodes
    modifies add, r.table, if r.table == null then {} else {r.table.buckets}
    modifies Elems(r.nodes)`next, Elems(r.nodes)`prev, Elems(r.nodes)`hhNext, Elems(r.nodes)`hhPrev
    ensures Valid(head', r') && r'.nodes == Placed(place, add, r.nodes) && add.tag == Tag(r'.table, key, hashv)
    ensures r'.table != null && (r.table != null ==> r'.table == r.table) && SameOrFresh(r, r')
  {
    hide Valid, NewTable, InsertAfterEquals, ToBkt, FreshStats, Judged;
    match place {
      case AtEnd => head', r' := AddByHash(head, add, key, hashv, r);
      case InOrder(cmp) => head', r' := AddByHashInOrder(head, add, key, hashv, cmp, r);
    }
  }

  /** HASH_ADD and HASH_ADD_INORDER. */
  method AddKey(head: Elem?, add: Elem, key: Key, hash: Key -> nat, place: Place, ghost r: Rep, ghost a: Assoc)
    returns (head': Elem, ghost r': Rep)
    requires Valid(head, r) && Represents(r, a, hash) && add !in r.nodes && Lookup(a, key) == null
    modifies add, r.table, if r.table == null then {} else {r.table.buckets}
    modifies Elems(r.nodes)`next, Elems(r.nodes)`prev, Elems(r.nodes)`hhNext, Elems(r.nodes)`hhPrev
    ensures Valid(head', r') && Represents(r', Assoc(Placed(place, add, a.order), a.keys[add := key]), hash)
    ensures r'.table != null && (r.table != null ==> r'.table == r.table) && SameOrFresh(r, r')
  {
    hide Valid, Represents, Placed, Lookup, Distinct, SameOrFresh;
    RepresentsOrder(r, a, hash);
    PlacedElems(place, add, a.order);
    var hashv := hash(key);
    head', r' := Put(head, add, key, hashv, place, r);
    ValidDistinct(head', r');
    assert Represents(r, a, hash);
    RepresentsAdd(r, r', a, add, key, Placed(place, add, a.order), hash);
  }

  lemma RepresentsLess(r: Rep, r': Rep, a: Assoc, x: Elem, hash: Key -> nat)
    requires Represents(r, a, hash) && x in a.order && r'.nodes == Without(a.order, x)
    ensures Represents(r', a.(order := Without(a.order, x)), hash)
    ensures Lookup(a.(order := Without(a.order, x)), a.keys[x]) == null
  {
    WithoutElems(a.order, x);
    LookupIs(Without(a.order, x), a.keys, a.keys[x]);
  }

  /** HASH_DEL. */
  method DeleteKey(head: Elem, del: Elem, hash: Key -> nat, ghost r: Rep, ghost a: Assoc)
    returns (head': Elem?, ghost r': Rep)
    requires Valid(head, r) && Represents(r, a, hash) && del in r.nodes && r.table != null
    modifies r.table, r.table.buckets
    modifies Elems(r.nodes)`next, Elems(r.nodes)`prev, Elems(r.nodes)`hhNext, Elems(r.nodes)`hhPrev
    ensures Valid(head', r') && Represents(r', a.(order := Without(a.order, del)), hash)
    ensures del in a.keys && Lookup(a.(order := Without(a.order, del)), a.keys[del]) == null
    ensures r'.table == (if |r.nodes| == 1 then null else r.table) && r.table.buckets == old(r.table.buckets)
    ensures r'.nodes == Without(r.nodes, del) && SameOrFresh(r, r')
  {
    hide Valid, Without, Lookup, Distinct;
    ghost var released;
    head', r', released := Delete(head, del, r);
    assert Represents(r, a, hash);
    RepresentsLess(r, r', a, del, hash);
  }

  lemma Filed(r: Rep, a: Assoc, hash: Key -> nat, key: Key, head: Elem?)
    requires Valid(head, r) && Represents(r, a, hash)
    ensures Lookup(a, key) == null ==> Remaining(a, key) == a.order
    ensures Lookup(a, key) != null ==>
              var x: Elem := Lookup(a, key);
              && x in r.nodes && x in a.keys && a.keys[x] == key && Remaining(a, key) == Without(a.order, x)
              && head != null && r.table != null && x !in Without(r.nodes, x)
    ensures Elems(Remaining(a, key)) <= Elems(a.order)
  {
    LookupIs(a.order, a.keys, key);
    if Lookup(a, key) != null { WithoutElems(a.order, Lookup(a, key)); }
  }

  /** The first half of HASH_REPLACE: remove what is filed under `key`. */
  method Evict(head: Elem?, key: Key, hash: Key -> nat, ghost r: Rep, ghost a: Assoc)
    returns (head': Elem?, replaced: Elem?, ghost r': Rep)
    requires Valid(head, r) && Represents(r, a, hash)
    modifies r.table, if r.table == null then {} else {r.table.buckets}
    modifies Elems(r.nodes)`next, Elems(r.nodes)`prev, Elems(r.nodes)`hhNext, Elems(r.nodes)`hhPrev
    ensures replaced == Lookup(a, key)
    ensures Valid(head', r') && Represents(r', a.(order := Remaining(a, key)), hash)
    ensures Lookup(a.(order := Remaining(a, key)), key) == null
    ensures r'.table == null || r'.table == r.table
    ensures replaced != null ==> replaced !in r'.nodes
    ensures Elems(r'.nodes) <= Elems(r.nodes) && SameOrFresh(r, r')
  {
    hide Valid, Represents, Lookup, Remaining, Without, Elems;
    RepresentsOrder(r, a, hash);
    Filed(r, a, hash, key, head);
    replaced := FindKey(head, key, hash, r, a);
    if replaced == null {
      head', r' := head, r;
    } else {
      head', r' := DeleteKey(head, replaced, hash, r, a);
    }
  }

  /** HASH_REPLACE and HASH_REPLACE_INORDER. */
  method ReplaceKey(head: Elem?, add: Elem, key: Key, hash: Key -> nat, place: Place, ghost r: Rep, ghost a: Assoc)
    returns (head': Elem, replaced: Elem?, ghost r': Rep)
    requires Valid(head, r) && Represents(r, a, hash) && (add in r.nodes ==> Lookup(a, key) == add)
    modifies add, r.table, if r.table == null then {} else {r.table.buckets}
    modifies Elems(r.nodes)`next, Elems(r.nodes)`prev, Elems(r.nodes)`hhNext, Elems(r.nodes)`hhPrev
    ensures replaced == Lookup(a, key)
    ensures Valid(head', r') && Represents(r', Assoc(Placed(place, add, Remaining(a, key)), a.keys[add := key]), hash)
    ensures SameOrFresh(r, r')
  {
    hide Valid, Represents, Lookup, Remaining, Placed;
    var h;
    ghost var a' := a.(order := Remaining(a, key));
    h, replaced, r' := Evict(head, key, hash, r, a);
    assert add in r'.nodes ==> add in Elems(r'.nodes);
    head', r' := AddKey(h, add, key, hash, place, r', a');
  }

  lemma SortedElems(cmp: (Elem, Elem) -> int, order: seq<Elem>)
    ensures multiset(Sort(cmp, order)) == multiset(order) && Elems(Sort(cmp, order)) == Elems(order)
  {
    SortPermutes(cmp, 1, order);
    InPlaceSort.ElemsOfPermutation(order, Sort(cmp, order));
  }

  lemma RepresentsSame(r: Rep, r': Rep, a: Assoc, order: seq<Elem>, hash: Key -> nat)
    requires Represents(r, a, hash) && r'.nodes == order && Distinct(order) && Elems(order) == Elems(a.order)
    ensures Represents(r', a.(order := order), hash)
  {
    assert forall x :: x in order ==> x in Elems(a.order);
  }

  /** HASH_SORT keeps every answer: only the order changes. */
  method SortKeys(head: Elem?, cmp: (Elem, Elem) -> int, hash: Key -> nat, ghost r: Rep, ghost a: Assoc)
    returns (head': Elem?, ghost r': Rep)
    requires Valid(head, r) && Represents(r, a, hash)
    modifies r.table, Elems(r.nodes)`next, Elems(r.nodes)`prev
    ensures Valid(head', r') && Represents(r', a.(order := Sort(cmp, a.order)), hash)
    ensures r' == r.(nodes := Sort(cmp, r.nodes)) && SameOrFresh(r, r')
  {
    hide Valid, Represents, Sort, Distinct;
    RepresentsOrder(r, a, hash);
    SortedElems(cmp, a.order);
    head', r' := SortTable(head, cmp, r);
    ValidDistinct(head', r');
    assert Represents(r, a, hash);
    RepresentsSame(r, r', a, Sort(cmp, a.order), hash);
  }

  /** No two elements are filed under one key. */
  ghost predicate KeysDiffer(order: seq<Elem>, keys: map<Elem, Key>) {
    && (forall x :: x in order ==> x in keys)
    && (forall x, y :: x in order && y in order && keys[x] == keys[y] ==> x == y)
  }

  /** With different keys the order is irrelevant to lookups; in particular
      sorting changes no answer. */
  lemma LookupIgnoresOrder(order: seq<Elem>, order': seq<Elem>, keys: map<Elem, Key>, key: Key)
    requires KeysDiffer(order, keys) && multiset(order) == multiset(order')
    ensures LookupIn(order, keys, key) == LookupIn(order', keys, key)
  {
    LookupIs(order, keys, key);
    LookupIs(order', keys, key);
    assert forall x :: x in order <==> x in multiset(order);
    assert forall x :: x in order' <==> x in multiset(order');
  }

  lemma SortKeepsLookups(a: Assoc, cmp: (Elem, Elem) -> int, key: Key)
    requires KeysDiffer(a.order, a.keys)
    ensures Lookup(SpecStep(a, SortOp(cmp)).0, key) == Lookup(a, key)
  {
    SortedElems(cmp, a.order);
    LookupIgnoresOrder(a.order, Sort(cmp, a.order), a.keys, key);
  }

  // ------------------------------------------------------------ runs

  /** The element an operation hands over to the table. */
  function Given(op: Op): set<Elem> {
    if op.AddOp? || op.ReplaceOp? then {op.e} else {}
  }

  lemma NotEmpty(head: Elem?, r: Rep, e: Elem)
    requires Valid(head, r) && e in r.nodes
    ensures head != null && r.table != null
  {
  }

  /** One operation on the real table does what it does on the list. */
  method Step(head: Elem?, op: Op, hash: Key -> nat, ghost r: Rep, ghost a: Assoc)
    returns (head': Elem?, out: Answer, ghost r': Rep)
    requires Valid(head, r) && Represents(r, a, hash) && Allowed(a, op)
    modifies Given(op), r.table, if r.table == null then {} else {r.table.buckets}
    modifies Elems(r.nodes)`next, Elems(r.nodes)`prev, Elems(r.nodes)`hhNext, Elems(r.nodes)`hhPrev
    ensures Valid(head', r') && Represents(r', SpecStep(a, op).0, hash) && out == SpecStep(a, op).1
    ensures SameOrFresh(r, r')
  {
    hide Valid, Represents, Lookup, Remaining, Without, Distinct, Placed, Sort;
    RepresentsOrder(r, a, hash);
    out, head', r' := Done, head, r;
    match op
    case AddOp(e, key, place) => head', r' := AddKey(head, e, key, hash, place, r, a);
    case FindOp(key) =>
      var found := FindKey(head, key, hash, r, a);
      out := Entry(found);
    case DeleteOp(e) =>
      NotEmpty(head, r, e);
      head', r' := DeleteKey(head, e, hash, r, a);
    case ReplaceOp(e, key, place) =>
      var replaced;
      head', replaced, r' := ReplaceKey(head, e, key, hash, place, r, a);
      out := Entry(replaced);
    case SortOp(cmp) => head', r' := SortKeys(head, cmp, hash, r, a);
    case CountOp =>
      var n := Count(head, r);
      out := Number(n);
  }

  /** A run on the association list: the final list and all answers. */
  ghost function SpecRun(a: Assoc, ops: seq<Op>): (Assoc, seq<Answer>) {
    if ops == [] then (a, [])
    else
      var before := SpecRun(a, ops[..|ops| - 1]);
      var last := SpecStep(before.0, ops[|ops| - 1]);
      (last.0, before.1 + [last.1])
  }

  /** Every operation of the run is allowed where it stands, and hands over
      elements of `pool` only. */
  ghost predicate RunAllowed(a: Assoc, ops: seq<Op>, pool: set<Elem>) {
    forall i :: 0 <= i < |ops| ==> Allowed(SpecRun(a, ops[..i]).0, ops[i]) && Given(ops[i]) <= pool
  }

  const NOTHING := Assoc([], map[])

  lemma SpecRunNext(a: Assoc, ops: seq<Op>, i: nat)
    requires i < |ops|
    ensures var b := SpecRun(a, ops[..i]);
            var n := SpecStep(b.0, ops[i]);
            SpecRun(a, ops[..i + 1]) == (n.0, b.1 + [n.1])
  {
    hide SpecStep;
    assert ops[..i + 1][..i] == ops[..i];
  }

  lemma StepElems(a: Assoc, op: Op)
    requires Distinct(a.order)
    ensures Elems(SpecStep(a, op).0.order) <= Elems(a.order) + Given(op)
  {
    match op
    case AddOp(e, _, place) => PlacedElems(place, e, a.order);
    case FindOp(_) =>
    case DeleteOp(e) => WithoutElems(a.order, e);
    case ReplaceOp(e, key, place) =>
      RemainingElems(a, key);
      PlacedElems(place, e, Remaining(a, key));
    case SortOp(cmp) => SortedElems(cmp, a.order);
    case CountOp =>
  }

  lemma RemainingElems(a: Assoc, key: Key)
    requires Distinct(a.order)
    ensures Elems(Remaining(a, key)) <= Elems(a.order)
  {
    if Lookup(a, key) != null { WithoutElems(a.order, Lookup(a, key)); }
  }

  /** What can be seen of the table after one operation of a run. */
  datatype Snapshot = Snapshot(table: Table?, st: Counters, buckets: seq<Bucket>)

  const NO_COUNTERS := Counters(0, 0, 0, 0, 0, 0, false)

  ghost function SnapshotOf(r: Rep): Snapshot
    reads r.table, if r.table == null then {} else {r.table.buckets}
  {
    if r.table == null then Snapshot(null, NO_COUNTERS, []) else Snapshot(r.table, r.table.st, r.table.buckets[..])
  }

  /** The chain bound, and how `noexpand` and `ineff_expands` belong together. */
  ghost predicate InBounds(s: Snapshot) {
    s.table != null ==>
      && s.st.ineffExpands <= 2 && (s.st.noexpand <==> s.st.ineffExpands == 2)
      && (!s.st.noexpand ==> forall b :: 0 <= b < |s.buckets| ==> Bounded(s.buckets[b], s.st.idealChainMaxlen))
  }

  /** Over the life of one table, `noexpand` and then the bucket count stay. */
  ghost predicate Lasting(early: Snapshot, late: Snapshot) {
    early.table != null && early.table == late.table && early.st.noexpand ==>
      late.st.noexpand && late.st.numBuckets == early.st.numBuckets
  }

  ghost predicate Healthy(snaps: seq<Snapshot>) {
    && (forall i :: 0 <= i < |snaps| ==> InBounds(snaps[i]))
    && (forall i, j :: 0 <= i < j < |snaps| ==> Lasting(snaps[i], snaps[j]))
  }

  /** The table of `r` goes on from all snapshots taken so far. */
  ghost predicate GoesOn(snaps: seq<Snapshot>, r: Rep)
    reads r.table, if r.table == null then {} else {r.table.buckets}
  {
    forall i :: 0 <= i < |snaps| ==> Lasting(snaps[i], SnapshotOf(r))
  }

  lemma HealthyNext(snaps: seq<Snapshot>, head: Elem?, r: Rep)
    requires Healthy(snaps) && GoesOn(snaps, r) && Valid(head, r)
    ensures Healthy(snaps + [SnapshotOf(r)]) && GoesOn(snaps + [SnapshotOf(r)], r)
  {
    hide Sound, ListOk, Bounded;
    assert InBounds(SnapshotOf(r));
  }

  /** What that says of two moments of a run, in plain numbers. */
  lemma HealthyMeans(snaps: seq<Snapshot>, i: nat, j: nat)
    requires Healthy(snaps) && i < j < |snaps|
    ensures var (s, t) := (snaps[i], snaps[j]);
            && (s.table != null && !s.st.noexpand ==>
                  forall b :: 0 <= b < |s.buckets| ==>
                    s.buckets[b].count <= (s.buckets[b].expandMult + 1) * Max(10, s.st.idealChainMaxlen))
            && (s.table != null ==> (s.st.noexpand <==> s.st.ineffExpands == 2))
            && (s.table != null && t.table == s.table && s.st.noexpand ==>
                  t.st.noexpand && t.st.numBuckets == s.st.numBuckets)
  {
    assert InBounds(snaps[i]) && Lasting(snaps[i], snaps[j]);
    if snaps[i].table != null && !snaps[i].st.noexpand {
      forall b | 0 <= b < |snaps[i].buckets|
        ensures snaps[i].buckets[b].count <=
                (snaps[i].buckets[b].expandMult + 1) * Max(10, snaps[i].st.idealChainMaxlen)
      {
        assert Bounded(snaps[i].buckets[b], snaps[i].st.idealChainMaxlen);
      }
    }
  }

  /** One round of a run, inside a pool of elements and tables made by the run. */
  method Round(head: Elem?, op: Op, hash: Key -> nat, ghost r: Rep, ghost a: Assoc, ghost pool: set<Elem>,
               ghost snaps: seq<Snapshot>)
    returns (head': Elem?, out: Answer, ghost r': Rep)
    requires Valid(head, r) && Represents(r, a, hash) && Allowed(a, op)
    requires Given(op) <= pool && Elems(r.nodes) <= pool && GoesOn(snaps, r)
    modifies pool, r.table, if r.table == null then {} else {r.table.buckets}
    ensures Valid(head', r') && Represents(r', SpecStep(a, op).0, hash) && out == SpecStep(a, op).1
    ensures Elems(r'.nodes) <= pool && SameOrFresh(r, r') && GoesOn(snaps, r')
  {
    hide Valid, SpecStep, Distinct, Allowed, Given, Represents;
    RepresentsOrder(r, a, hash);
    StepElems(a, op);
    head', out, r' := Step(head, op, hash, r, a);
    RepresentsOrder(r', SpecStep(a, op).0, hash);
  }

  /** Any run on an initially empty table, each operation with its own comparison,
      gives the answers of the association list, whatever the hash function; it
      passes HASH_FSCK after every step, and the bookkeeping stays in order. */
  method Run(ops: seq<Op>, hash: Key -> nat, ghost pool: set<Elem>)
    returns (head: Elem?, outs: seq<Answer>, checked: bool, ghost r: Rep, ghost snaps: seq<Snapshot>)
    requires RunAllowed(NOTHING, ops, pool)
    modifies pool
    ensures outs == SpecRun(NOTHING, ops).1 && checked
    ensures Valid(head, r) && Represents(r, SpecRun(NOTHING, ops).0, hash)
    ensures |snaps| == |ops| && Healthy(snaps) && (ops != [] ==> snaps[|ops| - 1] == SnapshotOf(r))
    ensures r.table != null ==> SnapshotOf(r) == Snapshot(r.table, r.table.st, r.table.buckets[..])
  {
    hide Valid, Represents, SpecStep, Elems, Allowed, Given, Healthy, GoesOn, Checked, Ends, SpecRun;
    head, outs, checked, r, snaps := null, [], true, EMPTY, [];
    var i := 0;
    RunStart(ops, hash);
    while i < |ops|
      invariant i <= |ops| && Valid(head, r) && Represents(r, SpecRun(NOTHING, ops[..i]).0, hash)
      invariant outs == SpecRun(NOTHING, ops[..i]).1 && checked
      invariant Elems(r.nodes) <= pool && (r.table != null ==> fresh(r.table) && fresh(r.table.buckets))
      invariant |snaps| == i && Healthy(snaps) && GoesOn(snaps, r) && (i > 0 ==> snaps[i - 1] == SnapshotOf(r))
    {
      SpecRunNext(NOTHING, ops, i);
      ghost var a := SpecRun(NOTHING, ops[..i]).0;
      var out;
      head, out, r := Round(head, ops[i], hash, r, a, pool, snaps);
      HealthyNext(snaps, head, r);
      snaps := snaps + [SnapshotOf(r)];
      ValidPasses(head, r);
      var ok := Fsck(head, r, Elems(r.nodes));
      outs, checked, i := outs + [out], checked && ok, i + 1;
    }
    assert ops[..i] == ops;
  }

  lemma RunStart(ops: seq<Op>, hash: Key -> nat)
    ensures Valid(null, EMPTY) && Represents(EMPTY, NOTHING, hash) && Elems(EMPTY.nodes) == {}
    ensures SpecRun(NOTHING, ops[..0]) == (NOTHING, []) && Healthy([]) && GoesOn([], EMPTY)
  {
  }

  // ------------------------------------------------------------ adding in order

  /** Elements to be added, with their keys. */
  ghost function Adds(es: seq<(Elem, Key)>, place: Place): seq<Op> {
    seq(|es|, i requires 0 <= i < |es| => AddOp(es[i].0, es[i].1, place))
  }

  ghost function Firsts(es: seq<(Elem, Key)>): seq<Elem> {
    seq(|es|, i requires 0 <= i < |es| => es[i].0)
  }

  /** The order after a run of additions at one kind of place. */
  ghost function Built(es: seq<(Elem, Key)>, place: Place): seq<Elem> {
    match place
    case AtEnd => Firsts(es)
    case InOrder(cmp) => BuildAfterEquals(cmp, Firsts(es))
  }

  ghost function KeysOf(es: seq<(Elem, Key)>): map<Elem, Key> {
    if es == [] then map[] else KeysOf(es[..|es| - 1])[es[|es| - 1].0 := es[|es| - 1].1]
  }

  lemma {:induction false} RunOfAdds(es: seq<(Elem, Key)>, place: Place)
    ensures SpecRun(NOTHING, Adds(es, place)).0 == Assoc(Built(es, place), KeysOf(es))
  {
    if es == [] {
      assert Adds(es, place) == [] && Firsts(es) == [];
    } else {
      var front, last := es[..|es| - 1], es[|es| - 1];
      RunOfAdds(front, place);
      var ops := Adds(es, place);
      assert ops[..|ops| - 1] == Adds(front, place);
      assert Firsts(es) == Firsts(front) + [last.0];
      assert Firsts(es)[..|es| - 1] == Firsts(front);
    }
  }

  /** Adding all elements with HASH_ADD_INORDER gives the same table contents as
      adding them with HASH_ADD and then sorting once. */
  lemma AddInOrderIsAddAndSort(es: seq<(Elem, Key)>, cmp: (Elem, Elem) -> int, u: set<Elem>)
    requires TotalPreorder(cmp, u) && Within(Firsts(es), u)
    ensures SpecRun(NOTHING, Adds(es, InOrder(cmp))).0 == SpecRun(NOTHING, Adds(es, AtEnd) + [SortOp(cmp)]).0
  {
    hide TotalPreorder, Within, BuildAfterEquals, Sort;
    RunOfAdds(es, InOrder(cmp));
    RunOfAdds(es, AtEnd);
    AddInOrderIsAddThenSort(cmp, u, Firsts(es));
    var ops := Adds(es, AtEnd) + [SortOp(cmp)];
    assert ops[..|ops| - 1] == Adds(es, AtEnd);
  }
}
