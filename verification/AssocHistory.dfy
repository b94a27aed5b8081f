/** What the operations on an association list do, each in terms of what is asked
    before and after it, and what a run answers in terms of the operations that
    went before.  `SpecStep` is not taken for granted here. */
module AssocHistory {
  import opened Elements
  import opened MergeSort
  import opened Order
  import opened Insertion
  import InPlaceSort
  import HashTables
  import Uthash
  import opened AssocList

  // ------------------------------------------------------------ single operations

  /** Every element is there once, under a key of its own. */
  ghost predicate Known(a: Assoc) {
    Distinct(a.order) && KeysDiffer(a.order, a.keys)
  }

  /** `e` is in the list, filed under `key`. */
  ghost predicate FiledAs(a: Assoc, e: Elem, key: Key) {
    e in a.order && e in a.keys && a.keys[e] == key
  }

  /** What HASH_FIND would answer. */
  ghost function Found(a: Assoc, key: Key): Answer {
    SpecStep(a, FindOp(key)).1
  }

  /** HASH_FIND changes nothing, and answers the element filed under the key, or
      NULL if there is none. */
  lemma FindLaw(a: Assoc, key: Key)
    requires Known(a)
    ensures SpecStep(a, FindOp(key)).0 == a && Found(a, key).Entry?
    ensures Found(a, key).e == null ==> forall e :: e in a.order ==> !FiledAs(a, e, key)
    ensures Found(a, key).e != null ==> FiledAs(a, Found(a, key).e, key)
  {
    LookupIs(a.order, a.keys, key);
  }

  /** The answer is determined by what is filed. */
  lemma FoundIs(a: Assoc, key: Key, e: Elem)
    requires Known(a) && FiledAs(a, e, key)
    ensures Found(a, key) == Entry(e)
  {
    FindLaw(a, key);
  }

  lemma FoundNot(a: Assoc, key: Key)
    requires Known(a) && forall e :: e in a.order ==> !FiledAs(a, e, key)
    ensures Found(a, key) == Entry(null)
  {
    FindLaw(a, key);
  }

  /** Lists that file the same elements under `key` give the same answer. */
  lemma FoundSame(a: Assoc, b: Assoc, key: Key)
    requires Known(a) && Known(b) && forall e :: FiledAs(a, e, key) <==> FiledAs(b, e, key)
    ensures Found(a, key) == Found(b, key)
  {
    FindLaw(a, key);
    FindLaw(b, key);
  }

  /** `e` stands at position `i` of `order`, as `place` asks for. */
  ghost predicate PlacedAt(place: Place, e: Elem, rest: seq<Elem>, order: seq<Elem>, i: nat) {
    && i <= |rest| && order == rest[..i] + [e] + rest[i..]
    && match place
       case AtEnd => i == |rest|
       case InOrder(cmp) => (forall j :: 0 <= j < i ==> cmp(rest[j], e) <= 0) && (i < |rest| ==> cmp(rest[i], e) > 0)
  }

  lemma {:induction false} StopsSomewhere(cmp: (Elem, Elem) -> int, e: Elem, s: seq<Elem>) returns (i: nat)
    ensures i <= |s| && (forall j :: 0 <= j < i ==> cmp(s[j], e) <= 0) && (i < |s| ==> cmp(s[i], e) > 0)
  {
    i := 0;
    if s != [] && cmp(s[0], e) <= 0 {
      var k := StopsSomewhere(cmp, e, s[1..]);
      i := k + 1;
    }
  }

  lemma PlacedSomewhere(place: Place, e: Elem, rest: seq<Elem>) returns (i: nat)
    ensures PlacedAt(place, e, rest, Placed(place, e, rest), i)
  {
    match place
    case AtEnd => i := |rest|;
    case InOrder(cmp) =>
      i := StopsSomewhere(cmp, e, rest);
      AfterEqualsAt(cmp, e, rest, i);
  }

  lemma PlacedKnown(a: Assoc, e: Elem, key: Key, place: Place)
    requires Known(a) && e !in a.order && forall x :: x in a.order ==> !FiledAs(a, x, key)
    ensures Known(Assoc(Placed(place, e, a.order), a.keys[e := key]))
    ensures forall x, k :: FiledAs(Assoc(Placed(place, e, a.order), a.keys[e := key]), x, k) <==>
                             (x == e && k == key) || FiledAs(a, x, k)
  {
    hide Placed, Known, FiledAs, Distinct;
    KnownDistinct(a);
    var i := PlacedSomewhere(place, e, a.order);
    InsertDistinct(a.order, i, e);
    var order := Placed(place, e, a.order);
    assert order == InsertAt(a.order, i, e);
    assert a.order == a.order[..i] + a.order[i..];
    OneMore(a, Assoc(order, a.keys[e := key]), e, key);
  }

  lemma KnownDistinct(a: Assoc)
    requires Known(a)
    ensures Distinct(a.order)
  {
  }

  lemma OneMore(a: Assoc, b: Assoc, e: Elem, key: Key)
    requires Known(a) && e !in a.order && forall x :: x in a.order ==> !FiledAs(a, x, key)
    requires Distinct(b.order) && b.keys == a.keys[e := key] && forall x :: x in b.order <==> x == e || x in a.order
    ensures Known(b)
    ensures forall x, k :: FiledAs(b, x, k) <==> (x == e && k == key) || FiledAs(a, x, k)
  {
    hide Distinct;
    assert forall x :: x in a.order ==> x in a.keys && a.keys[x] != key;
  }

  /** HASH_ADD and HASH_ADD_INORDER: from then on the key finds the new element,
      other keys find what they found; the others stay in order around it. */
  lemma AddLaw(a: Assoc, e: Elem, key: Key, place: Place)
    requires Known(a) && e !in a.order && Found(a, key) == Entry(null)
    ensures var (b, out) := SpecStep(a, AddOp(e, key, place));
            && out == Done && Known(b) && (exists i :: PlacedAt(place, e, a.order, b.order, i))
            && Found(b, key) == Entry(e) && forall k :: k != key ==> Found(b, k) == Found(a, k)
  {
    hide Known, FiledAs, Placed, PlacedAt, Found, Lookup;
    FindLaw(a, key);
    PlacedKnown(a, e, key, place);
    var i := PlacedSomewhere(place, e, a.order);
    var b := Assoc(Placed(place, e, a.order), a.keys[e := key]);
    FoundIs(b, key, e);
    forall k | k != key ensures Found(b, k) == Found(a, k) { FoundSame(a, b, k); }
  }

  /** `rest` is `order` without the element at position `i`, which is `e`. */
  ghost predicate LostAt(order: seq<Elem>, e: Elem, rest: seq<Elem>, i: nat) {
    i < |order| && order[i] == e && rest == order[..i] + order[i + 1..]
  }

  lemma Lost(order: seq<Elem>, e: Elem) returns (i: nat)
    requires Distinct(order) && e in order
    ensures LostAt(order, e, Uthash.Without(order, e), i)
  {
    i :| 0 <= i < |order| && order[i] == e;
    Uthash.WithoutAt(order, i);
  }

  lemma LostKnown(a: Assoc, e: Elem)
    requires Known(a) && e in a.order
    ensures Known(a.(order := Uthash.Without(a.order, e)))
    ensures forall x, k :: FiledAs(a.(order := Uthash.Without(a.order, e)), x, k) <==> x != e && FiledAs(a, x, k)
  {
    WithoutElems(a.order, e);
    hide Distinct, Uthash.Without;
    var b := a.(order := Uthash.Without(a.order, e));
    assert forall x :: x in b.order <==> x != e && x in a.order;
    assert KeysDiffer(b.order, b.keys);
  }

  /** HASH_DELETE: the key of the element finds nothing any more, other keys find
      what they found; the others stay in order. */
  lemma DeleteLaw(a: Assoc, e: Elem)
    requires Known(a) && e in a.order
    ensures e in a.keys
    ensures var (b, out) := SpecStep(a, DeleteOp(e));
            && out == Done && Known(b) && (exists i :: LostAt(a.order, e, b.order, i))
            && Found(b, a.keys[e]) == Entry(null) && forall k :: k != a.keys[e] ==> Found(b, k) == Found(a, k)
  {
    var b := a.(order := Uthash.Without(a.order, e));
    LostKnown(a, e);
    KnownParts(a, e);
    hide Known, LostAt, Found, Lookup, Uthash.Without;
    var i := Lost(a.order, e);
    FoundNot(b, a.keys[e]);
    forall k | k != a.keys[e] ensures Found(b, k) == Found(a, k) { FoundSame(a, b, k); }
  }

  lemma KnownParts(a: Assoc, e: Elem)
    requires Known(a) && e in a.order
    ensures e in a.keys && Distinct(a.order) && forall x :: FiledAs(a, x, a.keys[e]) <==> x == e
  {
  }

  /** The list after the first half of HASH_REPLACE. */
  ghost predicate Evicted(a: Assoc, key: Key, rest: seq<Elem>) {
    if Found(a, key) == Entry(null) then rest == a.order
    else Found(a, key).Entry? && Found(a, key).e != null && exists i :: LostAt(a.order, Found(a, key).e, rest, i)
  }

  /** HASH_REPLACE and HASH_REPLACE_INORDER: the answer is what the key found, the
      key then finds the new element, other keys find what they found; the old
      element is gone, and the others stay in order around the new one. */
  lemma ReplaceLaw(a: Assoc, e: Elem, key: Key, place: Place) returns (rest: seq<Elem>)
    requires Known(a) && (e in a.order ==> Found(a, key) == Entry(e))
    ensures Evicted(a, key, rest)
    ensures var (b, out) := SpecStep(a, ReplaceOp(e, key, place));
            && out == Found(a, key) && Known(b) && (exists i :: PlacedAt(place, e, rest, b.order, i))
            && Found(b, key) == Entry(e) && forall k :: k != key ==> Found(b, k) == Found(a, k)
  {
    hide Known, FiledAs, Placed, PlacedAt, LostAt, Uthash.Without;
    FindLaw(a, key);
    rest := Remaining(a, key);
    var c := a.(order := rest);
    RemainingKnown(a, key);
    var x := Lookup(a, key);
    if x != null {
      FiledIn(a, x, key);
      var i := Lost(a.order, x);
    }
    FoundNot(c, key);
    NotThere(a, e, key);
    PlacedKnown(c, e, key, place);
    var b := Assoc(Placed(place, e, rest), a.keys[e := key]);
    var i := PlacedSomewhere(place, e, rest);
    FoundIs(b, key, e);
    forall k | k != key ensures Found(b, k) == Found(a, k) { FoundSame(a, b, k); }
  }

  lemma FiledIn(a: Assoc, x: Elem, key: Key)
    requires Known(a) && FiledAs(a, x, key)
    ensures x in a.order && Distinct(a.order)
  {
  }

  lemma RemainingKnown(a: Assoc, key: Key)
    requires Known(a)
    ensures Known(a.(order := Remaining(a, key)))
    ensures forall x, k :: FiledAs(a.(order := Remaining(a, key)), x, k) <==> k != key && FiledAs(a, x, k)
  {
    LookupIs(a.order, a.keys, key);
    if Lookup(a, key) != null { LostKnown(a, Lookup(a, key)); }
  }

  lemma NotThere(a: Assoc, e: Elem, key: Key)
    requires Known(a) && (e in a.order ==> Found(a, key) == Entry(e))
    ensures e !in Remaining(a, key)
  {
    LookupIs(a.order, a.keys, key);
    if Lookup(a, key) != null { WithoutElems(a.order, Lookup(a, key)); }
  }

  /** HASH_SORT: all keys find what they found, and the order is the stable sort. */
  lemma SortLaw(a: Assoc, cmp: (Elem, Elem) -> int, u: set<Elem>)
    requires Known(a)
    ensures var (b, out) := SpecStep(a, SortOp(cmp));
            && out == Done && Known(b) && multiset(b.order) == multiset(a.order)
            && (forall k :: Found(b, k) == Found(a, k))
            && (TotalPreorder(cmp, u) && Within(a.order, u) ==> StableSortOf(cmp, u, a.order, b.order))
  {
    hide TotalPreorder, Within, StableSortOf, Sort;
    SortedElems(cmp, a.order);
    SortedKnown(a, Sort(cmp, a.order));
    if TotalPreorder(cmp, u) && Within(a.order, u) { SortCorrect(cmp, u, a.order); }
  }

  lemma {:induction false} OnceEach(s: seq<Elem>)
    requires Distinct(s)
    ensures forall x :: multiset(s)[x] <= 1
  {
    if s != [] {
      var front, x := s[..|s| - 1], s[|s| - 1];
      assert s == front + [x];
      OnceEach(front);
      assert x !in front;
      assert multiset(front)[x] == 0;
    }
  }

  lemma TwiceIn(s: seq<Elem>, i: nat, j: nat)
    requires i < j < |s| && s[i] == s[j]
    ensures multiset(s)[s[i]] >= 2
  {
    assert s == s[..j] + [s[j]] + s[j + 1..];
    assert s[i] == s[..j][i];
    assert s[i] in multiset(s[..j]);
  }

  lemma StillDistinct(s: seq<Elem>, t: seq<Elem>)
    requires Distinct(s) && multiset(s) == multiset(t)
    ensures Distinct(t)
  {
    OnceEach(s);
    forall i, j | 0 <= i < j < |t| ensures t[i] != t[j] {
      if t[i] == t[j] { TwiceIn(t, i, j); }
    }
  }

  lemma SortedKnown(a: Assoc, order: seq<Elem>)
    requires Known(a) && multiset(order) == multiset(a.order) && Elems(order) == Elems(a.order)
    ensures Known(a.(order := order)) && forall k :: Found(a.(order := order), k) == Found(a, k)
  {
    var b := a.(order := order);
    StillDistinct(a.order, order);
    assert forall x :: x in order <==> x in Elems(a.order);
    assert KeysDiffer(order, a.keys);
    forall k ensures Found(b, k) == Found(a, k) {
      assert forall e :: FiledAs(a, e, k) <==> FiledAs(b, e, k);
      FoundSame(a, b, k);
    }
  }

  /** HASH_COUNT. */
  lemma CountLaw(a: Assoc)
    ensures SpecStep(a, CountOp) == (a, Number(|a.order|))
  {
  }

  // ------------------------------------------------------------ runs

  /** The element that was last filed under `key` and not deleted since. */
  ghost function LastFiled(ops: seq<Op>, key: Key): Elem? {
    if ops == [] then null
    else
      var earlier := LastFiled(ops[..|ops| - 1], key);
      match ops[|ops| - 1]
      case AddOp(e, k, _) => if k == key then e else earlier
      case ReplaceOp(e, k, _) => if k == key then e else earlier
      case DeleteOp(e) => if earlier == e then null else earlier
      case FindOp(_) => earlier
      case SortOp(_) => earlier
      case CountOp => earlier
  }

  /** The elements added, and not deleted or replaced since. */
  ghost function Live(ops: seq<Op>): set<Elem> {
    if ops == [] then {}
    else
      var front := ops[..|ops| - 1];
      match ops[|ops| - 1]
      case AddOp(e, _, _) => Live(front) + {e}
      case ReplaceOp(e, k, _) => (set x | x in Live(front) && x != LastFiled(front, k)) + {e}
      case DeleteOp(e) => Live(front) - {e}
      case FindOp(_) => Live(front)
      case SortOp(_) => Live(front)
      case CountOp => Live(front)
  }

  /** What an operation should answer after the operations `ops`. */
  ghost function Told(ops: seq<Op>, op: Op): Answer {
    match op
    case FindOp(key) => Entry(LastFiled(ops, key))
    case ReplaceOp(_, key, _) => Entry(LastFiled(ops, key))
    case CountOp => Number(|Live(ops)|)
    case AddOp(_, _, _) => Done
    case DeleteOp(_) => Done
    case SortOp(_) => Done
  }

  /** The list is what history says. */
  ghost predicate Follows(a: Assoc, ops: seq<Op>) {
    && Known(a) && Elems(a.order) == Live(ops)
    && forall key :: Found(a, key) == Entry(LastFiled(ops, key))
  }

  lemma HistorySnoc(ops: seq<Op>, op: Op, key: Key)
    ensures LastFiled(ops + [op], key) ==
            (match op
             case AddOp(e, k, _) => if k == key then e else LastFiled(ops, key)
             case ReplaceOp(e, k, _) => if k == key then e else LastFiled(ops, key)
             case DeleteOp(e) => if LastFiled(ops, key) == e then null else LastFiled(ops, key)
             case FindOp(_) => LastFiled(ops, key)
             case SortOp(_) => LastFiled(ops, key)
             case CountOp => LastFiled(ops, key))
    ensures Live(ops + [op]) ==
            (match op
             case AddOp(e, _, _) => Live(ops) + {e}
             case ReplaceOp(e, k, _) => (set x | x in Live(ops) && x != LastFiled(ops, k)) + {e}
             case DeleteOp(e) => Live(ops) - {e}
             case FindOp(_) => Live(ops)
             case SortOp(_) => Live(ops)
             case CountOp => Live(ops))
  {
    assert (ops + [op])[..|ops|] == ops;
  }

  lemma FoundIsLookup(a: Assoc, key: Key)
    ensures Found(a, key) == Entry(Lookup(a, key))
  {
  }

  lemma PlacedAtElems(place: Place, e: Elem, rest: seq<Elem>, order: seq<Elem>, i: nat)
    requires PlacedAt(place, e, rest, order, i)
    ensures Elems(order) == Elems(rest) + {e}
  {
    assert rest == rest[..i] + rest[i..];
  }

  lemma LostAtElems(order: seq<Elem>, e: Elem, rest: seq<Elem>, i: nat)
    requires LostAt(order, e, rest, i) && Distinct(order)
    ensures Elems(rest) == Elems(order) - {e}
  {
    HashTables.ElemsRemove(order, i);
    assert rest == RemoveAt(order, i);
  }

  lemma AddFollows(a: Assoc, ops: seq<Op>, e: Elem, key: Key, place: Place)
    requires Follows(a, ops) && e !in a.order && Found(a, key) == Entry(null)
    ensures var (b, out) := SpecStep(a, AddOp(e, key, place));
            out == Done && Follows(b, ops + [AddOp(e, key, place)])
  {
    hide Known, Found, PlacedAt, LastFiled, Live, SpecStep;
    AddLaw(a, e, key, place);
    var op := AddOp(e, key, place);
    var b := SpecStep(a, op).0;
    var i :| PlacedAt(place, e, a.order, b.order, i);
    PlacedAtElems(place, e, a.order, b.order, i);
    HistorySnoc(ops, op, key);
    forall k ensures Found(b, k) == Entry(LastFiled(ops + [op], k)) { HistorySnoc(ops, op, k); }
  }

  lemma DeleteFollows(a: Assoc, ops: seq<Op>, e: Elem)
    requires Follows(a, ops) && e in a.order
    ensures var (b, out) := SpecStep(a, DeleteOp(e)); out == Done && Follows(b, ops + [DeleteOp(e)])
  {
    hide Known, FiledAs, Found, LostAt, LastFiled, Live, SpecStep;
    DeleteLaw(a, e);
    KnownDistinct(a);
    var op := DeleteOp(e);
    var b := SpecStep(a, op).0;
    var i :| LostAt(a.order, e, b.order, i);
    LostAtElems(a.order, e, b.order, i);
    forall k ensures Found(b, k) == Entry(LastFiled(ops + [op], k)) {
      HistorySnoc(ops, op, k);
      FiledUnderOne(a, e, k);
    }
    HistorySnoc(ops, op, a.keys[e]);
  }

  lemma FiledUnderOne(a: Assoc, e: Elem, k: Key)
    requires Known(a) && e in a.order
    ensures e in a.keys && (Found(a, k) == Entry(e) <==> k == a.keys[e])
  {
    hide Found;
    FindLaw(a, k);
    if k == a.keys[e] { FoundIs(a, k, e); }
  }

  lemma ReplaceFollows(a: Assoc, ops: seq<Op>, e: Elem, key: Key, place: Place)
    requires Follows(a, ops) && (e in a.order ==> Found(a, key) == Entry(e))
    ensures var (b, out) := SpecStep(a, ReplaceOp(e, key, place));
            out == Found(a, key) && Follows(b, ops + [ReplaceOp(e, key, place)])
  {
    hide Known, Found, PlacedAt, LostAt, LastFiled, Live, SpecStep, Evicted;
    var rest := ReplaceLaw(a, e, key, place);
    var op := ReplaceOp(e, key, place);
    var b := SpecStep(a, op).0;
    var i :| PlacedAt(place, e, rest, b.order, i);
    PlacedAtElems(place, e, rest, b.order, i);
    EvictedElems(a, key, rest);
    HistorySnoc(ops, op, key);
    forall k ensures Found(b, k) == Entry(LastFiled(ops + [op], k)) { HistorySnoc(ops, op, k); }
  }

  lemma EvictedElems(a: Assoc, key: Key, rest: seq<Elem>)
    requires Known(a) && Evicted(a, key, rest)
    ensures Found(a, key).Entry? && Elems(rest) == set x | x in Elems(a.order) && x != Found(a, key).e
  {
    hide Found;
    FindLaw(a, key);
    if Found(a, key) != Entry(null) {
      var x: Elem := Found(a, key).e;
      var i :| LostAt(a.order, x, rest, i);
      LostAtElems(a.order, x, rest, i);
    }
  }

  lemma SortFollows(a: Assoc, ops: seq<Op>, cmp: (Elem, Elem) -> int)
    requires Follows(a, ops)
    ensures var (b, out) := SpecStep(a, SortOp(cmp)); out == Done && Follows(b, ops + [SortOp(cmp)])
  {
    hide Known, Found, LastFiled, Live, SpecStep, TotalPreorder, Within;
    SortLaw(a, cmp, {});
    var op := SortOp(cmp);
    var b := SpecStep(a, op).0;
    InPlaceSort.ElemsOfPermutation(a.order, b.order);
    forall k ensures Found(b, k) == Entry(LastFiled(ops + [op], k)) { HistorySnoc(ops, op, k); }
    HistorySnoc(ops, op, Key([]));
  }

  lemma SameFollows(a: Assoc, ops: seq<Op>, op: Op)
    requires Follows(a, ops) && (op.FindOp? || op.CountOp?)
    ensures Follows(a, ops + [op])
  {
    hide Known, Found, LastFiled, Live;
    forall k ensures Found(a, k) == Entry(LastFiled(ops + [op], k)) { HistorySnoc(ops, op, k); }
    HistorySnoc(ops, op, Key([]));
  }

  lemma StepFollows(a: Assoc, ops: seq<Op>, op: Op)
    requires Follows(a, ops) && Allowed(a, op)
    ensures Follows(SpecStep(a, op).0, ops + [op]) && SpecStep(a, op).1 == Told(ops, op)
  {
    hide Known, Found, LastFiled, Live, SpecStep, Lookup;
    match op
    case AddOp(e, key, place) =>
      FoundIsLookup(a, key);
      AddFollows(a, ops, e, key, place);
    case FindOp(key) =>
      FindLaw(a, key);
      FoundIsAnswer(a, key);
      SameFollows(a, ops, op);
    case DeleteOp(e) => DeleteFollows(a, ops, e);
    case ReplaceOp(e, key, place) =>
      FoundIsLookup(a, key);
      ReplaceFollows(a, ops, e, key, place);
    case SortOp(cmp) => SortFollows(a, ops, cmp);
    case CountOp =>
      CountLaw(a);
      KnownDistinct(a);
      HashTables.ElemsCount(a.order);
      SameFollows(a, ops, op);
  }

  lemma FoundIsAnswer(a: Assoc, key: Key)
    ensures Found(a, key) == SpecStep(a, FindOp(key)).1
  {
  }

  /** Over every allowed run: a find answers the element last filed under its key
      and not deleted since, a replacement what a find just before it would, a
      count the number of elements added and not taken out since; and these
      elements are the list at the end. */
  lemma {:induction false} RunTells(ops: seq<Op>, pool: set<Elem>)
    requires RunAllowed(NOTHING, ops, pool)
    ensures var (a, outs) := SpecRun(NOTHING, ops);
            && Follows(a, ops) && |outs| == |ops|
            && forall i :: 0 <= i < |ops| ==> outs[i] == Told(ops[..i], ops[i])
  {
    hide Follows, SpecStep, SpecRun, RunAllowed, Told;
    if ops == [] {
      NothingYet();
    } else {
      var n := |ops| - 1;
      var front := ops[..n];
      FrontAllowed(ops, pool);
      RunTells(front, pool);
      SpecRunNext(NOTHING, ops, n);
      assert ops[..n + 1] == ops && ops == front + [ops[n]];
      StepFollows(SpecRun(NOTHING, front).0, front, ops[n]);
      forall i | 0 <= i < |ops| ensures SpecRun(NOTHING, ops).1[i] == Told(ops[..i], ops[i]) {
        if i < n { assert front[..i] == ops[..i]; }
      }
    }
  }

  lemma FrontAllowed(ops: seq<Op>, pool: set<Elem>)
    requires RunAllowed(NOTHING, ops, pool) && ops != []
    ensures RunAllowed(NOTHING, ops[..|ops| - 1], pool)
    ensures Allowed(SpecRun(NOTHING, ops[..|ops| - 1]).0, ops[|ops| - 1])
  {
    hide Allowed, SpecRun, Given;
    var front := ops[..|ops| - 1];
    forall i | 0 <= i < |front| ensures Allowed(SpecRun(NOTHING, front[..i]).0, front[i]) && Given(front[i]) <= pool {
      assert front[..i] == ops[..i];
    }
  }

  /** The same of the real table. */
  method RunByHistory(ops: seq<Op>, hash: Key -> nat, ghost pool: set<Elem>)
    returns (head: Elem?, outs: seq<Answer>, checked: bool, ghost r: Uthash.Rep)
    requires RunAllowed(NOTHING, ops, pool)
    modifies pool
    ensures |outs| == |ops| && (forall i :: 0 <= i < |ops| ==> outs[i] == Told(ops[..i], ops[i])) && checked
    ensures Uthash.Valid(head, r) && Elems(r.nodes) == Live(ops)
  {
    hide Follows, SpecRun, RunAllowed, Told, Uthash.Valid, Represents, Healthy, Live;
    ghost var snaps;
    RunTells(ops, pool);
    head, outs, checked, r, snaps := Run(ops, hash, pool);
    RepresentsOrder(r, SpecRun(NOTHING, ops).0, hash);
    FollowsLive(SpecRun(NOTHING, ops).0, ops);
  }

  lemma FollowsLive(a: Assoc, ops: seq<Op>)
    requires Follows(a, ops)
    ensures Elems(a.order) == Live(ops)
  {
  }

  lemma NothingYet()
    ensures Follows(NOTHING, []) && SpecRun(NOTHING, []) == (NOTHING, [])
  {
    assert Elems([]) == {};
    forall key ensures Found(NOTHING, key) == Entry(null) { FoundNot(NOTHING, key); }
  }
}
