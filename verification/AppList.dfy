/** The application-order list of a hash table: `next` and `prev` end in null
    on both sides, and the table keeps the tail. */
module AppList {
  import opened Elements
  import opened Order
  import opened MergeSort
  import opened Insertion
  import opened InPlaceSort

  ghost predicate AppShape(head: Elem?, s: seq<Elem>)
    reads s`next, s`prev
  {
    head == First(s) && Distinct(s) && Chain(s, null) && Back(s, null)
  }

  /** All elements know their table. */
  ghost predicate OwnedBy(s: seq<Elem>, t: Table)
    reads s`tag
  {
    forall x :: x in s ==> x.tag.tbl == t
  }

  /** The list half of the table invariant. */
  ghost predicate ListOk(head: Elem?, t: Table, s: seq<Elem>)
    reads s`next, s`prev, s`tag, t`tail
  {
    AppShape(head, s) && OwnedBy(s, t) && t.tail == Last(s)
  }

  /** HASH_APPEND_LIST. */
  method AppendList(head: Elem, add: Elem, t: Table, ghost s: seq<Elem>)
    requires s != [] && ListOk(head, t, s) && add !in s && add.tag.tbl == t
    modifies add`next, add`prev, Elems(s)`next, t`tail
    ensures ListOk(head, t, s + [add])
  {
    add.next := null;
    add.prev := head.tag.tbl.tail;
    head.tag.tbl.tail.next := add;
    head.tag.tbl.tail := add;
    InsertDistinct(s, |s|, add);
    assert InsertAt(s, |s|, add) == s + [add];
  }

  /** HASH_AKBI_INNER_LOOP: the first element strictly above `add`, or null. */
  method FindPlace(head: Elem, add: Elem, cmp: (Elem, Elem) -> int, ghost s: seq<Elem>)
    returns (iter: Elem?, ghost k: nat)
    requires s != [] && AppShape(head, s)
    ensures k <= |s| && iter == if k < |s| then s[k] else null
    ensures forall i :: 0 <= i < k ==> cmp(s[i], add) <= 0
    ensures k < |s| ==> cmp(s[k], add) > 0
    ensures if iter == null then forall i :: 0 <= i < |s| ==> cmp(s[i], add) <= 0 else iter in s && cmp(iter, add) > 0
  {
    iter, k := head, 0;
    while iter != null
      invariant k <= |s| && iter == if k < |s| then s[k] else null
      invariant forall i :: 0 <= i < k ==> cmp(s[i], add) <= 0
      decreases |s| - k
    {
      if cmp(iter, add) > 0 { break; }
      iter, k := iter.next, k + 1;
    }
  }

  /** The relinking of HASH_ADD_KEYPTR_BYHASHVALUE_INORDER in front of `iter`. */
  method InsertBefore(head: Elem, iter: Elem, add: Elem, t: Table, ghost s: seq<Elem>, ghost k: nat)
    returns (head': Elem)
    requires ListOk(head, t, s) && k < |s| && iter == s[k] && add !in s && add.tag.tbl == t
    modifies add`next, add`prev, Elems(s)`next, Elems(s)`prev
    ensures ListOk(head', t, InsertAt(s, k, add))
  {
    head' := head;
    add.next := iter;
    add.prev := iter.prev;
    if add.prev != null {
      add.prev.next := add;
    } else {
      head' := add;
    }
    iter.prev := add;
    ghost var d := InsertAt(s, k, add);
    InsertDistinct(s, k, add);
    hide Distinct;
    assert Chain(d, null) by {
      forall i {:trigger d[i].next} | 0 <= i < |d| ensures d[i].next == if i + 1 < |d| then d[i + 1] else null {
        assert i < k ==> d[i] == s[i];
        assert i > k ==> d[i] == s[i - 1];
      }
    }
    assert Back(d, null) by {
      forall i {:trigger d[i].prev} | 0 <= i < |d| ensures d[i].prev == if i == 0 then null else d[i - 1] {
        assert i < k ==> d[i] == s[i];
        assert i > k ==> d[i] == s[i - 1];
      }
    }
    assert d[|d| - 1] == s[|s| - 1];
  }

  /** The list part of HASH_ADD_KEYPTR_BYHASHVALUE_INORDER. */
  method InsertInOrder(head: Elem, add: Elem, cmp: (Elem, Elem) -> int, t: Table, ghost s: seq<Elem>)
    returns (head': Elem)
    requires s != [] && ListOk(head, t, s) && add !in s && add.tag.tbl == t
    modifies add`next, add`prev, Elems(s)`next, Elems(s)`prev, t`tail
    ensures ListOk(head', t, InsertAfterEquals(cmp, add, s))
  {
    ghost var k;
    var iter;
    iter, k := FindPlace(head, add, cmp, s);
    AfterEqualsAt(cmp, add, s, k);
    hide InsertAfterEquals;
    if iter != null {
      head' := InsertBefore(head, iter, add, t, s, k);
    } else {
      head' := head;
      AppendList(head, add, t, s);
      assert s[..|s|] + [add] + s[|s|..] == s + [add];
    }
  }

  method AppendNew(head: Elem, add: Elem, key: Key, hashv: nat, t: Table, ghost s: seq<Elem>)
    requires s != [] && ListOk(head, t, s) && add !in s
    modifies add`tag, add`next, add`prev, Elems(s)`next, t`tail
    ensures ListOk(head, t, s + [add]) && add.tag == Tag(t, key, hashv)
  {
    hide ListOk;
    add.tag := Tag(t, key, hashv);
    AppendList(head, add, t, s);
  }

  method InsertNew(head: Elem, add: Elem, key: Key, hashv: nat, cmp: (Elem, Elem) -> int, t: Table, ghost s: seq<Elem>)
    returns (head': Elem)
    requires s != [] && ListOk(head, t, s) && add !in s
    modifies add`tag, add`next, add`prev, Elems(s)`next, Elems(s)`prev, t`tail
    ensures ListOk(head', t, InsertAfterEquals(cmp, add, s)) && add.tag == Tag(t, key, hashv)
  {
    hide ListOk, InsertAfterEquals;
    add.tag := Tag(t, key, hashv);
    head' := InsertInOrder(head, add, cmp, t, s);
  }

  /** The list part of HASH_DELETE_HH, for a list of at least two elements. */
  method UnlinkList(head: Elem, del: Elem, t: Table, ghost s: seq<Elem>, ghost k: nat) returns (head': Elem)
    requires ListOk(head, t, s) && k < |s| && s[k] == del && |s| > 1
    modifies Elems(s)`next, Elems(s)`prev, t`tail
    ensures ListOk(head', t, RemoveAt(s, k))
    ensures del.next == old(del.next) && del.prev == old(del.prev)
  {
    AppNeighbours(s, k);
    head' := head;
    if del == head.tag.tbl.tail {
      head.tag.tbl.tail := del.prev;
    }
    if del.prev != null {
      del.prev.next := del.next;
    } else {
      head' := del.next;
    }
    if del.next != null {
      del.next.prev := del.prev;
    }
    ghost var d := RemoveAt(s, k);
    RemoveDistinct(s, k);
    RemainInside(s, k);
    hide Distinct;
    forall i {:trigger d[i].next} | 0 <= i < |d| ensures d[i].next == if i + 1 < |d| then d[i + 1] else null {
      assert d[i] == if i < k then s[i] else s[i + 1];
    }
    forall i {:trigger d[i].prev} | 0 <= i < |d| ensures d[i].prev == if i == 0 then null else d[i - 1] {
      assert d[i] == if i < k then s[i] else s[i + 1];
    }
  }

  lemma RemainInside(s: seq<Elem>, k: nat)
    requires k < |s|
    ensures forall x :: x in RemoveAt(s, k) ==> x in s
  {
  }

  lemma AppNeighbours(s: seq<Elem>, k: nat)
    requires k < |s| && Distinct(s) && Chain(s, null) && Back(s, null)
    ensures s[k].next == if k + 1 < |s| then s[k + 1] else null
    ensures s[k].prev == if k == 0 then null else s[k - 1]
    ensures forall i :: 0 <= i < |s| && i != k ==> s[i] != s[k]
  {
  }

  lemma AppStart(head: Elem, s: seq<Elem>)
    requires AppShape(head, s)
    ensures s != [] && head == s[0] && Chain(s, null) && Distinct(s)
  {
  }

  /** End of a pass of HASH_SRT. */
  method CloseApp(list: Elem, tail: Elem, ghost s: seq<Elem>)
    requires Output(true, list, tail, s) && Distinct(s) && s != []
    modifies tail`next
    ensures AppShape(list, s)
    ensures tail == Last(s)
  {
    tail.next := null;
  }

  /** One turn of the outer loop of HASH_SRT: a pass with runs of length `insize`. */
  method Turn(list: Elem, cmp: (Elem, Elem) -> int, insize: nat, ghost s: seq<Elem>, ghost r: seq<Elem>,
              ghost passes: nat, ghost moves: nat)
    returns (first: Elem, tail: Elem, looping: bool, ghost r': seq<Elem>, ghost moves': nat)
    requires AppShape(list, r) && SortState(cmp, s, r, insize, true, passes, moves)
    modifies Elems(s)`next, Elems(s)`prev
    ensures AppShape(first, r') && SortState(cmp, s, r', 2 * insize, looping, passes + 1, moves')
    ensures tail == Last(r') && TurnsLeft(looping, 2 * insize, |s|) < TurnsLeft(true, insize, |s|)
  {
    hide SortState, Pass, Elems, AppShape, Distinct, Chain, Back, Linked, Output, Last;
    SortStep(cmp, s, r, insize, passes, moves);
    AppStart(list, r);
    var nmerges;
    ghost var m;
    first, tail, nmerges, m := SortPass(true, cmp, list, insize, null, r);
    r', moves' := Pass(cmp, insize, r), moves + m;
    OutputEnds(true, first, tail, r');
    CloseApp(first, tail, r');
    looping := nmerges > 1;
  }

  /** The passes of HASH_SRT. */
  method SortLinks(head: Elem, cmp: (Elem, Elem) -> int, ghost s: seq<Elem>)
    returns (list: Elem, tail: Elem, ghost passes: nat, ghost moves: nat)
    requires s != [] && AppShape(head, s)
    modifies Elems(s)`next, Elems(s)`prev
    ensures AppShape(list, Sort(cmp, s)) && tail == Last(Sort(cmp, s))
    ensures passes == Passes(1, |s|) && moves == |s| * passes
  {
    hide SortState, Sort, Passes, TurnsLeft, Elems, AppShape, Last;
    list, tail, passes, moves := head, head, 0, 0;
    var insize: nat, looping := 1, true;
    ghost var r := s;
    SortStart(cmp, s);
    while looping
      invariant AppShape(list, r) && SortState(cmp, s, r, insize, looping, passes, moves)
      invariant !looping ==> tail == Last(r)
      decreases TurnsLeft(looping, insize, |s|)
    {
      list, tail, looping, r, moves := Turn(list, cmp, insize, s, r, passes, moves);
      passes, insize := passes + 1, insize * 2;
    }
    SortEnd(cmp, s, r, insize, passes, moves);
  }

  lemma {:induction false} SortPermutes(cmp: (Elem, Elem) -> int, k: nat, s: seq<Elem>)
    requires k > 0
    ensures multiset(BottomUp(cmp, k, s)) == multiset(s)
    decreases if |s| > 2 * k then |s| - k else 0
  {
    hide Pass;
    PassPermutes(cmp, k, s);
    if |s| > 2 * k {
      SortPermutes(cmp, 2 * k, Pass(cmp, k, s));
    }
  }

  /** HASH_SRT on the application order. */
  method SortApp(head: Elem, cmp: (Elem, Elem) -> int, t: Table, ghost s: seq<Elem>)
    returns (head': Elem, ghost passes: nat, ghost moves: nat)
    requires s != [] && ListOk(head, t, s)
    modifies Elems(s)`next, Elems(s)`prev, t`tail
    ensures ListOk(head', t, Sort(cmp, s)) && Elems(Sort(cmp, s)) == Elems(s) && Sort(cmp, s) != []
    ensures passes == Passes(1, |s|) && moves == |s| * passes
  {
    SortPermutes(cmp, 1, s);
    ElemsOfPermutation(s, Sort(cmp, s));
    SameElements(s, Sort(cmp, s));
    assert OwnedBy(Sort(cmp, s), t);
    hide AppShape, Sort, Passes, OwnedBy, ListOk;
    var tail;
    head', tail, passes, moves := SortLinks(head, cmp, s);
    SetTail(head', tail, t, Sort(cmp, s));
  }

  /** The sorted list's last element becomes the table's tail. */
  method SetTail(head: Elem, tail: Elem, t: Table, ghost s: seq<Elem>)
    requires AppShape(head, s) && OwnedBy(s, t) && tail == Last(s)
    modifies t`tail
    ensures ListOk(head, t, s)
  {
    t.tail := tail;
  }
}
