/** The CDL_ macros of utlist: a doubly linked ring. */
module Circular {
  import opened Elements
  import opened MergeSort
  import opened Insertion
  import opened InPlaceSort

  /** `head` is a ring of exactly the elements `s`, in this order from `head`. */
  ghost predicate RingShape(head: Elem?, s: seq<Elem>)
    reads s`next, s`prev
  {
    head == First(s) && Distinct(s) && Chain(s, First(s)) && Back(s, Last(s))
  }

  /** End of a pass of CDL_SORT2: close the ring. */
  method CloseRing(list: Elem, tail: Elem, ghost s: seq<Elem>)
    requires Output(true, list, tail, s) && Distinct(s) && s != []
    modifies list`prev, tail`next
    ensures RingShape(list, s)
  {
    list.prev := tail;
    tail.next := list;
  }

  lemma RingNonEmpty(head: Elem, s: seq<Elem>)
    requires RingShape(head, s)
    ensures s != []
  {
  }

  lemma RingStart(head: Elem, s: seq<Elem>)
    requires RingShape(head, s)
    ensures s != [] && head == s[0] && Chain(s, head) && Distinct(s) && StopsAfter(head, s[1..])
  {
  }

  /** One turn of the outer loop of CDL_SORT2: a pass with runs of length `insize`.
      The old head marks the end of the list for the whole pass, although it may
      be relinked early in that pass. */
  method Turn(list: Elem, cmp: (Elem, Elem) -> int, insize: nat, ghost s: seq<Elem>, ghost t: seq<Elem>,
              ghost passes: nat, ghost moves: nat)
    returns (first: Elem, looping: bool, ghost t': seq<Elem>, ghost moves': nat)
    requires RingShape(list, t) && SortState(cmp, s, t, insize, true, passes, moves)
    modifies Elems(s)`next, Elems(s)`prev
    ensures RingShape(first, t') && SortState(cmp, s, t', 2 * insize, looping, passes + 1, moves')
    ensures TurnsLeft(looping, 2 * insize, |s|) < TurnsLeft(true, insize, |s|)
  {
    hide SortState, Pass, Elems, RingShape, Distinct, Chain, Back, Linked, Output, StopsAfter;
    RingStart(list, t);
    var oldhead := list;
    SortStep(cmp, s, t, insize, passes, moves);
    var tail, nmerges;
    ghost var m;
    first, tail, nmerges, m := SortPass(true, cmp, list, insize, oldhead, t);
    t', moves' := Pass(cmp, insize, t), moves + m;
    OutputEnds(true, first, tail, t');
    CloseRing(first, tail, t');
    looping := nmerges > 1;
  }

  /** The outer loop of CDL_SORT2, for a list that is not empty. */
  method Turns(head: Elem, cmp: (Elem, Elem) -> int, ghost s: seq<Elem>)
    returns (list: Elem, ghost passes: nat, ghost moves: nat)
    requires RingShape(head, s)
    modifies Elems(s)`next, Elems(s)`prev
    ensures RingShape(list, Sort(cmp, s)) && passes == Passes(1, |s|) && moves == |s| * passes
  {
    hide SortState, Sort, Passes, TurnsLeft, Elems, RingShape, Distinct, Chain;
    list, passes, moves := head, 0, 0;
    var insize: nat, looping := 1, true;
    ghost var t := s;
    RingNonEmpty(head, s);
    SortStart(cmp, s);
    while looping
      invariant RingShape(list, t) && SortState(cmp, s, t, insize, looping, passes, moves)
      decreases TurnsLeft(looping, insize, |s|)
    {
      list, looping, t, moves := Turn(list, cmp, insize, s, t, passes, moves);
      passes, insize := passes + 1, insize * 2;
    }
    SortEnd(cmp, s, t, insize, passes, moves);
  }

  /** CDL_SORT2. */
  method SortRing(head: Elem?, cmp: (Elem, Elem) -> int, ghost s: seq<Elem>)
    returns (list: Elem?, ghost passes: nat, ghost moves: nat)
    requires RingShape(head, s)
    modifies Elems(s)`next, Elems(s)`prev
    ensures RingShape(list, Sort(cmp, s))
    ensures passes == (if s == [] then 0 else Passes(1, |s|)) && moves == |s| * passes
  {
    list, passes, moves := head, 0, 0;
    if list != null {
      RingStart(head, s);
      hide Sort, Passes, RingShape;
      list, passes, moves := Turns(list, cmp, s);
    }
  }

  /** A variable holding the head of a ring. */
  class Ring {
    var head: Elem?
    ghost var nodes: seq<Elem>

    ghost predicate Valid()
      reads this, nodes`next, nodes`prev
    {
      RingShape(head, nodes)
    }

    constructor ()
      ensures Valid() && nodes == []
    {
      head, nodes := null, [];
    }

    /** CDL_PREPEND2. */
    method Prepend(add: Elem)
      requires Valid() && add !in nodes
      modifies this, Elems(nodes)`next, Elems(nodes)`prev, add`next, add`prev
      ensures Valid() && nodes == [add] + old(nodes)
    {
      if head != null {
        add.prev := head.prev;
        add.next := head;
        head.prev := add;
        add.prev.next := add;
      } else {
        add.prev := add;
        add.next := add;
      }
      head := add;
      InsertDistinct(nodes, 0, add);
      assert InsertAt(nodes, 0, add) == [add] + nodes;
      nodes := [add] + nodes;
    }

    /** CDL_APPEND2. */
    method Append(add: Elem)
      requires Valid() && add !in nodes
      modifies this, Elems(nodes)`next, Elems(nodes)`prev, add`next, add`prev
      ensures Valid() && nodes == old(nodes) + [add]
    {
      if head != null {
        add.prev := head.prev;
        add.next := head;
        head.prev := add;
        add.prev.next := add;
      } else {
        add.prev := add;
        add.next := add;
        head := add;
      }
      InsertDistinct(nodes, |nodes|, add);
      assert InsertAt(nodes, |nodes|, add) == nodes + [add];
      nodes := nodes + [add];
    }

    /** CDL_APPEND_ELEM2. */
    method AppendElem(el: Elem?, add: Elem, ghost k: nat)
      requires Valid() && add !in nodes && k <= |nodes|
      requires el == if k == 0 then null else nodes[k - 1]
      modifies this, Elems(nodes)`next, Elems(nodes)`prev, add`next, add`prev
      ensures Valid() && nodes == InsertAt(old(nodes), k, add)
    {
      if el != null {
        add.next := el.next;
        add.prev := el;
        el.next := add;
        add.next.prev := add;
        ghost var s, t := nodes, InsertAt(nodes, k, add);
        InsertDistinct(nodes, k, add);
        nodes := t;
        hide Distinct;
        assert Chain(t, First(t)) by {
          forall i {:trigger t[i].next} | 0 <= i < |t|
            ensures t[i].next == if i + 1 < |t| then t[i + 1] else First(t)
          {
            assert i < k ==> t[i] == s[i];
            assert i > k ==> t[i] == s[i - 1];
          }
        }
        assert Back(t, Last(t)) by {
          forall i {:trigger t[i].prev} | 0 <= i < |t| ensures t[i].prev == if i == 0 then Last(t) else t[i - 1] {
            assert i < k ==> t[i] == s[i];
            assert i > k ==> t[i] == s[i - 1];
          }
        }
      } else {
        assert InsertAt(nodes, 0, add) == [add] + nodes;
        Prepend(add);
      }
    }

    /** CDL_LOWER_BOUND2. */
    method LowerBound(like: Elem, cmp: (Elem, Elem) -> int) returns (elt: Elem?, ghost k: nat)
      requires Valid()
      ensures k <= |nodes| && elt == if k == 0 then null else nodes[k - 1]
      ensures forall i :: 0 <= i < k ==> cmp(nodes[i], like) < 0
      ensures k < |nodes| ==> cmp(nodes[k], like) >= 0
      ensures if elt == null then nodes == [] || cmp(nodes[0], like) >= 0 else elt in nodes && cmp(elt, like) < 0
    {
      if head == null || cmp(head, like) >= 0 {
        return null, 0;
      }
      elt, k := head, 1;
      while elt.next != head
        invariant 1 <= k <= |nodes| && elt == nodes[k - 1]
        invariant forall i :: 0 <= i < k ==> cmp(nodes[i], like) < 0
        decreases |nodes| - k
      {
        if cmp(elt.next, like) >= 0 { break; }
        elt, k := elt.next, k + 1;
      }
    }

    /** CDL_INSERT_INORDER2. */
    method InsertInOrder(add: Elem, cmp: (Elem, Elem) -> int)
      requires Valid() && add !in nodes
      modifies this, Elems(nodes)`next, Elems(nodes)`prev, add`next, add`prev
      ensures Valid() && nodes == InsertBeforeEquals(cmp, add, old(nodes))
    {
      if head != null {
        ghost var k;
        var at;
        at, k := LowerBound(add, cmp);
        BeforeEqualsAt(cmp, add, nodes, k);
        AppendElem(at, add, k);
      } else {
        head := add;
        head.next := head;
        head.prev := head;
        nodes := [add];
      }
    }

    /** CDL_DELETE2. */
    method Delete(del: Elem, ghost k: nat)
      requires Valid() && k < |nodes| && nodes[k] == del
      modifies this, Elems(nodes)`next, Elems(nodes)`prev
      ensures Valid() && nodes == RemoveAt(old(nodes), k)
    {
      Neighbours(nodes, k, nodes[0]);
      if head == del && head.next == head {
        head := null;
      } else {
        del.next.prev := del.prev;
        del.prev.next := del.next;
        if del == head { head := del.next; }
      }
      ghost var s, t := nodes, RemoveAt(nodes, k);
      RemoveDistinct(nodes, k);
      nodes := t;
      hide Distinct;
      forall i {:trigger t[i].next} | 0 <= i < |t| ensures t[i].next == if i + 1 < |t| then t[i + 1] else First(t) {
        assert t[i] == if i < k then s[i] else s[i + 1];
      }
      forall i {:trigger t[i].prev} | 0 <= i < |t| ensures t[i].prev == if i == 0 then Last(t) else t[i - 1] {
        assert t[i] == if i < k then s[i] else s[i + 1];
      }
    }

    /** CDL_REPLACE_ELEM2. */
    method ReplaceElem(el: Elem, add: Elem, ghost k: nat)
      requires Valid() && k < |nodes| && nodes[k] == el && add !in nodes
      modifies this, Elems(nodes)`next, Elems(nodes)`prev, add`next, add`prev
      ensures Valid() && nodes == old(nodes)[k := add]
    {
      if el.next == el {
        add.next := add;
        add.prev := add;
        head := add;
      } else {
        add.next := el.next;
        add.prev := el.prev;
        add.next.prev := add;
        add.prev.next := add;
        if head == el { head := add; }
      }
      nodes := nodes[k := add];
    }

    /** CDL_SORT2. */
    method Sort(cmp: (Elem, Elem) -> int) returns (ghost passes: nat, ghost moves: nat)
      requires Valid()
      modifies this, Elems(nodes)`next, Elems(nodes)`prev
      ensures Valid() && nodes == MergeSort.Sort(cmp, old(nodes))
      ensures passes == if old(nodes) == [] then 0 else Passes(1, |old(nodes)|)
      ensures moves == |old(nodes)| * passes
    {
      head, passes, moves := SortRing(head, cmp, nodes);
      nodes := MergeSort.Sort(cmp, nodes);
    }
  }
}
