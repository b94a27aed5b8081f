/** The DL_ macros of utlist: a doubly linked list whose head's `prev` is the
    tail and whose tail's `next` is null. */
module DoublyLinked {
  import opened Elements
  import opened Order
  import opened MergeSort
  import opened Insertion
  import opened InPlaceSort

  /** `head` is a DL list of exactly the elements `s`. */
  ghost predicate DlShape(head: Elem?, s: seq<Elem>)
    reads s`next, s`prev
  {
    head == First(s) && Distinct(s) && Chain(s, null) && Back(s, Last(s))
  }

  /** End of a pass of DL_SORT2: settle `head.prev` and `tail.next`. */
  method CloseList(list: Elem, tail: Elem, ghost s: seq<Elem>)
    requires Output(true, list, tail, s) && Distinct(s) && s != []
    modifies list`prev, tail`next
    ensures DlShape(list, s)
  {
    list.prev := tail;
    tail.next := null;
  }

  lemma DlNonEmpty(head: Elem, s: seq<Elem>)
    requires DlShape(head, s)
    ensures s != []
  {
  }

  lemma DlStart(head: Elem, s: seq<Elem>)
    requires DlShape(head, s)
    ensures s != [] && head == s[0] && Chain(s, null) && Distinct(s)
  {
  }

  /** One turn of the outer loop of DL_SORT2: a pass with runs of length `insize`. */
  method Turn(list: Elem, cmp: (Elem, Elem) -> int, insize: nat, ghost s: seq<Elem>, ghost t: seq<Elem>,
              ghost passes: nat, ghost moves: nat)
    returns (first: Elem, looping: bool, ghost t': seq<Elem>, ghost moves': nat)
    requires DlShape(list, t) && SortState(cmp, s, t, insize, true, passes, moves)
    modifies Elems(s)`next, Elems(s)`prev
    ensures DlShape(first, t') && SortState(cmp, s, t', 2 * insize, looping, passes + 1, moves')
    ensures TurnsLeft(looping, 2 * insize, |s|) < TurnsLeft(true, insize, |s|)
  {
    hide SortState, Pass, Elems, DlShape, Distinct, Chain, Back, Linked, Output;
    DlStart(list, t);
    SortStep(cmp, s, t, insize, passes, moves);
    var tail, nmerges;
    ghost var m;
    first, tail, nmerges, m := SortPass(true, cmp, list, insize, null, t);
    t', moves' := Pass(cmp, insize, t), moves + m;
    OutputEnds(true, first, tail, t');
    CloseList(first, tail, t');
    looping := nmerges > 1;
  }

  /** The outer loop of DL_SORT2, for a list that is not empty. */
  method Turns(head: Elem, cmp: (Elem, Elem) -> int, ghost s: seq<Elem>)
    returns (list: Elem, ghost passes: nat, ghost moves: nat)
    requires DlShape(head, s)
    modifies Elems(s)`next, Elems(s)`prev
    ensures DlShape(list, Sort(cmp, s)) && passes == Passes(1, |s|) && moves == |s| * passes
  {
    hide SortState, Sort, Passes, TurnsLeft, Elems, DlShape, Distinct, Chain;
    list, passes, moves := head, 0, 0;
    var insize: nat, looping := 1, true;
    ghost var t := s;
    DlNonEmpty(head, s);
    SortStart(cmp, s);
    while looping
      invariant DlShape(list, t) && SortState(cmp, s, t, insize, looping, passes, moves)
      decreases TurnsLeft(looping, insize, |s|)
    {
      list, looping, t, moves := Turn(list, cmp, insize, s, t, passes, moves);
      passes, insize := passes + 1, insize * 2;
    }
    SortEnd(cmp, s, t, insize, passes, moves);
  }

  /** DL_SORT2. */
  method SortList(head: Elem?, cmp: (Elem, Elem) -> int, ghost s: seq<Elem>)
    returns (list: Elem?, ghost passes: nat, ghost moves: nat)
    requires DlShape(head, s)
    modifies Elems(s)`next, Elems(s)`prev
    ensures DlShape(list, Sort(cmp, s))
    ensures passes == (if s == [] then 0 else Passes(1, |s|)) && moves == |s| * passes
  {
    list, passes, moves := head, 0, 0;
    if list != null {
      DlStart(head, s);
      hide Sort, Passes, DlShape;
      list, passes, moves := Turns(list, cmp, s);
    }
  }

  /** A variable holding the head of a DL list. */
  class DList {
    var head: Elem?
    ghost var nodes: seq<Elem>

    ghost predicate Valid()
      reads this, nodes`next, nodes`prev
    {
      DlShape(head, nodes)
    }

    constructor ()
      ensures Valid() && nodes == []
    {
      head, nodes := null, [];
    }

    /** DL_PREPEND2. */
    method Prepend(add: Elem)
      requires Valid() && add !in nodes
      modifies this, Elems(nodes)`prev, add`next, add`prev
      ensures Valid() && nodes == [add] + old(nodes)
    {
      add.next := head;
      if head != null {
        add.prev := head.prev;
        head.prev := add;
      } else {
        add.prev := add;
      }
      head := add;
      InsertDistinct(nodes, 0, add);
      assert InsertAt(nodes, 0, add) == [add] + nodes;
      nodes := [add] + nodes;
    }

    /** DL_APPEND2: the tail is found in one step, as `head.prev`. */
    method Append(add: Elem)
      requires Valid() && add !in nodes
      modifies this, Elems(nodes)`next, Elems(nodes)`prev, add`next, add`prev
      ensures Valid() && nodes == old(nodes) + [add]
    {
      if head != null {
        add.prev := head.prev;
        head.prev.next := add;
        head.prev := add;
        add.next := null;
      } else {
        head := add;
        head.prev := head;
        head.next := null;
      }
      InsertDistinct(nodes, |nodes|, add);
      assert InsertAt(nodes, |nodes|, add) == nodes + [add];
      nodes := nodes + [add];
    }

    /** DL_APPEND_ELEM2: insert `add` after the element at position k-1, or in
        front if `el` is null. */
    method AppendElem(el: Elem?, add: Elem, ghost k: nat)
      requires Valid() && add !in nodes && k <= |nodes|
      requires el == if k == 0 then null else nodes[k - 1]
      modifies this, Elems(nodes)`next, Elems(nodes)`prev, add`next, add`prev
      ensures Valid() && nodes == InsertAt(old(nodes), k, add)
    {
      if el != null {
        add.next := el.next;
        add.prev := el;
        el.next := add;
        if add.next != null {
          add.next.prev := add;
        } else {
          head.prev := add;
        }
        ghost var s, t := nodes, InsertAt(nodes, k, add);
        InsertDistinct(nodes, k, add);
        nodes := t;
        hide Distinct;
        assert Chain(t, null) by {
          forall i {:trigger t[i].next} | 0 <= i < |t| ensures t[i].next == if i + 1 < |t| then t[i + 1] else null {
            assert i < k ==> t[i] == s[i];
            assert i > k ==> t[i] == s[i - 1];
          }
        }
        assert Back(t, Last(t)) by {
          forall i {:trigger t[i].prev} | 0 <= i < |t| ensures t[i].prev == if i == 0 then Last(t) else t[i - 1] {
            assert i < k ==> t[i] == s[i];
            assert i > k ==> t[i] == s[i - 1];
          }
        }
      } else {
        assert InsertAt(nodes, 0, add) == [add] + nodes;
        Prepend(add);
      }
    }

    /** DL_LOWER_BOUND2: the last element of the longest prefix strictly below `like`. */
    method LowerBound(like: Elem, cmp: (Elem, Elem) -> int) returns (elt: Elem?, ghost k: nat)
      requires Valid()
      ensures k <= |nodes| && elt == if k == 0 then null else nodes[k - 1]
      ensures forall i :: 0 <= i < k ==> cmp(nodes[i], like) < 0
      ensures k < |nodes| ==> cmp(nodes[k], like) >= 0
      ensures if elt == null then nodes == [] || cmp(nodes[0], like) >= 0 else elt in nodes && cmp(elt, like) < 0
    {
      if head == null || cmp(head, like) >= 0 {
        return null, 0;
      }
      elt, k := head, 1;
      while elt.next != null
        invariant 1 <= k <= |nodes| && elt == nodes[k - 1]
        invariant forall i :: 0 <= i < k ==> cmp(nodes[i], like) < 0
        decreases |nodes| - k
      {
        if cmp(elt.next, like) >= 0 { break; }
        elt, k := elt.next, k + 1;
      }
    }

    /** DL_INSERT_INORDER2. */
    method InsertInOrder(add: Elem, cmp: (Elem, Elem) -> int)
      requires Valid() && add !in nodes
      modifies this, Elems(nodes)`next, Elems(nodes)`prev, add`next, add`prev
      ensures Valid() && nodes == InsertBeforeEquals(cmp, add, old(nodes))
    {
      if head != null {
        ghost var k;
        var at;
        at, k := LowerBound(add, cmp);
        BeforeEqualsAt(cmp, add, nodes, k);
        AppendElem(at, add, k);
      } else {
        head := add;
        head.prev := head;
        head.next := null;
        nodes := [add];
      }
    }

    /** DL_DELETE2. */
    method Delete(del: Elem, ghost k: nat)
      requires Valid() && k < |nodes| && nodes[k] == del
      modifies this, Elems(nodes)`next, Elems(nodes)`prev
      ensures Valid() && nodes == RemoveAt(old(nodes), k)
      ensures del.next == old(del.next)
    {
      Neighbours(nodes, k, null);
      assert head != null && del.prev != null;
      if del.prev == del {
        head := null;
      } else if del == head {
        del.next.prev := del.prev;
        head := del.next;
      } else {
        del.prev.next := del.next;
        if del.next != null {
          del.next.prev := del.prev;
        } else {
          head.prev := del.prev;
        }
      }
      ghost var s, t := nodes, RemoveAt(nodes, k);
      RemoveDistinct(nodes, k);
      nodes := t;
      hide Distinct;
      forall i {:trigger t[i].next} | 0 <= i < |t| ensures t[i].next == if i + 1 < |t| then t[i + 1] else null {
        assert t[i] == if i < k then s[i] else s[i + 1];
      }
      forall i {:trigger t[i].prev} | 0 <= i < |t| ensures t[i].prev == if i == 0 then Last(t) else t[i - 1] {
        assert t[i] == if i < k then s[i] else s[i + 1];
      }
    }

    /** DL_CONCAT2: `other`'s elements move to the end of this list. */
    method Concat(other: DList)
      requires Valid() && other.Valid() && other != this && Apart(nodes, other.nodes)
      modifies this, Elems(nodes)`next, Elems(nodes)`prev, Elems(other.nodes)`prev
      ensures Valid() && nodes == old(nodes) + old(other.nodes)
    {
      ghost var a, b := nodes, other.nodes;
      DistinctConcat(a, b);
      hide Apart, Elems;
      if other.head != null {
        if head != null {
          var tail := other.head.prev;
          other.head.prev := head.prev;
          head.prev.next := other.head;
          head.prev := tail;
        } else {
          head := other.head;
        }
      }
      nodes := a + b;
    }

    /** DL_REPLACE_ELEM2. */
    method ReplaceElem(el: Elem, add: Elem, ghost k: nat)
      requires Valid() && k < |nodes| && nodes[k] == el && add !in nodes
      modifies this, Elems(nodes)`next, Elems(nodes)`prev, add`next, add`prev
      ensures Valid() && nodes == old(nodes)[k := add]
    {
      if head == el {
        head := add;
        add.next := el.next;
        if el.next == null {
          add.prev := add;
        } else {
          add.prev := el.prev;
          add.next.prev := add;
        }
      } else {
        add.next := el.next;
        add.prev := el.prev;
        add.prev.next := add;
        if el.next == null {
          head.prev := add;
        } else {
          add.next.prev := add;
        }
      }
      nodes := nodes[k := add];
    }

    /** DL_SORT2. */
    method Sort(cmp: (Elem, Elem) -> int) returns (ghost passes: nat, ghost moves: nat)
      requires Valid()
      modifies this, Elems(nodes)`next, Elems(nodes)`prev
      ensures Valid() && nodes == MergeSort.Sort(cmp, old(nodes))
      ensures passes == if old(nodes) == [] then 0 else Passes(1, |old(nodes)|)
      ensures moves == |old(nodes)| * passes
    {
      head, passes, moves := SortList(head, cmp, nodes);
      nodes := MergeSort.Sort(cmp, nodes);
    }
  }

  // ------------------------------------------------------------ building a list

  lemma {:induction false} BuiltElems(cmp: (Elem, Elem) -> int, es: seq<Elem>)
    ensures Elems(BuildPrepend(es)) == Elems(es) == Elems(BuildBeforeEquals(cmp, es))
  {
    if es != [] {
      var front, e := es[..|es| - 1], es[|es| - 1];
      BuiltElems(cmp, front);
      ElemsAppend(front, e);
      assert es == front + [e];
      var b := BuildBeforeEquals(cmp, front);
      BeforeEqualsPermutes(cmp, e, b);
      ElemsOfPermutation(InsertBeforeEquals(cmp, e, b), [e] + b);
    }
  }

  lemma BuildNext(cmp: (Elem, Elem) -> int, es: seq<Elem>, i: nat)
    requires Distinct(es) && i < |es|
    ensures BuildBeforeEquals(cmp, es[..i + 1]) == InsertBeforeEquals(cmp, es[i], BuildBeforeEquals(cmp, es[..i]))
    ensures BuildPrepend(es[..i + 1]) == [es[i]] + BuildPrepend(es[..i])
    ensures es[i] in Elems(es) && es[i] !in BuildBeforeEquals(cmp, es[..i]) && es[i] !in BuildPrepend(es[..i])
    ensures Elems(BuildBeforeEquals(cmp, es[..i])) <= Elems(es) && Elems(BuildPrepend(es[..i])) <= Elems(es)
  {
    assert es[..i + 1][..i] == es[..i];
    BuiltElems(cmp, es[..i]);
    assert es[i] !in Elems(es[..i]);
  }

  lemma BuildDone(cmp: (Elem, Elem) -> int, es: seq<Elem>)
    ensures es[..0] == [] && es[..|es|] == es && Elems(BuildPrepend(es)) == Elems(es)
  {
    BuiltElems(cmp, es);
  }

  /** A list built by DL_INSERT_INORDER. */
  method InsertAll(es: seq<Elem>, cmp: (Elem, Elem) -> int) returns (l: DList)
    requires Distinct(es)
    modifies Elems(es)`next, Elems(es)`prev
    ensures fresh(l) && l.Valid() && l.nodes == BuildBeforeEquals(cmp, es)
  {
    hide DlShape, Distinct, Elems, InsertBeforeEquals;
    BuildDone(cmp, es);
    l := new DList();
    for i := 0 to |es|
      invariant fresh(l) && l.Valid() && l.nodes == BuildBeforeEquals(cmp, es[..i])
    {
      BuildNext(cmp, es, i);
      l.InsertInOrder(es[i], cmp);
    }
  }

  /** A list built by DL_PREPEND and then sorted once by DL_SORT. */
  method PrependAllAndSort(es: seq<Elem>, cmp: (Elem, Elem) -> int) returns (l: DList)
    requires Distinct(es)
    modifies Elems(es)`next, Elems(es)`prev
    ensures fresh(l) && l.Valid() && l.nodes == Sort(cmp, BuildPrepend(es))
  {
    hide DlShape, Distinct, Elems, Sort, Passes;
    BuildDone(cmp, es);
    l := new DList();
    for i := 0 to |es|
      invariant fresh(l) && l.Valid() && l.nodes == BuildPrepend(es[..i])
    {
      BuildNext(cmp, es, i);
      l.Prepend(es[i]);
    }
    ghost var passes, moves := l.Sort(cmp);
  }

  /** Both ways of building, one after the other on the same elements, leave the
      same list. */
  method BuildBoth(es: seq<Elem>, cmp: (Elem, Elem) -> int, ghost u: set<Elem>)
    returns (a: DList, b: DList, ghost inserted: seq<Elem>)
    requires Distinct(es) && TotalPreorder(cmp, u) && Within(es, u)
    modifies Elems(es)`next, Elems(es)`prev
    ensures fresh(a) && fresh(b) && b.Valid() && inserted == a.nodes == b.nodes
  {
    hide DlShape, Distinct, Elems, Sort, BuildPrepend, BuildBeforeEquals, TotalPreorder, Within;
    InsertInOrderIsPrependThenSort(cmp, u, es);
    a := InsertAll(es, cmp);
    inserted := a.nodes;
    b := PrependAllAndSort(es, cmp);
  }
}
