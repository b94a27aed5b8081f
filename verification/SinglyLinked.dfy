/** The merge sort of the singly linked list macros of utlist. */
module SinglyLinked {
  import opened Elements
  import opened MergeSort
  import opened InPlaceSort

  /** `next` runs along `s` and ends in null. */
  ghost predicate LlShape(head: Elem?, s: seq<Elem>)
    reads s`next
  {
    head == First(s) && Distinct(s) && Chain(s, null)
  }

  /** End of a pass of LL_SORT2. */
  method CloseList(list: Elem, tail: Elem, ghost s: seq<Elem>)
    requires Output(false, list, tail, s) && Distinct(s) && s != []
    modifies tail`next
    ensures LlShape(list, s)
  {
    tail.next := null;
  }

  lemma LlNonEmpty(head: Elem, s: seq<Elem>)
    requires LlShape(head, s)
    ensures s != []
  {
  }

  lemma LlStart(head: Elem, s: seq<Elem>)
    requires LlShape(head, s)
    ensures s != [] && head == s[0] && Chain(s, null) && Distinct(s)
  {
  }

  /** One turn of the outer loop of LL_SORT2: a pass with runs of length `insize`. */
  method Turn(list: Elem, cmp: (Elem, Elem) -> int, insize: nat, ghost s: seq<Elem>, ghost t: seq<Elem>,
              ghost passes: nat, ghost moves: nat)
    returns (first: Elem, looping: bool, ghost t': seq<Elem>, ghost moves': nat)
    requires LlShape(list, t) && SortState(cmp, s, t, insize, true, passes, moves)
    modifies Elems(s)`next, Elems(s)`prev
    ensures LlShape(first, t') && SortState(cmp, s, t', 2 * insize, looping, passes + 1, moves')
    ensures TurnsLeft(looping, 2 * insize, |s|) < TurnsLeft(true, insize, |s|)
  {
    hide SortState, Pass, Elems, LlShape, Distinct, Chain, Back, Linked, Output;
    LlStart(list, t);
    SortStep(cmp, s, t, insize, passes, moves);
    var tail, nmerges;
    ghost var m;
    first, tail, nmerges, m := SortPass(false, cmp, list, insize, null, t);
    t', moves' := Pass(cmp, insize, t), moves + m;
    OutputEnds(false, first, tail, t');
    CloseList(first, tail, t');
    looping := nmerges > 1;
  }

  /** The outer loop of LL_SORT2, for a list that is not empty. */
  method Turns(head: Elem, cmp: (Elem, Elem) -> int, ghost s: seq<Elem>)
    returns (list: Elem, ghost passes: nat, ghost moves: nat)
    requires LlShape(head, s)
    modifies Elems(s)`next, Elems(s)`prev
    ensures LlShape(list, Sort(cmp, s)) && passes == Passes(1, |s|) && moves == |s| * passes
  {
    hide SortState, Sort, Passes, TurnsLeft, Elems, LlShape, Distinct, Chain;
    list, passes, moves := head, 0, 0;
    var insize: nat, looping := 1, true;
    ghost var t := s;
    LlNonEmpty(head, s);
    SortStart(cmp, s);
    while looping
      invariant LlShape(list, t) && SortState(cmp, s, t, insize, looping, passes, moves)
      decreases TurnsLeft(looping, insize, |s|)
    {
      list, looping, t, moves := Turn(list, cmp, insize, s, t, passes, moves);
      passes, insize := passes + 1, insize * 2;
    }
    SortEnd(cmp, s, t, insize, passes, moves);
  }

  /** LL_SORT2. */
  method SortList(head: Elem?, cmp: (Elem, Elem) -> int, ghost s: seq<Elem>)
    returns (list: Elem?, ghost passes: nat, ghost moves: nat)
    requires LlShape(head, s)
    modifies Elems(s)`next, Elems(s)`prev
    ensures LlShape(list, Sort(cmp, s))
    ensures passes == (if s == [] then 0 else Passes(1, |s|)) && moves == |s| * passes
  {
    list, passes, moves := head, 0, 0;
    if list != null {
      LlStart(head, s);
      hide Sort, Passes, LlShape;
      list, passes, moves := Turns(list, cmp, s);
    }
  }
}
