/** The critical sections of the command queue, on its doubly linked list. */
module CommandQueue {
  import opened Elements
  import opened DoublyLinked
  import opened CommandRunner
  import opened Wrappers

  ghost function ItemsOf(nodes: seq<Elem>, item: map<Elem, Item>): seq<Item>
    requires forall x :: x in nodes ==> x in item
  {
    seq(|nodes|, i requires 0 <= i < |nodes| => item[nodes[i]])
  }

  lemma ItemsSnoc(nodes: seq<Elem>, item: map<Elem, Item>, x: Elem, it: Item)
    requires (forall x :: x in nodes ==> x in item) && x !in nodes
    ensures ItemsOf(nodes + [x], item[x := it]) == ItemsOf(nodes, item) + [it]
  {
  }

  lemma ItemsTail(nodes: seq<Elem>, item: map<Elem, Item>)
    requires (forall x :: x in nodes ==> x in item) && nodes != []
    ensures RemoveAt(nodes, 0) == nodes[1..]
    ensures ItemsOf(nodes[1..], item) == ItemsOf(nodes, item)[1..]
  {
  }

  class CmdQueue {
    const list: DList // the list starting at `head`
    var len: int
    const maxLen: int
    var item: map<Elem, Item> // the `cmd` field of the nodes

    constructor (maxLen: int)
      ensures Valid() && Queue() == [] && len == 0 && this.maxLen == maxLen && fresh(list)
    {
      list := new DList();
      len, item := 0, map[];
      this.maxLen := maxLen;
    }

    ghost predicate Valid()
      reads this, list, list.nodes`next, list.nodes`prev
    {
      list.Valid() && forall x :: x in list.nodes ==> x in item
    }

    /** The queued commands. */
    ghost function Queue(): seq<Item>
      requires forall x :: x in list.nodes ==> x in item
      reads this, list
    {
      ItemsOf(list.nodes, item)
    }

    /** The heap structure stands for the queue of state `s`. */
    ghost predicate Holds(s: State)
      reads this, list, list.nodes`next, list.nodes`prev
    {
      Valid() && Queue() == s.queue && len == s.len && maxLen == s.max
    }

    /** cmd_queue_send with the mutex taken: the step of a sender at Locked. */
    method SendSection(qnode: Elem, it: Item, ghost s: State, ghost i: nat) returns (ok: bool)
      requires Holds(s) && qnode !in list.nodes && i < |s.senders| && s.senders[i].pc.Locked?
      requires s.senders[i].next < |s.senders[i].prog| && it == Item(i, s.senders[i].prog[s.senders[i].next])
      modifies this, list, Elems(list.nodes)`next, Elems(list.nodes)`prev, qnode`next, qnode`prev
      ensures SendStep(s, i).Some? && Holds(SendStep(s, i).value)
      ensures ok <==> SendStep(s, i).value.senders[i].pc.Appended?
    {
      ok := len < maxLen;
      if ok {
        hide DlShape;
        ItemsSnoc(list.nodes, item, qnode, it);
        list.Append(qnode);
        len := len + 1;
        item := item[qnode := it];
      }
    }

    lemma HeadIsFirst()
      requires Valid()
      ensures list.head == null <==> list.nodes == []
      ensures list.head != null ==> list.nodes[0] == list.head
      ensures this as object !in Elems(list.nodes) && list as object !in Elems(list.nodes)
    {
    }

    /** cmd_queue_recv with the mutex taken; None if the assertion fails. */
    method RecvSection(ghost s: State) returns (cmd: Option<Cmd>)
      requires Holds(s) && s.cons.Holding?
      modifies this, list, Elems(list.nodes)`next, Elems(list.nodes)`prev
      ensures ConsumeStep(s).Some? && Holds(ConsumeStep(s).value)
      ensures ConsumeStep(s).value.cons == if cmd.None? then Aborted else Popped(cmd.value)
    {
      hide DlShape, Elems, RemoveAt;
      HeadIsFirst();
      cmd := None;
      if list.head != null {
        var qnode: Elem := list.head;
        ItemsTail(list.nodes, item);
        list.Delete(qnode, 0);
        len := len - 1;
        cmd := Some(item[qnode].cmd);
      }
    }
  }
}
