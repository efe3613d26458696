/**
 The singly linked queue of ftpclient/list.h, with its head, tail and size fields updated in place.
 */
module LinkedQueue {

  class ListNode<T> {
    var next: ListNode?<T>
    var data: T

    constructor (data: T)
      ensures this.data == data && next == null
    {
      this.data := data;
      next := null;
    }
  }

  class List<T> {
    var head: ListNode?<T>
    var tail: ListNode?<T>
    var size: nat
    ghost var contents: seq<T>         // the abstract queue
    ghost var spine: seq<ListNode<T>>  // the nodes from head to the end
    ghost var nodes: set<ListNode<T>>  // all nodes made by Add
    ghost var freed: set<ListNode<T>>  // the ones given back by RemoveFront

    /**
     The nodes are distinct, so the chain is acyclic and ends; none of them has been freed. `tail`
     is the last node whenever there is one; in an empty list it may point to a freed node.
     */
    ghost predicate Valid()
      reads this, nodes
    {
      && (forall i :: 0 <= i < |spine| ==> spine[i] in nodes)
      && size == |spine| == |contents|
      && (forall i :: 0 <= i < |spine| ==> spine[i].data == contents[i])
      && (head == null <==> spine == [])
      && (spine != [] ==> head == spine[0] && tail == spine[|spine| - 1])
      && (spine != [] ==> spine[|spine| - 1].next == null)
      && (forall i, j :: 0 <= i < j < |spine| && j == i + 1 ==> spine[i].next == spine[j])
      && (forall i, j :: 0 <= i < j < |spine| ==> spine[i] != spine[j])
      && (forall i :: 0 <= i < |spine| ==> spine[i] !in freed)
    }

    ghost function NodeAt(i: nat): ListNode?<T>
      reads this
    {
      if i < |spine| then spine[i] else null
    }

    constructor ()
      ensures Valid() && contents == [] && fresh(nodes)
    {
      head, tail, size := null, null, 0;
      contents, spine, nodes, freed := [], [], {}, {};
    }

    method Add(data: T)
      requires Valid()
      modifies this, nodes
      ensures Valid() && contents == old(contents) + [data]
      ensures fresh(nodes - old(nodes))
    {
      var n := new ListNode(data);
      if head == null {
        head, tail := n, n;
        size := 1;
      } else {
        assert tail !in freed;
        tail.next := n;
        tail := n;
        size := size + 1;
      }
      contents, spine, nodes := contents + [data], spine + [n], nodes + {n};
    }

    method RemoveFront()
      requires Valid()
      modifies this
      ensures Valid() && tail == old(tail) && nodes == old(nodes)
      ensures old(head) == null ==> contents == old(contents)
      ensures old(head) != null ==> contents == old(contents)[1..] && old(head) in freed
    {
      if head == null {
        return;
      }
      var f := head;
      assert f.next == if |spine| == 1 then null else spine[1];
      head := f.next;
      size := size - 1;
      contents, spine := contents[1..], spine[1..];
      freed := freed + {f};
    }
  }

  // ---- any interleaving of operations ----

  datatype Op<T> = Enqueue(data: T) | Dequeue

  /** What the operations do to a mathematical queue. */
  function Fifo<T>(s: seq<T>, ops: seq<Op<T>>): seq<T>
    decreases |ops|
  {
    if ops == [] then s
    else if ops[0].Enqueue? then Fifo(s + [ops[0].data], ops[1..])
    else Fifo(if s == [] then s else s[1..], ops[1..])
  }

  /** Every sequence of additions and removals leaves the linked list equal to the mathematical queue. */
  method Perform<T>(list: List<T>, ops: seq<Op<T>>)
    requires list.Valid()
    modifies list, list.nodes
    ensures list.Valid() && list.contents == Fifo(old(list.contents), ops)
    ensures list.size == |Fifo(old(list.contents), ops)|
  {
    for k := 0 to |ops|
      invariant list.Valid()
      invariant fresh(list.nodes - old(list.nodes))
      invariant Fifo(list.contents, ops[k..]) == Fifo(old(list.contents), ops)
    {
      assert ops[k..][1..] == ops[k + 1..];
      if ops[k].Enqueue? {
        list.Add(ops[k].data);
      } else {
        assert list.head == null <==> list.contents == [];
        list.RemoveFront();
      }
    }
  }

  /**
   The queue law behind it, for any run: the removed elements followed by the ones still queued are
   the initial elements followed by the added ones, in order.
   */
  lemma {:induction false} FifoOrder<T>(s: seq<T>, ops: seq<Op<T>>)
    ensures Removed(s, ops) + Fifo(s, ops) == s + Added(ops)
    decreases |ops|
  {
    if ops == [] {
    } else if ops[0].Enqueue? {
      var x := ops[0].data;
      FifoOrder(s + [x], ops[1..]);
      assert s + [x] + Added(ops[1..]) == s + ([x] + Added(ops[1..]));
    } else if s == [] {
      FifoOrder(s, ops[1..]);
      assert [] + Added(ops[1..]) == Added(ops[1..]);
    } else {
      FifoOrder(s[1..], ops[1..]);
      Uncons(s, Removed(s[1..], ops[1..]), Fifo(s[1..], ops[1..]), Added(ops[1..]));
      assert [] + Added(ops[1..]) == Added(ops[1..]);
    }
  }

  lemma Uncons<T>(s: seq<T>, a: seq<T>, b: seq<T>, c: seq<T>)
    requires s != [] && a + b == s[1..] + c
    ensures ([s[0]] + a) + b == s + c
  {
    assert ([s[0]] + a) + b == [s[0]] + (a + b);
    assert s == [s[0]] + s[1..];
  }

  function Added<T>(ops: seq<Op<T>>): seq<T> {
    if ops == [] then []
    else (if ops[0].Enqueue? then [ops[0].data] else []) + Added(ops[1..])
  }

  function Removed<T>(s: seq<T>, ops: seq<Op<T>>): seq<T>
    decreases |ops|
  {
    if ops == [] then []
    else if ops[0].Enqueue? then Removed(s + [ops[0].data], ops[1..])
    else if s == [] then Removed(s, ops[1..])
    else [s[0]] + Removed(s[1..], ops[1..])
  }
}
