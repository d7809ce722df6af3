/**
 * The FIFO queue of queue.c, as a sequential data structure.
 *
 * Every public operation of the source runs inside one critical section of
 * the queue's mutex, so each is modelled as one atomic state change of a
 * `Queue` object. The queue is a doubly-linked list of `Element` nodes with
 * a `head` and a `tail`, and two flags: `isEmpty` and `cancel`.
 *
 * The observable state of a queue (its values head first and its two flags)
 * is the datatype `State`; `Enqueued` and `Dequeued` say what one call does
 * to it, and the methods of `Queue` are proved to do exactly that to the
 * linked nodes.
 */
module BlockingQueue {

  /** What `queue_dequeue` hands back: a value, or the NULL of "no value". */
  datatype Option<T> = None | Some(value: T)

  /** The observable state of a queue: its values, head first, and its two flags. */
  datatype State<T> = State(contents: seq<T>, isEmpty: bool, cancel: bool)

  /**
   * The invariant every operation keeps. While the queue is live, the empty
   * flag is exactly "no values are stored". Once `cancel` is set the list has
   * been drained, and the flag is left as it was, because teardown never
   * resets it.
   */
  predicate Consistent<T>(s: State<T>)
  {
    && (!s.cancel ==> (s.isEmpty <==> s.contents == []))
    && (s.cancel ==> s.contents == [])
  }

  /** `queue_enqueue` on the observable state: append at the tail, unless cancelled. */
  function Enqueued<T>(s: State<T>, v: T): (r: State<T>)
    ensures Consistent(s) ==> Consistent(r)
    ensures r.cancel == s.cancel
    ensures s.cancel ==> r == s
    ensures !s.cancel ==> !r.isEmpty && |r.contents| == |s.contents| + 1 && r.contents[|s.contents|] == v
    ensures !s.cancel ==> r.contents[..|s.contents|] == s.contents
  {
    if s.cancel then s
    else s.(contents := s.contents + [v], isEmpty := false)
  }

  /**
   * `queue_dequeue` on the observable state, after its wait: take the head
   * value unless the queue is cancelled or (still) empty, in which case
   * nothing is returned and nothing changes.
   */
  function Dequeued<T>(s: State<T>): (r: (Option<T>, State<T>))
    requires Consistent(s)
    ensures Consistent(r.1) && r.1.cancel == s.cancel
    ensures r.0.Some? <==> !s.cancel && s.contents != []
    ensures r.0.Some? ==> s.contents == [r.0.value] + r.1.contents
    ensures r.0.Some? ==> (r.1.isEmpty <==> |s.contents| == 1)
    ensures r.0.None? ==> r.1 == s
  {
    if s.cancel || s.isEmpty then (None, s)
    else if |s.contents| > 1 then (Some(s.contents[0]), s.(contents := s.contents[1..]))
    else (Some(s.contents[0]), s.(contents := [], isEmpty := true))
  }

  /** Moving the front of `all` to the back of `done` keeps their concatenation. */
  lemma MovedToFront<X>(done: seq<X>, x: X, rest: seq<X>, all: seq<X>)
    requires all == [x] + rest
    ensures (done + [x]) + rest == done + all
  {
  }

  /** One node of the list; it owns a copy of the value it was created with. */
  class Element<T> {
    var value: T
    var next: Element?<T>
    var previous: Element?<T>

    /** `element_create`: a node holding `value`, linked to nothing. */
    constructor (value: T)
      ensures this.value == value && next == null && previous == null
    {
      this.value := value;
      next := null;
      previous := null;
    }
  }

  class Queue<T> {
    var head: Element?<T>
    var tail: Element?<T>
    /** Tells `Dequeue` whether to wait for the queue to become non-empty. */
    var isEmpty: bool
    /** Set once, when the queue is about to be destroyed. */
    var cancel: bool

    /** The stored values, head first. */
    ghost var Contents: seq<T>
    /** The nodes of the list, head first. */
    ghost var Nodes: seq<Element<T>>
    /** The objects the queue owns: itself and its nodes. */
    ghost var Repr: set<object>

    /**
     * The nodes form a doubly-linked list holding `Contents`. When the list
     * is empty nothing is said about `tail`: taking the last value leaves it
     * pointing at the node that was released.
     */
    ghost predicate Linked()
      reads this, Repr
    {
      && this in Repr
      && |Nodes| == |Contents|
      && (forall i :: 0 <= i < |Nodes| ==> Nodes[i] in Repr)
      && (forall i, j :: 0 <= i < j < |Nodes| ==> Nodes[i] != Nodes[j])
      && (forall i :: 0 <= i < |Nodes| ==> Nodes[i].value == Contents[i])
      && (forall i :: 0 <= i < |Nodes| - 1 ==> Nodes[i].next == Nodes[i + 1])
      && (forall i :: 0 < i < |Nodes| ==> Nodes[i].previous == Nodes[i - 1])
      && (if Nodes == [] then head == null
          else && head == Nodes[0] && head.previous == null
               && tail == Nodes[|Nodes| - 1] && tail.next == null)
    }

    ghost function Abstract(): State<T>
      reads this
    {
      State(Contents, isEmpty, cancel)
    }

    ghost predicate Valid()
      reads this, Repr
    {
      Linked() && Consistent(Abstract())
    }

    /** `queue_create_empty`: no values, empty, not cancelled. */
    constructor CreateEmpty()
      ensures Valid() && fresh(Repr)
      ensures Abstract() == State([], true, false)
      ensures head == null && tail == null
    {
      head := null;
      tail := null;
      cancel := false;
      isEmpty := true;
      Contents, Nodes, Repr := [], [], {this};
    }

    /** `queue_create`: one node holding a copy of `value`, which is both head and tail. */
    constructor Create(value: T)
      ensures Valid() && fresh(Repr)
      ensures Abstract() == State([value], false, false)
      ensures head != null && head == tail && head.value == value
    {
      var e := new Element(value);
      head := e;
      tail := head;
      cancel := false;
      isEmpty := false;
      Contents, Nodes, Repr := [value], [e], {this, e};
    }

    /**
     * `queue_enqueue`: unless cancelled, a new node holding a copy of `value`
     * becomes the tail and the queue is no longer empty; when cancelled,
     * the value is dropped and nothing changes.
     */
    method Enqueue(value: T)
      requires Valid()
      modifies Repr
      ensures Valid() && fresh(Repr - old(Repr))
      ensures Abstract() == Enqueued(old(Abstract()), value)
      ensures old(cancel) ==> unchanged(this)
      ensures !old(cancel) ==> tail != null && tail.value == value && tail.next == null
    {
      if !cancel {
        var e := new Element(value);
        if head == null {
          head := e;
          tail := head;
        } else {
          e.previous := tail;
          tail.next := e;
          tail := e;
        }
        isEmpty := false;
        Contents, Nodes, Repr := Contents + [value], Nodes + [e], Repr + {e};
      }
    }

    /** `queue_is_empty`: the empty flag, read without changing anything. */
    method IsEmpty() returns (r: bool)
      requires Valid()
      ensures r == isEmpty
      ensures !cancel ==> (r <==> Contents == [])
    {
      r := isEmpty;
    }

    /**
     * `queue_dequeue`. On an empty queue the source first waits on its
     * condition variable; with no other thread to run, the only way on is a
     * spurious wake or the broadcast of teardown, after which it re-checks
     * both flags under the lock. So: the head value is taken when the queue
     * is live and non-empty, and otherwise nothing is returned and nothing
     * changes.
     */
    method Dequeue() returns (r: Option<T>)
      requires Valid()
      modifies Repr
      ensures Valid() && Repr <= old(Repr)
      ensures (r, Abstract()) == Dequeued(old(Abstract()))
      ensures r.None? ==> unchanged(this)
      ensures r.Some? ==> old(head) != null && old(head) !in Repr
      ensures r.Some? && |old(Contents)| == 1 ==> head == null && tail == old(tail)
    {
      r := None;
      if !cancel && !isEmpty {
        var v := ReleaseHead();
        r := Some(v);
        if head == null {
          isEmpty := true;
        }
      }
    }

    /**
     * `queue_destroy`: set `cancel`, then walk the list from head to tail,
     * handing each remaining value to the release callback and dropping its
     * node. The values handed over are returned, in the order of the calls.
     */
    method Destroy() returns (released: seq<T>)
      requires Valid()
      modifies Repr
      ensures Valid() && Repr <= old(Repr)
      ensures released == old(Contents)
      ensures cancel && head == null && Contents == []
      ensures isEmpty == old(isEmpty) && tail == old(tail)
      ensures forall n :: n in old(Nodes) ==> n !in Repr
    {
      cancel := true;
      released := Drain();
    }

    /**
     * The walk of `queue_destroy`: release the head node until none is left,
     * collecting the values in the order they are released.
     */
    method Drain() returns (released: seq<T>)
      requires Linked()
      modifies Repr
      ensures Linked() && Repr <= old(Repr)
      ensures released == old(Contents) && Contents == [] && head == null
      ensures tail == old(tail) && isEmpty == old(isEmpty) && cancel == old(cancel)
      ensures forall n :: n in old(Nodes) ==> n !in Repr
    {
      released := [];
      ghost var gone: seq<Element<T>> := [];
      while head != null
        invariant Linked() && Repr <= old(Repr)
        invariant tail == old(tail) && isEmpty == old(isEmpty) && cancel == old(cancel)
        invariant released + Contents == old(Contents)
        invariant gone + Nodes == old(Nodes)
        invariant forall n :: n in gone ==> n !in Repr
        decreases |Contents|
      {
        ghost var first: Element<T> := head;
        ghost var stored, linked := Contents, Nodes;
        var v := ReleaseHead();
        MovedToFront(released, v, Contents, stored);
        MovedToFront(gone, first, Nodes, linked);
        released, gone := released + [v], gone + [first];
      }
    }

    /**
     * One step of the walk in `queue_dequeue` and `queue_destroy`: the node
     * after the head, if any, becomes the head and forgets its predecessor;
     * otherwise the head becomes null. The old head node is released and the
     * value it held is returned. Neither flag is touched.
     */
    method ReleaseHead() returns (v: T)
      requires Linked() && head != null
      modifies Repr
      ensures Linked() && Repr <= old(Repr)
      ensures old(Contents) == [v] + Contents
      ensures head == null <==> Contents == []
      ensures tail == old(tail)
      ensures old(Nodes) == [old(head)] + Nodes && old(head) !in Repr
      ensures isEmpty == old(isEmpty) && cancel == old(cancel)
    {
      ghost var gone := head;
      assert |Nodes| > 1 ==> head.next == Nodes[1];
      if head.next != null {
        head := head.next;
        v := head.previous.value;
        head.previous := null;
        Contents, Nodes := Contents[1..], Nodes[1..];
      } else {
        v := head.value;
        head := null;
        Contents, Nodes := [], [];
      }
      Repr := Repr - {gone};
    }
  }
}
