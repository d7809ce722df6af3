/**
 * The scenarios of queue_test.c, played against the `Queue` class by a
 * single client. Each returns what the test asserts about, and its
 * postcondition is the test's assertion, for every input rather than for
 * the one the test picks.
 */
module QueueScenarios {
  import opened BlockingQueue

  /** `empty_queue_should_be_empty`: a new empty queue reports empty. */
  method EmptyQueueIsEmpty<T>() returns (empty: bool)
    ensures empty
  {
    var q := new Queue<T>.CreateEmpty();
    empty := q.IsEmpty();
    var _ := q.Destroy();
  }

  /** `enqueue_to_queue_makes_it_non_empty`. */
  method EnqueueMakesNonEmpty<T>(v: T) returns (empty: bool)
    ensures !empty
  {
    var q := new Queue<T>.CreateEmpty();
    q.Enqueue(v);
    empty := q.IsEmpty();
    var _ := q.Destroy();
  }

  /** `non_empty_queue_is_not_empty`: a queue created with a value is not empty. */
  method CreatedQueueIsNotEmpty<T>(v: T) returns (empty: bool)
    ensures !empty
  {
    var q := new Queue<T>.Create(v);
    empty := q.IsEmpty();
    var _ := q.Destroy();
  }

  /** `enqueue_dequeue_cancels_out`: one value in, the same value out, and the queue is empty again. */
  method EnqueueDequeueCancelsOut<T>(v: T) returns (got: Option<T>, empty: bool)
    ensures got == Some(v) && empty
  {
    var q := new Queue<T>.CreateEmpty();
    var w := RoundTrip(q, v);
    got := Some(w);
    empty := q.IsEmpty();
    var _ := q.Destroy();
  }

  /**
   * `repeated_enque_deque_cancels_out`: enqueue i and dequeue straight away,
   * for i from 0 below n. Every dequeue returns the i just enqueued and the
   * queue ends empty.
   */
  method RepeatedEnqueueDequeue(n: nat) returns (got: seq<int>, empty: bool)
    ensures got == seq(n, i => i) && empty
  {
    var q := new Queue<int>.CreateEmpty();
    got := [];
    var i := 0;
    while i < n
      invariant 0 <= i <= n
      invariant q.Valid() && fresh(q.Repr)
      invariant q.Abstract() == State([], true, false)
      invariant got == seq(i, k => k)
    {
      var w := RoundTrip(q, i);
      got := got + [w];
      assert got == seq(i + 1, k => k);
      i := i + 1;
    }
    empty := q.IsEmpty();
    var _ := q.Destroy();
  }

  /**
   * `dequeuing_all_items_will_result_in_empty_queue` and
   * `insertion_order_is_preserved`: enqueue every value of `xs`, then
   * dequeue as many times. The values come out in the order they went in,
   * the queue ends empty, and teardown finds nothing left to release.
   */
  method InsertionOrderIsPreserved<T>(xs: seq<T>) returns (got: seq<T>, empty: bool, released: seq<T>)
    ensures got == xs && empty && released == []
  {
    var q := Filled(xs);
    got := [];
    var j := 0;
    while j < |xs|
      invariant 0 <= j <= |xs|
      invariant q.Valid() && fresh(q.Repr)
      invariant q.Abstract() == State(xs[j..], j == |xs|, false)
      invariant got == xs[..j]
    {
      var r := q.Dequeue();
      got := got + [r.value];
      assert xs[..j] + [xs[j]] == xs[..j + 1];
      j := j + 1;
    }
    empty := q.IsEmpty();
    released := q.Destroy();
  }

  /**
   * Teardown of a queue still holding `xs`: the release callback receives
   * each remaining value once, head first; afterwards an enqueue is
   * dropped and a dequeue returns nothing.
   */
  method DestroyReleasesEachValueOnce<T>(xs: seq<T>, v: T) returns (released: seq<T>, got: Option<T>)
    ensures released == xs && got == None
  {
    var q := Filled(xs);
    released := q.Destroy();
    q.Enqueue(v);
    got := q.Dequeue();
  }

  /** One enqueue of `v` on an empty live queue, then one dequeue: `v` comes back and the queue is empty again. */
  method RoundTrip<T>(q: Queue<T>, v: T) returns (w: T)
    requires q.Valid() && q.Abstract() == State([], true, false)
    modifies q.Repr
    ensures q.Valid() && fresh(q.Repr - old(q.Repr))
    ensures q.Abstract() == State([], true, false) && w == v
  {
    q.Enqueue(v);
    var r := q.Dequeue();
    w := r.value;
  }

  /** A new empty queue after one enqueue of each value of `xs`, in order. */
  method Filled<T>(xs: seq<T>) returns (q: Queue<T>)
    ensures q.Valid() && fresh(q.Repr)
    ensures q.Abstract() == State(xs, xs == [], false)
  {
    q := new Queue<T>.CreateEmpty();
    var i := 0;
    while i < |xs|
      invariant 0 <= i <= |xs|
      invariant q.Valid() && fresh(q.Repr)
      invariant q.Abstract() == State(xs[..i], i == 0, false)
    {
      q.Enqueue(xs[i]);
      assert xs[..i] + [xs[i]] == xs[..i + 1];
      i := i + 1;
    }
    assert xs[..i] == xs;
  }
}
