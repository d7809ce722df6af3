/**
 * Histories of a queue. Because every enqueue and dequeue of queue.c runs
 * under the queue's one lock, any run of producer and consumer threads is
 * some sequence of single calls. This module plays such a sequence against
 * the observable state and proves what the queue promises of all of them:
 * values come out in the order they went in, none is lost or repeated, and
 * a cancelled queue ignores every call.
 */
module QueueHistory {
  import opened BlockingQueue

  /** One call: `queue_enqueue` of a value, or `queue_dequeue`. */
  datatype Op<T> = Put(value: T) | Take

  /**
   * Plays `ops` from state `s`; returns the reply of every `Take`, in order,
   * and the final state.
   */
  function Run<T>(s: State<T>, ops: seq<Op<T>>): (r: (seq<Option<T>>, State<T>))
    requires Consistent(s)
    ensures Consistent(r.1) && r.1.cancel == s.cancel
    ensures |r.0| == TakeCount(ops)
    decreases |ops|
  {
    if ops == [] then ([], s)
    else match ops[0]
      case Put(v) => Run(Enqueued(s, v), ops[1..])
      case Take =>
        var (got, s1) := Dequeued(s);
        var (rest, s2) := Run(s1, ops[1..]);
        ([got] + rest, s2)
  }

  /** The number of `Take` calls in a history. */
  function TakeCount<T>(ops: seq<Op<T>>): nat
    decreases |ops|
  {
    if ops == [] then 0
    else (if ops[0].Take? then 1 else 0) + TakeCount(ops[1..])
  }

  /** The values offered to the queue by the `Put` calls of a history, in order. */
  function Supplied<T>(ops: seq<Op<T>>): seq<T>
    decreases |ops|
  {
    if ops == [] then []
    else (if ops[0].Put? then [ops[0].value] else []) + Supplied(ops[1..])
  }

  /** The values the `Take` calls actually received, in order. */
  function Delivered<T>(replies: seq<Option<T>>): seq<T>
    decreases |replies|
  {
    if replies == [] then []
    else (if replies[0].Some? then [replies[0].value] else []) + Delivered(replies[1..])
  }

  /** Receiving nothing adds nothing to what was delivered. */
  lemma {:induction false} DeliveredCons<T>(got: Option<T>, rest: seq<Option<T>>)
    ensures Delivered([got] + rest) == (if got.Some? then [got.value] else []) + Delivered(rest)
  {
    assert ([got] + rest)[1..] == rest;
  }

  /**
   * FIFO: on a live queue, what the consumers received followed by what is
   * still stored is exactly what was stored before followed by everything
   * the producers offered. Nothing is lost, duplicated or reordered.
   */
  lemma {:induction false} RunIsFifo<T>(s: State<T>, ops: seq<Op<T>>)
    requires Consistent(s) && !s.cancel
    ensures Delivered(Run(s, ops).0) + Run(s, ops).1.contents == s.contents + Supplied(ops)
    decreases |ops|
  {
    if ops != [] {
      if ops[0].Put? {
        var v := ops[0].value;
        RunIsFifo(Enqueued(s, v), ops[1..]);
        assert Supplied(ops) == [v] + Supplied(ops[1..]);
        assert Enqueued(s, v).contents + Supplied(ops[1..]) == s.contents + Supplied(ops);
      } else {
        var d := Dequeued(s);
        var t := Run(d.1, ops[1..]);
        RunIsFifo(d.1, ops[1..]);
        RunStartingWithTake(s, ops);
        assert Supplied(ops) == Supplied(ops[1..]);
        TakeKeepsOrder(s.contents, d.0, d.1.contents, t.0, t.1.contents, Supplied(ops[1..]));
      }
    }
  }

  /** How `Run` plays a history that starts with a `Take`. */
  lemma {:induction false} RunStartingWithTake<T>(s: State<T>, ops: seq<Op<T>>)
    requires Consistent(s) && ops != [] && ops[0].Take?
    ensures Run(s, ops) == ([Dequeued(s).0] + Run(Dequeued(s).1, ops[1..]).0, Run(Dequeued(s).1, ops[1..]).1)
  {
  }

  /**
   * The step of `RunIsFifo` for a `Take`: if one dequeue turned `before`
   * into `after` and the rest of the history keeps the FIFO equation from
   * `after`, the whole history keeps it from `before`.
   */
  lemma {:induction false} TakeKeepsOrder<T>(before: seq<T>, got: Option<T>, after: seq<T>,
                                           rest: seq<Option<T>>, left: seq<T>, offered: seq<T>)
    requires before == (if got.Some? then [got.value] else []) + after
    requires Delivered(rest) + left == after + offered
    ensures Delivered([got] + rest) + left == before + offered
  {
    var received: seq<T> := if got.Some? then [got.value] else [];
    DeliveredCons(got, rest);
    calc {
      Delivered([got] + rest) + left;
      (received + Delivered(rest)) + left;
      received + (Delivered(rest) + left);
      received + (after + offered);
      (received + after) + offered;
    }
  }

  /**
   * A `Take` on a live queue that holds something always receives a value:
   * the number of values received is the number of `Take` calls, as long as
   * the queue never runs dry.
   */
  lemma {:induction false} TakesFromStockAllSucceed<T>(s: State<T>, n: nat)
    requires Consistent(s) && !s.cancel && n <= |s.contents|
    ensures Delivered(Run(s, seq(n, _ => Take)).0) == s.contents[..n]
    ensures Run(s, seq(n, _ => Take)).1 == State(s.contents[n..], s.contents[n..] == [], false)
    decreases n
  {
    var ops: seq<Op<T>> := seq(n, _ => Take);
    if n > 0 {
      var (got, s1) := Dequeued(s);
      assert ops[0] == Take && ops[1..] == seq(n - 1, _ => Take);
      TakesFromStockAllSucceed(s1, n - 1);
      var (rest, s2) := Run(s1, ops[1..]);
      assert ([got] + rest)[1..] == rest;
      assert s.contents[..n] == [got.value] + s1.contents[..n - 1];
      assert s1.contents[n - 1..] == s.contents[n..];
    }
  }

  /**
   * Cancellation is absorbing: once `cancel` is set, every `Put` is dropped,
   * every `Take` receives nothing, and the state never changes again.
   */
  lemma {:induction false} CancelledQueueIgnoresCalls<T>(s: State<T>, ops: seq<Op<T>>)
    requires Consistent(s) && s.cancel
    ensures Run(s, ops).1 == s
    ensures forall i :: 0 <= i < |Run(s, ops).0| ==> Run(s, ops).0[i] == None
    decreases |ops|
  {
    if ops != [] {
      CancelledQueueIgnoresCalls(s, ops[1..]);
    }
  }

  /**
   * Plays a history against a new linked queue and tears it down at the end.
   * The replies are those `Run` predicts, so the consumers receive the
   * producers' values in FIFO order, and teardown releases exactly the
   * values nobody took.
   */
  method Play<T>(ops: seq<Op<T>>) returns (replies: seq<Option<T>>, released: seq<T>)
    ensures replies == Run(State([], true, false), ops).0
    ensures released == Run(State([], true, false), ops).1.contents
    ensures Delivered(replies) + released == Supplied(ops)
  {
    var q := new Queue<T>.CreateEmpty();
    replies := [];
    var i := 0;
    while i < |ops|
      invariant 0 <= i <= |ops|
      invariant q.Valid() && fresh(q.Repr)
      invariant Run(State([], true, false), ops).0 == replies + Run(q.Abstract(), ops[i..]).0
      invariant Run(State([], true, false), ops).1 == Run(q.Abstract(), ops[i..]).1
    {
      assert ops[i..][0] == ops[i] && ops[i..][1..] == ops[i + 1..];
      match ops[i] {
        case Put(v) =>
          q.Enqueue(v);
        case Take =>
          ghost var before := q.Abstract();
          var r := q.Dequeue();
          RunStartingWithTake(before, ops[i..]);
          replies := replies + [r];
      }
      i := i + 1;
    }
    released := q.Destroy();
    RunIsFifo(State([], true, false), ops);
  }
}
