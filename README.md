# A verified model of the blocking FIFO queue of c-utilities

`queue.c` implements a thread-safe FIFO queue: a doubly-linked list of
`element` nodes, each owning a copy of one value, with a `head` and a `tail`,
an `is_empty` flag that tells consumers when to wait, and a `cancel` flag set
when the queue is torn down. Every public operation runs entirely inside one
critical section of the queue's mutex, so each is modelled here as one atomic
state change, and the lock itself is left out.

The project has three modules:

- `BlockingQueue` (`queue.dfy`) is the queue itself. It has:
  - the class `Queue<T>` over `Element<T>` nodes, with the fields `head`, `tail`, `isEmpty` and `cancel`;
  - the ghost fields `Contents` (the values, head first), `Nodes` and `Repr`;
  - the object invariant `Valid()`.

  The observable state (values and flags) is the datatype `State`. The
  functions `Enqueued` and `Dequeued` say what one call does to that state.
  `Queue.Enqueue` and `Queue.Dequeue` are proved to change the linked nodes
  in exactly that way (`Abstract() == Enqueued(old(Abstract()), value)` and
  `(r, Abstract()) == Dequeued(old(Abstract()))`).
- `QueueHistory` (`history.dfy`) covers histories. Because the lock puts
  all calls in some order, any run of producers and consumers is a sequence of
  enqueue and dequeue calls. `Run` plays such a sequence on the observable state.
  The lemmas prove that values come out in the order they went in, with nothing
  lost or repeated, and that a cancelled queue ignores every call. `Play` runs a
  history on a real linked `Queue` and proves that its replies are those `Run`
  predicts.
- `QueueScenarios` (`queue_test.dfy`) restates the scenarios of
  `queue_test.c` as client methods of `Queue`. Each one's postcondition is the
  test's assertion, stated for every input.

Two places where the code does not do what a reader would expect. The model
follows the code:

- The header comment of `queue.c` promises to set freed pointers to NULL
  (`queue.c:33-34`). Taking the last value frees the head node and sets
  `head` to null, but leaves `tail` pointing at the freed node
  (`queue.c:200-203`). `queue_destroy` does the same (`queue.c:226-230`).
  This is harmless because enqueue tests `head`, not `tail` (`queue.c:142`).
  So `Linked()` says nothing about `tail` when the list is empty.
  `Queue.Dequeue` and `Queue.Destroy` ensure that `tail` keeps its old value.
- One would expect the empty flag to match the contents at all times. The
  code does not keep that invariant: `queue_destroy` drains the list without
  setting `is_empty` back (`queue.c:216-231`). So `Consistent` requires
  `isEmpty <==> contents == []` only while `cancel` is false. Once `cancel`
  is set, it requires only that the list is empty.

`queue_dequeue` and `queue_destroy` unlink the head node with the same
steps: the next node becomes the head and forgets its predecessor, or the
head becomes null. The model writes these steps once, as
`Queue.ReleaseHead`. `Queue.Drain` is the loop of `queue_destroy` over it. `Dequeue` then sets `isEmpty` when the head became
null, as the `else` branch at `queue.c:200-203` does.

## Model

| member | source | states |
|---|---|---|
| `BlockingQueue.Enqueued` | queue.c:134-159 | On a live queue the value is appended at the tail, every earlier value is kept in place, and the queue is no longer empty. `cancel` never changes. The invariant `Consistent` (the empty flag matches the contents while live; a cancelled queue holds nothing) is preserved. |
| `BlockingQueue.Dequeued` | queue.c:173-209 | A value is returned exactly when the queue is live and holds something. That value is the old head, and the rest of the queue is what follows it. The queue becomes empty exactly when that was the last value. Otherwise nothing is returned and the state is unchanged. `Consistent` is preserved. |
| `BlockingQueue.Element.constructor` | queue.c:113-132 | A new node holds the given value and has no next or previous node. |
| `BlockingQueue.Queue.CreateEmpty` | queue.c:73-98 | A new queue holds no values, is empty, is not cancelled, has a null head and a null tail, and satisfies the object invariant. |
| `BlockingQueue.Queue.Create` | queue.c:56-71 | A new queue holds exactly the given value in one node that is both head and tail. It is not empty and not cancelled. |
| `BlockingQueue.Queue.Enqueue` | queue.c:134-159 | The linked nodes change exactly as `Enqueued` says. On a live queue the new tail node holds the value and ends the list. On a cancelled queue no field changes. The invariant is kept and only fresh objects are added. |
| `BlockingQueue.Queue.IsEmpty` | queue.c:161-171 | Returns the empty flag without changing anything. While the queue is live, that flag is true exactly when no values are stored. |
| `BlockingQueue.Queue.Dequeue` | queue.c:173-209 | The linked nodes change exactly as `Dequeued` says, and the returned option is what `Dequeued` returns. On a "no value" result no field changes. On a value, the old head node leaves the footprint. When the last value is taken, `head` becomes null and `tail` keeps its stale value. |
| `BlockingQueue.Queue.ReleaseHead` | queue.c:194-204 | Unlinking the head returns its value and leaves the rest of the contents in order. The old head node leaves the footprint. The remaining nodes are the old ones after the head, in order. `head` is null exactly when nothing is left. `tail` and both flags are left as they were. |
| `BlockingQueue.Queue.Destroy` | queue.c:211-231 | Sets `cancel` and leaves `head` null and the contents empty. The release callback receives exactly the values that were stored, once each, head first. Every node that was in the list leaves the footprint. `isEmpty` and `tail` keep their old values. The invariant is kept. |
| `BlockingQueue.Queue.Drain` | queue.c:218-231 | Releasing the head until `head` is null hands over exactly the stored values, head first, and drops every node that was in the list from the footprint. `tail` and both flags are left as they were. |
| `QueueHistory.Run` | queue.c:134-209 | Over any sequence of enqueue and dequeue calls, the invariant is preserved and `cancel` never changes. There is exactly one reply per dequeue call. |
| `QueueHistory.RunIsFifo` | queue.c:139-204 | On a live queue, the values the dequeues received, followed by what is still stored, equal the values stored at the start followed by every enqueued value, in order. |
| `QueueHistory.TakesFromStockAllSucceed` | queue.c:192-204 | n dequeues from a live queue holding at least n values receive its first n values in order. The queue is left holding the rest, and its empty flag says whether anything remains. |
| `QueueHistory.CancelledQueueIgnoresCalls` | queue.c:137-208 | Once cancelled, no sequence of calls changes the state, and every dequeue receives nothing. |
| `QueueHistory.Play` | queue.c:134-231 | Any history played on a new linked queue gets the replies `Run` predicts. The values received followed by the values released at teardown are exactly the enqueued values, in order. |
| `QueueScenarios.EmptyQueueIsEmpty` | queue_test.c:24-28 | A queue made by `CreateEmpty` reports empty. |
| `QueueScenarios.EnqueueMakesNonEmpty` | queue_test.c:30-38 | After one enqueue on an empty queue, the queue does not report empty. |
| `QueueScenarios.CreatedQueueIsNotEmpty` | queue_test.c:40-46 | A queue made by `Create(v)` does not report empty. |
| `QueueScenarios.EnqueueDequeueCancelsOut` | queue_test.c:48-58 | Enqueuing v on an empty queue and dequeuing returns v and leaves the queue reporting empty. |
| `QueueScenarios.RepeatedEnqueueDequeue` | queue_test.c:60-73 | For every n, n pairs of "enqueue i, then dequeue" return 0, 1, …, n-1 and leave the queue reporting empty. |
| `QueueScenarios.RoundTrip` | queue_test.c:48-73 | On an empty live queue, enqueuing v and then dequeuing returns v and leaves the queue empty and live. |
| `QueueScenarios.InsertionOrderIsPreserved` | queue_test.c:75-107 | Enqueuing all of xs and then dequeuing \|xs\| times returns xs in order. The queue then reports empty, and teardown releases nothing. |
| `QueueScenarios.Filled` | queue_test.c:78-80 | The enqueue loop of the tests: a new queue after enqueuing each value of xs holds exactly xs, in order. It reports empty exactly when xs is empty, and it is not cancelled. |
| `QueueScenarios.DestroyReleasesEachValueOnce` | queue.c:211-231 | Tearing down a queue that holds xs releases exactly xs, once each, head first. After that, an enqueue is dropped and a dequeue returns nothing. |

## Left out

- Locking and waiting are not modelled: the mutex, the condition variable, `pthread_cond_signal` and `pthread_cond_broadcast`. Each public operation is treated as one atomic step.
- Queue.Dequeue does not model the blocking wait on an empty queue (`queue.c:180-189`). A single thread can only get past that wait through a spurious wake or the teardown broadcast. After either, the re-check at `queue.c:192` returns nothing, and that is the path the model takes. Being woken by another thread's enqueue needs a second thread. So does the liveness of the teardown broadcast. Both are left out.
- Memory management is not modelled: `calloc`, `memcpy`, `free` and the `value_size` argument. Values have a generic type `T`, and a stored copy is a value equal to the one passed in.
- Queue.Destroy does not release the handle, the mutex or the condition variable (`queue.c:241-247`). In the model the object stays usable afterwards, so that the effect of the `cancel` flag on later calls can be stated. In the C program, any use after teardown is undefined behaviour.
- The allocation-failure branches (`log_error` then `exit(1)`, at `queue.c:78-81` and `queue.c:121-124`) are not modelled, because allocation cannot fail in the model. As written they do not cover every failure. In `queue_create_empty`, `q` is dereferenced at `queue.c:75-76` before it is checked at `queue.c:78`. In `element_create`, a failure to allocate `e` is caught at `queue.c:121-124`, but `v` is never checked, and `memcpy` writes through it at `queue.c:119`.
- The debug `assert(...)` checks for null arguments are not modelled. In the model the queue is a non-null `Queue` reference, and `value` is a generic `T` passed by value, so there is no pointer that could be null.
- The release callback `freefunc` is foreign code. Its behaviour is not modelled; `Destroy` returns the values it would receive, in call order.
- `queue_is_empty` is only a snapshot that can be stale once the lock is released. That caveat matters only with several threads and is not modelled.
- `include/logger.h` (diagnostic output to stderr) and `include/string_utils.h` (a wrapper over libc string comparison) are not part of this model.
- The test drivers `test/logger_test.c`, `test/string_utils_test.c` and `test/all_tests.c` are not part of this model.
