# liburing-rs: the ring, its queues and the tokio completion multiplexer

A Dafny model of the core of liburing-rs, a Rust wrapper around the Linux
io_uring interface:

- **Errors** (`src/error.rs`): the `Error` variants, `from_ret_code`,
  `check_ret`, `From<io::Error>` and `source`.
- **RingState**: the abstract kernel ring behind `sys::io_uring`:
  - the submission side, with a 32-bit `khead` and `sqe_tail` that wrap;
  - the slots acquired but not yet consumed by the kernel;
  - the operations the kernel consumed but has not completed;
  - the completion queue as a sequence of `(user_data, res, flags)` records.

  The kernel's own steps are functions of explicit parameters: consume `ret`
  slots, or complete the in-flight operation at position `i` with result
  `res`.
- **Queue** (`src/queue.rs`): slot acquisition, `space_left`/`is_full`,
  submit, `peek_cqe`, `wait_cqe`, `peek_batch`, the `Cqe` accessors, and
  retirement of a completion when its `Cqe` handle drops.
- **Uring** (`src/uring.rs`): setup through `new`/`with_flags`/`with_params`,
  the two submit calls, `as_raw_fd` and teardown.
- **Mux** (`src/async_io/tokio_impl.rs`): the completion multiplexer. One
  `SubmitFuture::poll` is a pure step with the mutex held. It takes:
  - the shared state (ring, waker table, tag counter);
  - the future's `op`/`user_data`;
  - the polling task's waker;
  - what the outside world does during the poll: the submit return code,
    completions the kernel posts, and the descriptor's readiness.

  It returns the new states, `Pending` or `Ready(result)`, and the wakers it
  woke, in order.
- **Traces**: runs of any number of futures, polled in any order and
  interleaved with kernel completions. They carry the tag bookkeeping across
  polls and show the lost-completion consequence described below.

Fixed-width integers are subset types of `int`. The wrap-arounds the Rust code
relies on are written out:
- `wrapping_add` on the tag counter;
- `wrapping_sub` and the release-build `-` on `u32` in `space_left`;
- unary minus on `i32` in `from_ret_code`.

A foreign completion is handled as the code does it. In the drain loop of
`SubmitFuture::poll` (src/async_io/tokio_impl.rs:166-171, the branch that wakes
up the other task), a completion tagged for another future has already been
retired by the peek. The other future's waker is removed from the table and
woken. The completion's result is discarded there: nothing stores it for the
woken future, and when that future polls again its completion is no longer in
the queue. This happens whether the draining future then finds its own
completion further on and resolves (lines 161-165) or empties the queue and
waits. The model follows the code:
- `Mux.DrainedForeignCompletionIsGone` shows the tag leaves the ring while its
  waker is woken.
- `Traces.LostTagNeverResolves` and `Traces.ForwardedWaiterNeverResolves` show
  that such a future never resolves with its result, whatever happens next
  short of new submissions.

## Model

| member | source | states |
|---|---|---|
| Errors.FromRetCode | src/error.rs:60-62 | a negative return code `ret` (other than `i32::MIN`) carries the positive errno `-ret` |
| Errors.CheckRet | src/error.rs:65-71 | `Ok` exactly when `ret >= 0`, with `ret` unchanged; otherwise the error is `from_ret_code(ret)`, errno `-ret` |
| Errors.FromIo | src/error.rs:53-57 | converting an `io::Error` always gives the `Io` variant, and `source` returns that same error |
| Errors.Source | src/error.rs:44-51 | `Some` exactly for `Io` and `Setup`, holding the wrapped error; `None` for every other variant |
| Errors.QueueConditionsAreNotOsErrors | src/error.rs:18-22 | `SubmissionQueueFull` and `CompletionQueueEmpty` are distinct, have no source, and differ from every `Io` and `Setup` error |
| Queue.SpaceLeft | src/queue.rs:66-73 | under the ring invariant, `space_left` is `ring_entries` minus the acquired slots and lies in `[0, ring_entries]` |
| Queue.IsFull | src/queue.rs:76-78 | full exactly when `space_left` is 0, which under the invariant is exactly when every slot is acquired |
| Queue.GetSqe | src/queue.rs:26-34 | `None` exactly when the queue is full; a slot handed out is the next one at the tail, the invariant holds after, and space left drops by one |
| Queue.GetSqeOrErr | src/queue.rs:37-39 | fails exactly when `get_sqe` gives `None`, and then with `SubmissionQueueFull`; otherwise the same slot as `get_sqe` |
| Queue.Stamp | src/async_io/tokio_impl.rs:137-138 | preparing and tagging a slot sets that slot's operation and tag and no other slot's |
| Queue.SqSubmitResult | src/queue.rs:47-51 | `Err` exactly for a negative code, an `Io` error whose source is errno `-ret`; otherwise `Ok(ret)` |
| Queue.SqSubmit | src/queue.rs:44-52 | `Ok(n)` with `n == ret` for a non-negative code; on error the ring is untouched; the operations are conserved and the invariant kept |
| Queue.SqSubmitAndWait | src/queue.rs:55-63 | the same mapping and the same ring effect as `submit`, whatever `wait_nr` is |
| Queue.PeekResult | src/queue.rs:127-135 | a failed peek or a null entry is `None`, never an error; otherwise the entry |
| Queue.PeekCqe | src/queue.rs:122-136 | `Some` exactly when a completion is ready, and then the head of the completion queue |
| Queue.WaitResult | src/queue.rs:106-116 | a negative code is an `Io` error with errno `-ret`, a null entry is `CompletionQueueEmpty`, otherwise the entry |
| Queue.WaitCqe | src/queue.rs:100-117 | `wait_cqe` gives an `Io` error on a negative code, `CompletionQueueEmpty` on an empty queue, and otherwise the head completion |
| Queue.PeekBatch | src/queue.rs:141-145 | reports no more than the ready completions and no more than the slice length cast (truncating) to `u32`, and one of the two |
| Queue.IsSuccess | src/queue.rs:176-178 | success exactly when `check_ret` accepts the result, that is `res >= 0` |
| Queue.IntoResult | src/queue.rs:181-188 | `Ok(res)` exactly when the operation succeeded; otherwise the error with errno `-res`; the same as `check_ret(res)` |
| Queue.Retire | src/queue.rs:191-198 | dropping a `Cqe` retires exactly the head completion: occupancy drops by one, nothing else in the ring changes |
| Queue.TakeCqe | src/async_io/tokio_impl.rs:155-158 | a peeked completion is retired at once: the ring loses exactly the completion handed out, or is unchanged when none was |
| Queue.AcquireUpToCapacity | src/queue.rs:26-34 | from a valid ring, as many acquisitions in a row as there are free slots succeed, and after the last one the next fails |
| Queue.SubmitFreesSlots | src/queue.rs:44-52 | after the kernel consumes every slot of a full ring, an acquisition succeeds again |
| Queue.FourEntryRingScenario | tests/advanced.rs:330-358 | on a 4-entry ring four acquisitions succeed, the fifth is `SubmissionQueueFull`, and after `submit` an acquisition succeeds |
| Uring.Init | src/uring.rs:59-67 | a negative init code is `Error::Setup` with errno `-ret`; otherwise a fresh ring with the kernel's descriptor and size, empty queues, and the ring invariant |
| Uring.WithFlags | src/uring.rs:58-68 | `with_flags` fails exactly when the kernel rejects the request, with `Setup(from_ret_code(ret))`; otherwise a ring with empty queues |
| Uring.WithParams | src/uring.rs:78-88 | `with_params` uses the same setup-error mapping, with the request's flags taken from the parameters |
| Uring.New | src/uring.rs:39-41 | `new` fails exactly when the kernel rejects an unflagged request, and then with a `Setup` error |
| Uring.SetupEntryPointsAgree | src/uring.rs:39-88 | `new(n)` is `with_flags(n, empty)`, and `with_flags` is `with_params` with only the flags set |
| Uring.RingSubmitResult | src/uring.rs:95 | `Ok(ret)` for a non-negative code, and otherwise the `Io` error that `From<io::Error>` makes of `from_ret_code(ret)` |
| Uring.Submit | src/uring.rs:93-96 | `Ok(n)` with `n == ret` for a non-negative code and an `Io` error with the ring untouched otherwise; operations conserved, invariant kept |
| Uring.SubmitAndWait | src/uring.rs:103-106 | the same as `submit`, whatever `wait_nr` is |
| Uring.SubmitPathsAgree | src/uring.rs:93-106 | the ring handle's submit calls and the submission queue's give the same ring and the same result for every return code |
| Uring.AsRawFd | src/uring.rs:128-137 | both `as_raw_fd` methods return the ring's `ring_fd` unchanged |
| Uring.RawFdIsSetupFd | src/uring.rs:128-130 | the descriptor is the one the kernel returned at setup, and neither submission nor acquisition changes it |
| Uring.Drop | src/uring.rs:139-145 | teardown releases the ring's descriptor; nothing is abandoned exactly when no operation is queued or in flight |
| Uring.TeardownAtMostOnce | src/uring.rs:139-145 | whatever pushes, submits and drops its owner makes, a handle is torn down at most once, exactly once when it is dropped, and a dropped handle never again |
| Uring.TeardownExactlyOnce | src/uring.rs:139-145 | over the life of a setup result, `io_uring_queue_exit` runs exactly once when setup succeeded and the handle is dropped, and never for a failed setup; a ring with no submissions is dropped with nothing outstanding |
| Mux.New | src/async_io/tokio_impl.rs:66-84 | fails with the ring's setup error or with `Io` when registering the descriptor fails; otherwise an empty waker table, the counter at 1, and the ring's own descriptor registered |
| Mux.SubmitOp | src/async_io/tokio_impl.rs:95-104 | a new future holds its operation and no tag |
| Mux.Drain | src/async_io/tokio_impl.rs:154-178 | every completion the drain peeks is retired: what is left is a suffix of the queue, and nothing else in the ring changes |
| Mux.DrainResolvesOnFirstOwn | src/async_io/tokio_impl.rs:160-165 | the drain resolves exactly when the own tag is ready, with the result of its first completion, whatever its sign; otherwise it empties the queue |
| Mux.DrainUnregistersRetiredTags | src/async_io/tokio_impl.rs:160-171 | the waker table loses exactly the tags of the completions the drain retired |
| Mux.DrainWakesForeignWaiters | src/async_io/tokio_impl.rs:166-171 | the drain wakes exactly the wakers registered under the foreign tags it retired |
| Mux.DrainAndDecide | src/async_io/tokio_impl.rs:150-196 | the poll resolves `Ok` exactly when the drain met the own completion, with that completion's result; `Pending` leaves the own waker registered and the queue empty; `Ok` leaves no own waker; without the own completion, failed readiness is an `Io` error with the table as the drain left it and no waker registered, any other readiness is `Pending`, and an error arises only from failed readiness |
| Mux.DrainAndDecideFrame | src/async_io/tokio_impl.rs:154-196 | draining and deciding leaves the submission side alone, keeps the invariant, and brings no new tag into the ring |
| Mux.Poll | src/async_io/tokio_impl.rs:119-197 | first poll only: the counter is the tag and advances by `wrapping_add(1)`; later polls neither allocate nor submit; a full queue is `SubmissionQueueFull` and a failed submit an `Io` error, both with no waker registered; `Pending` registers the own waker |
| Mux.PollReachesDrain | src/async_io/tokio_impl.rs:122-150 | a poll that reaches the drain drains over its own tag: a first poll that found a slot and submitted from the state with its waker registered, a later poll from the state as it stands |
| Mux.PollResolvesIffOwnArrived | src/async_io/tokio_impl.rs:152-165 | a first or later poll that reaches the drain resolves `Ok` exactly when its own tag is in the completion queue once the kernel has posted what it posts during the poll |
| Mux.PollDeliversFirstOwnResult | src/async_io/tokio_impl.rs:161-165 | a first or later poll whose completion is in the queue after the kernel's arrivals resolves `Ok` with its first such completion's result, a negative one too, and the queue keeps what follows it |
| Mux.PendingPollForwardsAllForeign | src/async_io/tokio_impl.rs:154-195 | a first or later poll that ends `Pending` woke every waker registered under a foreign tag in the queue after the kernel's arrivals, removed those tags, and left its own waker registered |
| Mux.DrainRetiresForeignAhead | src/async_io/tokio_impl.rs:154-171 | a foreign completion ahead of the first own completion, or in a queue with none, is among those the drain retires, and nothing under its tag is left in the queue |
| Mux.DrainedForeignCompletionIsGone | src/async_io/tokio_impl.rs:154-171 | a foreign completion that a first or later poll drains, whether already queued or posted during the poll, and whether it lies ahead of the poller's own completion or in a queue without one, leaves the ring and the table, and its waker is woken, but its result is kept nowhere, whether the poll then resolves or not |
| Mux.AbsentTagNeverResolves | src/async_io/tokio_impl.rs:150-196 | a future whose tag is nowhere in the ring cannot resolve `Ok`, and its tag stays out |
| Mux.FirstPollImmediateCompletion | src/async_io/tokio_impl.rs:124-165 | on an idle ring, an operation the kernel completes during its first poll resolves in that poll with the kernel's result and leaves no waker behind |
| Traces.StartKeepsTagInv | src/async_io/tokio_impl.rs:76-82 | a new multiplexer starts with the counter at 1 and the tag bookkeeping in place |
| Traces.PollKeepsTagInv | src/async_io/tokio_impl.rs:124-128 | a poll hands out the counter as a tag exactly when the future still held its operation, and keeps the bookkeeping |
| Traces.StepKeepsTagInv | src/async_io/tokio_impl.rs:95-148 | creating, polling and completing all keep the bookkeeping, and tags are only appended |
| Traces.RunKeepsTagInv | src/async_io/tokio_impl.rs:124-128 | every run keeps the bookkeeping: the `i`-th tag is `1 + i` mod 2^64, one tag per future that took its operation out |
| Traces.IssuedTagsDistinct | src/async_io/tokio_impl.rs:126-127 | tags handed out are pairwise distinct while no more than 2^64 have been handed out |
| Traces.FirstPollKeepsFutureTagsDistinct | src/async_io/tokio_impl.rs:124-127 | the tag a first poll takes is held by no other future while the tags handed out have not wrapped |
| Traces.StepKeepsFutureTagsDistinct | src/async_io/tokio_impl.rs:95-148 | creating, polling and completing keep the futures' tags pairwise distinct while the tags handed out have not wrapped |
| Traces.RunKeepsFutureTagsDistinct | src/async_io/tokio_impl.rs:124-128 | every run keeps the futures' tags pairwise distinct while no more than 2^64 tags were handed out |
| Traces.TagsUniqueOnEveryRun | src/async_io/tokio_impl.rs:124-128 | on every run from a new multiplexer each future that took its operation out took exactly one tag, and while no more than 2^64 were handed out the tags are pairwise distinct and no two futures hold the same tag |
| Traces.LostTagNeverResolves | src/async_io/tokio_impl.rs:154-196 | once a submitted future's tag has left the ring, no later poll or completion makes it resolve `Ok` |
| Traces.ForwardedWaiterNeverResolves | src/async_io/tokio_impl.rs:154-171 | a future whose completion another future drains, ahead of that future's own completion or with none of its own, is woken, loses its table entry, and never resolves with its result afterwards |

## Left out

- Raw bindings and build plumbing (`src/sys.rs`, `build.rs`) are not part of this model. The foreign liburing calls appear only as the ring transitions they make and the return codes they give, which are parameters.
- Operation preparation (`src/ops.rs`) is not part of this model. An operation is an opaque `Op` placed in a slot by one step.
- The async-std integration is not part of this model. It wraps the blocking API in a thread pool with a fixed tag.
- Tokio's `AsyncFd`, the `Arc<Mutex<_>>` and real `Waker`s are left out. Readiness is a parameter of each poll. Wakers are opaque ids, collected in order. A poll is one atomic step, which is what the mutex gives.
- `submission()` and `completion()` are left out as functions. Their exclusivity is Rust's borrow checker; the model threads one ring state through every call.
- `Cqe::user_data`, `result` and `flags` are the fields of the `Cqe` record and have no function of their own.
- Display strings of `Error` are left out.
- Blocking in `wait_cqe` and `submit_and_wait` is left out. Completions that arrive while a caller waits are kernel steps taken before the call.
- Completion-queue overflow and its capacity are left out. The completion queue is an unbounded sequence.
- The kernel's rounding of the entry count is left out. The ring size is whatever the setup reply says.
- The `io_uring_params` fields the kernel writes back are left out. Only the flags are passed on.
- Debug-build overflow panics are left out. The release-build wrap-around is modelled.
- Queue.PeekBatch: reports only the count, not the completion pointers it fills in. Completions it reports are never retired by the API, and the model does not change the ring.
- Mux.Poll: a `user_data.unwrap()` on a future with neither operation nor tag panics in the source. The model requires such a future not to be polled.
- Mux.DrainAndDecide: readiness is given per poll. The model does not relate the descriptor's readiness to the completion queue's contents.
- Traces.LostTagNeverResolves: holds for runs without new submissions. A later submission could reuse the tag after the 64-bit counter wraps.
- Mux.DrainedForeignCompletionIsGone: requires the drained completion to be the only one under its tag in the ring, with none queued, in flight or later in the queue, as for an operation that completes once. A second completion under the same tag would stay behind.
- Traces.ForwardedWaiterNeverResolves: holds for runs without new submissions. Every future has already been submitted and no event creates one, because a later submission could reuse the lost tag after the counter wraps.
- Traces.TagsUniqueOnEveryRun: distinctness is stated only while no more than 2^64 tags were handed out. After that the wrapped counter hands out a tag again, and the code does nothing about it.
- Uring.TeardownExactlyOnce: that the owner drops the handle at all, at the end of its scope, is Rust's ownership guarantee. The model takes it as given: exactly once is stated for call sequences that contain the drop.
