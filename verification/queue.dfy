/** The submission and completion queue views (src/queue.rs) as functions
    over the abstract ring. Each view borrows the ring for one call; here it
    takes the ring state and returns the new one. */
module Queue {
  import opened Prelude
  import opened Errors
  import opened RingState

  /** liburing answers a peek at an empty completion queue with -EAGAIN. */
  const EAGAIN: int32 := 11

  // ---------------------------------------------------------------------
  // Submission queue

  /** A slot handed out by `get_sqe`: the ring after acquisition and the
      slot's position among the acquired slots. */
  datatype Acquired = Acquired(ring: Ring, slot: nat)

  /** `SubmissionQueue::space_left`: `ring_entries - (sqe_tail - khead)`, both
      subtractions on `u32`. */
  function SpaceLeft(r: Ring): (n: uint32)
    ensures Valid(r) ==> n == r.entries - |r.queued| && 0 <= n <= r.entries
  {
    WrappingSub32(r.entries, WrappingSub32(r.tail, r.head))
  }

  /** `SubmissionQueue::is_full` */
  function IsFull(r: Ring): (b: bool)
    ensures b <==> SpaceLeft(r) == 0
    ensures Valid(r) ==> (b <==> |r.queued| == r.entries)
  {
    SpaceLeft(r) == 0
  }

  /** `io_uring_get_sqe` behind `SubmissionQueue::get_sqe`: the slot at
      `sqe_tail` is handed out when `sqe_tail + 1 - khead <= ring_entries`
      (wrapping), and the tail advances past it. */
  function GetSqe(r: Ring): (a: Option<Acquired>)
    ensures Valid(r) ==> (a.None? <==> IsFull(r))
    ensures a.Some? ==>
      && a.value.slot == |r.queued|
      && a.value.ring == r.(tail := WrappingAdd32(r.tail, 1), queued := r.queued + [Sqe(None, 0)])
    ensures Valid(r) && a.Some? ==>
      Valid(a.value.ring) && SpaceLeft(a.value.ring) == SpaceLeft(r) - 1
  {
    var next := WrappingAdd32(r.tail, 1);
    if WrappingSub32(next, r.head) <= r.entries then
      Some(Acquired(r.(tail := next, queued := r.queued + [Sqe(None, 0)]), |r.queued|))
    else
      None
  }

  /** `SubmissionQueue::get_sqe_or_err`: a full queue is the distinct
      `SubmissionQueueFull` error. */
  function GetSqeOrErr(r: Ring): (res: Result<Acquired, Error>)
    ensures res.Err? <==> GetSqe(r).None?
    ensures res.Err? ==> res.error == SubmissionQueueFull
    ensures res.Ok? ==> GetSqe(r) == Some(res.value)
    ensures Valid(r) ==> (res.Err? <==> IsFull(r))
  {
    match GetSqe(r)
    case None => Err(SubmissionQueueFull)
    case Some(a) => Ok(a)
  }

  /** An operation's `prepare` followed by `set_user_data`: the acquired slot
      now holds the operation and its tag. */
  function Stamp(r: Ring, slot: nat, op: Op, tag: uint64): (r': Ring)
    requires slot < |r.queued|
    ensures |r'.queued| == |r.queued|
    ensures r'.queued[slot] == Sqe(Some(op), tag)
    ensures forall j :: 0 <= j < |r.queued| && j != slot ==> r'.queued[j] == r.queued[j]
    ensures Valid(r) ==> Valid(r')
    ensures r'.inFlight == r.inFlight && r'.cq == r.cq && r'.head == r.head && r'.tail == r.tail
    ensures r'.fd == r.fd && r'.entries == r.entries
  {
    r.(queued := r.queued[slot := Sqe(Some(op), tag)])
  }

  /** The ring after a submit call, and what the call returned. */
  datatype Submitted = Submitted(ring: Ring, count: Result<nat, Error>)

  /** The return-code mapping shared by `SubmissionQueue::submit` and
      `submit_and_wait`. */
  function SqSubmitResult(ret: int32): (res: Result<nat, Error>)
    ensures res.Err? <==> ret < 0
    ensures res.Ok? ==> res.value == ret
    ensures res.Err? ==> res.error == Io(FromRetCode(ret)) && Source(res.error) == Some(FromRetCode(ret))
  {
    if ret < 0 then Err(FromIo(FromRetCode(ret))) else Ok(ret)
  }

  /** `SubmissionQueue::submit`, with `ret` the value `io_uring_submit` returned. */
  function SqSubmit(r: Ring, ret: int32): (s: Submitted)
    ensures s.count.Err? <==> ret < 0
    ensures s.count.Ok? ==> s.count.value == ret
    ensures s.count.Err? ==> s.ring == r && s.count.error.Io?
    ensures Valid(r) ==> Valid(s.ring)
    ensures s.ring.inFlight + s.ring.queued == r.inFlight + r.queued
  {
    Submitted(KernelConsume(r, ret), SqSubmitResult(ret))
  }

  /** `SubmissionQueue::submit_and_wait`. The kernel's wait for `waitNr`
      completions is its own time; completions arrive through
      `RingState.KernelComplete`. */
  function SqSubmitAndWait(r: Ring, waitNr: uint32, ret: int32): (s: Submitted)
    ensures s.count.Err? <==> ret < 0
    ensures s.count.Ok? ==> s.count.value == ret
    ensures s.count.Err? ==> s.ring == r && s.count.error.Io?
    ensures Valid(r) ==> Valid(s.ring)
    ensures s.ring.inFlight + s.ring.queued == r.inFlight + r.queued
  {
    Submitted(KernelConsume(r, ret), SqSubmitResult(ret))
  }

  // ---------------------------------------------------------------------
  // Completion queue

  /** What a foreign peek or wait call hands back: its return code and the
      completion pointer it stored (None for null). */
  datatype RawCqe = RawCqe(ret: int32, entry: Option<Cqe>)

  /** `io_uring_peek_cqe`: the head of the completion queue, or -EAGAIN. */
  function PeekRaw(r: Ring): RawCqe {
    if |r.cq| > 0 then RawCqe(0, Some(r.cq[0])) else RawCqe(-EAGAIN, None)
  }

  /** The mapping in `CompletionQueue::peek_cqe`: any failure or a null entry
      is `None`, never an error. */
  function PeekResult(raw: RawCqe): (o: Option<Cqe>)
    ensures o.Some? <==> raw.ret >= 0 && raw.entry.Some?
    ensures o.Some? ==> o == raw.entry
  {
    if raw.ret < 0 || raw.entry.None? then None else raw.entry
  }

  /** `CompletionQueue::peek_cqe`: the head completion when there is one. */
  function PeekCqe(r: Ring): (o: Option<Cqe>)
    ensures o.Some? <==> |r.cq| > 0
    ensures o.Some? ==> o.value == r.cq[0]
  {
    PeekResult(PeekRaw(r))
  }

  /** The mapping in `CompletionQueue::wait_cqe`: a negative code is an
      operating-system error, a null entry is `CompletionQueueEmpty`. */
  function WaitResult(raw: RawCqe): (res: Result<Cqe, Error>)
    ensures raw.ret < 0 ==> res == Err(Io(FromRetCode(raw.ret)))
    ensures raw.ret >= 0 && raw.entry.None? ==> res == Err(CompletionQueueEmpty)
    ensures raw.ret >= 0 && raw.entry.Some? ==> res == Ok(raw.entry.value)
  {
    if raw.ret < 0 then Err(FromIo(FromRetCode(raw.ret)))
    else if raw.entry.None? then Err(CompletionQueueEmpty)
    else Ok(raw.entry.value)
  }

  /** `CompletionQueue::wait_cqe`, with `ret` the value the blocking
      `io_uring_wait_cqe_timeout` returned. Blocking is the kernel's business:
      completions that arrive while the caller waits are `KernelComplete`
      steps taken before this call. */
  function WaitCqe(r: Ring, ret: int32): (res: Result<Cqe, Error>)
    ensures ret < 0 ==> res.Err? && res.error.Io?
    ensures ret >= 0 && |r.cq| == 0 ==> res == Err(CompletionQueueEmpty)
    ensures ret >= 0 && |r.cq| > 0 ==> res == Ok(r.cq[0])
  {
    WaitResult(if ret < 0 then RawCqe(ret, None) else RawCqe(ret, if |r.cq| > 0 then Some(r.cq[0]) else None))
  }

  /** `CompletionQueue::peek_batch`: the slice length is cast to `u32`
      (truncating), and `io_uring_peek_batch_cqe` reports at most that many of
      the ready completions without retiring any. */
  function PeekBatch(r: Ring, len: uint64): (n: nat)
    ensures n <= |r.cq|
    ensures n <= len % U32_MOD
    ensures n == |r.cq| || n == len % U32_MOD
    ensures len < U32_MOD ==> n <= len
  {
    var count := len % U32_MOD;
    if count <= |r.cq| then count else |r.cq|
  }

  /** `Cqe::is_success`: the operation succeeded exactly when `check_ret`
      accepts its result. */
  function IsSuccess(c: Cqe): (b: bool)
    ensures b <==> CheckRet(c.res).Ok?
  {
    c.res >= 0
  }

  /** `Cqe::into_result`: a negative result is the operating-system error
      `-res`; any other result is passed through. */
  function IntoResult(c: Cqe): (res: Result<int32, IoError>)
    ensures res.Ok? <==> IsSuccess(c)
    ensures res.Ok? ==> res.value == c.res
    ensures res.Err? && c.res != I32_MIN ==> res.error.rawOsError == -c.res
    ensures res == CheckRet(c.res)
  {
    if c.res < 0 then Err(FromRetCode(c.res)) else Ok(c.res)
  }

  /** `Drop for Cqe`: `io_uring_cqe_seen` advances the completion head by one.
      A live handle exists only while its completion heads the queue. */
  function Retire(r: Ring): (r': Ring)
    requires |r.cq| > 0
    ensures |r'.cq| == |r.cq| - 1
    ensures r.cq == [r.cq[0]] + r'.cq
    ensures r'.queued == r.queued && r'.inFlight == r.inFlight
    ensures r'.head == r.head && r'.tail == r.tail && r'.fd == r.fd && r'.entries == r.entries
    ensures Valid(r) ==> Valid(r')
  {
    r.(cq := r.cq[1..])
  }

  /** A peeked completion read and dropped at the end of its scope, as the
      multiplexer does: the ring afterwards and the fields that were read. */
  datatype Taken = Taken(ring: Ring, entry: Option<Cqe>)

  /** `peek_cqe` whose handle is dropped at once: a completion is retired
      exactly when one was handed out. */
  function TakeCqe(r: Ring): (t: Taken)
    ensures t.entry == PeekCqe(r)
    ensures t.entry.Some? ==> |t.ring.cq| == |r.cq| - 1 && r.cq == [t.entry.value] + t.ring.cq
    ensures t.entry.None? ==> t.ring == r && r.cq == []
    ensures t.entry.Some? ==> t.ring == r.(cq := r.cq[1..])
    ensures t.ring.queued == r.queued && t.ring.inFlight == r.inFlight
    ensures t.ring.head == r.head && t.ring.tail == r.tail
    ensures t.ring.fd == r.fd && t.ring.entries == r.entries
  {
    match PeekCqe(r)
    case None => Taken(r, None)
    case Some(c) => Taken(Retire(r), Some(c))
  }

  // ---------------------------------------------------------------------
  // Properties across calls

  /** `n` acquisitions in a row, with nothing submitted between them. */
  function AcquireN(r: Ring, n: nat): (o: Option<Ring>)
    decreases n
  {
    if n == 0 then Some(r)
    else match GetSqe(r)
      case None => None
      case Some(a) => AcquireN(a.ring, n - 1)
  }

  /** From a valid ring, as many acquisitions in a row succeed as there are
      free slots, each keeping the invariant; once every slot is taken the
      next one fails. */
  lemma {:induction false} AcquireUpToCapacity(r: Ring, n: nat)
    requires Valid(r)
    requires |r.queued| + n <= r.entries
    ensures AcquireN(r, n).Some?
    ensures Valid(AcquireN(r, n).value)
    ensures |AcquireN(r, n).value.queued| == |r.queued| + n
    ensures AcquireN(r, n).value.inFlight == r.inFlight && AcquireN(r, n).value.head == r.head
    ensures |r.queued| + n == r.entries ==> GetSqe(AcquireN(r, n).value).None?
    decreases n
  {
    if n > 0 {
      var a := GetSqe(r);
      assert a.Some?;
      AcquireUpToCapacity(a.value.ring, n - 1);
    }
  }

  /** Submitting everything that was acquired frees the slots again: after
      the kernel consumes all of a full ring's slots, acquisition succeeds. */
  lemma SubmitFreesSlots(r: Ring)
    requires Valid(r)
    requires IsFull(r)
    ensures GetSqe(r).None?
    ensures GetSqe(SqSubmit(r, |r.queued|).ring).Some?
  {
  }

  /** The scenario of a 4-entry ring: four acquisitions succeed, the fifth
      fails, and after `submit` an acquisition succeeds again. */
  lemma FourEntryRingScenario(fd: int32)
    ensures var full := AcquireN(Fresh(fd, 4), 4);
      && full.Some?
      && GetSqeOrErr(full.value) == Err(SubmissionQueueFull)
      && GetSqe(SqSubmit(full.value, 4).ring).Some?
  {
    AcquireUpToCapacity(Fresh(fd, 4), 4);
    SubmitFreesSlots(AcquireN(Fresh(fd, 4), 4).value);
  }
}
