/** The ring handle `IoUring` (src/uring.rs): setup through the kernel, the
    two submit calls, the raw descriptor and teardown. The kernel's answer to
    a setup request is a parameter: a function from request to reply. */
module Uring {
  import opened Prelude
  import opened Errors
  import opened RingState
  import Queue

  /** `SetupFlags`, as the bits passed to the kernel. */
  type SetupFlags = uint32

  /** `SetupFlags::empty()` */
  const NO_FLAGS: SetupFlags := 0

  /** `io_uring_params`, reduced to the field the model passes on. The other
      fields are passed to the kernel untouched and written back by it. */
  datatype Params = Params(flags: SetupFlags)

  /** What the kernel is asked for at setup. */
  datatype SetupRequest = SetupRequest(entries: uint32, flags: SetupFlags)

  /** What the kernel answers: the return code of `io_uring_queue_init`, and
      on success the ring's descriptor and its (rounded) entry count. */
  datatype SetupReply = SetupReply(ret: int32, fd: int32, ringEntries: uint32)

  /** A reply the kernel can give: on success, a ring size it supports. */
  predicate WellFormedReply(k: SetupReply) {
    k.ret < 0 || 0 < k.ringEntries <= MAX_ENTRIES
  }

  /** The body shared by `with_flags` and `with_params`: `check_ret` on the
      init return code, mapped to `Error::Setup`; on success a fresh ring. */
  function Init(k: SetupReply): (res: Result<Ring, Error>)
    ensures res.Err? <==> k.ret < 0
    ensures res.Err? ==> res.error == Setup(FromRetCode(k.ret)) && Source(res.error) == Some(FromRetCode(k.ret))
    ensures res.Ok? ==> res.value == Fresh(k.fd, k.ringEntries)
    ensures res.Ok? && WellFormedReply(k) ==> Valid(res.value)
  {
    match CheckRet(k.ret)
    case Err(e) => Err(Setup(e))
    case Ok(_) => Ok(Fresh(k.fd, k.ringEntries))
  }

  /** `IoUring::with_flags` */
  function WithFlags(entries: uint32, flags: SetupFlags, kernel: SetupRequest -> SetupReply): (res: Result<Ring, Error>)
    ensures res.Err? <==> kernel(SetupRequest(entries, flags)).ret < 0
    ensures res.Err? ==> res.error.Setup? && res.error.io == FromRetCode(kernel(SetupRequest(entries, flags)).ret)
    ensures res.Ok? ==>
      var k := kernel(SetupRequest(entries, flags));
      res.value.fd == k.fd && res.value.entries == k.ringEntries
      && res.value.queued == [] && res.value.inFlight == [] && res.value.cq == []
  {
    Init(kernel(SetupRequest(entries, flags)))
  }

  /** `IoUring::with_params`: the request carries the flags from `params`. */
  function WithParams(entries: uint32, params: Params, kernel: SetupRequest -> SetupReply): (res: Result<Ring, Error>)
    ensures res.Err? <==> kernel(SetupRequest(entries, params.flags)).ret < 0
    ensures res.Err? ==> res.error.Setup? && res.error.io == FromRetCode(kernel(SetupRequest(entries, params.flags)).ret)
    ensures res.Ok? ==> res.value.queued == [] && res.value.inFlight == [] && res.value.cq == []
  {
    Init(kernel(SetupRequest(entries, params.flags)))
  }

  /** `IoUring::new` */
  function New(entries: uint32, kernel: SetupRequest -> SetupReply): (res: Result<Ring, Error>)
    ensures res.Err? <==> kernel(SetupRequest(entries, NO_FLAGS)).ret < 0
    ensures res.Err? ==> res.error.Setup?
  {
    WithFlags(entries, NO_FLAGS, kernel)
  }

  /** `new` is `with_flags` with no flags, and `with_flags` is `with_params`
      with only the flags set. */
  lemma SetupEntryPointsAgree(entries: uint32, flags: SetupFlags, kernel: SetupRequest -> SetupReply)
    ensures New(entries, kernel) == WithFlags(entries, NO_FLAGS, kernel)
    ensures WithFlags(entries, flags, kernel) == WithParams(entries, Params(flags), kernel)
  {
  }

  /** The mapping of `IoUring::submit`: `check_ret`, the count cast to
      `usize`, the error converted with `From<io::Error>`. */
  function RingSubmitResult(ret: int32): (res: Result<nat, Error>)
    ensures res.Err? <==> ret < 0
    ensures res.Ok? ==> res.value == ret
    ensures res.Err? ==> res.error == FromIo(FromRetCode(ret))
  {
    match CheckRet(ret)
    case Err(e) => Err(FromIo(e))
    case Ok(n) => Ok(n)
  }

  /** `IoUring::submit`, with `ret` the value `io_uring_submit` returned. */
  function Submit(r: Ring, ret: int32): (s: Queue.Submitted)
    ensures s.count.Err? <==> ret < 0
    ensures s.count.Ok? ==> s.count.value == ret
    ensures s.count.Err? ==> s.ring == r && s.count.error.Io?
    ensures Valid(r) ==> Valid(s.ring)
    ensures s.ring.inFlight + s.ring.queued == r.inFlight + r.queued
  {
    Queue.Submitted(KernelConsume(r, ret), RingSubmitResult(ret))
  }

  /** `IoUring::submit_and_wait`; the wait itself is kernel time. */
  function SubmitAndWait(r: Ring, waitNr: uint32, ret: int32): (s: Queue.Submitted)
    ensures s.count.Err? <==> ret < 0
    ensures s.count.Ok? ==> s.count.value == ret
    ensures s.count.Err? ==> s.ring == r && s.count.error.Io?
    ensures Valid(r) ==> Valid(s.ring)
    ensures s.ring.inFlight + s.ring.queued == r.inFlight + r.queued
  {
    Queue.Submitted(KernelConsume(r, ret), RingSubmitResult(ret))
  }

  /** The ring handle's submit and the submission queue view's submit reach
      the same ring state and report the same count or the same error, for
      every return code. */
  lemma SubmitPathsAgree(r: Ring, waitNr: uint32, ret: int32)
    ensures Submit(r, ret) == Queue.SqSubmit(r, ret)
    ensures SubmitAndWait(r, waitNr, ret) == Queue.SqSubmitAndWait(r, waitNr, ret)
  {
  }

  /** `as_raw_fd`, inherent and through `AsRawFd` alike: the ring's descriptor. */
  function AsRawFd(r: Ring): (fd: int32)
    ensures fd == r.fd
  {
    r.fd
  }

  /** The descriptor of a ring handle is the one the kernel returned at setup,
      and no queue operation changes it. */
  lemma RawFdIsSetupFd(entries: uint32, flags: SetupFlags, kernel: SetupRequest -> SetupReply, ret: int32)
    requires WithFlags(entries, flags, kernel).Ok?
    ensures AsRawFd(WithFlags(entries, flags, kernel).value) == kernel(SetupRequest(entries, flags)).fd
    ensures var r := WithFlags(entries, flags, kernel).value;
      && AsRawFd(Submit(r, ret).ring) == AsRawFd(r)
      && (Queue.GetSqe(r).Some? ==> AsRawFd(Queue.GetSqe(r).value.ring) == AsRawFd(r))
  {
  }

  /** What teardown (`Drop for IoUring`, `io_uring_queue_exit`) releases: the
      descriptor, and how many operations and completions were still
      outstanding when it ran. */
  datatype Teardown = Teardown(fd: int32, abandoned: nat, unretired: nat)

  /** `Drop for IoUring` */
  function Drop(r: Ring): (t: Teardown)
    ensures t.fd == r.fd
    ensures t.abandoned == 0 <==> r.queued == [] && r.inFlight == []
    ensures t.unretired == 0 <==> r.cq == []
  {
    Teardown(r.fd, |r.queued| + |r.inFlight|, |r.cq|)
  }

  /** A ring handle over its life: open until it is dropped, then torn down.
      Dropping moves the handle, so a closed handle takes no further call. */
  datatype Handle = Open(ring: Ring) | Closed(teardown: Teardown)

  /** What its owner can do with a handle: push an operation into a free slot
      (a full queue refuses it), submit, or drop the handle. */
  datatype Call = PushCall(op: Op, tag: uint64) | SubmitCall(ret: int32) | DropCall

  function Apply(h: Handle, c: Call): Handle {
    match h
    case Closed(_) => h
    case Open(r) =>
      match c
      case PushCall(op, tag) =>
        (match Queue.GetSqe(r)
         case None => h
         case Some(a) => Open(Queue.Stamp(a.ring, a.slot, op, tag)))
      case SubmitCall(ret) => Open(Submit(r, ret).ring)
      case DropCall => Closed(Drop(r))
  }

  /** How many times `io_uring_queue_exit` runs while a handle takes a
      sequence of calls. */
  function Teardowns(h: Handle, calls: seq<Call>): nat
    decreases |calls|
  {
    if calls == [] then 0
    else (if h.Open? && calls[0].DropCall? then 1 else 0) + Teardowns(Apply(h, calls[0]), calls[1..])
  }

  /** Whatever its owner does, an open handle is torn down at most once, and
      exactly once when it is dropped; a closed handle is never torn down
      again. */
  lemma {:induction false} TeardownAtMostOnce(h: Handle, calls: seq<Call>)
    ensures Teardowns(h, calls) <= 1
    ensures Teardowns(h, calls) == 1 <==> h.Open? && DropCall in calls
    decreases |calls|
  {
    if calls != [] {
      TeardownAtMostOnce(Apply(h, calls[0]), calls[1..]);
      assert DropCall in calls <==> calls[0] == DropCall || DropCall in calls[1..] by {
        assert calls == [calls[0]] + calls[1..];
      }
    }
  }

  /** The teardowns over the life of a setup result: a failed setup never
      built a handle, so its uninitialised ring is never torn down. */
  function Lifetime(res: Result<Ring, Error>, calls: seq<Call>): nat {
    if res.Ok? then Teardowns(Open(res.value), calls) else 0
  }

  /** Teardown runs at most once for a ring that was set up, exactly once
      when its owner drops it, and never for a failed setup; a ring with no
      submissions tears down with nothing outstanding. */
  lemma TeardownExactlyOnce(entries: uint32, flags: SetupFlags, kernel: SetupRequest -> SetupReply, calls: seq<Call>)
    ensures Lifetime(WithFlags(entries, flags, kernel), calls) <= 1
    ensures Lifetime(WithFlags(entries, flags, kernel), calls) == 1
        <==> kernel(SetupRequest(entries, flags)).ret >= 0 && DropCall in calls
    ensures WithFlags(entries, flags, kernel).Ok? ==>
      Drop(WithFlags(entries, flags, kernel).value) == Teardown(kernel(SetupRequest(entries, flags)).fd, 0, 0)
  {
    var res := WithFlags(entries, flags, kernel);
    if res.Ok? {
      TeardownAtMostOnce(Open(res.value), calls);
    }
  }
}
