/** The abstract state of one kernel ring (liburing's `struct io_uring`) and
    the kernel's own steps on it. The library reaches this state only through
    foreign calls; the model keeps what those calls observe and change:

    - the submission side: the kernel-owned head `khead` and the library-owned
      tail `sqe_tail`, both 32-bit counters that wrap, and the descriptors
      acquired between them (`queued`) in ring order;
    - the descriptors the kernel has consumed but not yet completed (`inFlight`);
    - the completion side, as the sequence of visible completion records. */
module RingState {
  import opened Prelude

  /** Largest ring the kernel sets up (IORING_MAX_ENTRIES in the kernel). */
  const MAX_ENTRIES: int := 32768

  /** An operation descriptor, opaque here: preparing a slot with it is a
      single foreign call. */
  datatype Op = Op(code: nat)

  /** One submission slot: the prepared operation (None until prepared) and
      the correlation tag stamped with `set_user_data`. */
  datatype Sqe = Sqe(op: Option<Op>, userData: uint64)

  /** One completion record `(user_data, res, flags)`. */
  datatype Cqe = Cqe(userData: uint64, res: int32, flags: uint32)

  datatype Ring = Ring(
    fd: int32,
    entries: uint32,
    head: uint32,
    tail: uint32,
    queued: seq<Sqe>,
    inFlight: seq<Sqe>,
    cq: seq<Cqe>)

  /** The invariant liburing and the kernel keep between them: the tail is
      never more than `entries` slots ahead of the head. */
  predicate Valid(r: Ring) {
    && 0 < r.entries <= MAX_ENTRIES
    && |r.queued| == WrappingSub32(r.tail, r.head)
    && |r.queued| <= r.entries
  }

  /** The ring just after a successful `io_uring_queue_init`. */
  function Fresh(fd: int32, entries: uint32): (r: Ring)
    ensures 0 < entries <= MAX_ENTRIES ==> Valid(r)
    ensures r.queued == [] && r.inFlight == [] && r.cq == []
    ensures r.fd == fd && r.entries == entries
  {
    Ring(fd, entries, 0, 0, [], [], [])
  }

  /** Tags of a sequence of submission slots. */
  function SqeTags(s: seq<Sqe>): set<uint64> {
    set i | 0 <= i < |s| :: s[i].userData
  }

  /** Tags of a sequence of completion records. */
  function CqeTags(s: seq<Cqe>): set<uint64> {
    set i | 0 <= i < |s| :: s[i].userData
  }

  /** Tags anywhere in the ring: acquired, consumed by the kernel, or completed. */
  function RingTags(r: Ring): set<uint64> {
    SqeTags(r.queued) + SqeTags(r.inFlight) + CqeTags(r.cq)
  }

  /** `io_uring_submit` on the kernel side: the kernel consumes the first
      `ret` published slots (all of them at most) and advances `khead`. A
      negative `ret` consumes nothing. */
  function KernelConsume(r: Ring, ret: int32): (r': Ring)
    ensures Valid(r) ==> Valid(r')
    ensures r'.inFlight + r'.queued == r.inFlight + r.queued
    ensures ret < 0 ==> r' == r
    ensures 0 <= ret <= |r.queued| ==> |r'.queued| == |r.queued| - ret
    ensures r'.tail == r.tail && r'.cq == r.cq && r'.fd == r.fd && r'.entries == r.entries
  {
    var n := if ret < 0 then 0 else if ret <= |r.queued| then ret else |r.queued|;
    assert r.inFlight + r.queued[..n] + r.queued[n..] == r.inFlight + r.queued by {
      assert r.queued[..n] + r.queued[n..] == r.queued;
    }
    r.(head := WrappingAdd32(r.head, n),
       queued := r.queued[n..],
       inFlight := r.inFlight + r.queued[..n])
  }

  /** One kernel completion: the in-flight operation at position `i` finishes
      with result `res`, and its record, carrying the slot's tag, is appended to
      the completion queue. An index with nothing in flight changes nothing. */
  function KernelComplete(r: Ring, i: nat, res: int32, flags: uint32): (r': Ring)
    ensures i < |r.inFlight| ==>
      && r'.cq == r.cq + [Cqe(r.inFlight[i].userData, res, flags)]
      && |r'.inFlight| == |r.inFlight| - 1
      && multiset(r'.inFlight) + multiset{r.inFlight[i]} == multiset(r.inFlight)
    ensures i >= |r.inFlight| ==> r' == r
    ensures r'.queued == r.queued && r'.head == r.head && r'.tail == r.tail
    ensures r'.fd == r.fd && r'.entries == r.entries
  {
    if i < |r.inFlight| then
      assert r.inFlight == r.inFlight[..i] + [r.inFlight[i]] + r.inFlight[i + 1..];
      r.(inFlight := r.inFlight[..i] + r.inFlight[i + 1..],
         cq := r.cq + [Cqe(r.inFlight[i].userData, res, flags)])
    else
      r
  }

  /** A completion arriving from the kernel, named by the in-flight position
      it completes. */
  datatype Arrival = Arrival(index: nat, res: int32, flags: uint32)

  /** Kernel completions applied in order. */
  function KernelCompleteAll(r: Ring, arrivals: seq<Arrival>): (r': Ring)
    ensures r'.queued == r.queued && r'.head == r.head && r'.tail == r.tail
    ensures r'.fd == r.fd && r'.entries == r.entries
    ensures |r.cq| <= |r'.cq| && r'.cq[..|r.cq|] == r.cq
    ensures CqeTags(r'.cq) + SqeTags(r'.inFlight) <= CqeTags(r.cq) + SqeTags(r.inFlight)
    decreases |arrivals|
  {
    if arrivals == [] then r
    else
      var a := arrivals[0];
      var r1 := KernelComplete(r, a.index, a.res, a.flags);
      KernelCompleteLeavesNoNewTags(r, a.index, a.res, a.flags);
      KernelCompleteAll(r1, arrivals[1..])
  }

  /** A kernel completion moves a tag from the in-flight set to the completion
      queue: it never invents a tag. */
  lemma KernelCompleteLeavesNoNewTags(r: Ring, i: nat, res: int32, flags: uint32)
    ensures var r' := KernelComplete(r, i, res, flags);
      CqeTags(r'.cq) + SqeTags(r'.inFlight) <= CqeTags(r.cq) + SqeTags(r.inFlight)
  {
    var r' := KernelComplete(r, i, res, flags);
    if i < |r.inFlight| {
      forall t | t in CqeTags(r'.cq) + SqeTags(r'.inFlight)
        ensures t in CqeTags(r.cq) + SqeTags(r.inFlight)
      {
        if t in CqeTags(r'.cq) {
          var j :| 0 <= j < |r'.cq| && r'.cq[j].userData == t;
          if j == |r.cq| {
            assert r.inFlight[i].userData == t;
          } else {
            assert r.cq[j] == r'.cq[j];
          }
        } else {
          var j :| 0 <= j < |r'.inFlight| && r'.inFlight[j].userData == t;
          if j < i {
            assert r'.inFlight[j] == r.inFlight[j];
          } else {
            assert r'.inFlight[j] == r.inFlight[j + 1];
          }
        }
      }
    }
  }
}
