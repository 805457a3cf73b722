/** The completion multiplexer of the tokio integration
    (src/async_io/tokio_impl.rs): one ring shared by many futures, a tag
    counter, and a table from tag to the waker of the future waiting on it.

    A poll runs with the mutex held, so it is one sequential step here:
    `Poll` takes the shared state, the future's own state, the waker of the
    polling task and what the environment does during the poll (the kernel's
    answer to the submit, completions the kernel posts, and the readiness of
    the ring's descriptor), and returns the new states, the poll's result and
    the wakers it woke, in order. Wakers are opaque ids. */
module Mux {
  import opened Prelude
  import opened Errors
  import opened RingState
  import opened Queue
  import Uring

  /** An opaque `Waker`. */
  type WakerId = nat

  /** `AsyncIoUringInner`: the ring, the descriptor registered with the
      reactor, the waker table and the tag counter. */
  datatype Inner = Inner(
    ring: Ring,
    readinessFd: int32,
    wakers: map<uint64, WakerId>,
    nextUserData: uint64)

  /** `SubmitFuture`: the operation until it is submitted, then the tag. */
  datatype SubmitFuture = SubmitFuture(op: Option<Op>, userData: Option<uint64>)

  /** The answer of `AsyncFd::poll_read_ready`. */
  datatype Readiness = Readable | NotReadable | ReadinessError(e: IoError)

  /** What happens outside the library while one poll runs: the return code of
      `io_uring_submit`, the completions the kernel posts before the drain, and
      the descriptor's readiness. */
  datatype PollEnv = PollEnv(submitRet: int32, arrivals: seq<Arrival>, readiness: Readiness)

  /** `Poll<Result<i32>>` */
  datatype Outcome = Pending | Ready(result: Result<int32, Error>)

  /** The states after one poll, its result, and the wakers it woke in order. */
  datatype PollStep = PollStep(inner: Inner, fut: SubmitFuture, outcome: Outcome, woken: seq<WakerId>)

  /** `AsyncIoUring::new`: set up the ring, register its descriptor with the
      reactor (`register` is that call's error, if any), and start with an
      empty table and the counter at 1. */
  function New(entries: uint32, kernel: Uring.SetupRequest -> Uring.SetupReply, register: Option<IoError>): (res: Result<Inner, Error>)
    ensures Uring.New(entries, kernel).Err? ==> res == Err(Uring.New(entries, kernel).error)
    ensures Uring.New(entries, kernel).Ok? && register.Some? ==> res == Err(Io(register.value))
    ensures res.Ok? <==> Uring.New(entries, kernel).Ok? && register.None?
    ensures res.Ok? ==>
      && res.value.wakers == map[]
      && res.value.nextUserData == 1
      && res.value.ring == Uring.New(entries, kernel).value
      && res.value.readinessFd == Uring.AsRawFd(res.value.ring)
  {
    match Uring.New(entries, kernel)
    case Err(e) => Err(e)
    case Ok(ring) =>
      if register.Some? then Err(Io(register.value))
      else Ok(Inner(ring, Uring.AsRawFd(ring), map[], 1))
  }

  /** `AsyncIoUring::submit_op`: a future holding the operation and no tag. */
  function SubmitOp(op: Op): (f: SubmitFuture)
    ensures f.op == Some(op) && f.userData.None?
  {
    SubmitFuture(Some(op), None)
  }

  /** A future `poll` can run on without panicking at `user_data.unwrap()`. */
  predicate Pollable(f: SubmitFuture) {
    f.op.Some? || f.userData.Some?
  }

  /** Tags of a sequence of completions, as a helper for the drain's contract. */
  lemma CqeTagsCons(c: Cqe, s: seq<Cqe>)
    ensures CqeTags([c] + s) == {c.userData} + CqeTags(s)
  {
    var l := [c] + s;
    forall t | t in CqeTags(l) ensures t in {c.userData} + CqeTags(s) {
      var i :| 0 <= i < |l| && l[i].userData == t;
      if i > 0 { assert l[i] == s[i - 1]; }
    }
    forall t | t in CqeTags(s) ensures t in CqeTags(l) {
      var i :| 0 <= i < |s| && s[i].userData == t;
      assert l[i + 1] == s[i];
    }
    assert l[0] == c;
  }

  /** A suffix of a completion sequence carries no tag the whole does not. */
  lemma CqeTagsSuffix(s: seq<Cqe>, k: nat)
    requires k <= |s|
    ensures CqeTags(s[k..]) <= CqeTags(s)
    ensures CqeTags(s[..k]) <= CqeTags(s)
  {
    forall t | t in CqeTags(s[k..]) ensures t in CqeTags(s) {
      var i :| 0 <= i < |s[k..]| && s[k..][i].userData == t;
      assert s[k + i].userData == t;
    }
    forall t | t in CqeTags(s[..k]) ensures t in CqeTags(s) {
      var i :| 0 <= i < k && s[..k][i].userData == t;
      assert s[i].userData == t;
    }
  }

  /** The set of wakers in a sequence of woken wakers. */
  function WakerSet(w: seq<WakerId>): set<WakerId> {
    set i | 0 <= i < |w| :: w[i]
  }

  /** The wakers a drain owes a wake-up: those registered under a tag, other
      than the draining future's own, that occurs among the retired
      completions. */
  function Owed(wakers: map<uint64, WakerId>, tags: set<uint64>, own: uint64): set<WakerId> {
    set t | t in wakers && t in tags && t != own :: wakers[t]
  }

  /** What a drain leaves: the shared state, the own result if found, and the
      wakers it woke in order. */
  datatype Drained = Drained(inner: Inner, resolved: Option<int32>, woken: seq<WakerId>)

  /** The drain-and-forward loop of `SubmitFuture::poll`: peek a completion,
      retire it at once, and dispatch on its tag. The own tag ends the loop
      with the result; a foreign tag removes and wakes that tag's waker if it
      has one and is discarded otherwise; an empty queue ends the loop.
      Every completion the loop peeked is retired: what is left is a suffix
      of the queue, and nothing else in the ring or the counter changes. */
  function Drain(inner: Inner, own: uint64): (d: Drained)
    ensures |d.inner.ring.cq| <= |inner.ring.cq|
    ensures d.inner.ring.cq == inner.ring.cq[|inner.ring.cq| - |d.inner.ring.cq|..]
    ensures d.inner.ring == inner.ring.(cq := d.inner.ring.cq)
    ensures d.inner.nextUserData == inner.nextUserData && d.inner.readinessFd == inner.readinessFd
    decreases |inner.ring.cq|
  {
    var t := TakeCqe(inner.ring);
    match t.entry
    case None => Drained(inner, None, [])
    case Some(c) =>
      if c.userData == own then
        Drained(inner.(ring := t.ring, wakers := inner.wakers - {own}), Some(c.res), [])
      else
        var rest := Drain(AfterForeign(inner, t.ring, c), own);
        SuffixOfTail(inner.ring.cq, rest.inner.ring.cq);
        if c.userData in inner.wakers
        then Drained(rest.inner, rest.resolved, [inner.wakers[c.userData]] + rest.woken)
        else rest
  }

  /** A suffix of a sequence's tail is a suffix of the sequence. */
  lemma SuffixOfTail(s: seq<Cqe>, r: seq<Cqe>)
    requires 0 < |s| && |r| <= |s| - 1
    requires r == s[1..][|s| - 1 - |r|..]
    ensures r == s[|s| - |r|..]
  {
  }

  /** The completions a drain retired, in queue order. */
  function Retired(inner: Inner, own: uint64): (p: seq<Cqe>)
    ensures inner.ring.cq == p + Drain(inner, own).inner.ring.cq
  {
    var left := Drain(inner, own).inner.ring.cq;
    SplitAtSuffix(inner.ring.cq, left);
    inner.ring.cq[..|inner.ring.cq| - |left|]
  }

  /** A sequence is what precedes a suffix of it, followed by that suffix. */
  lemma SplitAtSuffix(s: seq<Cqe>, r: seq<Cqe>)
    requires |r| <= |s| && r == s[|s| - |r|..]
    ensures s == s[..|s| - |r|] + r
  {
  }

  /** The shared state a drain continues with after retiring a foreign
      completion `c`. */
  function AfterForeign(inner: Inner, rest: Ring, c: Cqe): Inner {
    if c.userData in inner.wakers
    then inner.(ring := rest, wakers := inner.wakers - {c.userData})
    else inner.(ring := rest)
  }

  /** One unfolding of the drain at an empty or own-tagged head, as a helper
      for the lemmas about it. */
  lemma RetiredStop(inner: Inner, own: uint64)
    requires |inner.ring.cq| == 0 || inner.ring.cq[0].userData == own
    ensures |inner.ring.cq| == 0 ==> Retired(inner, own) == [] && Drain(inner, own).resolved.None?
    ensures |inner.ring.cq| > 0 ==>
      && Retired(inner, own) == [inner.ring.cq[0]]
      && Drain(inner, own).resolved == Some(inner.ring.cq[0].res)
      && Drain(inner, own).inner.wakers == inner.wakers - {own}
  {
  }

  /** One unfolding of the drain at a foreign-tagged head: it continues
      with the rest of the queue. */
  lemma DrainForeignStep(inner: Inner, own: uint64)
    requires |inner.ring.cq| > 0 && inner.ring.cq[0].userData != own
    ensures var next := AfterForeign(inner, TakeCqe(inner.ring).ring, inner.ring.cq[0]);
      && next.ring.cq == inner.ring.cq[1..]
      && Drain(inner, own).inner == Drain(next, own).inner
      && Drain(inner, own).resolved == Drain(next, own).resolved
  {
    assert TakeCqe(inner.ring).entry == Some(inner.ring.cq[0]);
  }

  /** The completions retired at a foreign-tagged head: that head, then
      those the rest of the drain retires. */
  lemma RetiredForeign(inner: Inner, own: uint64)
    requires |inner.ring.cq| > 0 && inner.ring.cq[0].userData != own
    ensures var next := AfterForeign(inner, TakeCqe(inner.ring).ring, inner.ring.cq[0]);
      && next.ring.cq == inner.ring.cq[1..]
      && Drain(inner, own).inner == Drain(next, own).inner
      && Drain(inner, own).resolved == Drain(next, own).resolved
      && Retired(inner, own) == [inner.ring.cq[0]] + Retired(next, own)
  {
    var cq := inner.ring.cq;
    var next := AfterForeign(inner, TakeCqe(inner.ring).ring, cq[0]);
    DrainForeignStep(inner, own);
    var left := Drain(next, own).inner.ring.cq;
    var p := Retired(inner, own);
    var q := Retired(next, own);
    assert cq == p + left;
    assert cq == ([cq[0]] + q) + left by {
      assert cq == [cq[0]] + cq[1..];
      assert cq[1..] == q + left;
    }
    PrefixCancel(p, [cq[0]] + q, left);
  }

  /** Two prefixes of the same sequence before the same suffix are equal. */
  lemma PrefixCancel(a: seq<Cqe>, b: seq<Cqe>, l: seq<Cqe>)
    requires a + l == b + l
    ensures a == b
  {
    assert a == (a + l)[..|a|];
    assert b == (b + l)[..|b|];
  }

  /** How a drain over `cq` resolves, given what it resolved to, the
      completions it left and those it retired: exactly when the own tag is
      in `cq`, with the result of its first completion; otherwise it leaves
      nothing. */
  predicate Resolution(cq: seq<Cqe>, resolved: Option<int32>, left: seq<Cqe>, p: seq<Cqe>, own: uint64) {
    && (resolved.None? <==> own !in CqeTags(cq))
    && (resolved.None? ==> left == [])
    && (resolved.Some? ==>
          && 0 < |p|
          && p[|p| - 1].userData == own
          && resolved.value == p[|p| - 1].res
          && own !in CqeTags(p[..|p| - 1]))
  }

  /** A foreign completion in front changes neither the resolution nor what
      is left. */
  lemma ResolutionCons(c: Cqe, rest: seq<Cqe>, resolved: Option<int32>, left: seq<Cqe>, p: seq<Cqe>, own: uint64)
    requires c.userData != own
    requires Resolution(rest, resolved, left, p, own)
    ensures Resolution([c] + rest, resolved, left, [c] + p, own)
  {
    CqeTagsCons(c, rest);
    if resolved.Some? {
      var q := [c] + p;
      assert q[..|q| - 1] == [c] + p[..|p| - 1];
      CqeTagsCons(c, p[..|p| - 1]);
    }
  }

  /** The resolution at an empty or own-tagged head. */
  lemma ResolvesAtStop(inner: Inner, own: uint64)
    requires |inner.ring.cq| == 0 || inner.ring.cq[0].userData == own
    ensures Resolution(inner.ring.cq, Drain(inner, own).resolved, Drain(inner, own).inner.ring.cq, Retired(inner, own), own)
  {
    var cq := inner.ring.cq;
    RetiredStop(inner, own);
    if |cq| > 0 {
      assert cq == [cq[0]] + cq[1..];
      CqeTagsCons(cq[0], cq[1..]);
      assert Retired(inner, own)[..0] == [];
    }
  }

  /** The drain resolves exactly when the own tag is in the queue, with the
      result of its first completion, whatever its sign; otherwise it empties
      the queue. */
  lemma {:induction false} DrainResolvesOnFirstOwn(inner: Inner, own: uint64)
    ensures var d := Drain(inner, own); var p := Retired(inner, own);
      && (d.resolved.None? <==> own !in CqeTags(inner.ring.cq))
      && (d.resolved.None? ==> d.inner.ring.cq == [])
      && (d.resolved.Some? ==>
            && 0 < |p|
            && p[|p| - 1].userData == own
            && d.resolved.value == p[|p| - 1].res
            && own !in CqeTags(p[..|p| - 1]))
    decreases |inner.ring.cq|
  {
    var cq := inner.ring.cq;
    if |cq| == 0 || cq[0].userData == own {
      ResolvesAtStop(inner, own);
    } else {
      var next := AfterForeign(inner, TakeCqe(inner.ring).ring, cq[0]);
      DrainResolvesOnFirstOwn(next, own);
      RetiredForeign(inner, own);
      var dn := Drain(next, own);
      ResolutionCons(cq[0], next.ring.cq, dn.resolved, dn.inner.ring.cq, Retired(next, own), own);
      assert cq == [cq[0]] + next.ring.cq;
    }
  }

  /** The drain removes from the table exactly the tags of the completions it
      retired, the own tag among them when it resolves. */
  lemma {:induction false} DrainUnregistersRetiredTags(inner: Inner, own: uint64)
    ensures Drain(inner, own).inner.wakers == inner.wakers - CqeTags(Retired(inner, own))
    decreases |inner.ring.cq|
  {
    var cq := inner.ring.cq;
    if |cq| == 0 || cq[0].userData == own {
      RetiredStop(inner, own);
    } else {
      RetiredForeign(inner, own);
    }
    if |cq| > 0 {
      var c := cq[0];
      CqeTagsCons(c, []);
      if c.userData != own {
        var next := AfterForeign(inner, TakeCqe(inner.ring).ring, c);
        DrainUnregistersRetiredTags(next, own);
        CqeTagsCons(c, Retired(next, own));
      }
    }
  }

  /** The drain wakes exactly the wakers registered under the foreign tags of
      the completions it retired. */
  lemma {:induction false} DrainWakesForeignWaiters(inner: Inner, own: uint64)
    ensures WakerSet(Drain(inner, own).woken) == Owed(inner.wakers, CqeTags(Retired(inner, own)), own)
    decreases |inner.ring.cq|
  {
    var cq := inner.ring.cq;
    if |cq| == 0 || cq[0].userData == own {
      RetiredStop(inner, own);
    } else {
      RetiredForeign(inner, own);
    }
    if |cq| > 0 {
      var c := cq[0];
      CqeTagsCons(c, []);
      if c.userData != own {
        var next := AfterForeign(inner, TakeCqe(inner.ring).ring, c);
        DrainWakesForeignWaiters(next, own);
        var p' := Retired(next, own);
        CqeTagsCons(c, p');
        if c.userData in inner.wakers {
          WakerSetCons(inner.wakers[c.userData], Drain(next, own).woken);
          OwedStep(inner.wakers, c.userData, CqeTags(p'), own);
        } else {
          OwedSkip(inner.wakers, c.userData, CqeTags(p'), own);
        }
      }
    }
  }

  lemma WakerSetCons(w: WakerId, s: seq<WakerId>)
    ensures WakerSet([w] + s) == {w} + WakerSet(s)
  {
    var l := [w] + s;
    forall x | x in WakerSet(l) ensures x in {w} + WakerSet(s) {
      var i :| 0 <= i < |l| && l[i] == x;
      if i > 0 { assert l[i] == s[i - 1]; }
    }
    forall x | x in WakerSet(s) ensures x in WakerSet(l) {
      var i :| 0 <= i < |s| && s[i] == x;
      assert l[i + 1] == x;
    }
    assert l[0] == w;
  }

  /** Removing a registered foreign tag and waking its waker accounts for
      exactly that tag's share of what is owed. */
  lemma OwedStep(wakers: map<uint64, WakerId>, t: uint64, tags: set<uint64>, own: uint64)
    requires t in wakers && t != own
    ensures Owed(wakers, {t} + tags, own) == {wakers[t]} + Owed(wakers - {t}, tags, own)
  {
  }

  /** A foreign tag with no waker is owed nothing. */
  lemma OwedSkip(wakers: map<uint64, WakerId>, t: uint64, tags: set<uint64>, own: uint64)
    requires t !in wakers && t != own
    ensures Owed(wakers, {t} + tags, own) == Owed(wakers, tags, own)
  {
  }

  /** What the decision after a drain relies on: a resolved drain has
      removed the own tag, an unresolved one has emptied the queue, and the
      table gains no tag. */
  lemma DrainOutcome(inner: Inner, own: uint64)
    ensures Drain(inner, own).resolved.Some? ==> own !in Drain(inner, own).inner.wakers
    ensures Drain(inner, own).resolved.None? ==> Drain(inner, own).inner.ring.cq == []
    ensures Drain(inner, own).inner.wakers.Keys <= inner.wakers.Keys
  {
    DrainResolvesOnFirstOwn(inner, own);
    DrainUnregistersRetiredTags(inner, own);
    var p := Retired(inner, own);
    if Drain(inner, own).resolved.Some? {
      assert p[|p| - 1].userData == own;
      assert own in CqeTags(p);
    }
  }

  /** The shared state once the kernel has posted the poll's arrivals. */
  function Arrived(inner: Inner, env: PollEnv): (a: Inner)
    ensures a.ring.queued == inner.ring.queued && a.ring.head == inner.ring.head && a.ring.tail == inner.ring.tail
    ensures a.ring.fd == inner.ring.fd && a.ring.entries == inner.ring.entries
    ensures a.wakers == inner.wakers && a.nextUserData == inner.nextUserData && a.readinessFd == inner.readinessFd
    ensures CqeTags(a.ring.cq) + SqeTags(a.ring.inFlight) <= CqeTags(inner.ring.cq) + SqeTags(inner.ring.inFlight)
  {
    inner.(ring := KernelCompleteAll(inner.ring, env.arrivals))
  }

  /** What a poll does once its future holds a tag and the operation is
      submitted: let the kernel post its completions, drain, and decide. The
      poll resolves exactly when the drain met the own completion, and then
      with that completion's result. Without it the own waker is
      (re-)registered and the poll is `Pending`, unless readiness itself
      failed. */
  function DrainAndDecide(inner: Inner, own: uint64, waker: WakerId, env: PollEnv): (s: PollStep)
    ensures s.fut == SubmitFuture(None, Some(own))
    ensures s.inner.ring == Drain(Arrived(inner, env), own).inner.ring
    ensures s.outcome.Ready? && s.outcome.result.Ok? <==> Drain(Arrived(inner, env), own).resolved.Some?
    ensures Drain(Arrived(inner, env), own).resolved.Some? ==>
      s.outcome == Ready(Ok(Drain(Arrived(inner, env), own).resolved.value))
    ensures s.inner.nextUserData == inner.nextUserData && s.inner.readinessFd == inner.readinessFd
    ensures s.outcome.Pending? ==> own in s.inner.wakers && s.inner.wakers[own] == waker && s.inner.ring.cq == []
    ensures s.outcome.Ready? && s.outcome.result.Ok? ==> own !in s.inner.wakers
    ensures s.outcome.Ready? && s.outcome.result.Err? ==> s.outcome.result.error.Io? && env.readiness.ReadinessError?
    ensures Drain(Arrived(inner, env), own).resolved.None? && env.readiness.ReadinessError? ==>
      && s.outcome == Ready(Err(Io(env.readiness.e)))
      && s.inner.wakers == Drain(Arrived(inner, env), own).inner.wakers
    ensures Drain(Arrived(inner, env), own).resolved.None? && !env.readiness.ReadinessError? ==> s.outcome.Pending?
    ensures s.inner.wakers.Keys <= inner.wakers.Keys + {own}
  {
    var arrived := Arrived(inner, env);
    var d := Drain(arrived, own);
    DrainOutcome(arrived, own);
    var fut := SubmitFuture(None, Some(own));
    match d.resolved
    case Some(res) => PollStep(d.inner, fut, Ready(Ok(res)), d.woken)
    case None =>
      match env.readiness
      case ReadinessError(e) => PollStep(d.inner, fut, Ready(Err(Io(e))), d.woken)
      case _ => PollStep(d.inner.(wakers := d.inner.wakers[own := waker]), fut, Pending, d.woken)
  }

  /** A drain-and-decide step leaves the submission side alone, keeps the ring
      valid, and brings no tag into the ring. */
  lemma DrainAndDecideFrame(inner: Inner, own: uint64, waker: WakerId, env: PollEnv)
    ensures var s := DrainAndDecide(inner, own, waker, env);
      && s.inner.ring.queued == inner.ring.queued && s.inner.ring.head == inner.ring.head
      && s.inner.ring.tail == inner.ring.tail && s.inner.ring.fd == inner.ring.fd
      && s.inner.ring.entries == inner.ring.entries
      && (Valid(inner.ring) ==> Valid(s.inner.ring))
      && RingTags(s.inner.ring) <= RingTags(inner.ring)
  {
    var arrived := Arrived(inner, env);
    var d := Drain(arrived, own);
    CqeTagsSuffix(arrived.ring.cq, |arrived.ring.cq| - |d.inner.ring.cq|);
  }

  /** The state a first poll reaches once it found a slot and submitted:
      the counter advanced past the tag, the stamped operation handed to the
      kernel, and the waker registered under the tag. */
  function Registered(inner: Inner, op: Op, waker: WakerId, submitRet: int32): Inner
    requires GetSqe(inner.ring).Some?
  {
    var tag := inner.nextUserData;
    var a := GetSqe(inner.ring).value;
    var sub := Uring.Submit(Stamp(a.ring, a.slot, op, tag), submitRet);
    inner.(nextUserData := WrappingAdd64(tag, 1), ring := sub.ring, wakers := inner.wakers[tag := waker])
  }

  /** `SubmitFuture::poll`. On the first poll only: take the counter as the
      tag and advance it (wrapping), acquire a slot (a full queue is an
      immediate `SubmissionQueueFull`), stamp it, submit (a failure is an
      immediate error), register the waker. Then drain and decide. */
  function Poll(inner: Inner, fut: SubmitFuture, waker: WakerId, env: PollEnv): (s: PollStep)
    requires Pollable(fut)
    ensures s.fut.op.None? && s.fut.userData.Some?
    ensures s.inner.readinessFd == inner.readinessFd
    ensures s.inner.ring.fd == inner.ring.fd && s.inner.ring.entries == inner.ring.entries
    ensures Valid(inner.ring) ==> Valid(s.inner.ring)
    // tag allocation, first poll only
    ensures fut.op.Some? ==>
      && s.fut.userData == Some(inner.nextUserData)
      && s.inner.nextUserData == WrappingAdd64(inner.nextUserData, 1)
    // no resubmission: a later poll neither allocates nor acquires
    ensures fut.op.None? ==>
      && s.fut == fut
      && s.inner.nextUserData == inner.nextUserData
      && s.inner.ring.queued == inner.ring.queued
      && s.inner.ring.head == inner.ring.head
      && s.inner.ring.tail == inner.ring.tail
      && RingTags(s.inner.ring) <= RingTags(inner.ring)
    // backpressure
    ensures fut.op.Some? && GetSqe(inner.ring).None? ==>
      && s.outcome == Ready(Err(SubmissionQueueFull))
      && s.inner.wakers == inner.wakers
      && s.inner.ring == inner.ring
      && s.woken == []
    // submit failure
    ensures fut.op.Some? && GetSqe(inner.ring).Some? && env.submitRet < 0 ==>
      && s.outcome == Ready(Err(Io(FromRetCode(env.submitRet))))
      && s.inner.wakers == inner.wakers
      && s.woken == []
      && s.inner.ring.queued == inner.ring.queued + [Sqe(fut.op, inner.nextUserData)]
    // a successful submission places the stamped operation in the ring
    ensures fut.op.Some? && GetSqe(inner.ring).Some? && env.submitRet >= 0 ==>
      |inner.ring.queued| + 1 == |s.inner.ring.queued| + (if env.submitRet <= |inner.ring.queued| + 1 then env.submitRet else |inner.ring.queued| + 1)
    // own waker registered when pending; removed when resolved
    ensures s.outcome.Pending? ==>
      && s.fut.userData.value in s.inner.wakers
      && s.inner.wakers[s.fut.userData.value] == waker
      && s.inner.ring.cq == []
    ensures s.outcome.Ready? && s.outcome.result.Ok? ==> s.fut.userData.value !in s.inner.wakers
    ensures s.inner.wakers.Keys <= inner.wakers.Keys + {s.fut.userData.value}
  {
    if fut.op.Some? then
      var tag := inner.nextUserData;
      var advanced := inner.(nextUserData := WrappingAdd64(tag, 1));
      var fut' := SubmitFuture(None, Some(tag));
      match GetSqeOrErr(advanced.ring)
      case Err(e) => PollStep(advanced, fut', Ready(Err(e)), [])
      case Ok(a) =>
        var stamped := Stamp(a.ring, a.slot, fut.op.value, tag);
        assert stamped.queued == inner.ring.queued + [Sqe(fut.op, tag)];
        var sub := Uring.Submit(stamped, env.submitRet);
        if sub.count.Err? then
          PollStep(advanced.(ring := sub.ring), fut', Ready(Err(sub.count.error)), [])
        else
          var registered := Registered(inner, fut.op.value, waker, env.submitRet);
          DrainAndDecideFrame(registered, tag, waker, env);
          DrainAndDecide(registered, tag, waker, env)
    else
      DrainAndDecideFrame(inner, fut.userData.value, waker, env);
      DrainAndDecide(inner, fut.userData.value, waker, env)
  }

  // ---------------------------------------------------------------------
  // Properties of one poll

  /** A drain over a queue whose first own-tagged completion sits at `k`
      resolves with that completion's result and leaves what follows it. */
  lemma DrainStopsAtFirstOwn(inner: Inner, own: uint64, k: nat)
    requires k < |inner.ring.cq| && inner.ring.cq[k].userData == own
    requires own !in CqeTags(inner.ring.cq[..k])
    ensures Drain(inner, own).resolved == Some(inner.ring.cq[k].res)
    ensures Drain(inner, own).inner.ring.cq == inner.ring.cq[k + 1..]
  {
    var cq := inner.ring.cq;
    DrainResolvesOnFirstOwn(inner, own);
    assert own in CqeTags(cq) by { assert cq[k].userData == own; }
    FirstOwnPosition(cq, Retired(inner, own), Drain(inner, own).inner.ring.cq, own, k);
  }

  /** Where the retired prefix ends when it ends at the first own-tagged
      completion. */
  lemma FirstOwnPosition(cq: seq<Cqe>, p: seq<Cqe>, left: seq<Cqe>, own: uint64, k: nat)
    requires cq == p + left
    requires 0 < |p| && p[|p| - 1].userData == own && own !in CqeTags(p[..|p| - 1])
    requires k < |cq| && cq[k].userData == own && own !in CqeTags(cq[..k])
    ensures |p| == k + 1 && p[k] == cq[k] && left == cq[k + 1..]
  {
    var j := |p| - 1;
    assert cq[j] == p[j];
    assert p[..j] == cq[..j];
    FirstOccurrenceUnique(cq, own, j, k);
  }

  /** Whether a poll gets as far as draining: a later poll always does; a
      first poll does when it finds a free slot and the submission succeeds. */
  predicate ReachesDrain(inner: Inner, fut: SubmitFuture, env: PollEnv) {
    fut.op.None? || (GetSqe(inner.ring).Some? && env.submitRet >= 0)
  }

  /** The tag a poll waits for: the counter's value on a first poll, the
      stored tag on a later one. */
  function OwnTag(inner: Inner, fut: SubmitFuture): uint64
    requires Pollable(fut)
  {
    if fut.op.Some? then inner.nextUserData else fut.userData.value
  }

  /** The state a poll drains from, before the kernel posts this poll's
      arrivals. */
  function PreDrain(inner: Inner, fut: SubmitFuture, waker: WakerId, env: PollEnv): Inner
    requires Pollable(fut) && ReachesDrain(inner, fut, env)
  {
    if fut.op.Some? then Registered(inner, fut.op.value, waker, env.submitRet) else inner
  }

  /** A poll that reaches the drain is a drain-and-decide over its own tag. */
  lemma PollReachesDrain(inner: Inner, fut: SubmitFuture, waker: WakerId, env: PollEnv)
    requires Pollable(fut) && ReachesDrain(inner, fut, env)
    ensures Poll(inner, fut, waker, env)
         == DrainAndDecide(PreDrain(inner, fut, waker, env), OwnTag(inner, fut), waker, env)
  {
  }

  /** A poll, first or later, resolves with a result exactly when its own
      completion is in the queue once the kernel has posted what it posts
      during the poll. */
  lemma PollResolvesIffOwnArrived(inner: Inner, fut: SubmitFuture, waker: WakerId, env: PollEnv)
    requires Pollable(fut) && ReachesDrain(inner, fut, env)
    ensures var s := Poll(inner, fut, waker, env);
      (s.outcome.Ready? && s.outcome.result.Ok?)
      <==> OwnTag(inner, fut) in CqeTags(Arrived(PreDrain(inner, fut, waker, env), env).ring.cq)
  {
    PollReachesDrain(inner, fut, waker, env);
    DrainResolvesOnFirstOwn(Arrived(PreDrain(inner, fut, waker, env), env), OwnTag(inner, fut));
  }

  /** A poll, first or later, whose own completion is in the queue after the
      kernel's arrivals resolves with the result of the first such
      completion, and a negative kernel result is delivered as `Ok`, not as
      an error. */
  lemma PollDeliversFirstOwnResult(inner: Inner, fut: SubmitFuture, waker: WakerId, env: PollEnv, k: nat)
    requires Pollable(fut) && ReachesDrain(inner, fut, env)
    requires var cq := Arrived(PreDrain(inner, fut, waker, env), env).ring.cq;
      k < |cq| && cq[k].userData == OwnTag(inner, fut) && OwnTag(inner, fut) !in CqeTags(cq[..k])
    ensures var cq := Arrived(PreDrain(inner, fut, waker, env), env).ring.cq;
      && Poll(inner, fut, waker, env).outcome == Ready(Ok(cq[k].res))
      && Poll(inner, fut, waker, env).inner.ring.cq == cq[k + 1..]
  {
    PollReachesDrain(inner, fut, waker, env);
    DrainStopsAtFirstOwn(Arrived(PreDrain(inner, fut, waker, env), env), OwnTag(inner, fut), k);
  }

  /** Two first occurrences of a tag are the same occurrence. */
  lemma FirstOccurrenceUnique(cq: seq<Cqe>, tag: uint64, j: nat, k: nat)
    requires j < |cq| && k < |cq|
    requires cq[j].userData == tag && cq[k].userData == tag
    requires tag !in CqeTags(cq[..j]) && tag !in CqeTags(cq[..k])
    ensures j == k
  {
  }

  /** A poll, first or later, that ends `Pending` has drained the whole
      queue as it stood after the kernel's arrivals and woken every waker
      registered under a foreign tag it found there. */
  lemma PendingPollForwardsAllForeign(inner: Inner, fut: SubmitFuture, waker: WakerId, env: PollEnv)
    requires Pollable(fut) && ReachesDrain(inner, fut, env)
    requires Poll(inner, fut, waker, env).outcome.Pending?
    ensures var pre := PreDrain(inner, fut, waker, env);
      var cq := Arrived(pre, env).ring.cq;
      var s := Poll(inner, fut, waker, env);
      && WakerSet(s.woken) == Owed(pre.wakers, CqeTags(cq), OwnTag(inner, fut))
      && s.inner.wakers == (pre.wakers - CqeTags(cq))[OwnTag(inner, fut) := waker]
  {
    var own := OwnTag(inner, fut);
    var arrived := Arrived(PreDrain(inner, fut, waker, env), env);
    PollReachesDrain(inner, fut, waker, env);
    DrainResolvesOnFirstOwn(arrived, own);
    DrainWakesForeignWaiters(arrived, own);
    DrainUnregistersRetiredTags(arrived, own);
    assert arrived.ring.cq == Retired(arrived, own) + Drain(arrived, own).inner.ring.cq;
  }

  /** A foreign completion at position `k`, ahead of any own completion and
      with no later completion under its tag, is retired by the drain, and
      nothing under its tag is left in the queue. */
  lemma DrainRetiresForeignAhead(inner: Inner, own: uint64, other: uint64, k: nat)
    requires k < |inner.ring.cq| && inner.ring.cq[k].userData == other && other != own
    requires own !in CqeTags(inner.ring.cq[..k])
    requires other !in CqeTags(inner.ring.cq[k + 1..])
    ensures other in CqeTags(Retired(inner, own))
    ensures other !in CqeTags(Drain(inner, own).inner.ring.cq)
  {
    DrainResolvesOnFirstOwn(inner, own);
    ForeignAheadIsRetired(inner.ring.cq, Retired(inner, own), Drain(inner, own).inner.ring.cq, own, other, k);
  }

  /** Split a queue into a retired prefix, which ends at the first own
      completion if there is one, and what is left: a foreign completion
      ahead of the own one, with no later completion under its tag, lies in
      the prefix and nowhere in what is left. */
  lemma ForeignAheadIsRetired(cq: seq<Cqe>, p: seq<Cqe>, left: seq<Cqe>, own: uint64, other: uint64, k: nat)
    requires cq == p + left
    requires own in CqeTags(cq) ==> 0 < |p| && p[|p| - 1].userData == own
    requires own !in CqeTags(cq) ==> left == []
    requires k < |cq| && cq[k].userData == other && other != own
    requires own !in CqeTags(cq[..k])
    requires other !in CqeTags(cq[k + 1..])
    ensures other in CqeTags(p)
    ensures other !in CqeTags(left)
  {
    if own in CqeTags(cq) {
      var j := |p| - 1;
      assert cq[j] == p[j];
      if j < k {
        TagAbsentFromPrefix(cq, own, k, j);
      }
      assert p[k] == cq[k];
      forall i | 0 <= i < |left| ensures left[i].userData != other {
        assert left[i] == cq[|p| + i];
        assert cq[k + 1..][|p| + i - k - 1] == cq[|p| + i];
      }
    } else {
      assert p == cq;
    }
  }

  /** A tag absent from a prefix is on none of its completions. */
  lemma TagAbsentFromPrefix(cq: seq<Cqe>, t: uint64, k: nat, i: nat)
    requires i < k <= |cq| && t !in CqeTags(cq[..k])
    ensures cq[i].userData != t
  {
    assert cq[..k][i] == cq[i];
  }

  /** The consequence of forwarding without storing: a foreign completion a
      poll, first or later, drains ahead of its own completion, or with no
      own completion at all, is gone from the ring. Its waiter is woken, but
      when the waiter polls there is nothing left for it to find. */
  lemma DrainedForeignCompletionIsGone(inner: Inner, fut: SubmitFuture, waker: WakerId, env: PollEnv, other: uint64, k: nat)
    requires Pollable(fut) && ReachesDrain(inner, fut, env)
    requires var r := Arrived(PreDrain(inner, fut, waker, env), env).ring;
      && other != OwnTag(inner, fut)
      && k < |r.cq| && r.cq[k].userData == other
      && OwnTag(inner, fut) !in CqeTags(r.cq[..k])
      && other !in CqeTags(r.cq[k + 1..])
      && other !in SqeTags(r.queued) + SqeTags(r.inFlight)
    ensures var s := Poll(inner, fut, waker, env);
      var pre := PreDrain(inner, fut, waker, env);
      && other !in RingTags(s.inner.ring)
      && other !in s.inner.wakers
      && (other in pre.wakers ==> pre.wakers[other] in WakerSet(s.woken))
  {
    var own := OwnTag(inner, fut);
    var pre := PreDrain(inner, fut, waker, env);
    var arrived := Arrived(pre, env);
    PollReachesDrain(inner, fut, waker, env);
    DrainRetiresForeignAhead(arrived, own, other, k);
    DrainWakesForeignWaiters(arrived, own);
    DrainUnregistersRetiredTags(arrived, own);
    if other in pre.wakers {
      assert pre.wakers[other] in Owed(pre.wakers, CqeTags(Retired(arrived, own)), own);
    }
  }

  /** A future whose tag is nowhere in the ring cannot resolve with a result,
      and its tag stays out of the ring. */
  lemma AbsentTagNeverResolves(inner: Inner, fut: SubmitFuture, waker: WakerId, env: PollEnv)
    requires fut.op.None? && fut.userData.Some?
    requires fut.userData.value !in RingTags(inner.ring)
    ensures var s := Poll(inner, fut, waker, env);
      && !(s.outcome.Ready? && s.outcome.result.Ok?)
      && fut.userData.value !in RingTags(s.inner.ring)
  {
    var own := fut.userData.value;
    var arrived := Arrived(inner, env);
    DrainResolvesOnFirstOwn(arrived, own);
    DrainAndDecideFrame(inner, own, waker, env);
  }

  /** The first poll of a fresh operation on an idle ring, when the kernel
      consumes the slot and completes it before the drain (as it does for a
      no-op), resolves in that same poll with the kernel's result, negative
      or not, and leaves no waker behind. */
  lemma FirstPollImmediateCompletion(inner: Inner, op: Op, waker: WakerId, res: int32, readiness: Readiness)
    requires Valid(inner.ring)
    requires inner.ring.queued == [] && inner.ring.inFlight == [] && inner.ring.cq == []
    requires inner.wakers == map[]
    ensures var s := Poll(inner, SubmitOp(op), waker, PollEnv(1, [Arrival(0, res, 0)], readiness));
      && s.outcome == Ready(Ok(res))
      && s.inner.wakers == map[]
      && s.inner.ring.queued == [] && s.inner.ring.inFlight == [] && s.inner.ring.cq == []
      && s.inner.nextUserData == WrappingAdd64(inner.nextUserData, 1)
  {
    var tag := inner.nextUserData;
    var a := GetSqe(inner.ring);
    assert a.Some?;
    var stamped := Stamp(a.value.ring, a.value.slot, op, tag);
    var sub := Uring.Submit(stamped, 1);
    assert sub.ring.inFlight == [Sqe(Some(op), tag)];
    var registered := inner.(nextUserData := WrappingAdd64(tag, 1), ring := sub.ring, wakers := map[tag := waker]);
    var env := PollEnv(1, [Arrival(0, res, 0)], readiness);
    var arrived := Arrived(registered, env);
    var completed := KernelComplete(sub.ring, 0, res, 0);
    assert env.arrivals[1..] == [];
    assert KernelCompleteAll(sub.ring, env.arrivals) == KernelCompleteAll(completed, []);
    assert KernelCompleteAll(completed, []) == completed;
    assert arrived.ring == completed;
    assert arrived.ring.cq == [Cqe(tag, res, 0)];
    assert arrived.ring.inFlight == [];
    assert arrived.ring.cq[..0] == [];
    assert PreDrain(inner, SubmitOp(op), waker, env) == registered;
    PollDeliversFirstOwnResult(inner, SubmitOp(op), waker, env, 0);
  }
}
