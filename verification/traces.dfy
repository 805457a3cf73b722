/** Runs of the multiplexer: futures created by `submit_op`, polled in any
    order by an executor, interleaved with kernel completions. The system
    records, besides the shared state and the futures, each future's final
    result, the tags handed out in order, and every waker woken. */
module Traces {
  import opened Prelude
  import opened Errors
  import opened RingState
  import opened Mux

  datatype Event =
    | Spawn(op: Op)
    | PollOf(id: nat, waker: WakerId, env: PollEnv)
    | Complete(arrival: Arrival)

  datatype System = System(
    inner: Inner,
    futures: seq<SubmitFuture>,
    results: map<nat, Result<int32, Error>>,
    issued: seq<uint64>,
    woken: seq<WakerId>)

  /** A freshly created multiplexer with no futures yet. */
  function Start(inner: Inner): System {
    System(inner, [], map[], [], [])
  }

  /** An executor polls a future only while it has not returned `Ready`. */
  predicate CanPoll(s: System, id: nat) {
    id < |s.futures| && id !in s.results && Pollable(s.futures[id])
  }

  function Step(s: System, e: Event): System {
    match e
    case Spawn(op) => s.(futures := s.futures + [SubmitOp(op)])
    case PollOf(id, w, env) =>
      if CanPoll(s, id) then AfterPoll(s, id, Poll(s.inner, s.futures[id], w, env)) else s
    case Complete(a) =>
      s.(inner := s.inner.(ring := KernelComplete(s.inner.ring, a.index, a.res, a.flags)))
  }

  /** The system once future `id` has been polled with outcome `p`. */
  function AfterPoll(s: System, id: nat, p: PollStep): System
    requires id < |s.futures|
  {
    s.(inner := p.inner,
       futures := s.futures[id := p.fut],
       results := if p.outcome.Ready? then s.results[id := p.outcome.result] else s.results,
       issued := if s.futures[id].op.Some? then s.issued + [s.inner.nextUserData] else s.issued,
       woken := s.woken + p.woken)
  }

  function Run(s: System, events: seq<Event>): System
    decreases |events|
  {
    if events == [] then s else Run(Step(s, events[0]), events[1..])
  }

  // ---------------------------------------------------------------------
  // Tags

  /** How many futures took a tag: every future that has taken its operation
      out, whether or not acquisition and submission then succeeded. */
  function TaggedCount(futures: seq<SubmitFuture>): nat
    decreases |futures|
  {
    if futures == [] then 0
    else TaggedCount(futures[..|futures| - 1]) + (if futures[|futures| - 1].op.None? then 1 else 0)
  }

  /** The tag bookkeeping every run keeps: the `i`-th tag handed out is
      `1 + i` modulo 2^64, the counter is the next one, every future has
      either its operation or its tag, and exactly one tag was handed out per
      future that took one. */
  predicate TagInv(s: System) {
    && s.inner.nextUserData == (1 + |s.issued|) % U64_MOD
    && (forall i :: 0 <= i < |s.issued| ==> s.issued[i] == (1 + i) % U64_MOD)
    && (forall id :: 0 <= id < |s.futures| ==> (s.futures[id].op.Some? <==> s.futures[id].userData.None?))
    && (forall id :: 0 <= id < |s.futures| && s.futures[id].userData.Some? ==> s.futures[id].userData.value in s.issued)
    && |s.issued| == TaggedCount(s.futures)
  }

  /** A multiplexer as `AsyncIoUring::new` creates it starts a run in which
      the bookkeeping holds. */
  lemma StartKeepsTagInv(entries: uint32, kernel: Uring.SetupRequest -> Uring.SetupReply, register: Option<IoError>)
    requires Mux.New(entries, kernel, register).Ok?
    ensures TagInv(Start(Mux.New(entries, kernel, register).value))
  {
  }

  lemma {:induction false} TaggedCountAppend(futures: seq<SubmitFuture>, f: SubmitFuture)
    ensures TaggedCount(futures + [f]) == TaggedCount(futures) + (if f.op.None? then 1 else 0)
  {
    assert (futures + [f])[..|futures|] == futures;
  }

  lemma {:induction false} TaggedCountUpdate(futures: seq<SubmitFuture>, id: nat, f: SubmitFuture)
    requires id < |futures|
    ensures TaggedCount(futures[id := f]) + (if futures[id].op.None? then 1 else 0)
         == TaggedCount(futures) + (if f.op.None? then 1 else 0)
    decreases |futures|
  {
    var n := |futures|;
    var u := futures[id := f];
    if id == n - 1 {
      assert u[..n - 1] == futures[..n - 1];
    } else {
      assert u[..n - 1] == futures[..n - 1][id := f];
      TaggedCountUpdate(futures[..n - 1], id, f);
    }
  }

  /** Every step keeps the tag bookkeeping, and tags are only ever appended. */
  lemma StepKeepsTagInv(s: System, e: Event)
    requires TagInv(s)
    ensures TagInv(Step(s, e))
    ensures |s.issued| <= |Step(s, e).issued| && Step(s, e).issued[..|s.issued|] == s.issued
  {
    match e
    case Spawn(op) =>
      TaggedCountAppend(s.futures, SubmitOp(op));
      var s' := Step(s, e);
      forall id | 0 <= id < |s'.futures|
        ensures s'.futures[id].op.Some? <==> s'.futures[id].userData.None?
      {
        if id < |s.futures| { assert s'.futures[id] == s.futures[id]; }
      }
    case PollOf(id, w, env) =>
      if CanPoll(s, id) {
        PollKeepsTagInv(s, id, w, env);
      }
    case Complete(a) =>
  }

  /** A poll keeps the tag bookkeeping: it hands out the counter's value as
      the tag exactly when the future still held its operation. */
  lemma PollKeepsTagInv(s: System, id: nat, w: WakerId, env: PollEnv)
    requires TagInv(s) && CanPoll(s, id)
    ensures TagInv(Step(s, PollOf(id, w, env)))
    ensures var s' := Step(s, PollOf(id, w, env));
      |s.issued| <= |s'.issued| && s'.issued[..|s.issued|] == s.issued
  {
    var p := Poll(s.inner, s.futures[id], w, env);
    if s.futures[id].op.Some? {
      FirstPollKeepsTagInv(s, id, p);
    } else {
      LaterPollKeepsTagInv(s, id, p);
    }
  }

  /** The bookkeeping after a first poll that took the counter as its tag. */
  lemma FirstPollKeepsTagInv(s: System, id: nat, p: PollStep)
    requires TagInv(s) && id < |s.futures| && s.futures[id].op.Some?
    requires p.fut.op.None? && p.fut.userData == Some(s.inner.nextUserData)
    requires p.inner.nextUserData == WrappingAdd64(s.inner.nextUserData, 1)
    ensures TagInv(AfterPoll(s, id, p))
    ensures AfterPoll(s, id, p).issued == s.issued + [s.inner.nextUserData]
  {
    var s' := AfterPoll(s, id, p);
    var n := |s.issued|;
    TaggedCountUpdate(s.futures, id, p.fut);
    assert s'.inner.nextUserData == (1 + n + 1) % U64_MOD by {
      ModSucc(1 + n);
    }
    forall i | 0 <= i < |s'.issued| ensures s'.issued[i] == (1 + i) % U64_MOD {
      if i < n { assert s'.issued[i] == s.issued[i]; }
    }
    forall j | 0 <= j < |s'.futures| && s'.futures[j].userData.Some?
      ensures s'.futures[j].userData.value in s'.issued
    {
      if j != id { assert s.futures[j].userData.value in s.issued; }
      else { assert s'.issued[n] == s.inner.nextUserData; }
    }
  }

  /** The bookkeeping after a later poll, which takes no tag. */
  lemma LaterPollKeepsTagInv(s: System, id: nat, p: PollStep)
    requires TagInv(s) && id < |s.futures| && s.futures[id].op.None?
    requires p.fut == s.futures[id] && p.inner.nextUserData == s.inner.nextUserData
    ensures TagInv(AfterPoll(s, id, p))
    ensures AfterPoll(s, id, p).issued == s.issued
  {
    var s' := AfterPoll(s, id, p);
    assert s'.futures == s.futures;
  }

  /** `(x + 1) mod 2^64` from `x mod 2^64`: the counter's `wrapping_add(1)`. */
  lemma ModSucc(x: nat)
    ensures WrappingAdd64(x % U64_MOD, 1) == (x + 1) % U64_MOD
  {
  }

  /** Every run keeps the tag bookkeeping. */
  lemma {:induction false} RunKeepsTagInv(s: System, events: seq<Event>)
    requires TagInv(s)
    ensures TagInv(Run(s, events))
    ensures |s.issued| <= |Run(s, events).issued| && Run(s, events).issued[..|s.issued|] == s.issued
    decreases |events|
  {
    if events != [] {
      StepKeepsTagInv(s, events[0]);
      RunKeepsTagInv(Step(s, events[0]), events[1..]);
    }
  }

  /** Tags handed out are pairwise distinct as long as fewer than 2^64 + 1
      operations were submitted: the counter starts at 1 and wraps only after
      it has handed out every value once. */
  lemma IssuedTagsDistinct(s: System)
    requires TagInv(s)
    requires |s.issued| <= U64_MOD
    ensures forall i, j :: 0 <= i < j < |s.issued| ==> s.issued[i] != s.issued[j]
  {
    forall i, j | 0 <= i < j < |s.issued| ensures s.issued[i] != s.issued[j] {
      assert s.issued[i] == 1 + i;
      if 1 + j < U64_MOD {
        assert s.issued[j] == 1 + j;
      } else {
        assert s.issued[j] == 0;
      }
    }
  }

  /** No two futures hold the same tag, so no completion can be claimed by
      two live futures. */
  predicate FutureTagsDistinct(s: System) {
    forall i, j ::
      && 0 <= i < |s.futures| && 0 <= j < |s.futures| && i != j
      && s.futures[i].userData.Some? && s.futures[j].userData.Some?
      ==> s.futures[i].userData.value != s.futures[j].userData.value
  }

  /** A first poll gives its future a tag no other future holds, as long as
      the tags handed out so far have not wrapped onto one another. */
  lemma FirstPollKeepsFutureTagsDistinct(s: System, id: nat, w: WakerId, env: PollEnv)
    requires TagInv(s) && FutureTagsDistinct(s) && CanPoll(s, id) && s.futures[id].op.Some?
    requires |s.issued| < U64_MOD
    ensures FutureTagsDistinct(Step(s, PollOf(id, w, env)))
  {
    var p := Poll(s.inner, s.futures[id], w, env);
    var s' := AfterPoll(s, id, p);
    var n := |s.issued|;
    FirstPollKeepsTagInv(s, id, p);
    IssuedTagsDistinct(s');
    forall i, j |
      && 0 <= i < |s'.futures| && 0 <= j < |s'.futures| && i != j
      && s'.futures[i].userData.Some? && s'.futures[j].userData.Some?
      ensures s'.futures[i].userData.value != s'.futures[j].userData.value
    {
      if i == id || j == id {
        var other := if i == id then j else i;
        var v := s.futures[other].userData.value;
        assert v in s.issued;
        var m :| 0 <= m < n && s.issued[m] == v;
        assert s'.issued[m] == v && s'.issued[n] == s.inner.nextUserData;
      }
    }
  }

  /** Every step keeps the futures' tags pairwise distinct while the tags
      handed out have not wrapped onto one another. */
  lemma StepKeepsFutureTagsDistinct(s: System, e: Event)
    requires TagInv(s) && FutureTagsDistinct(s)
    requires |Step(s, e).issued| <= U64_MOD
    ensures FutureTagsDistinct(Step(s, e))
  {
    match e {
      case Spawn(op) =>
        var s' := Step(s, e);
        forall i, j |
          && 0 <= i < |s'.futures| && 0 <= j < |s'.futures| && i != j
          && s'.futures[i].userData.Some? && s'.futures[j].userData.Some?
          ensures s'.futures[i].userData.value != s'.futures[j].userData.value
        {
          assert i < |s.futures| && j < |s.futures|;
          assert s'.futures[i] == s.futures[i] && s'.futures[j] == s.futures[j];
        }
      case PollOf(id, w, env) =>
        if CanPoll(s, id) {
          if s.futures[id].op.Some? {
            assert |Step(s, e).issued| == |s.issued| + 1;
            FirstPollKeepsFutureTagsDistinct(s, id, w, env);
          } else {
            assert Step(s, e).futures == s.futures;
          }
        }
      case Complete(a) =>
    }
  }

  /** Every run keeps the futures' tags pairwise distinct while the tags
      handed out have not wrapped onto one another. */
  lemma {:induction false} RunKeepsFutureTagsDistinct(s: System, events: seq<Event>)
    requires TagInv(s) && FutureTagsDistinct(s)
    requires |Run(s, events).issued| <= U64_MOD
    ensures FutureTagsDistinct(Run(s, events))
    decreases |events|
  {
    if events != [] {
      var s1 := Step(s, events[0]);
      StepKeepsTagInv(s, events[0]);
      RunKeepsTagInv(s1, events[1..]);
      StepKeepsFutureTagsDistinct(s, events[0]);
      RunKeepsFutureTagsDistinct(s1, events[1..]);
    }
  }

  /** On every run from a freshly created multiplexer, each future that took
      its operation out took exactly one tag, and while fewer than 2^64 + 1 operations were
      submitted the tags handed out are pairwise distinct and no two futures
      hold the same tag. */
  lemma TagsUniqueOnEveryRun(entries: uint32, kernel: Uring.SetupRequest -> Uring.SetupReply, register: Option<IoError>, events: seq<Event>)
    requires Mux.New(entries, kernel, register).Ok?
    ensures var t := Run(Start(Mux.New(entries, kernel, register).value), events);
      && |t.issued| == TaggedCount(t.futures)
      && (|t.issued| <= U64_MOD ==> forall i, j :: 0 <= i < j < |t.issued| ==> t.issued[i] != t.issued[j])
      && (|t.issued| <= U64_MOD ==> FutureTagsDistinct(t))
  {
    var s := Start(Mux.New(entries, kernel, register).value);
    RunKeepsTagInv(s, events);
    if |Run(s, events).issued| <= U64_MOD {
      IssuedTagsDistinct(Run(s, events));
      RunKeepsFutureTagsDistinct(s, events);
    }
  }

  // ---------------------------------------------------------------------
  // A forwarded completion is lost

  /** Every future in the system has been submitted and holds its tag. */
  predicate AllSubmitted(s: System) {
    forall id :: 0 <= id < |s.futures| ==> s.futures[id].op.None? && s.futures[id].userData.Some?
  }

  predicate NoSpawn(events: seq<Event>) {
    forall i :: 0 <= i < |events| ==> !events[i].Spawn?
  }

  lemma KernelCompleteKeepsOutTag(r: Ring, i: nat, res: int32, flags: uint32, tag: uint64)
    requires tag !in RingTags(r)
    ensures tag !in RingTags(KernelComplete(r, i, res, flags))
  {
    KernelCompleteLeavesNoNewTags(r, i, res, flags);
  }

  /** Every future is submitted, and future `b`'s tag is out of the ring
      while `b` has not resolved with a result. */
  predicate TagLost(s: System, b: nat) {
    && AllSubmitted(s)
    && b < |s.futures|
    && s.futures[b].userData.value !in RingTags(s.inner.ring)
    && (b !in s.results || s.results[b].Err?)
  }

  /** A poll of any future keeps `b`'s tag lost. */
  lemma PollKeepsTagLost(s: System, id: nat, w: WakerId, env: PollEnv, b: nat)
    requires TagLost(s, b) && CanPoll(s, id)
    ensures TagLost(Step(s, PollOf(id, w, env)), b)
  {
    var p := Poll(s.inner, s.futures[id], w, env);
    if id == b {
      AbsentTagNeverResolves(s.inner, s.futures[b], w, env);
    }
    var s' := AfterPoll(s, id, p);
    assert s'.futures[b] == s.futures[b];
  }

  /** Any step other than creating a future keeps `b`'s tag lost. */
  lemma StepKeepsTagLost(s: System, e: Event, b: nat)
    requires TagLost(s, b) && !e.Spawn?
    ensures TagLost(Step(s, e), b)
  {
    match e {
      case PollOf(id, w, env) =>
        if CanPoll(s, id) {
          PollKeepsTagLost(s, id, w, env, b);
        }
      case Complete(a) =>
        KernelCompleteKeepsOutTag(s.inner.ring, a.index, a.res, a.flags, s.futures[b].userData.value);
    }
  }

  /** Once a submitted future's tag has left the ring, no later poll
      delivers it a result: with no new submissions, whatever the order of
      polls and kernel completions, it never resolves with `Ok`. */
  lemma {:induction false} LostTagNeverResolves(s: System, events: seq<Event>, b: nat)
    requires AllSubmitted(s) && NoSpawn(events)
    requires b < |s.futures|
    requires s.futures[b].userData.value !in RingTags(s.inner.ring)
    requires b !in s.results || s.results[b].Err?
    ensures var t := Run(s, events); b !in t.results || t.results[b].Err?
    decreases |events|
  {
    if events != [] {
      StepKeepsTagLost(s, events[0], b);
      assert NoSpawn(events[1..]) by {
        forall i | 0 <= i < |events[1..]| ensures !events[1..][i].Spawn? {
          assert events[1..][i] == events[i + 1];
        }
      }
      LostTagNeverResolves(Step(s, events[0]), events[1..], b);
    }
  }

  /** Future `a`'s poll forwards future `b`'s completion, found at position
      `k` ahead of any completion of `a`'s: `b`'s waker is woken and
      unregistered, and `b`'s tag is lost, whether `a` then resolves or not. */
  lemma PollForwardsAndLoses(s: System, a: nat, wa: WakerId, env: PollEnv, b: nat, k: nat)
    requires AllSubmitted(s)
    requires a < |s.futures| && b < |s.futures| && a != b
    requires a !in s.results && b !in s.results
    requires s.futures[a].userData.value != s.futures[b].userData.value
    requires var r := Arrived(s.inner, env).ring;
      && k < |r.cq| && r.cq[k].userData == s.futures[b].userData.value
      && s.futures[a].userData.value !in CqeTags(r.cq[..k])
      && s.futures[b].userData.value !in CqeTags(r.cq[k + 1..])
      && s.futures[b].userData.value !in SqeTags(r.queued) + SqeTags(r.inFlight)
    requires s.futures[b].userData.value in s.inner.wakers
    ensures var s1 := Step(s, PollOf(a, wa, env));
      && s.inner.wakers[s.futures[b].userData.value] in s1.woken
      && s.futures[b].userData.value !in s1.inner.wakers
      && TagLost(s1, b) && s1.futures[b] == s.futures[b]
  {
    var tb := s.futures[b].userData.value;
    var p := Poll(s.inner, s.futures[a], wa, env);
    DrainedForeignCompletionIsGone(s.inner, s.futures[a], wa, env, tb, k);
    AfterForwardingPoll(s, a, p, b, s.inner.wakers[tb]);
  }

  /** The system after a poll of `a` that woke `x` and left `b`'s tag out of
      the ring. */
  lemma AfterForwardingPoll(s: System, a: nat, p: PollStep, b: nat, x: WakerId)
    requires AllSubmitted(s) && a < |s.futures| && b < |s.futures| && a != b && b !in s.results
    requires p.fut == s.futures[a]
    requires s.futures[b].userData.value !in RingTags(p.inner.ring)
    requires x in WakerSet(p.woken)
    ensures var s1 := AfterPoll(s, a, p);
      x in s1.woken && TagLost(s1, b) && s1.futures[b] == s.futures[b]
  {
    var s1 := AfterPoll(s, a, p);
    var k :| 0 <= k < |p.woken| && p.woken[k] == x;
    assert s1.woken[|s.woken| + k] == x;
    assert s1.futures[b] == s.futures[b];
  }

  /** The consequence of draining without storing foreign results: future `a`
      polls and finds future `b`'s completion, already in the queue or posted
      during the poll, ahead of its own or with none of its own; it wakes
      `b`'s waker and discards the completion, and may itself resolve in the
      same poll. From then on, whatever happens short of new submissions, `b`
      never resolves with its result. */
  lemma ForwardedWaiterNeverResolves(s: System, a: nat, wa: WakerId, env: PollEnv, b: nat, k: nat, events: seq<Event>)
    requires AllSubmitted(s) && NoSpawn(events)
    requires a < |s.futures| && b < |s.futures| && a != b
    requires a !in s.results && b !in s.results
    requires s.futures[a].userData.value != s.futures[b].userData.value
    requires var r := Arrived(s.inner, env).ring;
      && k < |r.cq| && r.cq[k].userData == s.futures[b].userData.value
      && s.futures[a].userData.value !in CqeTags(r.cq[..k])
      && s.futures[b].userData.value !in CqeTags(r.cq[k + 1..])
      && s.futures[b].userData.value !in SqeTags(r.queued) + SqeTags(r.inFlight)
    requires s.futures[b].userData.value in s.inner.wakers
    ensures var s1 := Step(s, PollOf(a, wa, env));
      && s.inner.wakers[s.futures[b].userData.value] in s1.woken
      && s.futures[b].userData.value !in s1.inner.wakers
      && var t := Run(s1, events); b !in t.results || t.results[b].Err?
  {
    PollForwardsAndLoses(s, a, wa, env, b, k);
    LostTagNeverResolves(Step(s, PollOf(a, wa, env)), events, b);
  }
}
