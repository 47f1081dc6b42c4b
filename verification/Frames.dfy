/**
  The live frame path: the bounded drop-oldest queue and the interval sampler
  (app/vision/frames.py).

  `QueueState` and `SamplerState` are the values the two classes hold; the classes
  update them in place. `QueueTrace` adds the history that the promises are about:
  everything ever accepted, and which of it was delivered.
*/
module Frames {
  import opened Basics

  datatype LiveFrame = LiveFrame(
    cameraId: string,
    sequence: int,
    epoch: int,
    capturedAtNs: int,
    receivedAtNs: int,
    width: int,
    height: int,
    payload: seq<bv8>)

  datatype DropReason = QueueFull | SampledOut | ShuttingDown

  /** `self._waiter`: no future, a future nobody has completed, or a completed one. */
  datatype Waiter = NoWaiter | Pending | Completed

  /** What one iteration of the loop in `get` does before it returns or suspends. */
  datatype Poll = Got(frame: LiveFrame) | Ended | Suspended

  function Max(a: int, b: int): int {
    if a >= b then a else b
  }

  /* ---------------------------------------------------------------- queue state */

  datatype QueueState = QueueState(
    capacity: nat,
    items: seq<LiveFrame>,
    depth: nat,
    highWater: nat,
    accepted: nat,
    droppedQueueFull: nat,
    droppedSampled: nat,
    droppedShutdown: nat,
    waiter: Waiter,
    closed: bool)
  {
    /** The counters agree with the contents, and nothing is over capacity. */
    predicate Bounded() {
      capacity >= 1 && depth == |items| && depth <= highWater <= capacity
    }

    function Woken(): Waiter {
      if waiter.Pending? then Completed else waiter
    }

    function Put(frame: LiveFrame): (QueueState, Option<DropReason>) {
      if closed then
        (this.(droppedShutdown := droppedShutdown + 1), Some(ShuttingDown))
      else
        var full := |items| > 0 && |items| >= capacity;
        var kept := (if full then items[1..] else items) + [frame];
        (this.(items := kept,
               depth := |kept|,
               highWater := Max(highWater, |kept|),
               accepted := accepted + 1,
               droppedQueueFull := droppedQueueFull + (if full then 1 else 0),
               waiter := Woken()),
         if full then Some(QueueFull) else None)
    }

    function PollOnce(): (QueueState, Poll) {
      if items != [] then (this.(items := items[1..], depth := |items| - 1), Got(items[0]))
      else if closed then (this, Ended)
      else (this.(waiter := Pending), Suspended)
    }

    function Close(): QueueState {
      this.(closed := true, waiter := Woken())
    }

    function Clear(): QueueState {
      this.(items := [], depth := 0)
    }
  }

  function EmptyQueue(capacity: nat): QueueState {
    QueueState(capacity, [], 0, 0, 0, 0, 0, 0, NoWaiter, false)
  }

  class LiveFrameQueue {
    const capacity: nat
    var items: seq<LiveFrame>
    var depth: nat
    var highWater: nat
    var accepted: nat
    var droppedQueueFull: nat
    var droppedSampled: nat
    var droppedShutdown: nat
    var waiter: Waiter
    var closed: bool

    ghost function View(): QueueState
      reads this
    {
      QueueState(capacity, items, depth, highWater, accepted, droppedQueueFull,
                 droppedSampled, droppedShutdown, waiter, closed)
    }

    ghost predicate Valid()
      reads this
    {
      View().Bounded()
    }

    /** The source raises for a capacity below one; `New` is the checked entry point. */
    constructor (capacity: nat)
      requires capacity >= 1
      ensures Valid() && View() == EmptyQueue(capacity)
    {
      this.capacity := capacity;
      items, depth, highWater, accepted := [], 0, 0, 0;
      droppedQueueFull, droppedSampled, droppedShutdown := 0, 0, 0;
      waiter, closed := NoWaiter, false;
    }

    static method New(capacity: int) returns (r: Result<LiveFrameQueue, string>)
      ensures r.Ok? <==> capacity >= 1
      ensures r.Ok? ==> fresh(r.value) && r.value.Valid() && r.value.View() == EmptyQueue(capacity)
    {
      if capacity < 1 {
        return Err("queue capacity must be at least 1; there is no unbounded mode");
      }
      var q := new LiveFrameQueue(capacity);
      return Ok(q);
    }

    method Put(frame: LiveFrame) returns (dropped: Option<DropReason>)
      requires Valid()
      modifies this
      ensures Valid()
      ensures (View(), dropped) == old(View()).Put(frame)
    {
      if closed {
        droppedShutdown := droppedShutdown + 1;
        return Some(ShuttingDown);
      }
      dropped := None;
      if |items| >= capacity {
        items := items[1..];
        droppedQueueFull := droppedQueueFull + 1;
        dropped := Some(QueueFull);
      }
      items := items + [frame];
      accepted := accepted + 1;
      depth := |items|;
      highWater := Max(highWater, depth);
      if waiter.Pending? {
        waiter := Completed;
      }
    }

    /** One pass of the `while True` in `get`, up to its return or its await. */
    method PollOnce() returns (r: Poll)
      requires Valid()
      modifies this
      ensures Valid()
      ensures (View(), r) == old(View()).PollOnce()
    {
      if items != [] {
        var frame := items[0];
        items := items[1..];
        depth := |items|;
        return Got(frame);
      }
      if closed {
        return Ended;
      }
      waiter := Pending;
      return Suspended;
    }

    /** The `finally` of `get`, reached by completion and by cancellation alike. */
    method LeaveWait()
      requires Valid()
      modifies this
      ensures Valid()
      ensures View() == old(View()).(waiter := NoWaiter)
    {
      waiter := NoWaiter;
    }

    method RecordSampledOut()
      requires Valid()
      modifies this
      ensures Valid()
      ensures View() == old(View()).(droppedSampled := old(droppedSampled) + 1)
    {
      droppedSampled := droppedSampled + 1;
    }

    method Close()
      requires Valid()
      modifies this
      ensures Valid()
      ensures View() == old(View()).Close()
    {
      closed := true;
      if waiter.Pending? {
        waiter := Completed;
      }
    }

    method Clear()
      requires Valid()
      modifies this
      ensures Valid()
      ensures View() == old(View()).Clear()
    {
      items := [];
      depth := 0;
    }
  }

  /* ------------------------------------------------------- runs of the queue */

  /**
    A queue with its history. `log` is every frame ever accepted, `head` the index in
    it of the oldest frame still queued, `taken` the indices delivered, in delivery
    order. `waiting` says that the single consumer is suspended inside `get`.
  */
  datatype QueueTrace = QueueTrace(
    q: QueueState,
    waiting: bool,
    log: seq<LiveFrame>,
    head: nat,
    taken: seq<nat>,
    cleared: nat)

  datatype QueueOp = Offer(frame: LiveFrame) | CountSampled | Take | Abandon | Shut | Discard

  function NewTrace(capacity: nat): QueueTrace {
    QueueTrace(EmptyQueue(capacity), false, [], 0, [], 0)
  }

  /** A suspended consumer can only be resumed once its future is complete. */
  predicate CanTake(t: QueueTrace) {
    !t.waiting || !t.q.waiter.Pending?
  }

  function Offered(t: QueueTrace, frame: LiveFrame): QueueTrace {
    var (q, dropped) := t.q.Put(frame);
    t.(q := q,
       log := if dropped == Some(ShuttingDown) then t.log else t.log + [frame],
       head := if dropped == Some(QueueFull) then t.head + 1 else t.head)
  }

  /**
    One pass of `get`. `parked` says that the caller is the consumer that was suspended, whose
    waiter goes first; another caller leaves that waiter alone.
  */
  function TakenBy(t: QueueTrace, parked: bool): (QueueTrace, Poll) {
    var q0 := if parked then t.q.(waiter := NoWaiter) else t.q;
    var others := t.waiting && !parked;
    var (q, r) := q0.PollOnce();
    match r
    case Got(_) => (t.(q := q, waiting := others, taken := t.taken + [t.head], head := t.head + 1), r)
    case Ended => (t.(q := q, waiting := others), r)
    case Suspended => (t.(q := q, waiting := true), r)
  }

  function Taken(t: QueueTrace): (QueueTrace, Poll) {
    TakenBy(t, t.waiting)
  }

  function Discarded(t: QueueTrace): QueueTrace {
    t.(q := t.q.Clear(), head := |t.log|, cleared := t.cleared + |t.q.items|)
  }

  function SampleCounted(t: QueueTrace): QueueTrace {
    t.(q := t.q.(droppedSampled := t.q.droppedSampled + 1))
  }

  function Abandoned(t: QueueTrace): QueueTrace {
    if t.waiting then t.(q := t.q.(waiter := NoWaiter), waiting := false) else t
  }

  function ShutDown(t: QueueTrace): QueueTrace {
    t.(q := t.q.Close())
  }

  function QueueStep(t: QueueTrace, op: QueueOp): QueueTrace {
    match op
    case Offer(frame) => Offered(t, frame)
    case CountSampled => SampleCounted(t)
    case Take => if CanTake(t) then Taken(t).0 else t
    case Abandon => Abandoned(t)
    case Shut => ShutDown(t)
    case Discard => Discarded(t)
  }

  function QueueRun(t: QueueTrace, ops: seq<QueueOp>): QueueTrace
    decreases |ops|
  {
    if ops == [] then t else QueueRun(QueueStep(t, ops[0]), ops[1..])
  }

  ghost predicate StrictlyIncreasing(s: seq<nat>) {
    forall i, j :: 0 <= i < j < |s| ==> s[i] < s[j]
  }

  /** Order, bounds and accounting: what is queued is exactly the tail of what was accepted. */
  ghost predicate InOrder(t: QueueTrace) {
    && t.head <= |t.log|
    && t.q.items == t.log[t.head..]
    && t.q.depth == |t.q.items| <= t.q.capacity
    && t.q.depth <= t.q.highWater <= t.q.capacity
    && t.q.accepted == |t.log|
    && t.head == |t.taken| + t.q.droppedQueueFull + t.cleared
    && StrictlyIncreasing(t.taken)
    && (forall i :: 0 <= i < |t.taken| ==> t.taken[i] < t.head)
  }

  /** A consumer whose future is still pending has nothing to be woken for. */
  ghost predicate NoLostWakeup(t: QueueTrace) {
    && (t.waiting <==> t.q.waiter != NoWaiter)
    && (t.waiting && t.q.waiter.Pending? ==> t.q.items == [] && !t.q.closed)
  }

  ghost predicate Sound(t: QueueTrace) {
    t.q.capacity >= 1 && InOrder(t) && NoLostWakeup(t)
  }

  lemma OfferKeepsSound(t: QueueTrace, frame: LiveFrame)
    requires Sound(t)
    ensures Sound(Offered(t, frame))
  {
    var t' := Offered(t, frame);
    if !t.q.closed {
      assert t'.q.items == t'.log[t'.head..];
    }
  }

  /** The parked consumer polls once it is woken; any other one only a closed queue while somebody is parked. */
  predicate MayTake(t: QueueTrace, parked: bool) {
    if parked then t.waiting && !t.q.waiter.Pending? else t.waiting ==> t.q.closed
  }

  lemma TakeKeepsSound(t: QueueTrace, parked: bool)
    requires Sound(t) && MayTake(t, parked)
    ensures Sound(TakenBy(t, parked).0)
  {
    if t.q.items != [] {
      assert t.q.items[1..] == t.log[t.head + 1..];
    }
  }

  /** What a poll leaves alone, and how it moves the history. */
  ghost predicate TakeEffect(t: QueueTrace, parked: bool, t': QueueTrace, r: Poll) {
    && t'.log == t.log && t'.cleared == t.cleared
    && t'.q == t.q.(items := t'.q.items, depth := t'.q.depth, waiter := t'.q.waiter)
    && t'.waiting == (r.Suspended? || (t.waiting && !parked))
    && (r.Got? ==> t'.head == t.head + 1 && t'.taken == t.taken + [t.head])
    && (!r.Got? ==> t'.head == t.head && t'.taken == t.taken)
    && (r.Ended? ==> t.q.closed)
    && (r.Suspended? ==> !t.q.closed)
  }

  /** What an offer leaves alone, and how it moves the history. */
  ghost predicate OfferEffect(t: QueueTrace, frame: LiveFrame, t': QueueTrace, dropped: Option<DropReason>) {
    && t'.taken == t.taken && t'.cleared == t.cleared && t'.waiting == t.waiting
    && t'.q.closed == t.q.closed && t'.q.droppedSampled == t.q.droppedSampled
    && (dropped == Some(ShuttingDown) <==> t.q.closed)
    && t'.log == (if t.q.closed then t.log else t.log + [frame])
    && t'.head == t.head + (if dropped == Some(QueueFull) then 1 else 0)
    && t'.q.accepted == t.q.accepted + (if t.q.closed then 0 else 1)
    && t'.q.droppedShutdown == t.q.droppedShutdown + (if t.q.closed then 1 else 0)
    && t'.q.droppedQueueFull == t.q.droppedQueueFull + (if dropped == Some(QueueFull) then 1 else 0)
  }

  lemma TakeHasEffect(t: QueueTrace, parked: bool)
    ensures TakeEffect(t, parked, TakenBy(t, parked).0, TakenBy(t, parked).1)
  {
  }

  lemma OfferHasEffect(t: QueueTrace, frame: LiveFrame)
    ensures OfferEffect(t, frame, Offered(t, frame), t.q.Put(frame).1)
  {
  }

  lemma SampleKeepsSound(t: QueueTrace)
    requires Sound(t)
    ensures Sound(SampleCounted(t))
  {
  }

  lemma AbandonKeepsSound(t: QueueTrace)
    requires Sound(t)
    ensures Sound(Abandoned(t))
  {
  }

  lemma ShutKeepsSound(t: QueueTrace)
    requires Sound(t)
    ensures Sound(ShutDown(t))
  {
  }

  lemma DiscardKeepsSound(t: QueueTrace)
    requires Sound(t)
    ensures Sound(Discarded(t))
  {
    assert t.log[|t.log|..] == [];
  }

  lemma QueueStepKeepsSound(t: QueueTrace, op: QueueOp)
    requires Sound(t)
    ensures Sound(QueueStep(t, op)) && QueueStep(t, op).q.capacity == t.q.capacity
  {
    match op
    case Offer(frame) => OfferKeepsSound(t, frame);
    case Take => if CanTake(t) { TakeKeepsSound(t, t.waiting); }
    case CountSampled => SampleKeepsSound(t);
    case Abandon => AbandonKeepsSound(t);
    case Shut => ShutKeepsSound(t);
    case Discard => DiscardKeepsSound(t);
  }

  /** Every interleaving of puts, polls, wake-ups, cancellations, close and clear. */
  lemma {:induction false} QueueRunKeepsSound(t: QueueTrace, ops: seq<QueueOp>)
    requires Sound(t)
    ensures Sound(QueueRun(t, ops)) && QueueRun(t, ops).q.capacity == t.q.capacity
    decreases |ops|
  {
    if ops != [] {
      QueueStepKeepsSound(t, ops[0]);
      QueueRunKeepsSound(QueueStep(t, ops[0]), ops[1..]);
    }
  }

  /**
    In every reachable state: bounded depth, contents the contiguous tail of the
    accepted frames, deliveries in order and never twice, every accepted frame
    accounted for, and a queue with work (or an end to report) always has a consumer
    that can run, which then gets the oldest frame or the end of the stream.
  */
  lemma ReachableQueue(capacity: nat, ops: seq<QueueOp>)
    requires capacity >= 1
    ensures
      var t := QueueRun(NewTrace(capacity), ops);
      && |t.q.items| <= capacity
      && t.head <= |t.log| && t.q.items == t.log[t.head..]
      && StrictlyIncreasing(t.taken) && (forall i :: 0 <= i < |t.taken| ==> t.taken[i] < |t.log|)
      && t.q.accepted == |t.taken| + t.q.droppedQueueFull + t.cleared + t.q.depth
      && (t.q.items != [] || t.q.closed ==> CanTake(t))
      && (t.q.items != [] ==> Taken(t).1 == Got(t.q.items[0]))
      && (t.q.items == [] && t.q.closed ==> Taken(t).1 == Ended)
  {
    var t0 := NewTrace(capacity);
    assert Sound(t0);
    QueueRunKeepsSound(t0, ops);
  }

  /** The deepest the queue gets along a run. */
  function Peak(t: QueueTrace, ops: seq<QueueOp>): int
    decreases |ops|
  {
    if ops == [] then t.q.depth else Max(t.q.depth, Peak(QueueStep(t, ops[0]), ops[1..]))
  }

  lemma HighWaterStep(t: QueueTrace, op: QueueOp)
    requires Sound(t)
    ensures QueueStep(t, op).q.highWater == Max(t.q.highWater, QueueStep(t, op).q.depth)
  {
  }

  /** `high_water` is the deepest the queue has ever been, no more and no less. */
  lemma {:induction false} HighWaterIsPeak(t: QueueTrace, ops: seq<QueueOp>)
    requires Sound(t)
    ensures QueueRun(t, ops).q.highWater == Max(t.q.highWater, Peak(t, ops))
    decreases |ops|
  {
    if ops != [] {
      var t' := QueueStep(t, ops[0]);
      QueueStepKeepsSound(t, ops[0]);
      HighWaterStep(t, ops[0]);
      HighWaterIsPeak(t', ops[1..]);
      assert Peak(t', ops[1..]) >= t'.q.depth;
    }
  }

  function PutAll(q: QueueState, frames: seq<LiveFrame>): QueueState
    decreases |frames|
  {
    if frames == [] then q else PutAll(q.Put(frames[0]).0, frames[1..])
  }

  function Newest(frames: seq<LiveFrame>, n: nat): seq<LiveFrame> {
    if |frames| <= n then frames else frames[|frames| - n..]
  }

  /** Drop-oldest, stated outright: a burst leaves exactly the newest `capacity` frames, in order. */
  lemma {:induction false} BurstKeepsNewest(q: QueueState, frames: seq<LiveFrame>)
    requires q.capacity >= 1 && |q.items| <= q.capacity && !q.closed
    ensures PutAll(q, frames).items == Newest(q.items + frames, q.capacity)
    ensures PutAll(q, frames).droppedQueueFull
         == q.droppedQueueFull + Max(0, |q.items| + |frames| - q.capacity)
    decreases |frames|
  {
    if frames == [] {
      assert q.items + frames == q.items;
    } else {
      var q' := q.Put(frames[0]).0;
      BurstKeepsNewest(q', frames[1..]);
      var all := q.items + frames;
      if |q.items| >= q.capacity {
        assert q'.items + frames[1..] == all[1..];
      } else {
        assert q'.items + frames[1..] == all;
      }
    }
  }

  /* ------------------------------------------------------------------ sampler */

  datatype SamplerState = SamplerState(intervalNs: nat, lastNs: Option<int>) {
    predicate Due(capturedAtNs: int) {
      lastNs.None? || capturedAtNs - lastNs.value >= intervalNs
    }

    function Accept(capturedAtNs: int): SamplerState {
      if Due(capturedAtNs) then this.(lastNs := Some(capturedAtNs)) else this
    }

    function Reset(): SamplerState {
      this.(lastNs := None)
    }
  }

  class FrameSampler {
    const intervalNs: nat
    var lastNs: Option<int>

    ghost function View(): SamplerState
      reads this
    {
      SamplerState(intervalNs, lastNs)
    }

    /** The source raises unless `analysisFps` is positive; `int()` truncates, and the quotient is positive. */
    constructor (analysisFps: real)
      requires analysisFps > 0.0
      ensures View() == SamplerState(IntervalOf(analysisFps), None)
    {
      intervalNs := IntervalOf(analysisFps);
      lastNs := None;
    }

    method Accepts(capturedAtNs: int) returns (due: bool)
      modifies this
      ensures due == old(View()).Due(capturedAtNs)
      ensures View() == old(View()).Accept(capturedAtNs)
    {
      if lastNs.None? || capturedAtNs - lastNs.value >= intervalNs {
        lastNs := Some(capturedAtNs);
        return true;
      }
      return false;
    }

    method Reset()
      modifies this
      ensures View() == old(View()).Reset()
    {
      lastNs := None;
    }
  }

  function IntervalOf(analysisFps: real): nat
    requires analysisFps > 0.0
  {
    var quotient := 1_000_000_000.0 / analysisFps;
    assert quotient > 0.0;
    quotient.Floor
  }

  /** Multiplication under a name, so that each step below is one product. */
  function Times(a: real, b: real): real {
    a * b
  }

  lemma TimesGrows(a: real, b: real, k: real)
    requires k > 0.0
    ensures a <= b ==> Times(a, k) <= Times(b, k)
    ensures a < b ==> Times(a, k) < Times(b, k)
  {
  }

  lemma OneMore(a: real, k: real)
    ensures Times(a + 1.0, k) == Times(a, k) + k
  {
  }

  /**
    The interval is the greatest whole number of nanoseconds such that the asked-for number of
    them fits in a second: what is left of the second is less than one more for each frame.
  */
  lemma IntervalFitsSecond(analysisFps: real)
    requires analysisFps > 0.0
    ensures
      var used := Times(IntervalOf(analysisFps) as real, analysisFps);
      used <= 1_000_000_000.0 < used + analysisFps
  {
    var quotient, interval := 1_000_000_000.0 / analysisFps, IntervalOf(analysisFps) as real;
    assert Times(quotient, analysisFps) == 1_000_000_000.0;
    TimesGrows(interval, quotient, analysisFps);
    TimesGrows(quotient, interval + 1.0, analysisFps);
    OneMore(interval, analysisFps);
  }

  /** The capture times a sampler lets through, from a stream of capture times. */
  function Kept(s: SamplerState, times: seq<int>): seq<int>
    decreases |times|
  {
    if times == [] then []
    else if s.Due(times[0]) then [times[0]] + Kept(s.Accept(times[0]), times[1..])
    else Kept(s, times[1..])
  }

  ghost predicate Nondecreasing(times: seq<int>) {
    forall i, j :: 0 <= i < j < |times| ==> times[i] <= times[j]
  }

  ghost predicate Subsequence(chosen: seq<int>, times: seq<int>) {
    || chosen == []
    || (times != [] && (|| (chosen[0] == times[0] && Subsequence(chosen[1..], times[1..]))
                        || Subsequence(chosen, times[1..])))
  }

  /** Consecutive members at least `interval` apart. */
  ghost predicate Apart(times: seq<int>, interval: nat) {
    forall i :: 0 <= i < |times| - 1 ==> times[i + 1] - times[i] >= interval
  }

  /** A selection the sampler could still have made from state `s`. */
  ghost predicate Admissible(s: SamplerState, chosen: seq<int>) {
    Apart(chosen, s.intervalNs) && (chosen != [] ==> s.Due(chosen[0]))
  }

  lemma {:induction false} KeptIsAdmissible(s: SamplerState, times: seq<int>)
    ensures Subsequence(Kept(s, times), times)
    ensures Admissible(s, Kept(s, times))
    decreases |times|
  {
    if times != [] {
      if s.Due(times[0]) {
        KeptIsAdmissible(s.Accept(times[0]), times[1..]);
        assert Kept(s, times)[1..] == Kept(s.Accept(times[0]), times[1..]);
      } else {
        KeptIsAdmissible(s, times[1..]);
      }
    }
  }

  lemma {:induction false} SubsequenceMembers(chosen: seq<int>, times: seq<int>, bound: int)
    requires Subsequence(chosen, times) && chosen != []
    requires forall i :: 0 <= i < |times| ==> bound <= times[i]
    ensures bound <= chosen[0]
    decreases |times|
  {
    if chosen[0] != times[0] {
      SubsequenceMembers(chosen, times[1..], bound);
    }
  }

  lemma {:induction false} SubsequenceTail(chosen: seq<int>, times: seq<int>)
    requires Subsequence(chosen, times) && chosen != []
    ensures Subsequence(chosen[1..], times)
    decreases |times|
  {
    if !(chosen[0] == times[0] && Subsequence(chosen[1..], times[1..])) {
      SubsequenceTail(chosen, times[1..]);
    }
  }

  /** Greedy stays ahead: no admissible selection is longer than what the sampler keeps. */
  lemma {:induction false} GreedyStaysAhead(s: SamplerState, times: seq<int>, chosen: seq<int>)
    requires Nondecreasing(times)
    requires Subsequence(chosen, times) && Admissible(s, chosen)
    ensures |chosen| <= |Kept(s, times)|
    decreases |times|
  {
    if times == [] || chosen == [] {
    } else if s.Due(times[0]) {
      var rest := chosen[1..];
      if chosen[0] == times[0] && Subsequence(rest, times[1..]) {
      } else {
        SubsequenceMembers(chosen, times[1..], times[0]);
        SubsequenceTail(chosen, times[1..]);
      }
      assert rest != [] ==> rest[0] == chosen[1] && chosen[1] - chosen[0] >= s.intervalNs;
      GreedyStaysAhead(s.Accept(times[0]), times[1..], rest);
    } else {
      assert chosen[0] != times[0];
      GreedyStaysAhead(s, times[1..], chosen);
    }
  }

  /**
    On a nondecreasing stream the sampler is optimal: what it keeps is a selection with
    the required spacing, and no selection with that spacing is larger.
  */
  lemma SamplerIsOptimal(interval: nat, times: seq<int>, chosen: seq<int>)
    requires Nondecreasing(times)
    requires Subsequence(chosen, times) && Apart(chosen, interval)
    ensures
      var kept := Kept(SamplerState(interval, None), times);
      Subsequence(kept, times) && Apart(kept, interval) && |chosen| <= |kept|
  {
    KeptIsAdmissible(SamplerState(interval, None), times);
    GreedyStaysAhead(SamplerState(interval, None), times, chosen);
  }

  /** A clock that steps back loses optimality: three spaced frames exist, one is kept. */
  lemma BackwardClockLosesFrames()
    ensures
      var times := [100, 0, 10, 20];
      var kept := Kept(SamplerState(10, None), times);
      Subsequence([0, 10, 20], times) && Apart([0, 10, 20], 10) && |kept| == 1
  {
    var s := SamplerState(10, Some(100));
    assert Subsequence([0, 10, 20], [0, 10, 20]) by {
      assert Subsequence([20], [20]) && [10, 20][1..] == [20] && [0, 10, 20][1..] == [10, 20];
      assert Subsequence([10, 20], [10, 20]);
    }
    assert [100, 0, 10, 20][1..] == [0, 10, 20];
    assert [0, 10, 20][1..] == [10, 20] && [10, 20][1..] == [20] && [20][1..] == [];
    assert Kept(s, [20]) == [] && Kept(s, [10, 20]) == [] && Kept(s, [0, 10, 20]) == [];
  }

  /** Spacing accumulates: the i-th and j-th members are `j - i` intervals apart. */
  lemma {:induction false} ApartAccumulates(times: seq<int>, interval: nat, i: nat, j: nat)
    requires Apart(times, interval) && i <= j < |times|
    ensures times[j] - times[i] >= (j - i) * interval
    decreases j - i
  {
    if i < j {
      ApartAccumulates(times, interval, i, j - 1);
      assert times[j - 1 + 1] - times[j - 1] >= interval;
      assert (j - i) * interval == (j - 1 - i) * interval + interval;
    }
  }

  /** The rate bound, on any stream at all: `kept - 1` intervals fit between first and last. */
  lemma RateIsBounded(interval: nat, last: Option<int>, times: seq<int>)
    ensures
      var kept := Kept(SamplerState(interval, last), times);
      kept != [] ==> (|kept| - 1) * interval <= kept[|kept| - 1] - kept[0]
  {
    var s := SamplerState(interval, last);
    KeptIsAdmissible(s, times);
    var kept := Kept(s, times);
    if kept != [] {
      ApartAccumulates(kept, interval, 0, |kept| - 1);
    }
  }
}
