/**
  One camera session (app/vision/session.py): producer tasks, consumer tasks and the
  lifecycle calls, interleaved at their suspension points.

  Each `Step` is a stretch of code between two awaits. `Apply` ignores a step that is not
  enabled, so a sequence of steps, whatever it is, is a possible schedule. `start` is accepted
  in every state but RUNNING and PAUSED, so a session can be started again, while it stops or
  after it ended: each start adds a generation of one producer and one consumer, and the
  tasks of an earlier generation run on. The class `VisionSession` performs the same
  stretches in place.
*/
module Sessions {
  import opened Basics
  import opened Frames

  datatype SessionState = Created | Running | Paused | Stopping | Stopped | Failed {
    predicate IsActive() {
      Running? || Paused?
    }
  }

  datatype Producer = Live | Finished

  /** Where a consumer task is suspended, or that it is about to call `get`. */
  datatype Consumer = Polling | Waiting | Handling(index: nat) | Gone

  datatype SessionStats = SessionStats(
    received: nat,
    processed: nat,
    dropped: nat,
    processingErrors: nat,
    totalProcessingMs: real,
    firstFrameAtNs: Option<int>,
    lastFrameAtNs: Option<int>)

  /**
    A session and its history. `trace` holds the queue; `eras[i]` is the number of sampler
    resets before the i-th accepted frame was sampled; `handled` the accepted frames given
    to the handler; `droppedPaused` and `cancelled` split what the code counts together or
    not at all. `current` is the generation the session's task fields refer to, and `stops`
    holds, for each `stop` call under way, the generation it waits for.
  */
  datatype Session = Session(
    trace: QueueTrace,
    sampler: SamplerState,
    state: SessionState,
    paused: bool,
    error: bool,
    stats: SessionStats,
    producers: seq<Producer>,
    consumers: seq<Consumer>,
    current: Option<nat>,
    stops: multiset<Option<nat>>,
    era: nat,
    eras: seq<nat>,
    handled: seq<nat>,
    droppedPaused: nat,
    cancelled: nat)

  datatype Step =
    | Start
    | Pause
    | Resume
    | StopBegin
    | StopFinish(target: Option<nat>)
    | Frame(p: nat, frame: LiveFrame)
    | SourceEnds(p: nat)
    | SourceFails(p: nat)
    | ProducerCancelled(p: nat)
    | ConsumerPolls(c: nat)
    | HandlerReturns(c: nat, elapsedMs: real)
    | HandlerRaises(c: nat)
    | ConsumerCancelled(c: nat)

  const NO_STATS := SessionStats(0, 0, 0, 0, 0.0, None, None)

  function NewSession(capacity: nat, intervalNs: nat): Session {
    Session(NewTrace(capacity), SamplerState(intervalNs, None), Created, false, false, NO_STATS,
            [], [], None, multiset{}, 0, [], [], 0, 0)
  }

  /* ------------------------------------------------------------------- steps */

  /** `start`: nothing on an active session, else a new generation of tasks and RUNNING. */
  function Started(s: Session): Session {
    if s.state.IsActive() then s
    else s.(state := Running, error := false, producers := s.producers + [Live],
            consumers := s.consumers + [Polling], current := Some(|s.producers|))
  }

  function PausedBy(s: Session): Session {
    if s.state.Running? then s.(paused := true, state := Paused) else s
  }

  function ResumedBy(s: Session): Session {
    if s.state.Paused? then s.(paused := false, sampler := s.sampler.Reset(), state := Running, era := s.era + 1)
    else s
  }

  /** `stop` up to its first await: a session that never ran or already ended just says STOPPED. */
  function StopBegun(s: Session): Session {
    if s.state.Stopped? || s.state.Created? then s.(state := Stopped)
    else s.(state := Stopping, trace := ShutDown(s.trace), stops := s.stops + multiset{s.current})
  }

  /** The tail of a `stop`, after the tasks it waited for are over. */
  function StopFinished(s: Session, target: Option<nat>): Session {
    s.(trace := Discarded(s.trace), state := Stopped, current := None, stops := s.stops - multiset{target})
  }

  function Received(s: Session): Session {
    s.(stats := s.stats.(received := s.stats.received + 1))
  }

  function SampledOut(s: Session): Session {
    s.(stats := s.stats.(dropped := s.stats.dropped + 1), trace := SampleCounted(s.trace))
  }

  /** The body of `async for` in `_produce`. */
  function Produced(s: Session, frame: LiveFrame): Session {
    if s.sampler.Due(frame.capturedAtNs) then
      Admitted(Received(s), frame, Offered(s.trace, frame), s.trace.q.Put(frame).1)
    else
      SampledOut(Received(s))
  }

  /** The part of that body after the sampler said yes, given what `put` did. */
  function Admitted(s: Session, frame: LiveFrame, trace: QueueTrace, dropped: Option<DropReason>): Session {
    s.(sampler := s.sampler.Accept(frame.capturedAtNs),
       trace := trace,
       stats := if dropped == Some(QueueFull) then s.stats.(dropped := s.stats.dropped + 1) else s.stats,
       eras := if dropped == Some(ShuttingDown) then s.eras else s.eras + [s.era])
  }

  /** The `finally` of `_produce`. */
  function ProducerOver(s: Session, p: nat): Session
    requires p < |s.producers|
  {
    s.(trace := ShutDown(s.trace), producers := s.producers[p := Finished])
  }

  /** `_produce` on an exception, and then that `finally`. */
  function ProducerFailed(s: Session, p: nat): Session
    requires p < |s.producers|
  {
    ProducerOver(s.(error := true, state := Failed), p)
  }

  function StateAtEnd(s: Session): SessionState {
    if s.state.Stopping? || s.state.Stopped? then s.state else if s.error then Failed else Stopped
  }

  /** The `finally` of `_consume`. */
  function ConsumerOver(s: Session, c: nat): Session
    requires c < |s.consumers|
  {
    s.(consumers := s.consumers[c := Gone], state := StateAtEnd(s))
  }

  /** One pass of the loop in `_consume` up to the handler, the next suspension or the end. */
  function Polled(s: Session, c: nat): Session
    requires c < |s.consumers|
  {
    var (trace, r) := TakenBy(s.trace, s.consumers[c].Waiting?);
    PolledTo(s, c, trace, r)
  }

  /** That pass, given what `get` did. */
  function PolledTo(s: Session, c: nat, trace: QueueTrace, r: Poll): Session
    requires c < |s.consumers|
  {
    match r
    case Suspended => s.(trace := trace, consumers := s.consumers[c := Waiting])
    case Ended => ConsumerOver(s.(trace := trace), c)
    case Got(_) =>
      if s.paused then
        s.(trace := trace, consumers := s.consumers[c := Polling], droppedPaused := s.droppedPaused + 1,
           stats := s.stats.(dropped := s.stats.dropped + 1))
      else
        s.(trace := trace, consumers := s.consumers[c := Handling(s.trace.head)], handled := s.handled + [s.trace.head])
  }

  function StatsHandled(stats: SessionStats, at: int, elapsedMs: real): SessionStats {
    stats.(processed := stats.processed + 1,
           totalProcessingMs := stats.totalProcessingMs + elapsedMs,
           lastFrameAtNs := Some(at),
           firstFrameAtNs := if stats.firstFrameAtNs.None? then Some(at) else stats.firstFrameAtNs)
  }

  function Handled(s: Session, c: nat, at: int, elapsedMs: real): Session
    requires c < |s.consumers|
  {
    s.(consumers := s.consumers[c := Polling], stats := StatsHandled(s.stats, at, elapsedMs))
  }

  function Errored(s: Session, c: nat): Session
    requires c < |s.consumers|
  {
    s.(consumers := s.consumers[c := Polling], stats := s.stats.(processingErrors := s.stats.processingErrors + 1))
  }

  /** Cancellation at a consumer's await: inside the handler it costs the frame in hand. */
  function ConsumerCut(s: Session, c: nat): Session
    requires c < |s.consumers|
  {
    ConsumerOver(s.(trace := if s.consumers[c].Waiting? then Abandoned(s.trace) else s.trace,
                    cancelled := s.cancelled + (if s.consumers[c].Handling? then 1 else 0)), c)
  }

  predicate ProducerLive(s: Session, p: nat) {
    p < |s.producers| && s.producers[p].Live?
  }

  predicate ConsumerLive(s: Session, c: nat) {
    c < |s.consumers| && !s.consumers[c].Gone?
  }

  predicate InHandler(s: Session, c: nat) {
    c < |s.consumers| && s.consumers[c].Handling? && s.consumers[c].index < |s.trace.log|
  }

  predicate Enabled(s: Session, step: Step) {
    match step
    case Start => true
    case Pause => true
    case Resume => true
    case StopBegin => true
    case StopFinish(target) =>
      target in s.stops && (target.Some? ==> !ProducerLive(s, target.value) && !ConsumerLive(s, target.value))
    case Frame(p, _) => ProducerLive(s, p)
    case SourceEnds(p) => ProducerLive(s, p)
    case SourceFails(p) => ProducerLive(s, p)
    case ProducerCancelled(p) => ProducerLive(s, p) && Some(p) in s.stops
    case ConsumerPolls(c) =>
      c < |s.consumers| && (s.consumers[c].Polling? || (s.consumers[c].Waiting? && !s.trace.q.waiter.Pending?))
    case HandlerReturns(c, _) => InHandler(s, c)
    case HandlerRaises(c) => InHandler(s, c)
    case ConsumerCancelled(c) => ConsumerLive(s, c) && Some(c) in s.stops
  }

  function Apply(s: Session, step: Step): Session {
    if !Enabled(s, step) then s else
    match step
    case Start => Started(s)
    case Pause => PausedBy(s)
    case Resume => ResumedBy(s)
    case StopBegin => StopBegun(s)
    case StopFinish(target) => StopFinished(s, target)
    case Frame(_, frame) => Produced(s, frame)
    case SourceEnds(p) => ProducerOver(s, p)
    case SourceFails(p) => ProducerFailed(s, p)
    case ProducerCancelled(p) => ProducerOver(s, p)
    case ConsumerPolls(c) => Polled(s, c)
    case HandlerReturns(c, elapsedMs) => Handled(s, c, s.trace.log[s.consumers[c].index].capturedAtNs, elapsedMs)
    case HandlerRaises(c) => Errored(s, c)
    case ConsumerCancelled(c) => ConsumerCut(s, c)
  }

  function Run(s: Session, steps: seq<Step>): Session
    decreases |steps|
  {
    if steps == [] then s else Run(Apply(s, steps[0]), steps[1..])
  }

  lemma {:induction false} RunOneMore(s: Session, steps: seq<Step>, step: Step)
    ensures Run(s, steps + [step]) == Apply(Run(s, steps), step)
    decreases |steps|
  {
    if steps == [] {
      assert [] + [step] == [step] && [step][1..] == [];
    } else {
      RunOneMore(Apply(s, steps[0]), steps[1..], step);
      assert (steps + [step])[1..] == steps[1..] + [step];
    }
  }

  /* ---------------------------------------------------------------- counting tasks */

  /** Frames in a handler's hands. */
  function InHand(consumers: seq<Consumer>): nat {
    if consumers == [] then 0
    else InHand(consumers[..|consumers| - 1]) + (if consumers[|consumers| - 1].Handling? then 1 else 0)
  }

  /** Consumers that have not ended. */
  function Alive(consumers: seq<Consumer>): nat {
    if consumers == [] then 0
    else Alive(consumers[..|consumers| - 1]) + (if consumers[|consumers| - 1].Gone? then 0 else 1)
  }

  lemma {:induction false} CountsAfterUpdate(consumers: seq<Consumer>, c: nat, x: Consumer)
    requires c < |consumers|
    ensures InHand(consumers[c := x]) - (if x.Handling? then 1 else 0)
         == InHand(consumers) - (if consumers[c].Handling? then 1 else 0)
    ensures Alive(consumers[c := x]) - (if x.Gone? then 0 else 1)
         == Alive(consumers) - (if consumers[c].Gone? then 0 else 1)
    decreases |consumers|
  {
    var n := |consumers| - 1;
    if c < n {
      CountsAfterUpdate(consumers[..n], c, x);
      assert consumers[c := x][..n] == consumers[..n][c := x];
    } else {
      assert consumers[c := x][..n] == consumers[..n];
    }
  }

  lemma CountsAfterStart(consumers: seq<Consumer>)
    ensures InHand(consumers + [Polling]) == InHand(consumers) && Alive(consumers + [Polling]) == Alive(consumers) + 1
  {
    assert (consumers + [Polling])[..|consumers|] == consumers;
  }

  lemma {:induction false} HandsAreAlive(consumers: seq<Consumer>)
    ensures InHand(consumers) <= Alive(consumers) <= |consumers|
    decreases |consumers|
  {
    if consumers != [] {
      HandsAreAlive(consumers[..|consumers| - 1]);
    }
  }

  /* -------------------------------------------------------------- invariants */

  /** Which side of the queue each counter belongs to. */
  ghost predicate Balanced(s: Session) {
    && s.stats.received == s.trace.q.droppedSampled + s.trace.q.accepted + s.trace.q.droppedShutdown
    && |s.trace.taken| == |s.handled| + s.droppedPaused
    && |s.handled| == s.stats.processed + s.stats.processingErrors + InHand(s.consumers) + s.cancelled
    && s.stats.dropped == s.trace.q.droppedSampled + s.trace.q.droppedQueueFull + s.droppedPaused
    && s.cancelled + Alive(s.consumers) <= |s.consumers|
  }

  /** Only the first generation ever waits: a later one starts on a queue already closed. */
  ghost predicate Parked(s: Session) {
    && (s.trace.waiting <==> s.consumers != [] && s.consumers[0].Waiting?)
    && (forall c :: 1 <= c < |s.consumers| ==> !s.consumers[c].Waiting?)
    && (|s.consumers| >= 2 ==> s.trace.q.closed)
  }

  /** A session that never started: nothing to stop, and the queue open. */
  ghost predicate NotBegun(s: Session) {
    (s.state.Created? || s.state.Stopped?) && s.stops == multiset{} && s.current.None? && !s.trace.q.closed
  }

  /** The tasks and the state they report. */
  ghost predicate Coherent(s: Session) {
    && |s.producers| == |s.consumers|
    && (s.state.Created? ==> s.consumers == [])
    && (s.consumers == [] ==> NotBegun(s))
    && (s.consumers != [] && !s.state.IsActive() ==> s.trace.q.closed)
    && (forall p :: 0 <= p < |s.producers| && s.producers[p].Finished? ==> s.trace.q.closed)
    && (forall c :: 0 <= c < |s.consumers| && s.consumers[c].Gone? ==> s.trace.q.closed)
    && (forall c :: 0 <= c < |s.consumers| && s.consumers[c].Handling? ==> s.consumers[c].index < s.trace.head)
    && (forall t :: t in s.stops ==> s.trace.q.closed && (t.Some? ==> t.value < |s.consumers|))
    && (s.current.Some? ==> s.current.value < |s.consumers|)
    && Parked(s)
  }

  /** Within one era the accepted frames keep the sampling interval. */
  ghost predicate Spaced(log: seq<LiveFrame>, eras: seq<nat>, era: nat, sampler: SamplerState, closed: bool) {
    && |eras| == |log|
    && (forall i, j :: 0 <= i < j < |eras| ==> eras[i] <= eras[j])
    && (forall i :: 0 <= i < |eras| ==> eras[i] <= era)
    && (forall i, j :: 0 <= i < j < |eras| && j == i + 1 && eras[i] == eras[j] ==>
          log[j].capturedAtNs - log[i].capturedAtNs >= sampler.intervalNs)
    && (!closed && eras != [] && eras[|eras| - 1] == era ==>
          sampler.lastNs == Some(log[|log| - 1].capturedAtNs))
  }

  /** Handled frames are deliveries, in delivery order. */
  ghost predicate HandledInOrder(handled: seq<nat>, head: nat) {
    && StrictlyIncreasing(handled)
    && (forall i :: 0 <= i < |handled| ==> handled[i] < head)
  }

  ghost predicate SpacedNow(s: Session) {
    Spaced(s.trace.log, s.eras, s.era, s.sampler, s.trace.q.closed)
  }

  ghost predicate Inv(s: Session) {
    && Sound(s.trace)
    && Balanced(s)
    && Coherent(s)
    && SpacedNow(s)
    && HandledInOrder(s.handled, s.trace.head)
  }

  lemma AdmittedKeepsTasks(s: Session, frame: LiveFrame, trace: QueueTrace, dropped: Option<DropReason>)
    requires Coherent(s) && OfferEffect(s.trace, frame, trace, dropped)
    ensures Coherent(Admitted(s, frame, trace, dropped))
  {
  }

  lemma AdmittedKeepsSpacing(s: Session, frame: LiveFrame, trace: QueueTrace, dropped: Option<DropReason>)
    requires SpacedNow(s) && OfferEffect(s.trace, frame, trace, dropped) && s.sampler.Due(frame.capturedAtNs)
    ensures SpacedNow(Admitted(s, frame, trace, dropped))
  {
  }

  lemma AdmittedKeepsCounts(s: Session, frame: LiveFrame, trace: QueueTrace, dropped: Option<DropReason>)
    requires Balanced(s) && OfferEffect(s.trace, frame, trace, dropped)
    ensures Balanced(Admitted(Received(s), frame, trace, dropped))
  {
  }

  lemma SampledOutKeepsInv(s: Session)
    requires Inv(s)
    ensures Inv(SampledOut(Received(s)))
  {
    SampleKeepsSound(s.trace);
    SampledOutKeepsTasks(Received(s));
  }

  lemma SampledOutKeepsTasks(s: Session)
    requires Coherent(s)
    ensures Coherent(SampledOut(s))
  {
  }

  lemma AdmittedKeepsInv(s: Session, frame: LiveFrame)
    requires Inv(s) && s.sampler.Due(frame.capturedAtNs)
    ensures Inv(Admitted(Received(s), frame, Offered(s.trace, frame), s.trace.q.Put(frame).1))
  {
    var trace, dropped := Offered(s.trace, frame), s.trace.q.Put(frame).1;
    OfferKeepsSound(s.trace, frame);
    OfferHasEffect(s.trace, frame);
    AdmittedKeepsTasks(Received(s), frame, trace, dropped);
    AdmittedKeepsSpacing(Received(s), frame, trace, dropped);
    AdmittedKeepsCounts(s, frame, trace, dropped);
  }

  lemma ProducedKeepsInv(s: Session, frame: LiveFrame)
    requires Inv(s)
    ensures Inv(Produced(s, frame))
  {
    if s.sampler.Due(frame.capturedAtNs) {
      AdmittedKeepsInv(s, frame);
    } else {
      SampledOutKeepsInv(s);
    }
  }

  lemma PolledToKeepsCounts(s: Session, c: nat, trace: QueueTrace, r: Poll)
    requires Balanced(s) && HandledInOrder(s.handled, s.trace.head)
    requires c < |s.consumers| && (s.consumers[c].Polling? || s.consumers[c].Waiting?)
    requires TakeEffect(s.trace, s.consumers[c].Waiting?, trace, r)
    ensures Balanced(PolledTo(s, c, trace, r)) && HandledInOrder(PolledTo(s, c, trace, r).handled, trace.head)
  {
    CountsAfterUpdate(s.consumers, c, PolledTo(s, c, trace, r).consumers[c]);
  }

  lemma PolledToKeepsTasks(s: Session, c: nat, trace: QueueTrace, r: Poll)
    requires Coherent(s)
    requires c < |s.consumers| && (s.consumers[c].Polling? || s.consumers[c].Waiting?)
    requires TakeEffect(s.trace, s.consumers[c].Waiting?, trace, r)
    ensures Coherent(PolledTo(s, c, trace, r))
  {
    var s' := PolledTo(s, c, trace, r);
    assert forall d :: 0 <= d < |s.consumers| && d != c ==> s'.consumers[d] == s.consumers[d];
    if r.Suspended? {
      assert c == 0;
    }
  }

  /** A consumer that is not the parked one polls a closed queue, if anybody is parked. */
  lemma PollIsAllowed(s: Session, c: nat)
    requires Coherent(s) && Sound(s.trace) && Enabled(s, ConsumerPolls(c))
    ensures MayTake(s.trace, s.consumers[c].Waiting?)
  {
  }

  lemma PolledKeepsInv(s: Session, c: nat)
    requires Inv(s) && Enabled(s, ConsumerPolls(c))
    ensures Inv(Polled(s, c))
  {
    var parked := s.consumers[c].Waiting?;
    var (trace, r) := TakenBy(s.trace, parked);
    PollIsAllowed(s, c);
    TakeKeepsSound(s.trace, parked);
    TakeHasEffect(s.trace, parked);
    PolledToKeepsCounts(s, c, trace, r);
    PolledToKeepsTasks(s, c, trace, r);
    PolledToKeepsSamples(s, c, trace, r);
  }

  lemma PolledToKeepsSamples(s: Session, c: nat, trace: QueueTrace, r: Poll)
    requires SpacedNow(s) && c < |s.consumers| && TakeEffect(s.trace, s.consumers[c].Waiting?, trace, r)
    ensures SpacedNow(PolledTo(s, c, trace, r)) && PolledTo(s, c, trace, r).trace == trace
  {
  }

  lemma ProducerOverKeepsInv(s: Session, p: nat)
    requires Inv(s) && p < |s.producers|
    ensures Inv(ProducerOver(s, p)) && Inv(ProducerFailed(s, p))
  {
    ShutKeepsSound(s.trace);
  }

  lemma ConsumerCutKeepsInv(s: Session, c: nat)
    requires Inv(s) && Enabled(s, ConsumerCancelled(c))
    ensures Inv(ConsumerCut(s, c))
  {
    AbandonKeepsSound(s.trace);
    CountsAfterUpdate(s.consumers, c, Gone);
    CutKeepsTasks(s, c);
  }

  lemma CutKeepsTasks(s: Session, c: nat)
    requires Coherent(s) && Enabled(s, ConsumerCancelled(c))
    ensures Coherent(ConsumerCut(s, c))
  {
    var s' := ConsumerCut(s, c);
    assert forall d :: 0 <= d < |s.consumers| && d != c ==> s'.consumers[d] == s.consumers[d];
    if s.consumers[c].Waiting? {
      assert c == 0;
    }
  }

  lemma StopBegunKeepsTasks(s: Session)
    requires Coherent(s)
    ensures Coherent(StopBegun(s))
  {
  }

  lemma StopBegunKeepsInv(s: Session)
    requires Inv(s)
    ensures Inv(StopBegun(s))
  {
    ShutKeepsSound(s.trace);
    StopBegunKeepsTasks(s);
  }

  lemma StopFinishedKeepsInv(s: Session, target: Option<nat>)
    requires Inv(s) && target in s.stops
    ensures Inv(StopFinished(s, target))
  {
    DiscardKeepsSound(s.trace);
  }

  lemma StartedKeepsInv(s: Session)
    requires Inv(s)
    ensures Inv(Started(s))
  {
    CountsAfterStart(s.consumers);
    StartedKeepsTasks(s);
  }

  lemma StartedKeepsTasks(s: Session)
    requires Coherent(s)
    ensures Coherent(Started(s))
  {
    var s' := Started(s);
    assert forall c :: 0 <= c < |s.consumers| ==> s'.consumers[c] == s.consumers[c];
    assert forall p :: 0 <= p < |s.producers| ==> s'.producers[p] == s.producers[p];
  }

  lemma PauseKeepsInv(s: Session)
    requires Inv(s)
    ensures Inv(PausedBy(s))
  {
  }

  lemma ResumeKeepsTasks(s: Session)
    requires Coherent(s)
    ensures Coherent(ResumedBy(s))
  {
  }

  lemma ResumeKeepsSpacing(s: Session)
    requires SpacedNow(s)
    ensures SpacedNow(ResumedBy(s))
  {
  }

  lemma ResumeKeepsInv(s: Session)
    requires Inv(s)
    ensures Inv(ResumedBy(s))
  {
    ResumeKeepsTasks(s);
    ResumeKeepsSpacing(s);
  }

  lemma HandlerKeepsInv(s: Session, c: nat, at: int, elapsedMs: real)
    requires Inv(s) && c < |s.consumers| && s.consumers[c].Handling?
    ensures Inv(Handled(s, c, at, elapsedMs)) && Inv(Errored(s, c))
  {
    CountsAfterUpdate(s.consumers, c, Polling);
    BackToPolling(s, c);
  }

  lemma BackToPolling(s: Session, c: nat)
    requires Coherent(s) && c < |s.consumers| && s.consumers[c].Handling?
    ensures Coherent(s.(consumers := s.consumers[c := Polling]))
  {
  }

  lemma TaskStepKeepsInv(s: Session, step: Step)
    requires Inv(s) && Enabled(s, step)
    requires step.Frame? || step.SourceEnds? || step.SourceFails? || step.ProducerCancelled?
    ensures Inv(Apply(s, step))
  {
    match step
    case Frame(_, frame) => ProducedKeepsInv(s, frame);
    case SourceEnds(p) => ProducerOverKeepsInv(s, p);
    case SourceFails(p) => ProducerOverKeepsInv(s, p);
    case ProducerCancelled(p) => ProducerOverKeepsInv(s, p);
  }

  lemma ConsumerStepKeepsInv(s: Session, step: Step)
    requires Inv(s) && Enabled(s, step)
    requires step.ConsumerPolls? || step.HandlerReturns? || step.HandlerRaises? || step.ConsumerCancelled?
    ensures Inv(Apply(s, step))
  {
    match step
    case ConsumerPolls(c) => PolledKeepsInv(s, c);
    case HandlerReturns(c, elapsedMs) =>
      HandlerKeepsInv(s, c, s.trace.log[s.consumers[c].index].capturedAtNs, elapsedMs);
    case HandlerRaises(c) => HandlerKeepsInv(s, c, 0, 0.0);
    case ConsumerCancelled(c) => ConsumerCutKeepsInv(s, c);
  }

  lemma CallKeepsInv(s: Session, step: Step)
    requires Inv(s) && Enabled(s, step)
    requires step.Start? || step.Pause? || step.Resume? || step.StopBegin? || step.StopFinish?
    ensures Inv(Apply(s, step))
  {
    match step
    case Start => StartedKeepsInv(s);
    case Pause => PauseKeepsInv(s);
    case Resume => ResumeKeepsInv(s);
    case StopBegin => StopBegunKeepsInv(s);
    case StopFinish(target) => StopFinishedKeepsInv(s, target);
  }

  lemma ApplyKeepsInv(s: Session, step: Step)
    requires Inv(s)
    ensures Inv(Apply(s, step))
  {
    if Enabled(s, step) {
      if step.Start? || step.Pause? || step.Resume? || step.StopBegin? || step.StopFinish? {
        CallKeepsInv(s, step);
      } else if step.Frame? || step.SourceEnds? || step.SourceFails? || step.ProducerCancelled? {
        TaskStepKeepsInv(s, step);
      } else {
        ConsumerStepKeepsInv(s, step);
      }
    }
  }

  lemma {:induction false} RunKeepsInv(s: Session, steps: seq<Step>)
    requires Inv(s)
    ensures Inv(Run(s, steps))
    decreases |steps|
  {
    if steps != [] {
      ApplyKeepsInv(s, steps[0]);
      RunKeepsInv(Apply(s, steps[0]), steps[1..]);
    }
  }

  lemma NewSessionInv(capacity: nat, intervalNs: nat)
    requires capacity >= 1
    ensures Inv(NewSession(capacity, intervalNs))
  {
  }

  /* ---------------------------------------------------------------- theorems */

  /** How often a schedule calls `start`. */
  function Starts(steps: seq<Step>): nat {
    if steps == [] then 0 else (if steps[0].Start? then 1 else 0) + Starts(steps[1..])
  }

  lemma GenerationsStep(s: Session, step: Step)
    ensures |Apply(s, step).consumers| <= |s.consumers| + (if step.Start? then 1 else 0)
  {
  }

  lemma OnlyStopClears(s: Session, step: Step)
    requires !step.StopFinish?
    ensures Apply(s, step).trace.cleared == s.trace.cleared
  {
  }

  /** A generation for each start that took effect, and only a finished `stop` clears the queue. */
  lemma {:induction false} GenerationsAndClears(s: Session, steps: seq<Step>)
    ensures |Run(s, steps).consumers| <= |s.consumers| + Starts(steps)
    ensures (forall i :: 0 <= i < |steps| ==> !steps[i].StopFinish?) ==> Run(s, steps).trace.cleared == s.trace.cleared
    decreases |steps|
  {
    if steps != [] {
      GenerationsStep(s, steps[0]);
      if !steps[0].StopFinish? {
        OnlyStopClears(s, steps[0]);
      }
      GenerationsAndClears(Apply(s, steps[0]), steps[1..]);
    }
  }

  /**
    Frame conservation over every schedule, restarts included. Every received frame was
    processed, failed, counted as dropped, refused by the closed queue, is queued, is in a
    handler's hands, was lost to a cancellation, or was released by the final clear of a
    `stop`; before the first such clear that term is zero, and frames in hand or lost to a
    cancellation are at most one for each start. The session's drop count splits into its
    three causes.
  */
  lemma FramesAreConserved(capacity: nat, intervalNs: nat, steps: seq<Step>)
    requires capacity >= 1
    ensures
      var s := Run(NewSession(capacity, intervalNs), steps);
      && s.stats.received
           == s.stats.processed + s.stats.processingErrors + s.stats.dropped
              + s.trace.q.droppedShutdown + s.trace.q.depth
              + InHand(s.consumers) + s.cancelled + s.trace.cleared
      && InHand(s.consumers) + s.cancelled <= Starts(steps)
      && ((forall i :: 0 <= i < |steps| ==> !steps[i].StopFinish?) ==> s.trace.cleared == 0)
      && s.stats.dropped == s.trace.q.droppedSampled + s.trace.q.droppedQueueFull + s.droppedPaused
  {
    var s0 := NewSession(capacity, intervalNs);
    NewSessionInv(capacity, intervalNs);
    RunKeepsInv(s0, steps);
    GenerationsAndClears(s0, steps);
    HandsAreAlive(Run(s0, steps).consumers);
  }

  /** No schedule parks a consumer while there is a frame to take or an end to see. */
  lemma ConsumerNeverStuck(capacity: nat, intervalNs: nat, steps: seq<Step>, c: nat)
    requires capacity >= 1
    ensures
      var s := Run(NewSession(capacity, intervalNs), steps);
      (c < |s.consumers| && s.consumers[c].Waiting? && (s.trace.q.items != [] || s.trace.q.closed)) ==>
        Enabled(s, ConsumerPolls(c))
  {
    NewSessionInv(capacity, intervalNs);
    RunKeepsInv(NewSession(capacity, intervalNs), steps);
  }

  lemma {:induction false} AcceptedFramesApart(s: Session, i: nat, j: nat)
    requires SpacedNow(s) && i <= j < |s.trace.log| && s.eras[i] == s.eras[j]
    ensures s.trace.log[j].capturedAtNs - s.trace.log[i].capturedAtNs >= (j - i) * s.sampler.intervalNs
    decreases j - i
  {
    if i < j {
      AcceptedFramesApart(s, i, j - 1);
      assert s.eras[j - 1] == s.eras[j - 1 + 1];
      assert (j - i) * s.sampler.intervalNs == (j - 1 - i) * s.sampler.intervalNs + s.sampler.intervalNs;
    }
  }

  lemma {:induction false} IndicesSpread(xs: seq<nat>, a: nat, b: nat)
    requires StrictlyIncreasing(xs) && a <= b < |xs|
    ensures xs[b] - xs[a] >= b - a
    decreases b - a
  {
    if a < b {
      IndicesSpread(xs, a, b - 1);
    }
  }

  /**
    Order and pacing at the handler, over every schedule: the frames it is given are the
    accepted ones in acceptance order, each at most once; and two of them sampled between
    the same two resets are at least one interval apart for every handled frame between.
  */
  lemma HandlerIsPaced(capacity: nat, intervalNs: nat, steps: seq<Step>, a: nat, b: nat)
    requires capacity >= 1
    requires a < b < |Run(NewSession(capacity, intervalNs), steps).handled|
    ensures
      var s := Run(NewSession(capacity, intervalNs), steps);
      && s.handled[a] < s.handled[b] < |s.trace.log| == |s.eras|
      && (s.eras[s.handled[a]] == s.eras[s.handled[b]] ==>
            s.trace.log[s.handled[b]].capturedAtNs - s.trace.log[s.handled[a]].capturedAtNs
              >= (b - a) * s.sampler.intervalNs)
      && s.sampler.intervalNs == intervalNs
  {
    var s0 := NewSession(capacity, intervalNs);
    NewSessionInv(capacity, intervalNs);
    RunKeepsInv(s0, steps);
    RunKeepsInterval(s0, steps);
    var s := Run(s0, steps);
    var i, j := s.handled[a], s.handled[b];
    IndicesSpread(s.handled, a, b);
    if s.eras[i] == s.eras[j] {
      AcceptedFramesApart(s, i, j);
      ScaleMonotone(b - a, j - i, s.sampler.intervalNs);
    }
  }

  lemma ScaleMonotone(a: nat, b: nat, k: nat)
    requires a <= b
    ensures a * k <= b * k
  {
  }

  lemma {:induction false} RunKeepsInterval(s: Session, steps: seq<Step>)
    ensures Run(s, steps).sampler.intervalNs == s.sampler.intervalNs
    decreases |steps|
  {
    if steps != [] {
      IntervalStays(s, steps[0]);
      RunKeepsInterval(Apply(s, steps[0]), steps[1..]);
    }
  }

  lemma IntervalStays(s: Session, step: Step)
    ensures Apply(s, step).sampler.intervalNs == s.sampler.intervalNs
  {
  }

  /** A session that is not active becomes active by a `start` and by nothing else. */
  lemma OnlyStartActivates(s: Session, step: Step)
    requires !s.state.IsActive()
    ensures Apply(s, step).state.IsActive() <==> step.Start?
  {
  }

  lemma StaysStarted(s: Session, step: Step)
    requires !s.state.Created?
    ensures !Apply(s, step).state.Created?
  {
  }

  /** The session is RUNNING or PAUSED at some moment of the schedule. */
  ghost predicate EverActive(s: Session, steps: seq<Step>)
    decreases |steps|
  {
    s.state.IsActive() || (steps != [] && EverActive(Apply(s, steps[0]), steps[1..]))
  }

  ghost predicate HasStart(steps: seq<Step>) {
    exists i :: 0 <= i < |steps| && steps[i].Start?
  }

  lemma HasStartSplits(steps: seq<Step>)
    requires steps != []
    ensures HasStart(steps) <==> steps[0].Start? || HasStart(steps[1..])
  {
    var rest := steps[1..];
    if HasStart(rest) {
      var i :| 0 <= i < |rest| && rest[i].Start?;
      assert steps[i + 1].Start?;
    }
    if HasStart(steps) && !steps[0].Start? {
      var i :| 0 <= i < |steps| && steps[i].Start?;
      assert rest[i - 1].Start?;
    }
  }

  /** A session that is not active, however it came to that, is active again exactly if a `start` follows. */
  lemma {:induction false} ActiveAgainIffStarted(s: Session, steps: seq<Step>)
    requires !s.state.IsActive()
    ensures EverActive(s, steps) <==> HasStart(steps)
    decreases |steps|
  {
    if steps != [] {
      HasStartSplits(steps);
      OnlyStartActivates(s, steps[0]);
      if !steps[0].Start? {
        ActiveAgainIffStarted(Apply(s, steps[0]), steps[1..]);
      }
    }
  }

  /* ------------------------------------------------------------------ what stop leaves */

  predicate TasksOver(s: Session, g: nat) {
    !ProducerLive(s, g) && !ConsumerLive(s, g)
  }

  ghost predicate NoTasks(s: Session) {
    forall g: nat :: g < |s.consumers| ==> TasksOver(s, g)
  }

  /** The tail of a `stop`, whatever the schedule before it: STOPPED, nothing queued, the queue closed. */
  lemma StopEmptiesQueue(capacity: nat, intervalNs: nat, steps: seq<Step>, target: Option<nat>)
    requires capacity >= 1
    requires Enabled(Run(NewSession(capacity, intervalNs), steps), StopFinish(target))
    ensures
      var s := Apply(Run(NewSession(capacity, intervalNs), steps), StopFinish(target));
      s.state.Stopped? && s.trace.q.items == [] && s.trace.q.closed
  {
    NewSessionInv(capacity, intervalNs);
    RunKeepsInv(NewSession(capacity, intervalNs), steps);
  }

  ghost predicate NoStart(steps: seq<Step>) {
    forall i :: 0 <= i < |steps| ==> !steps[i].Start?
  }

  /** Without a start there are no more tasks than there were, and one that is over stays over. */
  ghost predicate NothingNew(s: Session, s': Session) {
    && |s'.producers| == |s.producers| && |s'.consumers| == |s.consumers|
    && forall g: nat :: TasksOver(s, g) ==> TasksOver(s', g)
  }

  lemma NothingNewFromCall(s: Session, step: Step)
    requires step.Pause? || step.Resume? || step.StopBegin? || step.StopFinish?
    ensures Apply(s, step).producers == s.producers && Apply(s, step).consumers == s.consumers
  {
  }

  lemma NothingNewFromProducer(s: Session, step: Step)
    requires step.Frame? || step.SourceEnds? || step.SourceFails? || step.ProducerCancelled?
    ensures NothingNew(s, Apply(s, step))
  {
    if step.Frame? {
      ProducedLeavesTasks(s, step.frame);
    }
  }

  lemma NothingNewFromConsumer(s: Session, step: Step)
    requires step.ConsumerPolls? || step.HandlerReturns? || step.HandlerRaises? || step.ConsumerCancelled?
    ensures NothingNew(s, Apply(s, step))
  {
    var s' := Apply(s, step);
    assert s'.producers == s.producers && |s'.consumers| == |s.consumers|;
    assert forall g: nat :: g < |s.consumers| && s.consumers[g].Gone? ==> s'.consumers[g].Gone?;
  }

  lemma NothingNewStep(s: Session, step: Step)
    requires !step.Start?
    ensures NothingNew(s, Apply(s, step))
  {
    if step.Pause? || step.Resume? || step.StopBegin? || step.StopFinish? {
      NothingNewFromCall(s, step);
    } else if step.Frame? || step.SourceEnds? || step.SourceFails? || step.ProducerCancelled? {
      NothingNewFromProducer(s, step);
    } else {
      NothingNewFromConsumer(s, step);
    }
  }

  lemma {:induction false} NothingNewRun(s: Session, steps: seq<Step>)
    requires NoStart(steps)
    ensures NothingNew(s, Run(s, steps))
    decreases |steps|
  {
    if steps != [] {
      NothingNewStep(s, steps[0]);
      NothingNewRun(Apply(s, steps[0]), steps[1..]);
    }
  }

  /** What a `stop` called now leaves when its tail runs, after a schedule without a start. */
  ghost predicate LeavesNothingAfter(s: Session, steps: seq<Step>) {
    var s' := Run(StopBegun(s), steps);
    NoStart(steps) && Enabled(s', StopFinish(s.current)) ==> NoTasks(StopFinished(s', s.current))
  }

  lemma QuietStopLeavesNothing(s: Session, steps: seq<Step>)
    requires forall g: nat :: g < |s.consumers| && Some(g) != s.current ==> TasksOver(s, g)
    ensures LeavesNothingAfter(s, steps)
  {
    var s' := Run(StopBegun(s), steps);
    if NoStart(steps) && Enabled(s', StopFinish(s.current)) {
      NothingNewRun(StopBegun(s), steps);
      forall g: nat | g < |s'.consumers|
        ensures TasksOver(StopFinished(s', s.current), g)
      {
        if Some(g) != s.current {
          assert TasksOver(s, g) && TasksOver(StopBegun(s), g);
        }
        assert TasksOver(s', g);
      }
    }
  }

  /** The shortest way to the tail: both tasks the stop waits for are cancelled. */
  function Cancellations(target: Option<nat>): seq<Step> {
    match target
    case None => []
    case Some(c) => [ProducerCancelled(c)] + [ConsumerCancelled(c)]
  }

  lemma CancelledTaskIsOver(s: Session, c: nat)
    requires Some(c) in s.stops
    ensures
      var s' := Apply(Apply(s, ProducerCancelled(c)), ConsumerCancelled(c));
      && s'.stops == s.stops && |s'.consumers| == |s.consumers| && TasksOver(s', c)
      && (forall g: nat :: g != c ==> (ProducerLive(s', g) <==> ProducerLive(s, g)))
      && (forall g: nat :: g != c ==> (ConsumerLive(s', g) <==> ConsumerLive(s, g)))
  {
    var s1 := Apply(s, ProducerCancelled(c));
    assert s1.consumers == s.consumers && s1.stops == s.stops && !ProducerLive(s1, c);
    assert forall g: nat :: g != c ==> (ProducerLive(s1, g) <==> ProducerLive(s, g));
    var s2 := Apply(s1, ConsumerCancelled(c));
    assert s2.producers == s1.producers;
  }

  lemma CancellationsReachTail(s: Session)
    requires !s.state.Stopped? && !s.state.Created?
    ensures
      var s' := Run(StopBegun(s), Cancellations(s.current));
      && NoStart(Cancellations(s.current)) && Enabled(s', StopFinish(s.current))
      && |s'.consumers| == |s.consumers|
      && forall g: nat :: Some(g) != s.current ==> (TasksOver(s', g) <==> TasksOver(s, g))
  {
    var s0 := StopBegun(s);
    assert forall g: nat :: TasksOver(s0, g) <==> TasksOver(s, g);
    match s.current
    case None =>
    case Some(c) =>
      RunOneMore(s0, [ProducerCancelled(c)], ConsumerCancelled(c));
      RunOneMore(s0, [], ProducerCancelled(c));
      assert [] + [ProducerCancelled(c)] == [ProducerCancelled(c)];
      CancelledTaskIsOver(s0, c);
  }

  /**
    "No orphan task", at the call: a `stop` of a session that has not ended leaves no task,
    whatever happens before its tail short of a new start, exactly when no generation but
    the one it is going to wait for has a task at the moment of the call.
  */
  lemma StopLeavesNothingIff(s: Session)
    requires !s.state.Stopped? && !s.state.Created?
    ensures (forall steps :: LeavesNothingAfter(s, steps))
       <==> forall g: nat :: g < |s.consumers| && Some(g) != s.current ==> TasksOver(s, g)
  {
    if forall g: nat :: g < |s.consumers| && Some(g) != s.current ==> TasksOver(s, g) {
      forall steps
        ensures LeavesNothingAfter(s, steps)
      {
        QuietStopLeavesNothing(s, steps);
      }
    }
    if forall steps :: LeavesNothingAfter(s, steps) {
      CancellationsReachTail(s);
      assert LeavesNothingAfter(s, Cancellations(s.current));
      var s' := Run(StopBegun(s), Cancellations(s.current));
      forall g: nat | g < |s.consumers| && Some(g) != s.current
        ensures TasksOver(s, g)
      {
        assert TasksOver(StopFinished(s', s.current), g) == TasksOver(s', g);
      }
    }
  }

  /** A session started at most once: what its state says about its two tasks. */
  ghost predicate SingleRun(s: Session) {
    && |s.producers| == |s.consumers| <= 1
    && (s.consumers == [] ==> s.stops == multiset{} && s.current.None? && (s.state.Created? || s.state.Stopped?))
    && (s.consumers != [] ==> RunsAlone(s))
  }

  ghost predicate RunsAlone(s: Session) {
    && !s.state.Created?
    && (s.state.Stopped? ==> TasksOver(s, 0))
    && (s.state.IsActive() && s.trace.q.closed ==> !ProducerLive(s, 0))
    && (s.state.IsActive() ==> s.stops == multiset{})
    && (s.state.Failed? ==> s.error)
    && (forall t :: t in s.stops ==> t == Some(0) || TasksOver(s, 0))
    && (s.current == Some(0) || (s.current.None? && TasksOver(s, 0)))
  }

  lemma SingleRunStart(s: Session)
    requires SingleRun(s) && s.consumers == [] && !s.trace.q.closed
    ensures SingleRun(Started(s))
  {
  }

  lemma SingleRunPause(s: Session)
    requires SingleRun(s)
    ensures SingleRun(PausedBy(s)) && SingleRun(ResumedBy(s))
  {
  }

  lemma SingleRunStop(s: Session)
    requires SingleRun(s)
    ensures SingleRun(StopBegun(s))
  {
  }

  lemma SingleRunStopped(s: Session, target: Option<nat>)
    requires SingleRun(s) && Enabled(s, StopFinish(target))
    ensures SingleRun(StopFinished(s, target))
  {
    var s' := StopFinished(s, target);
    assert forall t :: t in s'.stops ==> t in s.stops;
    assert TasksOver(s', 0) == TasksOver(s, 0);
  }

  lemma SingleRunCall(s: Session, step: Step)
    requires SingleRun(s) && (step.Start? ==> s.consumers == [] && !s.trace.q.closed)
    requires step.Start? || step.Pause? || step.Resume? || step.StopBegin? || step.StopFinish?
    ensures SingleRun(Apply(s, step))
  {
    match step
    case Start => SingleRunStart(s);
    case Pause => SingleRunPause(s);
    case Resume => SingleRunPause(s);
    case StopBegin => SingleRunStop(s);
    case StopFinish(target) => if Enabled(s, step) { SingleRunStopped(s, target); }
  }

  /** What `SingleRun` looks at. */
  ghost predicate SameTasks(s: Session, s': Session) {
    && s'.producers == s.producers && s'.consumers == s.consumers && s'.current == s.current && s'.stops == s.stops
    && s'.state == s.state && s'.error == s.error && s'.trace.q.closed == s.trace.q.closed
  }

  lemma ProducedLeavesTasks(s: Session, frame: LiveFrame)
    ensures SameTasks(s, Produced(s, frame))
  {
  }

  lemma SingleRunLooksAtTasks(s: Session, s': Session)
    requires SingleRun(s) && SameTasks(s, s')
    ensures SingleRun(s')
  {
    assert TasksOver(s', 0) == TasksOver(s, 0) && ProducerLive(s', 0) == ProducerLive(s, 0);
  }

  lemma SingleRunFrame(s: Session, frame: LiveFrame)
    requires SingleRun(s)
    ensures SingleRun(Produced(s, frame))
  {
    ProducedLeavesTasks(s, frame);
    SingleRunLooksAtTasks(s, Produced(s, frame));
  }

  lemma SingleRunProducer(s: Session, p: nat)
    requires SingleRun(s) && ProducerLive(s, p)
    ensures SingleRun(ProducerOver(s, p)) && SingleRun(ProducerFailed(s, p))
  {
  }

  lemma SingleRunPoll(s: Session, c: nat)
    requires SingleRun(s) && Enabled(s, ConsumerPolls(c))
    ensures SingleRun(Polled(s, c))
  {
    TakeHasEffect(s.trace, s.consumers[c].Waiting?);
  }

  lemma SingleRunConsumer(s: Session, step: Step)
    requires SingleRun(s) && (step.HandlerReturns? || step.HandlerRaises? || step.ConsumerCancelled?)
    ensures SingleRun(Apply(s, step))
  {
  }

  lemma SingleRunStep(s: Session, step: Step)
    requires SingleRun(s) && (step.Start? ==> s.consumers == [] && !s.trace.q.closed)
    ensures SingleRun(Apply(s, step))
  {
    if step.Start? || step.Pause? || step.Resume? || step.StopBegin? || step.StopFinish? {
      SingleRunCall(s, step);
    } else if step.Frame? {
      SingleRunFrame(s, step.frame);
    } else if step.SourceEnds? || step.SourceFails? || step.ProducerCancelled? {
      if Enabled(s, step) {
        SingleRunProducer(s, step.p);
      }
    } else if step.ConsumerPolls? {
      if Enabled(s, step) {
        SingleRunPoll(s, step.c);
      }
    } else {
      SingleRunConsumer(s, step);
    }
  }

  /** Before the first start the queue is open: nothing runs that could close it. */
  lemma OpenUntilStarted(s: Session, step: Step)
    requires s.producers == [] && s.consumers == [] && s.stops == multiset{} && !s.trace.q.closed && !step.Start?
    requires s.state.Created? || s.state.Stopped?
    ensures !Apply(s, step).trace.q.closed
  {
  }

  /** A single run, not begun or under way. */
  ghost predicate SingleRunSoFar(s: Session) {
    SingleRun(s) && (s.consumers == [] ==> !s.trace.q.closed)
  }

  lemma SingleRunGoesOn(s: Session, step: Step)
    requires SingleRunSoFar(s) && (step.Start? ==> s.consumers == [])
    ensures SingleRunSoFar(Apply(s, step))
  {
    SingleRunStep(s, step);
    if s.consumers == [] && !step.Start? {
      OpenUntilStarted(s, step);
    } else if s.consumers != [] {
      TasksStay(s, step);
    }
  }

  lemma TasksStay(s: Session, step: Step)
    ensures |s.consumers| <= |Apply(s, step).consumers|
  {
  }

  lemma {:induction false} SingleRunAlways(s: Session, steps: seq<Step>)
    requires SingleRunSoFar(s) && Starts(steps) + |s.consumers| <= 1
    ensures SingleRunSoFar(Run(s, steps))
    decreases |steps|
  {
    if steps != [] {
      SingleRunGoesOn(s, steps[0]);
      GenerationsStep(s, steps[0]);
      SingleRunAlways(Apply(s, steps[0]), steps[1..]);
    }
  }

  /**
    A session started at most once has no task whenever it says STOPPED, over every schedule:
    after a `stop`, after one that found it ended, and after it ended by itself.
  */
  lemma StoppedMeansNoTasks(capacity: nat, intervalNs: nat, steps: seq<Step>)
    requires Starts(steps) <= 1
    ensures
      var s := Run(NewSession(capacity, intervalNs), steps);
      s.state.Stopped? ==> NoTasks(s)
  {
    SingleRunAlways(NewSession(capacity, intervalNs), steps);
  }

  /** Where a schedule stands after its first `k` steps. */
  function After(s: Session, steps: seq<Step>, k: nat): Session
    requires k <= |steps|
  {
    Run(s, steps[..k])
  }

  lemma AfterOneMore(s: Session, steps: seq<Step>, k: nat)
    requires k < |steps|
    ensures After(s, steps, k + 1) == Apply(After(s, steps, k), steps[k])
  {
    assert steps[..k + 1] == steps[..k] + [steps[k]];
    RunOneMore(s, steps[..k], steps[k]);
  }

  /** A consumer about to poll the closed queue of a running session. */
  ghost predicate Draining(s: Session, c: nat) {
    && Inv(s) && c < |s.consumers| && s.consumers[c].Polling?
    && s.trace.q.closed && s.state.Running? && !s.error
  }

  lemma DrainOne(s: Session, c: nat) returns (steps: seq<Step>)
    requires Draining(s, c) && s.trace.q.items != []
    ensures
      var s' := Run(s, steps);
      && NoStart(steps) && Draining(s', c) && |s'.trace.q.items| == |s.trace.q.items| - 1
      && s'.producers == s.producers
  {
    ApplyKeepsInv(s, ConsumerPolls(c));
    PollOfFullTakes(s, c);
    RunOneMore(s, [], ConsumerPolls(c));
    steps := [] + [ConsumerPolls(c)];
    if !s.paused {
      var s1 := Run(s, steps);
      ApplyKeepsInv(s1, HandlerRaises(c));
      RaisedPollsOn(s1, c);
      RunOneMore(s, steps, HandlerRaises(c));
      steps := steps + [HandlerRaises(c)];
    }
  }

  lemma RaisedPollsOn(s: Session, c: nat)
    requires InHandler(s, c)
    ensures
      var s' := Apply(s, HandlerRaises(c));
      && s'.state == s.state && s'.error == s.error && s'.producers == s.producers && s'.trace == s.trace
      && s'.consumers == s.consumers[c := Polling]
  {
  }

  lemma {:induction false} RunSplits(s: Session, a: seq<Step>, b: seq<Step>)
    ensures Run(s, a + b) == Run(Run(s, a), b)
    decreases |a|
  {
    if a == [] {
      assert a + b == b;
    } else {
      RunSplits(Apply(s, a[0]), a[1..], b);
      assert (a + b)[1..] == a[1..] + b;
    }
  }

  /** A closed queue is drained by one consumer, after which a session without error says STOPPED. */
  lemma {:induction false} DrainEnds(s: Session, c: nat) returns (steps: seq<Step>)
    requires Draining(s, c)
    ensures NoStart(steps) && Run(s, steps).state.Stopped? && Run(s, steps).producers == s.producers
    decreases |s.trace.q.items|
  {
    if s.trace.q.items == [] {
      PollOfEmptyEnds(s, c);
      RunOneMore(s, [], ConsumerPolls(c));
      steps := [] + [ConsumerPolls(c)];
    } else {
      var first := DrainOne(s, c);
      var rest := DrainEnds(Run(s, first), c);
      RunSplits(s, first, rest);
      steps := first + rest;
    }
  }

  lemma PollOfFullTakes(s: Session, c: nat)
    requires Inv(s) && c < |s.consumers| && s.consumers[c].Polling? && s.trace.q.items != []
    ensures
      var s' := Apply(s, ConsumerPolls(c));
      && s'.state == s.state && s'.error == s.error && s'.producers == s.producers && s'.paused == s.paused
      && s'.trace.q.closed == s.trace.q.closed && |s'.trace.q.items| == |s.trace.q.items| - 1
      && |s'.consumers| == |s.consumers|
      && s'.consumers[c] == (if s.paused then Polling else Handling(s.trace.head))
      && s.trace.head < |s'.trace.log|
  {
  }

  /** From here on, STOPPED means that there is no task, as long as nobody starts the session again. */
  ghost predicate StoppedIsOver(s: Session, steps: seq<Step>) {
    NoStart(steps) && Run(s, steps).state.Stopped? ==> NoTasks(Run(s, steps))
  }

  /**
    Exactly which starts are safe: of an inactive session without tasks, in any reachable
    state, a start keeps "STOPPED means no task" if and only if the session never ran.
  */
  lemma StartIsSafeIff(s: Session)
    requires Inv(s) && !s.state.IsActive() && NoTasks(s)
    ensures (forall steps :: StoppedIsOver(Started(s), steps)) <==> s.consumers == []
  {
    var s' := Started(s);
    if s.consumers == [] {
      SingleRunStart(s);
      forall steps
        ensures StoppedIsOver(s', steps)
      {
        if NoStart(steps) {
          NoStartsCounted(steps);
          SingleRunAlways(s', steps);
        }
      }
    } else {
      StartedKeepsInv(s);
      var n := |s.consumers|;
      var steps := DrainEnds(s', n);
      NothingNewRun(s', steps);
      assert s'.producers[n].Live?;
      assert !TasksOver(Run(s', steps), n);
      assert !StoppedIsOver(s', steps);
    }
  }

  lemma {:induction false} NoStartsCounted(steps: seq<Step>)
    requires NoStart(steps)
    ensures Starts(steps) == 0
    decreases |steps|
  {
    if steps != [] {
      NoStartsCounted(steps[1..]);
    }
  }

  ghost predicate RestartsDuringStop(steps: seq<Step>) {
    && |steps| == 6 && steps[0] == Start && steps[1] == StopBegin && steps[2] == Start
    && steps[3] == ProducerCancelled(0) && steps[4] == ConsumerCancelled(0) && steps[5] == StopFinish(Some(0))
  }

  lemma RestartDuringStop(s0: Session, steps: seq<Step>)
    requires RestartsDuringStop(steps) && s0.state.Created? && s0.producers == [] && s0.consumers == []
    requires s0.stops == multiset{}
    ensures
      var s := After(s0, steps, 3);
      s.stops == multiset{Some(0)} && s.producers == [Live, Live] && s.consumers == [Polling, Polling]
  {
    assert steps[..0] == [];
    AfterOneMore(s0, steps, 0);
    assert After(s0, steps, 1) == Started(s0);
    AfterOneMore(s0, steps, 1);
    assert After(s0, steps, 2) == StopBegun(Started(s0));
    AfterOneMore(s0, steps, 2);
    var s := Started(StopBegun(Started(s0)));
    assert s.stops == multiset{Some(0)} && s.producers == [Live, Live];
  }

  /** A start while a stop is under way outlives the stop: STOPPED, with both new tasks live. */
  lemma RestartOutlivesStop(capacity: nat, intervalNs: nat, steps: seq<Step>)
    requires RestartsDuringStop(steps)
    ensures
      var s := Run(NewSession(capacity, intervalNs), steps);
      s.state.Stopped? && ProducerLive(s, 1) && ConsumerLive(s, 1)
  {
    var s0 := NewSession(capacity, intervalNs);
    RestartDuringStop(s0, steps);
    AfterOneMore(s0, steps, 3);
    AfterOneMore(s0, steps, 4);
    CancelledTaskIsOver(After(s0, steps, 3), 0);
    AfterOneMore(s0, steps, 5);
    assert steps[..6] == steps;
  }

  ghost predicate RestartsAfterEnd(steps: seq<Step>) {
    && |steps| == 6 && steps[0] == Start && steps[1] == SourceEnds(0) && steps[2] == ConsumerPolls(0)
    && steps[3] == Start && steps[4] == ConsumerPolls(1) && steps[5] == StopBegin
  }

  /** STOPPED without an error, with these producers, no stop under way and an empty, closed queue. */
  ghost predicate EndedCleanly(s: Session, producers: seq<Producer>) {
    && s.state.Stopped? && !s.error && s.stops == multiset{} && s.producers == producers
    && s.trace.q.items == [] && s.trace.q.closed
  }

  lemma EndsByItself(s0: Session, steps: seq<Step>)
    requires RestartsAfterEnd(steps) && s0.state.Created? && s0.producers == [] && s0.consumers == []
    requires s0.stops == multiset{} && s0.trace.q.items == []
    ensures EndedCleanly(After(s0, steps, 3), [Finished]) && After(s0, steps, 3).consumers == [Gone]
  {
    assert steps[..0] == [];
    AfterOneMore(s0, steps, 0);
    AfterOneMore(s0, steps, 1);
    AfterOneMore(s0, steps, 2);
    PollOfEmptyEnds(After(s0, steps, 2), 0);
  }

  /** A start of a session that ended leaves a producer that no `stop` reaches: the new consumer ends at once. */
  lemma RestartLeavesProducer(capacity: nat, intervalNs: nat, steps: seq<Step>)
    requires RestartsAfterEnd(steps)
    ensures
      var s := Run(NewSession(capacity, intervalNs), steps);
      s.state.Stopped? && ProducerLive(s, 1) && s.stops == multiset{}
  {
    var s0 := NewSession(capacity, intervalNs);
    EndsByItself(s0, steps);
    AfterOneMore(s0, steps, 3);
    AfterOneMore(s0, steps, 4);
    PollOfEmptyEnds(After(s0, steps, 4), 1);
    assert EndedCleanly(After(s0, steps, 5), [Finished, Live]);
    AfterOneMore(s0, steps, 5);
    assert steps[..6] == steps;
  }

  /** A consumer that finds the queue empty and closed ends, and takes a session without error to STOPPED. */
  lemma PollOfEmptyEnds(s: Session, c: nat)
    requires c < |s.consumers| && s.consumers[c].Polling? && s.trace.q.items == [] && s.trace.q.closed
    requires s.state.Running? && !s.error
    ensures Apply(s, ConsumerPolls(c)) == s.(consumers := s.consumers[c := Gone], state := Stopped)
  {
  }

  /* --------------------------------------------------------------- the class */

  /** What the consumer code may rely on: only the first consumer is ever parked. */
  lemma WhoIsParked(capacity: nat, intervalNs: nat, steps: seq<Step>, c: nat)
    requires capacity >= 1 && c < |Run(NewSession(capacity, intervalNs), steps).consumers|
    ensures
      var s := Run(NewSession(capacity, intervalNs), steps);
      s.consumers[c].Waiting? <==> s.trace.waiting && c == 0
  {
    NewSessionInv(capacity, intervalNs);
    RunKeepsInv(NewSession(capacity, intervalNs), steps);
  }

  /** A pass of `_consume`, field by field, from what `get` answers. */
  lemma PolledParts(s: Session, c: nat)
    requires c < |s.consumers|
    ensures
      var parked := s.consumers[c].Waiting?;
      var (q, r) := (if parked then s.trace.q.(waiter := NoWaiter) else s.trace.q).PollOnce();
      var s' := Polled(s, c);
      && s'.trace.q == q && s'.trace.waiting == (r.Suspended? || (s.trace.waiting && !parked))
      && s'.state == (if r.Ended? then StateAtEnd(s) else s.state)
      && s'.stats == (if r.Got? && s.paused then s.stats.(dropped := s.stats.dropped + 1) else s.stats)
      && s'.sampler == s.sampler && s'.paused == s.paused && s'.error == s.error
      && s'.producers == s.producers && s'.current == s.current
  {
  }

  /** An iteration of `_produce`, field by field, from what `put` answers. */
  lemma ProducedParts(s: Session, frame: LiveFrame)
    ensures
      var s', due := Produced(s, frame), s.sampler.Due(frame.capturedAtNs);
      var (q, dropped) := s.trace.q.Put(frame);
      var counts := due && dropped != Some(QueueFull);
      && s'.trace.q == (if due then q else s.trace.q.(droppedSampled := s.trace.q.droppedSampled + 1))
      && s'.trace.waiting == s.trace.waiting && s'.sampler == s.sampler.Accept(frame.capturedAtNs)
      && s'.stats == s.stats.(received := s.stats.received + 1, dropped := s.stats.dropped + (if counts then 0 else 1))
      && s'.state == s.state && s'.paused == s.paused && s'.error == s.error
      && s'.producers == s.producers && s'.current == s.current
  {
  }

  /**
    The session as the source writes it: fields updated in place, one method for each
    stretch of code between two suspension points. `history` is the schedule so far and
    `model` what the schedule makes of a new session, so the theorems above hold of it;
    `Valid` ties every field to it.
  */
  class VisionSession {
    const queue: LiveFrameQueue
    const sampler: FrameSampler
    var state: SessionState
    var paused: bool
    var error: bool
    var stats: SessionStats
    var producers: seq<Producer>
    var current: Option<nat>
    var waiting: bool
    ghost var model: Session
    ghost var history: seq<Step>

    /** Every field is the model's. */
    ghost predicate Tied()
      reads this, queue, sampler
    {
      && model.trace.q == queue.View()
      && model.trace.waiting == waiting
      && model.sampler == sampler.View()
      && model.state == state
      && model.paused == paused
      && model.error == error
      && model.stats == stats
      && model.producers == producers
      && model.current == current
    }

    /** The model is where the schedule leads. */
    ghost predicate Reached()
      reads this
    {
      model == Run(NewSession(queue.capacity, sampler.intervalNs), history)
    }

    ghost predicate Valid()
      reads this, queue, sampler
    {
      queue.Valid() && Tied() && Reached()
    }

    constructor (capacity: nat, analysisFps: real)
      requires capacity >= 1 && analysisFps > 0.0
      ensures Valid() && fresh(queue) && fresh(sampler) && history == []
      ensures queue.capacity == capacity && sampler.intervalNs == IntervalOf(analysisFps)
    {
      queue := new LiveFrameQueue(capacity);
      sampler := new FrameSampler(analysisFps);
      state, paused, error := Created, false, false;
      stats := NO_STATS;
      producers, current, waiting := [], None, false;
      model, history := NewSession(capacity, IntervalOf(analysisFps)), [];
    }

    /** The step that has just been taken, in the model. */
    ghost method Note(step: Step)
      requires Reached()
      modifies this`model, this`history
      ensures Reached() && model == Apply(old(model), step) && history == old(history) + [step]
    {
      RunOneMore(NewSession(queue.capacity, sampler.intervalNs), history, step);
      model, history := Apply(model, step), history + [step];
    }

    /** What conservation says of the object itself, at any time. */
    lemma CountersBalance()
      requires Valid()
      ensures stats.received
           == stats.processed + stats.processingErrors + stats.dropped + queue.droppedShutdown + queue.depth
              + InHand(model.consumers) + model.cancelled + model.trace.cleared
      ensures InHand(model.consumers) + model.cancelled <= Starts(history)
    {
      FramesAreConserved(queue.capacity, sampler.intervalNs, history);
    }

    /** `start`; idempotent on an active session. */
    method Start()
      requires Valid()
      modifies this
      ensures Valid() && history == old(history) + [Step.Start] && model == Started(old(model))
      ensures old(state) !in {Running, Paused} ==>
                state == Running && !error && producers == old(producers) + [Live] && current == Some(|old(producers)|)
      ensures old(state) in {Running, Paused} ==> state == old(state) && producers == old(producers)
    {
      Note(Step.Start);
      if state.IsActive() {
        return;
      }
      error := false;
      current := Some(|producers|);
      producers := producers + [Live];
      state := Running;
    }

    method Pause()
      requires Valid()
      modifies this
      ensures Valid() && history == old(history) + [Step.Pause] && model == PausedBy(old(model))
      ensures state == if old(state) == Running then Paused else old(state)
    {
      Note(Step.Pause);
      if state.Running? {
        paused := true;
        state := Paused;
      }
    }

    method Resume()
      requires Valid()
      modifies this, sampler
      ensures Valid() && history == old(history) + [Step.Resume] && model == ResumedBy(old(model))
      ensures state == if old(state) == Paused then Running else old(state)
    {
      Note(Step.Resume);
      if state.Paused? {
        paused := false;
        sampler.Reset();
        state := Running;
      }
    }

    /** `stop` up to its first await. */
    method StopBegin()
      requires Valid()
      modifies this, queue
      ensures Valid() && history == old(history) + [Step.StopBegin] && model == StopBegun(old(model))
      ensures old(state) in {Stopped, Created} ==> state == Stopped && queue.closed == old(queue.closed)
      ensures old(state) !in {Stopped, Created} ==> state == Stopping && queue.closed && queue.items == old(queue.items)
    {
      Note(Step.StopBegin);
      if state.Stopped? || state.Created? {
        state := Stopped;
      } else {
        state := Stopping;
        queue.Close();
      }
    }

    /** `stop` after the tasks it found were awaited. */
    method StopFinish(ghost target: Option<nat>)
      requires Valid() && Enabled(model, Step.StopFinish(target))
      modifies this, queue
      ensures Valid() && history == old(history) + [Step.StopFinish(target)]
      ensures model == StopFinished(old(model), target)
      ensures state == Stopped && current == None && queue.items == []
    {
      Note(Step.StopFinish(target));
      queue.Clear();
      current := None;
      state := Stopped;
    }

    /** One iteration of the `async for` in `_produce`. */
    method OnFrame(p: nat, frame: LiveFrame)
      requires Valid() && ProducerLive(model, p)
      modifies this, queue, sampler
      ensures Valid() && history == old(history) + [Frame(p, frame)] && model == Produced(old(model), frame)
    {
      ProducedParts(model, frame);
      Note(Frame(p, frame));
      stats := stats.(received := stats.received + 1);
      var due := sampler.Accepts(frame.capturedAtNs);
      if !due {
        queue.RecordSampledOut();
        stats := stats.(dropped := stats.dropped + 1);
      } else {
        var reason := queue.Put(frame);
        if reason == Some(QueueFull) {
          stats := stats.(dropped := stats.dropped + 1);
        }
      }
    }

    /** `_produce` leaving its loop: the source ended, or the task was cancelled. */
    method ProducerLeaves(p: nat, ghost cancelled: bool)
      requires Valid() && ProducerLive(model, p) && (cancelled ==> Some(p) in model.stops)
      modifies this, queue
      ensures Valid() && history == old(history) + [if cancelled then ProducerCancelled(p) else SourceEnds(p)]
      ensures model == ProducerOver(old(model), p)
    {
      Note(if cancelled then ProducerCancelled(p) else SourceEnds(p));
      queue.Close();
      producers := producers[p := Finished];
    }

    /** `_produce` on an exception: reported as session state, then the same `finally`. */
    method ProducerFails(p: nat)
      requires Valid() && ProducerLive(model, p)
      modifies this, queue
      ensures Valid() && history == old(history) + [SourceFails(p)] && model == ProducerFailed(old(model), p)
      ensures state == Failed && error && queue.closed && producers == old(producers)[p := Finished]
    {
      Note(SourceFails(p));
      error := true;
      state := Failed;
      queue.Close();
      producers := producers[p := Finished];
    }

    /** The `finally` of `_consume`. */
    method ConsumerEnds()
      modifies this`state
      ensures state == if old(state).Stopping? || old(state).Stopped? then old(state)
                       else if error then Failed else Stopped
    {
      if !state.Stopping? && !state.Stopped? {
        state := if error then Failed else Stopped;
      }
    }

    /** One pass of `_consume`: the frame to hand to the handler, if there is one. */
    method ConsumerPoll(c: nat) returns (frame: Option<LiveFrame>)
      requires Valid() && Enabled(model, ConsumerPolls(c))
      modifies this, queue
      ensures Valid() && history == old(history) + [ConsumerPolls(c)] && model == Polled(old(model), c)
      ensures frame.Some? <==> old(queue.items) != [] && !old(paused)
      ensures frame.Some? ==> frame.value == old(queue.items)[0]
    {
      WhoIsParked(queue.capacity, sampler.intervalNs, history, c);
      PolledParts(model, c);
      Note(ConsumerPolls(c));
      var r := TakeNext(c);
      frame := HandOver(r);
    }

    /** What `_consume` does with the answer of `get`: hand the frame over, drop it while paused, or end. */
    method HandOver(r: Poll) returns (frame: Option<LiveFrame>)
      modifies this`state, this`stats
      ensures frame == if r.Got? && !paused then Some(r.frame) else None
      ensures stats == if r.Got? && paused then old(stats).(dropped := old(stats).dropped + 1) else old(stats)
      ensures state == if !r.Ended? || old(state).Stopping? || old(state).Stopped? then old(state)
                       else if error then Failed else Stopped
    {
      frame := None;
      match r
      case Suspended =>
      case Ended =>
        ConsumerEnds();
      case Got(f) =>
        if paused {
          stats := stats.(dropped := stats.dropped + 1);
        } else {
          frame := Some(f);
        }
    }

    /** `get`, up to its return or its await, called by this consumer. */
    method TakeNext(c: nat) returns (r: Poll)
      requires queue.Valid()
      modifies this`waiting, queue
      ensures queue.Valid()
      ensures
        var parked := old(waiting) && c == 0;
        var q0 := if parked then old(queue.View()).(waiter := NoWaiter) else old(queue.View());
        (queue.View(), r) == q0.PollOnce() && waiting == (r.Suspended? || (old(waiting) && !parked))
    {
      var others := waiting && c != 0;
      if waiting && c == 0 {
        queue.LeaveWait();
      }
      r := queue.PollOnce();
      waiting := r.Suspended? || others;
    }

    /** The handler came back for the frame this consumer had in hand. */
    method HandlerReturned(c: nat, frame: LiveFrame, elapsedMs: real)
      requires Valid() && InHandler(model, c) && frame == model.trace.log[model.consumers[c].index]
      modifies this
      ensures Valid() && history == old(history) + [HandlerReturns(c, elapsedMs)]
      ensures model == Handled(old(model), c, frame.capturedAtNs, elapsedMs)
    {
      Note(HandlerReturns(c, elapsedMs));
      stats := stats.(processed := stats.processed + 1,
                      totalProcessingMs := stats.totalProcessingMs + elapsedMs,
                      lastFrameAtNs := Some(frame.capturedAtNs));
      if stats.firstFrameAtNs.None? {
        stats := stats.(firstFrameAtNs := Some(frame.capturedAtNs));
      }
    }

    method HandlerRaised(c: nat)
      requires Valid() && InHandler(model, c)
      modifies this
      ensures Valid() && history == old(history) + [HandlerRaises(c)] && model == Errored(old(model), c)
    {
      Note(HandlerRaises(c));
      stats := stats.(processingErrors := stats.processingErrors + 1);
    }

    /** `CancelledError` at the consumer's await; `get`'s own `finally` runs first. */
    method ConsumerCancel(c: nat)
      requires Valid() && Enabled(model, ConsumerCancelled(c))
      modifies this, queue
      ensures Valid() && history == old(history) + [ConsumerCancelled(c)] && model == ConsumerCut(old(model), c)
    {
      WhoIsParked(queue.capacity, sampler.intervalNs, history, c);
      Note(ConsumerCancelled(c));
      if waiting && c == 0 {
        queue.LeaveWait();
        waiting := false;
      }
      ConsumerEnds();
    }
  }
}
