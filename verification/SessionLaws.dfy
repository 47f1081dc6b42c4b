/**
  What a camera session promises its operators (app/vision/session.py), over every schedule:
  a paused session feeds nobody, a running one feeds the handler, a failed source is reported,
  and the figures in the statistics are those of the frames that came back. Every law is
  stated on the schedule and on what can be observed, not on the flags the code keeps.
*/
module SessionLaws {
  import opened Basics
  import opened Frames
  import opened Sessions

  /* ------------------------------------------------------------------------ pausing */

  /** A pause took effect and no resume has taken effect since. */
  predicate LeftPaused(s0: Session, steps: seq<Step>) {
    if steps == [] then false
    else
      var earlier, step := steps[..|steps| - 1], steps[|steps| - 1];
      var state := Run(s0, earlier).state;
      if step.Pause? && state.Running? then true
      else if step.Resume? && state.Paused? then false
      else LeftPaused(s0, earlier)
  }

  lemma PauseStep(s: Session, step: Step)
    ensures
      var s' := Apply(s, step);
      && s'.paused == (if step.Pause? && s.state.Running? then true
                       else if step.Resume? && s.state.Paused? then false else s.paused)
      && (s'.state.Paused? ==> (step.Pause? && s.state.Running?) || (!step.Resume? && s.state.Paused?))
  {
  }

  lemma {:induction false} FlagFollowsSchedule(s0: Session, steps: seq<Step>)
    requires !s0.paused && !s0.state.Paused?
    ensures Run(s0, steps).paused == LeftPaused(s0, steps)
    ensures Run(s0, steps).state.Paused? ==> LeftPaused(s0, steps)
    decreases |steps|
  {
    if steps != [] {
      var earlier, step := steps[..|steps| - 1], steps[|steps| - 1];
      FlagFollowsSchedule(s0, earlier);
      assert steps == earlier + [step];
      RunOneMore(s0, earlier, step);
      PauseStep(Run(s0, earlier), step);
    }
  }

  /** What a poll of a non-empty queue does: the oldest frame reaches the handler, or is a counted drop. */
  lemma PollStep(s: Session, c: nat)
    requires Inv(s) && Enabled(s, ConsumerPolls(c)) && s.trace.q.items != []
    ensures
      var s' := Apply(s, ConsumerPolls(c));
      && s.trace.head < |s.trace.log| && s.trace.log[s.trace.head] == s.trace.q.items[0]
      && s'.trace.q.items == s.trace.q.items[1..]
      && s'.handled == (if s.paused then s.handled else s.handled + [s.trace.head])
      && s'.stats.dropped == s.stats.dropped + (if s.paused then 1 else 0)
  {
  }

  /**
    Over every schedule, restarts included: a consumer that polls a non-empty queue takes the
    oldest frame, and gives it to the handler exactly when no pause is outstanding;
    otherwise the frame is dropped and counted.
  */
  lemma PollFeedsHandlerIff(capacity: nat, intervalNs: nat, steps: seq<Step>, c: nat)
    requires capacity >= 1
    requires
      var s := Run(NewSession(capacity, intervalNs), steps);
      Enabled(s, ConsumerPolls(c)) && s.trace.q.items != []
    ensures
      var s0 := NewSession(capacity, intervalNs);
      var s := Run(s0, steps);
      var s' := Apply(s, ConsumerPolls(c));
      && s.trace.head < |s.trace.log| && s.trace.log[s.trace.head] == s.trace.q.items[0]
      && s'.trace.q.items == s.trace.q.items[1..]
      && (!LeftPaused(s0, steps) ==> s'.handled == s.handled + [s.trace.head] && s'.stats.dropped == s.stats.dropped)
      && (LeftPaused(s0, steps) ==> s'.handled == s.handled && s'.stats.dropped == s.stats.dropped + 1)
  {
    var s0 := NewSession(capacity, intervalNs);
    NewSessionInv(capacity, intervalNs);
    RunKeepsInv(s0, steps);
    FlagFollowsSchedule(s0, steps);
    PollStep(Run(s0, steps), c);
  }

  /** A session that says PAUSED gives the handler nothing, whoever polls and whatever is queued. */
  lemma PausedFeedsNobody(capacity: nat, intervalNs: nat, steps: seq<Step>, c: nat)
    requires capacity >= 1
    requires
      var s := Run(NewSession(capacity, intervalNs), steps);
      s.state.Paused? && Enabled(s, ConsumerPolls(c))
    ensures
      var s := Run(NewSession(capacity, intervalNs), steps);
      var s' := Apply(s, ConsumerPolls(c));
      && s'.handled == s.handled
      && (s.trace.q.items != [] ==> s'.stats.dropped == s.stats.dropped + 1)
  {
    var s0 := NewSession(capacity, intervalNs);
    FlagFollowsSchedule(s0, steps);
    if Run(s0, steps).trace.q.items != [] {
      PollFeedsHandlerIff(capacity, intervalNs, steps, c);
    } else {
      EmptyPollHandsNothing(Run(s0, steps), c);
    }
  }

  lemma EmptyPollHandsNothing(s: Session, c: nat)
    requires Enabled(s, ConsumerPolls(c)) && s.trace.q.items == []
    ensures Apply(s, ConsumerPolls(c)).handled == s.handled
  {
  }

  /** Pausing happens to a running session only, so an outstanding pause means a session that has run. */
  lemma RunningStep(s: Session, step: Step)
    requires SingleRunSoFar(s) && (step.Start? ==> s.consumers == [])
    requires (s.consumers == [] || s.state.Running?) ==> !s.paused
    ensures
      var s' := Apply(s, step);
      (s'.consumers == [] || s'.state.Running?) ==> !s'.paused
  {
    PauseStep(s, step);
    RunningBefore(s, step);
  }

  lemma RunningBefore(s: Session, step: Step)
    ensures
      var s' := Apply(s, step);
      && (s'.consumers == [] ==> s.consumers == [])
      && (s'.state.Running? ==> s.state.Running? || step.Start? || (step.Resume? && s.state.Paused?))
      && (s.consumers == [] && !step.Start? ==> s'.consumers == [])
  {
  }

  lemma {:induction false} RunningIsNotPaused(s: Session, steps: seq<Step>)
    requires SingleRunSoFar(s) && Starts(steps) + |s.consumers| <= 1
    requires (s.consumers == [] || s.state.Running?) ==> !s.paused
    ensures Run(s, steps).state.Running? ==> !Run(s, steps).paused
    decreases |steps|
  {
    if steps != [] {
      SingleRunGoesOn(s, steps[0]);
      GenerationsStep(s, steps[0]);
      RunningStep(s, steps[0]);
      RunningIsNotPaused(Apply(s, steps[0]), steps[1..]);
    }
  }

  /** A session started at most once that says RUNNING gives the handler the oldest queued frame. */
  lemma RunningFeedsHandler(capacity: nat, intervalNs: nat, steps: seq<Step>, c: nat)
    requires capacity >= 1 && Starts(steps) <= 1
    requires
      var s := Run(NewSession(capacity, intervalNs), steps);
      s.state.Running? && Enabled(s, ConsumerPolls(c)) && s.trace.q.items != []
    ensures
      var s := Run(NewSession(capacity, intervalNs), steps);
      var s' := Apply(s, ConsumerPolls(c));
      && s'.handled == s.handled + [s.trace.head] && s'.stats.dropped == s.stats.dropped
      && s.trace.head < |s.trace.log| && s.trace.log[s.trace.head] == s.trace.q.items[0]
  {
    var s0 := NewSession(capacity, intervalNs);
    RunningIsNotPaused(s0, steps);
    FlagFollowsSchedule(s0, steps);
    PollFeedsHandlerIff(capacity, intervalNs, steps, c);
  }

  ghost predicate RestartsWhilePaused(steps: seq<Step>, frame: LiveFrame) {
    && |steps| == 5 && steps[0] == Start && steps[1] == Frame(0, frame) && steps[2] == Pause
    && steps[3] == SourceFails(0) && steps[4] == Start
  }

  /** The first frame of a new session is queued. */
  lemma FirstFrameIsQueued(s0: Session, frame: LiveFrame)
    requires s0.state.Created? && s0.producers == [] && s0.consumers == [] && s0.sampler.lastNs.None?
    requires s0.trace.q.items == [] && !s0.trace.q.closed && s0.trace.q.capacity >= 1
    ensures
      var s := Produced(Started(s0), frame);
      && s.state.Running? && s.producers == [Live] && s.consumers == [Polling] && s.trace.q.items == [frame]
  {
    ProducedLeavesTasks(Started(s0), frame);
  }

  lemma PausedBeforeFailure(s0: Session, steps: seq<Step>, frame: LiveFrame)
    requires RestartsWhilePaused(steps, frame) && s0.state.Created? && s0.producers == [] && s0.consumers == []
    requires s0.trace.q.items == [] && !s0.trace.q.closed && s0.trace.q.capacity >= 1 && s0.sampler.lastNs.None?
    ensures
      var s := After(s0, steps, 3);
      s.state.Paused? && s.producers == [Live] && s.consumers == [Polling] && s.trace.q.items == [frame]
    ensures LeftPaused(s0, steps[..3])
  {
    FirstFrameIsQueued(s0, frame);
    assert steps[..0] == [];
    AfterOneMore(s0, steps, 0);
    assert After(s0, steps, 1) == Started(s0);
    AfterOneMore(s0, steps, 1);
    assert After(s0, steps, 2) == Produced(Started(s0), frame);
    AfterOneMore(s0, steps, 2);
    assert After(s0, steps, 3) == PausedBy(Produced(Started(s0), frame));
    assert steps[..3][..2] == steps[..2];
  }

  /** A paused session whose source fails and that is started again. */
  lemma FailsAndRestarts(s: Session, frame: LiveFrame)
    requires s.state.Paused? && s.producers == [Live] && s.consumers == [Polling] && s.trace.q.items == [frame]
    ensures
      var s' := Apply(Apply(s, SourceFails(0)), Start);
      s'.state.Running? && s'.consumers == [Polling, Polling] && s'.trace.q.items == [frame]
  {
    var s1 := Apply(s, SourceFails(0));
    assert s1 == ProducerFailed(s, 0) && s1.state.Failed? && s1.consumers == [Polling] && s1.trace.q.items == [frame];
  }

  /**
    Started again, a session can say RUNNING and feed nobody: `start` does not take back a
    pause. The frame queued before the failure is dropped by the running session.
  */
  lemma RestartStaysPaused(capacity: nat, intervalNs: nat, steps: seq<Step>, frame: LiveFrame)
    requires capacity >= 1 && RestartsWhilePaused(steps, frame)
    ensures
      var s := Run(NewSession(capacity, intervalNs), steps);
      var s' := Apply(s, ConsumerPolls(1));
      && s.state.Running? && s.trace.q.items == [frame] && Enabled(s, ConsumerPolls(1))
      && s'.handled == s.handled && s'.stats.dropped == s.stats.dropped + 1
  {
    var s0 := NewSession(capacity, intervalNs);
    PausedBeforeFailure(s0, steps, frame);
    FailsAndRestarts(After(s0, steps, 3), frame);
    AfterOneMore(s0, steps, 3);
    AfterOneMore(s0, steps, 4);
    assert steps[..5] == steps;
    LeftPausedOn(s0, steps);
    PollFeedsHandlerIff(capacity, intervalNs, steps, 1);
  }

  lemma LeftPausedOn(s0: Session, steps: seq<Step>)
    requires |steps| == 5 && LeftPaused(s0, steps[..3]) && !steps[3].Resume? && !steps[4].Resume?
    ensures LeftPaused(s0, steps)
  {
    assert steps[..4][..3] == steps[..3];
    assert LeftPaused(s0, steps[..4]);
  }

  /** After a resume the next frame is taken, however soon it was captured after the last one. */
  lemma ResumedTakesNextFrame(capacity: nat, intervalNs: nat, steps: seq<Step>, p: nat, frame: LiveFrame)
    requires capacity >= 1
    requires
      var s := Run(NewSession(capacity, intervalNs), steps);
      s.state.Paused? && ProducerLive(s, p) && !s.trace.q.closed
    ensures
      var s := Run(NewSession(capacity, intervalNs), steps);
      var s' := Apply(Apply(s, Resume), Frame(p, frame));
      s'.state.Running? && s'.trace.log == s.trace.log + [frame] && s'.trace.q.accepted == s.trace.q.accepted + 1
  {
  }

  /* ------------------------------------------------------------------- what came back */

  /** Capture time and processing time of every frame the handler came back with, in order. */
  function Returned(s0: Session, steps: seq<Step>): seq<(int, real)> {
    if steps == [] then []
    else
      var earlier, step := steps[..|steps| - 1], steps[|steps| - 1];
      var s := Run(s0, earlier);
      if step.HandlerReturns? && InHandler(s, step.c) then
        Returned(s0, earlier) + [(s.trace.log[s.consumers[step.c].index].capturedAtNs, step.elapsedMs)]
      else Returned(s0, earlier)
  }

  function Elapsed(returned: seq<(int, real)>): real {
    if returned == [] then 0.0 else Elapsed(returned[..|returned| - 1]) + returned[|returned| - 1].1
  }

  /** The statistics of the frames that came back. */
  ghost predicate StatsOf(stats: SessionStats, returned: seq<(int, real)>) {
    && stats.processed == |returned| && stats.totalProcessingMs == Elapsed(returned)
    && stats.firstFrameAtNs == (if returned == [] then None else Some(returned[0].0))
    && stats.lastFrameAtNs == (if returned == [] then None else Some(returned[|returned| - 1].0))
  }

  lemma OtherStepsLeaveFigures(s: Session, step: Step)
    requires !(step.HandlerReturns? && InHandler(s, step.c))
    ensures
      var a, b := s.stats, Apply(s, step).stats;
      && b.processed == a.processed && b.totalProcessingMs == a.totalProcessingMs
      && b.firstFrameAtNs == a.firstFrameAtNs && b.lastFrameAtNs == a.lastFrameAtNs
  {
  }

  lemma FiguresGrow(stats: SessionStats, returned: seq<(int, real)>, at: int, elapsedMs: real)
    requires StatsOf(stats, returned)
    ensures StatsOf(StatsHandled(stats, at, elapsedMs), returned + [(at, elapsedMs)])
  {
    assert (returned + [(at, elapsedMs)])[..|returned|] == returned;
  }

  /** Over every schedule: processed, processing time, first and last frame time are those of what came back. */
  lemma {:induction false} StatsAreOfReturned(capacity: nat, intervalNs: nat, steps: seq<Step>)
    ensures
      var s0 := NewSession(capacity, intervalNs);
      StatsOf(Run(s0, steps).stats, Returned(s0, steps))
    decreases |steps|
  {
    if steps != [] {
      var s0 := NewSession(capacity, intervalNs);
      var earlier, step := steps[..|steps| - 1], steps[|steps| - 1];
      StatsAreOfReturned(capacity, intervalNs, earlier);
      assert steps == earlier + [step];
      RunOneMore(s0, earlier, step);
      var s := Run(s0, earlier);
      if step.HandlerReturns? && InHandler(s, step.c) {
        var at := s.trace.log[s.consumers[step.c].index].capturedAtNs;
        FiguresGrow(s.stats, Returned(s0, earlier), at, step.elapsedMs);
      } else {
        OtherStepsLeaveFigures(s, step);
      }
    }
  }

  /* -------------------------------------------------------------------------- failing */

  /** A source failed while its producer was running. */
  ghost predicate SourceFailed(s: Session, steps: seq<Step>)
    decreases |steps|
  {
    steps != [] && (|| (steps[0].SourceFails? && ProducerLive(s, steps[0].p))
                    || SourceFailed(Apply(s, steps[0]), steps[1..]))
  }

  lemma FailureStep(s: Session, step: Step)
    requires SingleRunSoFar(s) && (step.Start? ==> s.consumers == []) && !step.StopBegin? && s.stops == multiset{}
    requires s.state.Failed? <==> s.error
    ensures
      var s' := Apply(s, step);
      && s'.stops == multiset{}
      && (s'.state.Failed? <==> s'.error)
      && (s'.error <==> s.error || (step.SourceFails? && ProducerLive(s, step.p)))
  {
    if step.ConsumerPolls? && Enabled(s, step) {
      PolledParts(s, step.c);
    } else if step.Frame? {
      ProducedParts(s, step.frame);
    }
  }

  lemma {:induction false} FailureIsKept(s: Session, steps: seq<Step>)
    requires SingleRunSoFar(s) && Starts(steps) + |s.consumers| <= 1 && s.stops == multiset{}
    requires forall i :: 0 <= i < |steps| ==> !steps[i].StopBegin?
    requires s.state.Failed? <==> s.error
    ensures Run(s, steps).state.Failed? <==> s.error || SourceFailed(s, steps)
    decreases |steps|
  {
    if steps != [] {
      SingleRunGoesOn(s, steps[0]);
      GenerationsStep(s, steps[0]);
      FailureStep(s, steps[0]);
      FailureIsKept(Apply(s, steps[0]), steps[1..]);
    }
  }

  /**
    Started at most once and not stopped, a session says FAILED exactly when its source
    failed, and goes on saying so.
  */
  lemma FailedIffSourceFailed(capacity: nat, intervalNs: nat, steps: seq<Step>)
    requires Starts(steps) <= 1 && forall i :: 0 <= i < |steps| ==> !steps[i].StopBegin?
    ensures
      var s0 := NewSession(capacity, intervalNs);
      Run(s0, steps).state.Failed? <==> SourceFailed(s0, steps)
  {
    FailureIsKept(NewSession(capacity, intervalNs), steps);
  }
}
