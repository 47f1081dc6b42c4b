# Vision runtime: a verified model

A Dafny model of the stateful core of a camera-compliance platform, with proofs of what that
core promises over every input and every run. Four parts:

* **Live frame path.** `Frames` (drop-oldest queue, interval sampler), `Sessions` (one camera
  session as a transition system whose steps are the stretches of code between two awaits),
  `SessionLaws` (what a session promises its operators),
  `Runtime` (the dictionary of sessions and the one-session-per-camera rule).
* **Compliance decision and incident queue.** `Rules`, `Findings`, `Evaluator` (the gates and
  the three-valued verdict), `Incidents` and `DriverPass` (the incident table, the driver that
  moves it, the counters of a pass), `EvidenceRefs` (the comma-separated handles on a row),
  `Passes` (evaluator and table together).
* **Bounded stores.** `DecisionFrames` (the ring of analysed frames under two ceilings),
  `Ledger`, `FrameRefs` and `Decimals` (a ring, its index, and the frame handle).
* **Evidence, retention and scoring.** `Evidence` (rows over content-addressed bytes),
  `Retention` (the three-table sweep), `Scoring` (matching and confusion tables).

`Basics` and `Text` hold shared datatypes and facts about sequences and separators. State that
the program updates in place is a class; each of its methods is proved equal to a function on
values, and the theorems are about runs of those functions. A class keeps its invariant, or
the history that makes it the outcome of a run, in `Valid`, so the theorems hold of the
objects. Clocks, digests, overlap, unlink failures, handler outcomes and task scheduling are
parameters or steps.

`dafny verify dfyconfig.toml` checks everything.

## Main results

* Over every schedule of producers, consumers, start, pause, resume, failure, cancellation and
  stop, restarts included, every received frame is accounted for, with at most one per start
  in flight or lost to cancellation (`Sessions.FramesAreConserved`); the handler sees accepted
  frames in order, at the sampled pace (`Sessions.HandlerIsPaced`), and exactly while no pause
  is outstanding (`SessionLaws.PollFeedsHandlerIff`); no wake-up is lost
  (`Frames.ReachableQueue`).
* On a nondecreasing stream no spaced selection is larger than what the sampler keeps
  (`Frames.SamplerIsOptimal`).
* What a verdict says is stated on the values alone (`Evaluator.VerdictOnValues`), and a pass
  judges every subject by exactly the rules that concern it
  (`Passes.PassJudgesExactlyTheConcerned`).
* A verdict is a guarded Kleene conjunction (`Evaluator.VerdictIsKleene`) that ageing can only
  turn to UNKNOWN (`Evaluator.AgeingOnlyDecays`) and that more evidence never overturns
  (`Evaluator.MoreEvidenceNeverOverturns`).
* An incident is open for a key exactly when the last word about that key opened it, and
  undecided findings change no row (`Incidents.OpenIffLastWordOpen`,
  `Incidents.UndecidedFindingsDoNothing`).
* End to end, evaluator and table: a pass repeated at any later instant over the same views
  opens no incident and closes none (`Passes.TimeAloneMovesNoIncident`).
* Each ring is the longest suffix that fits its ceilings
  (`DecisionFrames.EveryOperationKeepsLongestSuffix`), the early-exit look-up is the
  brute-force maximum (`DecisionFrames.NearestBeforeIsExact`), and the ledger's ring is the
  newest 5,000 frames recorded, with its index in agreement (`Ledger.IndexAgreesWithRing`).
* A fetch returns only the bytes that were put, whatever happens to the disk
  (`Evidence.FetchReturnsWhatWasPut`); evidence expires exactly when its days are over
  (`Evidence.ExpiresExactlyWhenDue`); a second sweep finds nothing
  (`Retention.SecondSweepFindsNothing`).
* The scorer's single pass equals matching first and scoring afterwards, each confusion cell
  counts exactly the pairs it names, and every total adds up (`Scoring.Evaluate`,
  `Scoring.CellsCountPairs`, `Scoring.ReportConserves`).

## Where the code does not do what its documentation says

Each with the input that shows it and the condition under which the promise holds.

* One active session per camera fails when a start falls between `stop_all` clearing the
  dictionary and the old session's `stop` beginning (`Runtime.ShutdownWindow`); it holds
  exactly when that does not happen (`Runtime.OneSessionPerCameraIff`).
* "No orphan task" fails for a session that is started again. A start while a `stop` is under
  way outlives it (`Sessions.RestartOutlivesStop`); without one, a `stop` leaves no task
  exactly when, at the call, only the generation it is going to wait for has any
  (`Sessions.StopLeavesNothingIff`). A start after the session ended leaves a producer that no
  `stop` reaches (`Sessions.RestartLeavesProducer`); a start is safe exactly when the session
  never ran (`Sessions.StartIsSafeIff`), and a session started once has no task whenever it
  says STOPPED (`Sessions.StoppedMeansNoTasks`). The runtime starts each session once.
* A RUNNING session can feed nobody: a restart does not take back a pause
  (`SessionLaws.RestartStaysPaused`). A poll reaches the handler exactly when no pause is
  outstanding (`SessionLaws.PollFeedsHandlerIff`), which for a session started once is
  whenever it says RUNNING (`SessionLaws.RunningFeedsHandler`).
* The twelve-crop cap is passed when an object refused its crop is attached again with pixels
  (`DecisionFrames.ReattachPassesCap`); one attach keeps the cap exactly when it is not of
  that kind (`DecisionFrames.CropCapIff`), a run keeps it throughout exactly when no attach of
  that kind hits a frame that stays (`DecisionFrames.CropCapAlwaysIff`), and so do runs that
  attach each object once per frame (`DecisionFrames.CropCapHolds`).
* An attach can report success and evict its own frame
  (`DecisionFrames.AttachCanEvictItsFrame`); it keeps the frame exactly when that frame and
  the newer ones fit together (`DecisionFrames.AttachKeepsItsFrameIff`).
* `nearest_before` relies on insertion order being capture order
  (`DecisionFrames.OutOfOrderHidesFrame`, `DecisionFrames.ScanIsNewestIff`).
* Two records of identical bytes share a file, and erasing one takes the other's bytes
  (`Evidence.SharedBytesAreLost`), with the exact conditions for a deletion
  (`Evidence.DeleteKeepsBytesIff`) and for a sweep (`Evidence.SweepKeepsBytesIff`).
* The `capacity` given to `FrameLedger` reaches no camera ledger (`Ledger.CapacityIsIgnored`):
  it bounds a ring exactly when it is at least 5,000 or the camera never had more frames
  (`Ledger.CapacityBoundsIff`).
* NOT_APPLICABLE findings are added to a pass's `unknown` total
  (`DriverPass.NotApplicableReadsUnknown`), which is the number of UNKNOWN findings exactly
  when there is none (`DriverPass.UnknownIsExactIff`).

## Model

| member | source | states |
|---|---|---|
| Frames.LiveFrameQueue.New | app/vision/frames.py:155-161 | a capacity below one is refused, every other gives an empty open queue of that capacity |
| Frames.LiveFrameQueue.Put | app/vision/frames.py:175-201 | whole new state of a put: refused and counted when closed, else newest kept, oldest evicted when full, a pending waiter completed |
| Frames.LiveFrameQueue.PollOnce | app/vision/frames.py:203-222 | one pass of the waiting loop: oldest frame, end of stream, or suspended behind a new waiter |
| Frames.LiveFrameQueue.LeaveWait | app/vision/frames.py:219-222 | the waiter is gone after completion and after cancellation |
| Frames.LiveFrameQueue.RecordSampledOut | app/vision/frames.py:224-232 | only the sampled-out counter moves |
| Frames.LiveFrameQueue.Close | app/vision/frames.py:234-239 | closed, with a pending waiter completed and queued frames kept |
| Frames.LiveFrameQueue.Clear | app/vision/frames.py:241-244 | nothing queued, depth zero, all else unchanged |
| Frames.QueueRunKeepsSound | app/vision/frames.py:175-244 | order, bounds, accounting and no lost wake-up survive every interleaving of queue operations |
| Frames.ReachableQueue | app/vision/frames.py:175-244 | in every reachable state: bounded depth, contents the tail of what was accepted, deliveries in order and once, accepted = delivered + evicted + cleared + queued, and a consumer with work or an end to see can run and gets it |
| Frames.HighWaterIsPeak | app/vision/frames.py:193-194 | over every run the high-water mark is the deepest the queue has been |
| Frames.BurstKeepsNewest | app/vision/frames.py:175-201 | a burst of any length leaves exactly the newest `capacity` frames in order, and counts exactly the surplus as dropped |
| Frames.FrameSampler.Accepts | app/vision/frames.py:267-277 | due exactly when first or an interval after the last accepted capture; only then is the clock moved |
| Frames.IntervalFitsSecond | app/vision/frames.py:261-264 | the interval is the greatest whole number of nanoseconds such that the asked-for number of them fits in a second |
| Frames.FrameSampler.Reset | app/vision/frames.py:279-281 | the next frame is due |
| Frames.KeptIsAdmissible | app/vision/frames.py:267-277 | on any stream, what is kept is a subsequence with consecutive members an interval apart |
| Frames.GreedyStaysAhead | app/vision/frames.py:267-277 | from any sampler state, no admissible selection of a nondecreasing stream is longer than what is kept |
| Frames.SamplerIsOptimal | app/vision/frames.py:247-277 | on any nondecreasing stream what is kept is spaced and at least as large as every spaced selection |
| Frames.BackwardClockLosesFrames | app/vision/frames.py:267-277 | a clock that steps back loses optimality: three spaced frames exist and one is kept |
| Frames.RateIsBounded | app/vision/frames.py:247-277 | on any stream, (kept - 1) intervals fit between the first and the last kept capture time |
| Sessions.VisionSession.Start | app/vision/session.py:202-217 | nothing on an active session; in every other state a new generation of tasks and RUNNING |
| Sessions.VisionSession.Pause | app/vision/session.py:219-229 | only RUNNING becomes PAUSED |
| Sessions.VisionSession.Resume | app/vision/session.py:231-235 | only PAUSED becomes RUNNING, with the sampler reset |
| Sessions.VisionSession.StopBegin | app/vision/session.py:237-251 | STOPPED at once if it never ran or had ended, else STOPPING with the queue closed, waiting for the tasks the fields hold now |
| Sessions.VisionSession.StopFinish | app/vision/session.py:260-264 | queue cleared, task fields emptied and STOPPED once the tasks it waited for are over |
| Sessions.VisionSession.OnFrame | app/vision/session.py:291-313 | received counted; sampled out, queued, queued over the oldest, or refused, each with its own counters |
| Sessions.VisionSession.ProducerLeaves | app/vision/session.py:314-322 | the queue is closed however the producer leaves |
| Sessions.VisionSession.ProducerFails | app/vision/session.py:316-322 | an exception is recorded, the session FAILED, the queue closed |
| Sessions.VisionSession.ConsumerEnds | app/vision/session.py:393-395 | FAILED or STOPPED by the recorded error, unless already stopping or stopped |
| Sessions.VisionSession.ConsumerPoll | app/vision/session.py:324-338 | one pass up to the handler: the frame handed over is the oldest, a paused session drops it instead |
| Sessions.VisionSession.HandOver | app/vision/session.py:328-338 | what the answer of `get` leads to: a frame for the handler, a counted drop while paused, or the end |
| Sessions.VisionSession.TakeNext | app/vision/frames.py:203-222 | one pass of `get` by one consumer, which clears only its own waiter |
| Sessions.VisionSession.HandlerReturned | app/vision/session.py:384-390 | for the frame in hand: processed and time counted, first and last frame times kept |
| Sessions.VisionSession.HandlerRaised | app/vision/session.py:366-382 | the error counted and the session still running |
| Sessions.VisionSession.ConsumerCancel | app/vision/session.py:251-258 | the waiter released, the frame in hand (if any) lost, then the consumer's end |
| Sessions.VisionSession.CountersBalance | app/vision/session.py:291-395 | conservation, of the counters of the object itself |
| Sessions.RunKeepsInv | app/vision/session.py:202-395 | order, balance, task coherence and spacing survive every schedule of steps, restarts included |
| Sessions.FramesAreConserved | app/vision/session.py:291-395 | over every schedule: received = processed + errors + dropped + refused at shutdown + queued + in hand or cancelled (at most one per start) + cleared by stop (zero before the first), and dropped = sampled out + queue full + dropped while paused |
| Sessions.ConsumerNeverStuck | app/vision/session.py:324-329 | no schedule parks the consumer while a frame or the end of the stream is there |
| Sessions.HandlerIsPaced | app/vision/session.py:294-304 | over every schedule the handler's frames are distinct accepted frames in order, and between two resets the a-th and b-th are (b - a) intervals apart |
| Sessions.ActiveAgainIffStarted | app/vision/session.py:202-265 | a session that is not active is active at some later moment of a schedule if and only if the schedule has a start |
| Sessions.OnlyStartActivates | app/vision/session.py:202-265 | from any inactive state a step leads to an active one if and only if it is a start |
| Sessions.StopEmptiesQueue | app/vision/session.py:260-264 | after the tail of stop, whatever came before: STOPPED, nothing queued, closed queue |
| Sessions.StopLeavesNothingIff | app/vision/session.py:237-265 | a stop of a session that has not ended leaves no task, over every schedule without a start up to its tail, if and only if at the call no generation but the one the task fields hold has a task |
| Sessions.StartIsSafeIff | app/vision/session.py:202-217 | a start of an inactive session without tasks keeps "STOPPED means no task", over every schedule without a further start, if and only if the session never ran |
| Sessions.StoppedMeansNoTasks | app/vision/session.py:237-265 | a session started at most once has no task whenever it says STOPPED, over every schedule |
| Sessions.RestartOutlivesStop | app/vision/session.py:204-265 | started again while stopping: STOPPED with both new tasks live |
| Sessions.RestartLeavesProducer | app/vision/session.py:204-246 | started again after its end: STOPPED with a live producer that a stop does not reach |
| SessionLaws.PollFeedsHandlerIff | app/vision/session.py:328-338 | over every schedule, a poll of a non-empty queue takes the oldest frame and gives it to the handler if and only if no pause is outstanding; else it is a counted drop |
| SessionLaws.PausedFeedsNobody | app/vision/session.py:332-336 | a session that says PAUSED gives the handler nothing, over every schedule, and counts what it takes as dropped |
| SessionLaws.RunningFeedsHandler | app/vision/session.py:328-338 | a session started at most once that says RUNNING gives the handler exactly the oldest queued frame |
| SessionLaws.RestartStaysPaused | app/vision/session.py:202-217 | a schedule that ends RUNNING and still drops, because a restart does not take back a pause |
| SessionLaws.ResumedTakesNextFrame | app/vision/session.py:231-235 | after a resume the next frame is accepted, however soon it was captured |
| SessionLaws.StatsAreOfReturned | app/vision/session.py:384-390 | over every schedule the processed count, processing time, first and last frame time are those of the frames that came back |
| SessionLaws.FailedIffSourceFailed | app/vision/session.py:316-322 | started at most once and not stopped, a session says FAILED if and only if its source failed, and goes on saying so |
| Runtime.LiveRuntime.StartOn | app/vision/manager.py:293-309 | refused exactly when a registered session of the camera is active, naming it; else registered and running |
| Runtime.LiveRuntime.Stop | app/vision/manager.py:322-326 | unknown and foreign sessions are not found; a found one is no longer active |
| Runtime.LiveRuntime.ShutDown | app/vision/manager.py:328-335 | the dictionary is empty while the sessions have not been told yet |
| Runtime.HappenKeepsTracked | app/vision/manager.py:293-335 | every active session stays in the dictionary or on its way out, and cameras never change |
| Runtime.ActivatedOnlyByStart | app/vision/manager.py:293-309 | no event but an admitted start of that very session makes a session active |
| Runtime.RuleBreaksExactlyWhen | app/vision/manager.py:293-335 | one event breaks the rule if and only if it is a start admitted over an active session the dictionary no longer shows |
| Runtime.OneSessionPerCameraIff | app/vision/manager.py:293-335 | over every interleaving the rule holds throughout if and only if no such start happens |
| Runtime.OneSessionPerCamera | app/vision/manager.py:293-326 | over every run without a shutdown at most one session per camera is active, at every moment |
| Runtime.ShutdownWindow | app/vision/manager.py:328-335 | start, stop_all, start leaves two active sessions of one camera |
| Rules.CoverageDescends | compliance/document.py:241-248 | covering a class covers every class below it |
| Rules.UnderIsPathPrefix | compliance/document.py:241-248 | a class is covered if and only if the filter's dotted path is the beginning of the class's |
| Rules.SameIsEqualityOfPlain | compliance/evaluator.py:373-380 | equality by cases is equality of what the values are: a boolean is 0 or 1, lists item by item |
| Rules.Attributes | compliance/document.py:225-239 | the mentioned keys, each once, in order of first mention, and no other |
| Rules.FromRules | compliance/document.py:298-312 | accepted exactly when rule ids are distinct; a refusal names an id that repeats |
| Evaluator.CompareAnswers | compliance/evaluator.py:363-397 | no answer if and only if an order is not between numbers; else whether the condition is met, on the values |
| Evaluator.AnswersByKind | compliance/evaluator.py:373-395 | the answer for texts, numbers, booleans and lists under each operator, once no reason applies |
| Evaluator.GatesReportWhatExplainsMost | compliance/evaluator.py:190-279 | a condition is unresolved if and only if some reason applies by its meaning on the values, and then reports the applicable one of lowest rank; otherwise it says whether the condition is met |
| Evaluator.OutcomeShowsWhatWasHeld | compliance/evaluator.py:205-219 | an outcome shows what was asked, what was held if anything was, and an answer or a reason |
| Evaluator.VerdictOnValues | compliance/evaluator.py:136-186 | COMPLIANT, VIOLATION and NOT_APPLICABLE, each if and only if its guards and requirements are decidable and met or not met, on the values |
| Evaluator.ConjunctionByCases | compliance/evaluator.py:156-186 | the "any failed, else any unresolved" tests are Kleene conjunction |
| Evaluator.VerdictIsKleene | compliance/evaluator.py:136-186 | the state is "if guard then requirement" over Kleene conjunctions, so a failure outranks an unknown, and the outcomes reported are the guard's, then the requirement's when the guard holds |
| Evaluator.VerdictIsSupported | compliance/finding.py:226-245 | a violation has a failed condition, an unknown an unresolved one, every outcome a verdict or a reason |
| Findings.CheckedAcceptsIff | compliance/finding.py:226-245 | a finding exists if and only if it names its rule and version, its fraction is in [0, 1], and a condition bears its state out |
| Evaluator.FindingsAlwaysConstruct | compliance/finding.py:173-245 | for every rule and subject, construction raises if and only if the rule has no id or version or the coverage fraction is outside [0, 1] |
| Evaluator.WithdrawalDecays | compliance/evaluator.py:156-186 | withdrawing any set of condition verdicts leaves a rule's state or makes it UNKNOWN |
| Evaluator.AgeingOnlyDecays | compliance/evaluator.py:281-313 | for any later instant the state is unchanged or UNKNOWN |
| Evaluator.MoreEvidenceNeverOverturns | compliance/evaluator.py:190-313 | adding attributes keeps every decided verdict and NOT_APPLICABLE, through every gate, unless a `present` condition asks about an added key |
| Evaluator.PresenceCanOverturn | compliance/evaluator.py:231-243 | the proviso is needed: one added attribute turns a violation into a pass |
| Evaluator.NeverCompliantOverGap | compliance/evaluator.py:221-222 | a rule with a requirement in a capability gap is never COMPLIANT |
| Evaluator.AttributesSuffice | compliance/document.py:225-239 | views that agree on the rule's attributes get the same finding, outcomes included |
| Evaluator.SubjectsAreIndependent | compliance/evaluator.py:108-134 | evaluating two groups together is evaluating each and concatenating, with the first exception winning |
| Evaluator.Evaluate | compliance/evaluator.py:108-134 | the accumulating loop gives the concatenation of the per-subject results |
| DriverPass.RecordKeepsTotals | app/vision/compliance_driver.py:66-84 | recording one more finding keeps every total equal to the count it names |
| DriverPass.RecordKeepsBuckets | app/vision/compliance_driver.py:66-84 | recording one more finding keeps each rule's bucket equal to its findings by state |
| DriverPass.RecordAll | app/vision/compliance_driver.py:260-261 | findings = compliant + violations + unknown, where unknown counts UNKNOWN and NOT_APPLICABLE, and every bucket counts its rule's findings |
| DriverPass.UnknownIsExactIff | app/vision/compliance_driver.py:79-84 | the unknown total is the number of UNKNOWN findings if and only if no finding is NOT_APPLICABLE |
| DriverPass.NotApplicableReadsUnknown | app/vision/compliance_driver.py:79-84 | one NOT_APPLICABLE finding is reported as unknown |
| Incidents.IncidentTable.OpenFor | app/domain/incidents.py:256-273 | the first unresolved row of the key, or none exists |
| Incidents.IncidentTable.Open | app/domain/incidents.py:56-124 | a row is created exactly when none is open; else its clock moves forward and new handles are merged |
| Incidents.IncidentTable.ResolveByObservation | app/domain/incidents.py:179-208 | the key's open row is closed by observation, with who, when and why, or nothing happens |
| Incidents.IncidentTable.Acknowledge | app/domain/incidents.py:126-138 | refused exactly for an unknown, foreign or resolved incident; idempotent; records who and when |
| Incidents.SpacesAreThese | app/domain/incidents.py:162-165 | the characters a reason may not consist of alone |
| Incidents.IncidentTable.Resolve | app/domain/incidents.py:140-177 | accepted exactly for observation, or operator with a reason that is not blank, on the tenant's own incident; idempotent; records who, when, how and the first 2,000 characters of why |
| Incidents.IncidentTable.ApplyOne | app/vision/compliance_driver.py:475-530 | one finding: raising violations open or update, raising compliants close, a captured handle is stored on a new row, an exception is counted, nothing else acts |
| Incidents.IncidentTable.OpenAndCapture | app/vision/compliance_driver.py:482-513 | the violation branch: open or update, and on a new row the captured handle |
| Incidents.IncidentTable.Apply | app/vision/compliance_driver.py:454-545 | a pass is the run of its findings; opened - resolved is the change in open incidents, opened the new rows, captured the new rows with evidence, opened + updated the raising violations acted on, and errors exactly the findings not applied plus the new rows whose capture raised |
| Incidents.RunKeepsConsistent | app/domain/incidents.py:78-124 | one open row per key and unique ids survive every run |
| Incidents.FindingMovesTable | app/vision/compliance_driver.py:478-527 | on any consistent table: at severity low, medium, high or critical a COMPLIANT finding leaves no open row for its organization, camera, object and rule and a VIOLATION exactly one; any other finding leaves the table equal |
| Incidents.FindingWritesRow | app/vision/compliance_driver.py:483-512 | what a new row says (snapshot, instant, severity, rule set, captured handle) and what a repeat changes (the instant, forward) |
| Incidents.OpenIffLastWordOpen | app/vision/compliance_driver.py:475-527 | over every run of findings, acknowledgements and resolutions, a key has an open incident if and only if the last word about it, read off the events alone, opened it; its id is the one that opening gave; never two |
| Incidents.OpenIffLastFindingViolates | app/vision/compliance_driver.py:475-527 | without resolution by hand, open if and only if the key's last raising decided finding was a VIOLATION |
| Incidents.UndecidedFindingsDoNothing | app/vision/compliance_driver.py:475-530 | deleting every UNKNOWN, NOT_APPLICABLE, non-raising or unapplied finding from a run leaves the same table, row for row |
| Incidents.HistoryIsFrozen | app/domain/incidents.py:83-138 | over every run no row goes, no snapshot or identity changes, clocks only move forward, a resolved row never changes, a closing by an operator carries a note |
| Incidents.CountedMatchesTable | app/vision/compliance_driver.py:481-530 | what one finding adds to the counters is what it did to the table |
| Passes.PassDecays | compliance/evaluator.py:108-134 | a pass at a later instant raises exactly when the earlier one did, and finding by finding has the same rule, subject and severity and the same state or UNKNOWN |
| Passes.PassJudgesExactlyTheConcerned | compliance/evaluator.py:80-134 | each finding is one rule's verdict on one subject it concerns by camera and class, with its names, instant and coverage; and every such pair has its finding |
| Passes.PassNamesOnce | compliance/evaluator.py:95-134 | with distinct rule ids and distinct subjects a pass names each incident key at most once |
| Passes.PassSettles | app/vision/compliance_driver.py:475-527 | after a pass that reached the table, from any consistent table, each decided raising finding's key is open if and only if the finding is a VIOLATION |
| Passes.SettledPassMovesClocks | app/vision/compliance_driver.py:475-527 | a pass the table already agrees with changes nothing on any row but its clock |
| Passes.TimeAloneMovesNoIncident | app/vision/compliance_driver.py:448-527 | two passes over the same views, the second at any later instant: it opens no incident, closes none and changes only clocks |
| Text.SplitUndoesJoin | app/domain/incidents.py:292-296 | joining then splitting on commas gives the handles back |
| EvidenceRefs.ColumnHasCommas | app/domain/incidents.py:121 | a column is its handles with a comma between two |
| EvidenceRefs.RoundTripIffClean | app/domain/incidents.py:292-296 | a column reads back as written if and only if no handle is empty or contains a comma |
| EvidenceRefs.ColumnReadsAsPieces | app/domain/incidents.py:292-296 | a written column reads back as the comma-separated pieces of its handles, whatever they contain |
| EvidenceRefs.MergeRefs | app/domain/incidents.py:286-296 | the stored column is the order-stable union cut at fifty, and reads back as its pieces, so as itself when no handle has a comma |
| EvidenceRefs.MergedIsFirstFifty | app/domain/incidents.py:286-296 | a merge is the first fifty of the old handles in order and then the new ones, nothing lost, invented or repeated |
| EvidenceRefs.MergeIsIdempotent | app/domain/incidents.py:286-296 | merging the same handles again changes nothing, even past the limit, and what was there stays first |
| DecisionFrames.KeptIsLongestFittingSuffix | app/vision/decision_frames.py:286-295 | what eviction keeps fits both ceilings, every longer suffix does not, and a non-empty ring never empties |
| DecisionFrames.DecisionFrameStore.EvictFrom | app/vision/decision_frames.py:286-295 | the two loops with their running total keep exactly that suffix and count every eviction |
| DecisionFrames.DecisionFrameStore.Remember | app/vision/decision_frames.py:148-174 | an empty image is ignored; else the frame replaces its ref, moves to the end, and the ceilings apply |
| DecisionFrames.DecisionFrameStore.AttachSubject | app/vision/decision_frames.py:176-218 | false for an aged-out frame; else the subject is recorded, its crop refused only for a new object on a full frame, and the ceilings apply |
| DecisionFrames.DecisionFrameStore.AttachAt | app/vision/decision_frames.py:203-218 | the subject recorded in place, then the ceilings |
| DecisionFrames.DecisionFrameStore.AdmitCrop | app/vision/decision_frames.py:203-208 | the crop is refused exactly for an object new to a frame that has twelve, and one counter moves |
| DecisionFrames.DecisionFrameStore.NearestBefore | app/vision/decision_frames.py:253-282 | the loop is the early-exit scan; what it returns contains the object, is not after the instant and is within tolerance; one hit or one miss is counted |
| DecisionFrames.RunKeepsBounds | app/vision/decision_frames.py:148-218 | every camera stays under both ceilings with distinct refs over every run |
| DecisionFrames.EveryOperationKeepsLongestSuffix | app/vision/decision_frames.py:148-218 | after every operation of every run the touched camera is the longest fitting suffix of its pre-eviction order, and no other camera changes |
| DecisionFrames.FitsIsWithinCeilings | app/vision/decision_frames.py:286-295 | the ceilings in numbers: 64 frames, and 33,554,432 bytes of images and crops unless one frame is left |
| DecisionFrames.OperationWrites | app/vision/decision_frames.py:157-217 | before the ceilings: a remembered frame stands last with nothing on it; an attach records the subject on its frame alone, without pixels exactly when the object is new to a frame with pixels of twelve |
| DecisionFrames.StoresAreConserved | app/vision/decision_frames.py:169-174 | over every run stores = retained + evictions + replacements |
| DecisionFrames.EachCameraConserves | app/vision/decision_frames.py:169-174 | and for each camera: stored = retained + evicted + replaced |
| DecisionFrames.FreshStoresAreConserved | app/vision/decision_frames.py:169-174 | with fresh frame refs stores = retained + evictions, in all and for each camera |
| DecisionFrames.CropCapIff | app/vision/decision_frames.py:203-207 | one attach keeps a frame within twelve crops if and only if it is not pixels for a pixel-less known object on a full frame |
| DecisionFrames.CropCapAlwaysIff | app/vision/decision_frames.py:203-218 | over every run, every retained frame is within twelve crops at every moment if and only if no attach of that kind hits a frame that stays retained |
| DecisionFrames.CropCapHolds | app/vision/decision_frames.py:203-207 | over every run that attaches each object at most once per frame, no retained frame exceeds twelve crops |
| DecisionFrames.ReattachPassesCap | app/vision/decision_frames.py:203-217 | runs from an empty store that reach thirteen crops: thirteen or more objects with pixels, then a refused one again |
| DecisionFrames.AttachKeepsItsFrameIff | app/vision/decision_frames.py:198-218 | an attach succeeds if and only if the frame is retained, and keeps it if and only if that frame with the subject on it and every newer frame fit together |
| DecisionFrames.AttachCanEvictItsFrame | app/vision/decision_frames.py:209-218 | runs from an empty store in which an attach returns true and evicts the frame it attached to |
| DecisionFrames.ScanIsNewestIff | app/vision/decision_frames.py:268-277 | on any ring the scan is the brute-force newest if and only if no qualifying frame is newer than the last-inserted candidate |
| DecisionFrames.CaptureOrderMakesScanExact | app/vision/decision_frames.py:268-277 | on a ring in capture order the early exit loses nothing |
| DecisionFrames.NearestBeforeIsExact | app/vision/decision_frames.py:253-282 | over every run that remembers frames in nondecreasing capture order, the scan is the brute-force maximum of what is retained |
| DecisionFrames.OutOfOrderHidesFrame | app/vision/decision_frames.py:273-274 | runs from an empty store, out of capture order, in which a stale frame hides the frame captured at the very instant asked for |
| Decimals.DigitsRoundTrip | app/vision/ledger.py:324-331 | decimal digits read back as the number |
| FrameRefs.FrameRefIsInjective | app/vision/ledger.py:324-331 | a frame ref determines camera, epoch and sequence, even for camera ids with colons and negative numbers |
| FrameRefs.FrameRefReads | app/vision/ledger.py:324-331 | split at colons a ref is the pieces of the camera id, then the epoch, then the sequence |
| Ledger.FrameLedger.constructor | app/vision/ledger.py:122-125 | the capacity is kept and nothing else follows from it |
| Ledger.FrameLedger.RecordFrame | app/vision/ledger.py:130-167 | the ring evicts at 5,000 and the index follows; the new entry is unprocessed |
| Ledger.FrameLedger.HolderOf | app/vision/ledger.py:188-191 | the first camera whose index has the ref |
| Ledger.FrameLedger.AnnotateFrame | app/vision/ledger.py:169-223 | the holder's index and ring both get the annotated entry, or nothing changes |
| Ledger.FrameLedger.Get | app/vision/ledger.py:256-262 | the holder's entry for the ref, if any |
| Ledger.FrameLedger.NeighboursOf | app/vision/ledger.py:264-282 | what stands before and after the ref in the holder's order |
| Ledger.RecordKeepsCoherentIff | app/vision/ledger.py:158-166 | a record keeps ring and index in agreement if and only if its ref is not one that stays retained |
| Ledger.IndexAgreesWithRing | app/vision/ledger.py:130-223 | over every run in which no camera repeats (epoch, sequence), a ring is exactly the newest 5,000 frames recorded for the camera, in order, and its index exactly its entries |
| Ledger.RingLength | app/vision/ledger.py:158-166 | over every run at all, a ring is as long as the newest 5,000 of its records |
| Ledger.CapacityBoundsIff | app/vision/ledger.py:107-125 | a ring stays within the capacity asked for throughout a run if and only if that is at least 5,000 or the camera had no more records |
| Ledger.CapacityIsIgnored | app/vision/ledger.py:107-125 | a ledger built for one frame keeps two |
| Ledger.LookupIsUnambiguous | app/vision/ledger.py:256-262 | at most one camera holds a ref, the one it names, and the entry is the frame it names |
| Ledger.EntriesNeverRevert | app/vision/ledger.py:187-223 | over any operations that do not record the ref again, identity is fixed and `processed` and `counts_reported` never revert |
| Ledger.AnnotationIsStored | app/vision/ledger.py:187-223 | an annotation marks its frame processed, reports counts once any is given, replaces what is given and keeps the rest, and changes no other frame |
| Ledger.SortedSorts | app/vision/ledger.py:275 | the stepping order is sorted by (capture time, sequence) and is a permutation of the ring |
| Ledger.StepsAreInverse | app/vision/ledger.py:264-282 | b follows a if and only if a precedes b |
| Ledger.WalkVisitsEveryFrameOnce | app/vision/ledger.py:264-282 | following next from the first frame visits every retained frame once, in order, and stops |
| Evidence.EvidenceStore.PutEvidence | app/domain/evidence.py:59-111 | bytes written once per digest, a RETAINED row with its expiry added unless the handle is taken |
| Evidence.EvidenceStore.Store | app/domain/evidence.py:81-111 | the file first, then the row |
| Evidence.EvidenceStore.FetchEvidence | app/domain/evidence.py:132-170 | refusals in order; served bytes belong to a RETAINED row and are those put, and with distinct digests and an untouched disk every RETAINED row is served |
| Evidence.EvidenceStore.ExpireDue | app/domain/evidence.py:188-208 | exactly the due rows in scope become EXPIRED, and their handles are returned in order |
| Evidence.EvidenceStore.MarkDue | app/domain/evidence.py:195-208 | the loop marks exactly the due rows in scope, in order |
| Evidence.EvidenceStore.DeleteEvidence | app/domain/evidence.py:210-251 | bytes gone and a tombstone left; deleting twice is fine; a failed unlink changes nothing |
| Evidence.LifecycleIsOneWay | app/domain/evidence.py:188-251 | over every run, corruption included: rows are never removed, state only moves forward, a tombstone never changes |
| Evidence.ExpiresExactlyWhenDue | app/domain/evidence.py:188-208 | over every run, a RETAINED row first put at t for d days becomes EXPIRED by an expiry at now if and only if it is in scope and t + 86,400 d <= now; no other row changes |
| Evidence.RowsComeFromPuts | app/domain/evidence.py:81-111 | over every run handles are unique and each row's subject, digest, size and expiry are those of the first put under it |
| Evidence.FetchReturnsWhatWasPut | app/domain/evidence.py:132-170 | over every run with arbitrary disk corruption, fetched bytes belong to a RETAINED row and are the bytes put (collision-free digest) |
| Evidence.DeleteKeepsBytesIff | app/domain/evidence.py:210-251 | deleting a row keeps every other live row's bytes if and only if none shares its file |
| Evidence.SweepKeepsBytesIff | app/domain/retention.py:160-166 | an erasing sweep keeps every other row's bytes if and only if no RETAINED row shares a file with an expired row whose file it can remove |
| Evidence.SharedBytesAreLost | app/domain/evidence.py:85-88 | after any run, two puts of one image and a deletion of the first leave the second RETAINED without bytes |
| Evidence.RetainedMeansOnDisk | app/domain/evidence.py:85-111 | over every run with distinct digests and an untouched disk, every row not erased has its bytes on disk |
| Evidence.FetchServesExactlyRetained | app/domain/evidence.py:132-170 | there, a fetch succeeds if and only if the row is RETAINED |
| Retention.RetentionService.ExpireEvidence | app/domain/retention.py:121-144 | exactly the due rows become EXPIRED, counted, with one audit row each |
| Retention.RetentionService.EraseRow | app/domain/retention.py:160-202 | one expired row: tombstone and file gone, or left EXPIRED and reported when the unlink fails |
| Retention.RetentionService.EraseExpiredRows | app/domain/retention.py:146-202 | the row-by-row loop is the simultaneous erase, and erased + failures is the number of expired rows |
| Retention.RetentionService.Sweep | app/domain/retention.py:88-117 | the sweep is expire, then (if erasing) erase, prune incidents, prune audit, with their counts |
| Retention.MarkOnlySweep | app/domain/retention.py:88-107 | marking changes exactly the RETAINED rows whose expiry is at or before now, only to EXPIRED, adds one audit row each and destroys nothing |
| Retention.ErasingSweepErases | app/domain/retention.py:109-144 | every row past its expiry or EXPIRED ends as a tombstone naming the policy, or stays EXPIRED and reported exactly when its file is there and cannot be removed; every other row is untouched, and the counts are exact |
| Retention.ErasingSweepPrunesIncidents | app/domain/retention.py:206-223 | an incident goes if and only if it was resolved at least the incident period ago, in days of 86,400 seconds, so never an unresolved one |
| Retention.ErasingSweepPrunesAudit | app/domain/retention.py:225-236 | an audit row stays if and only if it is younger than the audit period, whoever wrote it, and the count is exact |
| Retention.OwnTrailSurvives | app/domain/retention.py:225-236 | with a positive audit period a sweep never prunes what it wrote |
| Retention.OwnTrailSays | app/domain/retention.py:134-202 | what a sweep writes: one row for each expiry and one for each attempt to erase, saying whether it succeeded |
| Retention.SweepUnlinks | app/domain/retention.py:160-166 | after an erasing sweep a file is on disk if and only if it was and no due or expired row named it, or it cannot be removed |
| Retention.SweepIsExpireThenErase | app/domain/retention.py:103-109 | a sweep is two events of the evidence lifecycle, so the theorems over its runs cover sweeps |
| Retention.SecondSweepFindsNothing | app/domain/retention.py:88-117 | after an erasing sweep without failures any sweep at that instant reports zero and changes nothing |
| Scoring.BestIsFirstMaximum | tools/vision_eval/metrics.py:262-268 | the scan finds the first candidate of greatest overlap, and none when no overlap is positive |
| Scoring.MatchedIffOverlapping | tools/vision_eval/metrics.py:262-272 | a subject is matched if and only if a free prediction overlaps it positively and by the threshold |
| Scoring.FindMatch | tools/vision_eval/metrics.py:262-272 | the innermost loop finds that match |
| Scoring.FirstOfItsKind | tools/vision_eval/metrics.py:274 | removing the match by equality removes it by position |
| Scoring.MatchingConserves | tools/vision_eval/metrics.py:260-275 | subjects = matched + unmatched, and matched and left-over predictions are together the predictions, so none is matched twice |
| Scoring.FramesConserve | tools/vision_eval/metrics.py:251-320 | annotated = matched + unmatched, every subject of an unanswered frame is unmatched, and predicted in scored frames = matched + spurious |
| Scoring.ByFrameKeepsLast | tools/vision_eval/metrics.py:238 | the dictionary holds, under each id, the subjects of the last predicted frame with that id |
| Scoring.PairsComeFromFrames | tools/vision_eval/metrics.py:251-275 | each pair is a subject of an annotated frame and a prediction of the last predicted frame of that id, which overlap by the threshold |
| Scoring.ScorePair | tools/vision_eval/metrics.py:277-318 | the loop over attributes tallies one pair |
| Scoring.ScoreFrame | tools/vision_eval/metrics.py:260-320 | matching and scoring as it goes is matching first and scoring the pairs afterwards |
| Scoring.ScorePairsConserves | tools/vision_eval/metrics.py:277-318 | per attribute, matched = correct + missing + failures = all cells, correct = the diagonal, missing = the "none" column |
| Scoring.CellsCountPairs | tools/vision_eval/metrics.py:277-318 | each cell counts the matched pairs with that truth and that answer, and off the diagonal exactly the failures listed with them |
| Scoring.FailuresNameTheirPairs | tools/vision_eval/metrics.py:299-318 | every listed failure is the wrong answer of one of the pairs, under the names of its frame, subject and object |
| Scoring.ReportConserves | tools/vision_eval/metrics.py:322-351 | supports add up to matched, predicted counts plus missing to matched, true positives to correct |
| Scoring.FalseCountsAreFailures | tools/vision_eval/metrics.py:325-342 | false counts are never negative; false positives are the failures, false negatives the failures and the missing |
| Scoring.Evaluate | tools/vision_eval/metrics.py:230-320 | the whole pass, with the origin of every pair and every identity above for every attribute |

## Left out

- Sessions: STARTING, which no other task can observe, is folded into RUNNING; the ledger calls inside the loop and cancellation from anywhere but `stop` are not modelled.
- Sessions.HandlerIsPaced: spacing is stated between two sampler resets, because `resume` makes the next frame due at once.
- Runtime.LiveRuntime.Stop: covers the call up to its first await; finishing the stop and leaving the dictionary are separate events of the run. The runtime starts each session once, so its events do not start one again.
- Evaluator.GatesReportWhatExplainsMost: numbers are exact reals carrying the text Python shows, so NaN and float rounding are not modelled; finding ids, labels beyond the display name and `describe` are not either.
- Incidents.IncidentTable.Open: the snapshot is the whole finding rather than its truncated JSON; zone, restaurant, track and summary columns are not kept.
- Incidents.IncidentTable.Apply: whether the table or the capture raises, and the captured handle, are parameters; notifications are not modelled.
- Driver end to end: the evidence instant the driver looks up reads fields an outcome does not have (app/vision/compliance_driver.py:712-719), so "never after the observation" is stated on `nearest_before` with an explicit instant.
- `_exhibits`, `unproducible_against`, rule-document parsing and the construction guards of conditions and rules: comprehensions and single-branch checks. What is proved about verdicts holds for every rule, guarded or not.
- `DecisionFrameStore.get`, `latest_for_object`, `stats`, and `FrameLedger.entries`, `summary`, `clear`: single look-ups, paging and sums.
- Evidence rows with an empty `content_hash`, which `put` never writes; file-system errors other than a failed unlink; time zones.
- Retention: one sweep sees one instant, where the code reads the clock in each phase; audit detail text is not kept.
- Scoring: failure categories, rates and model-call counts; overlap is a parameter; the per-attribute tallies exist from their first use rather than from the start.
- Authorization, HTTP and WebSocket routes, JPEG and RTSP handling, settings and the database engine: input and output around these cores.
