// A stopped recording closes: once the producer has left its loop every way of
// running on is bounded, and ends only with the file writer closed.
module RecorderClose {
  import opened SessionRecorder

  // ---- the producer leaves its loop ----

  // How many steps the producer still takes when recording has been stopped.
  function ProducerSteps(p: Producer): nat {
    match p
    case Finished => 0
    case Top => 1
    case Ticking => 2
    case Counting => 3
    case Dropping => 3
    case Enqueuing => 4
  }

  lemma OwnStepsLead(s: State, p: ProducerAction)
    requires !s.recording && ProducerCan(s, p)
    ensures !ProducerStep(s, p).recording
    ensures ProducerSteps(ProducerStep(s, p).producer) < ProducerSteps(s.producer)
  {}

  lemma WriterLeavesRecording(s: State, w: WriterAction)
    requires WriterCan(s, w)
    ensures WriterStep(s, w).recording == s.recording && WriterStep(s, w).producer == s.producer
  {}

  // Stopped is for good: each step of the producer's brings it nearer the end of
  // its loop and nothing else takes it back.
  lemma StoppedProducerLeaves(s: State, a: Action)
    requires !s.recording && Enabled(s, a)
    ensures !Step(s, a).recording
    ensures
      var before, after := ProducerSteps(s.producer), ProducerSteps(Step(s, a).producer);
      if a.ByProducer? then after < before else after == before
  {
    match a
    case ByProducer(p) => OwnStepsLead(s, p);
    case ByWriter(w) => WriterLeavesRecording(s, w);
    case StopRecording =>
    case RunTask(_) =>
    case EndTask(_) =>
  }

  function ProducerNext(p: Producer): ProducerAction {
    match p
    case Enqueuing => Enqueue([])
    case Counting => CountFrame
    case Dropping => Drop
    case Ticking => Tick
    case _ => LeaveLoop
  }

  // And it is stuck nowhere before that.
  lemma StoppedProducerIsNotStuck(s: State)
    requires !s.recording && !s.producer.Finished?
    ensures Enabled(s, ByProducer(ProducerNext(s.producer)))
  {}

  // ---- then the writer drains and closes ----

  // A file costs the writer two steps and the pool two more.
  const FILE_WORK := 6

  function AfterFrame(draining: bool): nat {
    if draining then 3 else 4
  }

  function WriterWork(w: Writer): nat {
    match w
    case Closed => 0
    case Closing => 1
    case Awaiting => 2
    case Draining => AfterFrame(true)
    case LoopTop => AfterFrame(false)
    case Dequeuing => 5
    case NotStarted => 5
    case Took(f, draining) => FILE_WORK * |f.devices| + 2 + AfterFrame(draining)
    case Writing(f, next, draining) => FilesLeft(f, next) + 1 + AfterFrame(draining)
    case Detaching(f, next, draining) => FilesLeft(f, next) + AfterFrame(draining)
  }

  function FilesLeft(f: Frame, next: nat): nat {
    if next < |f.devices| then FILE_WORK * (|f.devices| - next) else 0
  }

  function QueueWork(queue: seq<Frame>): nat
    decreases |queue|
  {
    if queue == [] then 0 else FILE_WORK * |queue[0].devices| + 3 + QueueWork(queue[1..])
  }

  function Remaining(s: State): nat {
    QueueWork(s.queue) + WriterWork(s.writer) + 2 * |s.tasks| + |s.ending|
  }

  // Waiting for tasks in flight is not progress, nor is stopping again.
  ghost predicate Progress(s: State, a: Action) {
    Enabled(s, a) && !a.StopRecording? && !(a == ByWriter(CheckInFlight) && s.inFlight > 0)
  }

  lemma TimedDequeueProgresses(s: State)
    requires s.writer.Dequeuing?
    ensures Remaining(WriterStep(s, TimedDequeue)) < Remaining(s)
  {}

  lemma DrainDequeueProgresses(s: State)
    requires s.writer.Draining?
    ensures Remaining(WriterStep(s, DrainDequeue)) < Remaining(s)
  {}

  lemma FileProgresses(s: State, w: WriterAction)
    requires InFlightCounts(s) && WriterCan(s, w) && (w.WriteNext? || w.Detach?)
    ensures Remaining(WriterStep(s, w)) < Remaining(s)
  {}

  lemma WriterProgresses(s: State, w: WriterAction)
    requires InFlightCounts(s) && s.stopRequested && Progress(s, ByWriter(w))
    ensures Remaining(WriterStep(s, w)) < Remaining(s)
  {
    match w
    case TimedDequeue => TimedDequeueProgresses(s);
    case DrainDequeue => DrainDequeueProgresses(s);
    case WriteNext => FileProgresses(s, w);
    case Detach => FileProgresses(s, w);
    case _ =>
  }

  lemma PoolProgresses(s: State, a: Action)
    requires Enabled(s, a) && (a.RunTask? || a.EndTask?)
    ensures Remaining(Step(s, a)) < Remaining(s)
  {}

  lemma StepProgresses(s: State, a: Action)
    requires ShutdownSound(s) && InFlightCounts(s) && s.stopRequested && Progress(s, a)
    ensures Remaining(Step(s, a)) < Remaining(s) && Step(s, a).stopRequested
  {
    if a.ByWriter? { WriterProgresses(s, a.w); } else { PoolProgresses(s, a); }
  }

  // A run of nothing but progress.
  ghost predicate Closes(s: State, actions: seq<Action>)
    decreases |actions|
  {
    actions == [] || (Progress(s, actions[0]) && Closes(Step(s, actions[0]), actions[1..]))
  }

  ghost function After(s: State, actions: seq<Action>): State
    requires Closes(s, actions)
    decreases |actions|
  {
    if actions == [] then s else After(Step(s, actions[0]), actions[1..])
  }

  lemma {:induction false} ClosingIsBounded(s: State, actions: seq<Action>)
    requires Inv(s) && s.stopRequested && Closes(s, actions)
    ensures Inv(After(s, actions)) && After(s, actions).stopRequested
    ensures |actions| + Remaining(After(s, actions)) <= Remaining(s)
    decreases |actions|
  {
    if actions == [] {
    } else {
      StepProgresses(s, actions[0]);
      StepKeepsInv(s, actions[0]);
      ClosingIsBounded(Step(s, actions[0]), actions[1..]);
    }
  }

  lemma WaitingForTheWriter(s: State, w: WriterAction)
    requires WriterCan(s, w) && !w.CheckInFlight?
    ensures exists a :: Progress(s, a)
  {
    assert Progress(s, ByWriter(w));
  }

  // A writer that waits for tasks waits for some that can run or end.
  lemma WaitingForTheWrites(s: State)
    requires InFlightCounts(s) && s.writer.Awaiting?
    ensures exists a :: Progress(s, a)
  {
    if s.inFlight == 0 {
      assert Progress(s, ByWriter(CheckInFlight));
    } else if |s.tasks| > 0 {
      var t :| t in s.tasks;
      assert Progress(s, RunTask(t));
    } else {
      var t :| t in s.ending;
      assert Progress(s, EndTask(t));
    }
  }

  lemma OpenWriterGoesOn(s: State)
    requires InFlightCounts(s) && !s.writer.Closed?
    ensures exists a :: Progress(s, a)
  {
    match s.writer
    case NotStarted => WaitingForTheWriter(s, StartWriter);
    case LoopTop => WaitingForTheWriter(s, CheckStop);
    case Dequeuing => WaitingForTheWriter(s, TimedDequeue);
    case Draining => WaitingForTheWriter(s, DrainDequeue);
    case Took(_, _) => WaitingForTheWriter(s, UncountFrame);
    case Writing(_, _, _) => WaitingForTheWriter(s, WriteNext);
    case Detaching(_, _, _) => WaitingForTheWriter(s, Detach);
    case Awaiting => WaitingForTheWrites(s);
    case Closing => WaitingForTheWriter(s, CloseFile);
  }

  // Nothing is left to do exactly when the writer has closed.
  lemma NothingLeftIffClosed(s: State)
    requires ShutdownSound(s) && InFlightCounts(s) && s.stopRequested
    ensures (forall a :: !Progress(s, a)) <==> s.writer.Closed?
  {
    if s.writer.Closed? {
      assert |s.tasks| == 0 && |s.ending| == 0;
    } else {
      OpenWriterGoesOn(s);
    }
  }

  // So from wherever the producer has left its loop, however the writer and the
  // pool go on, they go on for so long and no longer; and stopped they are with
  // the writer closed and every file of every queued frame written once.
  lemma StoppedRecordingCloses(parallel: bool, before: seq<Action>, actions: seq<Action>)
    requires CanRun(Start(parallel), before) && Run(Start(parallel), before).stopRequested
    requires Closes(Run(Start(parallel), before), actions)
    ensures |actions| <= Remaining(Run(Start(parallel), before))
    ensures
      var end := After(Run(Start(parallel), before), actions);
      (forall a :: !Progress(end, a)) ==>
        !end.fileWriting && end.queue == [] && forall d :: end.written[d] == OwedByAll(end.enqueued, d)
  {
    RunKeepsInv(parallel, before);
    ClosingIsBounded(Run(Start(parallel), before), actions);
    var end := After(Run(Start(parallel), before), actions);
    if forall a :: !Progress(end, a) {
      NothingLeftIffClosed(end);
      forall d ensures end.written[d] == OwedByAll(end.enqueued, d) { ClosedOwesNothing(end, d); }
    }
  }

  lemma ClosedOwesNothing(s: State, d: DeviceFrame)
    requires Inv(s) && s.writer.Closed?
    ensures s.written[d] == OwedByAll(s.enqueued, d)
  {
    assert |s.tasks| == 0;
    assert FileConserved(s, d);
  }
}
