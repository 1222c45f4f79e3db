// One recording: a producer that queues a frame every tick unless the writer is
// too far behind, a file writer that hands every device's share of a frame to a
// task pool, and the pool's tasks. Every step is one atomic action.
module SessionRecorder {

  const FRAME_QUEUE_MAX: nat := 100
  const COUNTER_MODULUS: nat := 0x1_0000_0000_0000_0000

  // A plugin object with the id its configuration gives it.
  datatype Device = Device(plugin: nat, id: string)

  // A frame holds the devices there were when it was queued.
  datatype Frame = Frame(index: nat, devices: seq<Device>)

  // One file: a device's cloud in a frame.
  datatype DeviceFrame = DeviceFrame(index: nat, device: nat)

  datatype Producer = Top | Enqueuing | Counting | Dropping | Ticking | Finished

  datatype Writer =
    | NotStarted
    | LoopTop
    | Dequeuing
    | Draining
    | Took(frame: Frame, draining: bool)
    | Writing(frame: Frame, next: nat, draining: bool)
    | Detaching(frame: Frame, next: nat, draining: bool)
    | Awaiting
    | Closing
    | Closed

  datatype State = State(
    parallel: bool,
    recording: bool,
    stopRequested: bool,     // of the file writer thread
    currentFrame: nat,
    dropped: nat,
    depth: nat,              // an unsigned counter
    queue: seq<Frame>,
    producer: Producer,
    writer: Writer,
    fileWriting: bool,
    inFlight: nat,
    tasks: multiset<DeviceFrame>,    // detached, not yet written
    ending: multiset<DeviceFrame>,   // written, still counted in flight
    written: multiset<DeviceFrame>,  // history: calls of write_ply
    enqueued: seq<Frame>             // history: frames in the order queued
  )

  datatype ProducerAction = CheckDepth | LeaveLoop | Enqueue(devices: seq<Device>) | CountFrame | Drop | Tick

  datatype WriterAction =
    | StartWriter | CheckStop | TimedDequeue | DrainDequeue | UncountFrame
    | WriteNext | Detach | CheckInFlight | CloseFile

  datatype Action =
    | StopRecording
    | ByProducer(p: ProducerAction)
    | ByWriter(w: WriterAction)
    | RunTask(task: DeviceFrame)
    | EndTask(task: DeviceFrame)

  function Start(parallel: bool): State {
    State(parallel, true, false, 0, 0, 0, [], Top, NotStarted, false, 0,
          multiset{}, multiset{}, multiset{}, [])
  }

  predicate ProducerCan(s: State, a: ProducerAction) {
    match a
    case CheckDepth => s.producer.Top? && s.recording
    // leaving the loop destroys the writer's jthread: it is asked to stop
    case LeaveLoop => s.producer.Top? && !s.recording
    case Enqueue(_) => s.producer.Enqueuing?
    case CountFrame => s.producer.Counting?
    case Drop => s.producer.Dropping?
    case Tick => s.producer.Ticking?
  }

  predicate WriterCan(s: State, a: WriterAction) {
    match a
    case StartWriter => s.writer.NotStarted?
    case CheckStop => s.writer.LoopTop?
    case TimedDequeue => s.writer.Dequeuing?
    case DrainDequeue => s.writer.Draining?
    case UncountFrame => s.writer.Took?
    case WriteNext => s.writer.Writing?
    case Detach => s.writer.Detaching?
    case CheckInFlight => s.writer.Awaiting?
    case CloseFile => s.writer.Closing?
  }

  predicate Enabled(s: State, a: Action) {
    match a
    case StopRecording => true
    case ByProducer(p) => ProducerCan(s, p)
    case ByWriter(w) => WriterCan(s, w)
    case RunTask(t) => t in s.tasks
    case EndTask(t) => t in s.ending
  }

  // Unsigned counters wrap.
  function Incremented(n: nat): nat {
    if n + 1 == COUNTER_MODULUS then 0 else n + 1
  }

  function Decremented(n: nat): nat {
    if n == 0 then COUNTER_MODULUS - 1 else n - 1
  }

  function ProducerStep(s: State, a: ProducerAction): State
    requires ProducerCan(s, a)
  {
    match a
    case CheckDepth => s.(producer := if s.depth < FRAME_QUEUE_MAX then Enqueuing else Dropping)
    case LeaveLoop => s.(producer := Finished, stopRequested := true)
    case Enqueue(devices) =>
      var f := Frame(s.currentFrame, devices);
      s.(queue := s.queue + [f], enqueued := s.enqueued + [f], producer := Counting)
    case CountFrame => s.(depth := Incremented(s.depth), producer := Ticking)
    case Drop => s.(dropped := s.dropped + 1, producer := Ticking)
    case Tick => s.(currentFrame := s.currentFrame + 1, producer := Top)
  }

  function WriterStep(s: State, a: WriterAction): State
    requires WriterCan(s, a)
  {
    match a
    case StartWriter => s.(fileWriting := true, writer := LoopTop)
    case CheckStop => s.(writer := if s.stopRequested then Draining else Dequeuing)
    case TimedDequeue =>
      if s.queue == [] then s.(writer := LoopTop)
      else s.(queue := s.queue[1..], writer := Took(s.queue[0], false))
    case DrainDequeue =>
      if s.queue == [] then s.(writer := Awaiting)
      else s.(queue := s.queue[1..], writer := Took(s.queue[0], true))
    case UncountFrame =>
      s.(depth := Decremented(s.depth), writer := Writing(s.writer.frame, 0, s.writer.draining))
    case WriteNext =>
      var w := s.writer;
      if w.next >= |w.frame.devices| then s.(writer := if w.draining then Draining else LoopTop)
      else if s.parallel then s.(inFlight := s.inFlight + 1, writer := Detaching(w.frame, w.next, w.draining))
      else s.(written := s.written + multiset{DeviceFrame(w.frame.index, w.next)},
              writer := Writing(w.frame, w.next + 1, w.draining))
    case Detach =>
      var w := s.writer;
      s.(tasks := s.tasks + multiset{DeviceFrame(w.frame.index, w.next)},
         writer := Writing(w.frame, w.next + 1, w.draining))
    case CheckInFlight => if s.inFlight > 0 then s else s.(writer := Closing)
    case CloseFile => s.(fileWriting := false, writer := Closed)
  }

  function Step(s: State, a: Action): State
    requires Enabled(s, a)
  {
    match a
    case StopRecording => s.(recording := false)
    case ByProducer(p) => ProducerStep(s, p)
    case ByWriter(w) => WriterStep(s, w)
    case RunTask(t) =>
      s.(tasks := s.tasks - multiset{t}, ending := s.ending + multiset{t}, written := s.written + multiset{t})
    case EndTask(t) => s.(ending := s.ending - multiset{t}, inFlight := Decremented(s.inFlight))
  }

  predicate CanRun(s: State, actions: seq<Action>)
    decreases |actions|, 0
  {
    actions == [] ||
    (CanRun(s, actions[..|actions| - 1]) && Enabled(Run(s, actions[..|actions| - 1]), actions[|actions| - 1]))
  }

  function Run(s: State, actions: seq<Action>): State
    requires CanRun(s, actions)
    decreases |actions|, 1
  {
    if actions == [] then s else Step(Run(s, actions[..|actions| - 1]), actions[|actions| - 1])
  }

  // ---- what every step keeps ----

  // The frames the depth counter stands for.
  function Outstanding(s: State): int {
    |s.queue| + (if s.writer.Took? then 1 else 0) - (if s.producer.Counting? then 1 else 0)
  }

  ghost predicate DepthSound(s: State) {
    && s.depth == (if Outstanding(s) < 0 then COUNTER_MODULUS - 1 else Outstanding(s))
    && |s.queue| <= FRAME_QUEUE_MAX
    && (s.producer.Enqueuing? ==> |s.queue| < FRAME_QUEUE_MAX)
  }

  ghost predicate CountersSound(s: State) {
    && |s.enqueued| + s.dropped == s.currentFrame + (if s.producer.Counting? || s.producer.Ticking? then 1 else 0)
    && (forall i, j :: 0 <= i < j < |s.enqueued| ==> s.enqueued[i].index < s.enqueued[j].index)
    && (forall i :: 0 <= i < |s.enqueued| ==>
          s.enqueued[i].index < s.currentFrame + (if s.producer.Counting? || s.producer.Ticking? then 1 else 0))
  }

  // The writer is past its last look at the stop token.
  predicate Drains(w: Writer) {
    if w.Took? || w.Writing? || w.Detaching? then w.draining
    else w.Draining? || w.Awaiting? || w.Closing? || w.Closed?
  }

  ghost predicate ShutdownSound(s: State) {
    && (s.stopRequested <==> s.producer.Finished?)
    && (Drains(s.writer) ==> s.stopRequested)
    && (s.writer.Awaiting? || s.writer.Closing? || s.writer.Closed? ==> s.queue == [])
    && (s.writer.Closing? || s.writer.Closed? ==> s.inFlight == 0)
    && (s.fileWriting <==> !s.writer.NotStarted? && !s.writer.Closed?)
  }

  // How many times a frame, from one of its devices on, owes a file.
  function Owed(f: Frame, from: nat, d: DeviceFrame): nat {
    if d.index == f.index && from <= d.device < |f.devices| then 1 else 0
  }

  function OwedByAll(frames: seq<Frame>, d: DeviceFrame): nat
    decreases |frames|
  {
    if frames == [] then 0 else Owed(frames[0], 0, d) + OwedByAll(frames[1..], d)
  }

  function OwedByWriter(w: Writer, d: DeviceFrame): nat {
    if w.Took? then Owed(w.frame, 0, d)
    else if w.Writing? || w.Detaching? then Owed(w.frame, w.next, d)
    else 0
  }

  // Every file owed by a queued frame is still queued, with the writer, with
  // the pool, or written.
  ghost predicate FileConserved(s: State, d: DeviceFrame) {
    OwedByAll(s.enqueued, d) == OwedByAll(s.queue, d) + OwedByWriter(s.writer, d) + s.tasks[d] + s.written[d]
  }

  ghost predicate FilesConserved(s: State) {
    forall d :: FileConserved(s, d)
  }

  ghost predicate InFlightCounts(s: State) {
    && s.inFlight == |s.tasks| + |s.ending| + (if s.writer.Detaching? then 1 else 0)
    && (s.writer.Detaching? ==> s.writer.next < |s.writer.frame.devices|)
  }

  ghost predicate Inv(s: State) {
    DepthSound(s) && CountersSound(s) && ShutdownSound(s) && FilesConserved(s) && InFlightCounts(s)
  }

  lemma {:induction false} OwedAppend(frames: seq<Frame>, f: Frame, d: DeviceFrame)
    ensures OwedByAll(frames + [f], d) == OwedByAll(frames, d) + Owed(f, 0, d)
    decreases |frames|
  {
    if frames == [] {
      assert frames + [f] == [f] && [f][1..] == [];
    } else {
      assert (frames + [f])[1..] == frames[1..] + [f];
      OwedAppend(frames[1..], f, d);
    }
  }

  lemma ProducerKeepsCounts(s: State, a: ProducerAction)
    requires DepthSound(s) && CountersSound(s) && ProducerCan(s, a)
    ensures DepthSound(ProducerStep(s, a)) && CountersSound(ProducerStep(s, a))
  {}

  lemma ProducerKeepsShutdown(s: State, a: ProducerAction)
    requires ShutdownSound(s) && InFlightCounts(s) && ProducerCan(s, a)
    ensures ShutdownSound(ProducerStep(s, a)) && InFlightCounts(ProducerStep(s, a))
  {}

  lemma ProducerKeepsFile(s: State, a: ProducerAction, d: DeviceFrame)
    requires FileConserved(s, d) && ProducerCan(s, a)
    ensures FileConserved(ProducerStep(s, a), d)
  {
    if a.Enqueue? {
      OwedAppend(s.queue, Frame(s.currentFrame, a.devices), d);
      OwedAppend(s.enqueued, Frame(s.currentFrame, a.devices), d);
    }
  }

  lemma DequeueKeepsDepth(s: State, a: WriterAction)
    requires DepthSound(s) && WriterCan(s, a) && (a.TimedDequeue? || a.DrainDequeue?)
    ensures DepthSound(WriterStep(s, a))
  {
    assert Outstanding(WriterStep(s, a)) == Outstanding(s);
  }

  lemma WriterKeepsDepth(s: State, a: WriterAction)
    requires DepthSound(s) && WriterCan(s, a)
    ensures DepthSound(WriterStep(s, a))
  {
    if a.TimedDequeue? || a.DrainDequeue? {
      DequeueKeepsDepth(s, a);
    } else {
      assert WriterStep(s, a).queue == s.queue && WriterStep(s, a).producer == s.producer;
    }
  }

  predicate SameProducer(s: State, s': State) {
    && s'.enqueued == s.enqueued && s'.dropped == s.dropped
    && s'.currentFrame == s.currentFrame && s'.producer == s.producer
  }

  lemma WriterLeavesProducer(s: State, a: WriterAction)
    requires WriterCan(s, a)
    ensures SameProducer(s, WriterStep(s, a))
  {}

  lemma SameCounters(s: State, s': State)
    requires CountersSound(s) && SameProducer(s, s')
    ensures CountersSound(s')
  {}

  lemma WriterKeepsCounters(s: State, a: WriterAction)
    requires CountersSound(s) && WriterCan(s, a)
    ensures CountersSound(WriterStep(s, a))
  {
    WriterLeavesProducer(s, a);
    SameCounters(s, WriterStep(s, a));
  }

  lemma WriterKeepsShutdown(s: State, a: WriterAction)
    requires ShutdownSound(s) && InFlightCounts(s) && WriterCan(s, a)
    ensures ShutdownSound(WriterStep(s, a)) && InFlightCounts(WriterStep(s, a))
  {}

  lemma DequeueKeepsFile(s: State, a: WriterAction, d: DeviceFrame)
    requires FileConserved(s, d) && WriterCan(s, a) && (a.TimedDequeue? || a.DrainDequeue?)
    ensures FileConserved(WriterStep(s, a), d)
  {
    var s' := WriterStep(s, a);
    assert s'.enqueued == s.enqueued && s'.tasks == s.tasks && s'.written == s.written;
    if s.queue == [] {
      assert s'.queue == s.queue && OwedByWriter(s'.writer, d) == 0;
    } else {
      assert OwedByAll(s.queue, d) == Owed(s.queue[0], 0, d) + OwedByAll(s'.queue, d);
      assert OwedByWriter(s'.writer, d) == Owed(s.queue[0], 0, d);
    }
  }

  predicate SameFiles(s: State, s': State) {
    s'.enqueued == s.enqueued && s'.queue == s.queue && s'.tasks == s.tasks && s'.written == s.written
  }

  lemma OwedFromNext(f: Frame, next: nat, d: DeviceFrame)
    requires next < |f.devices|
    ensures Owed(f, next, d) == Owed(f, next + 1, d) + (if d == DeviceFrame(f.index, next) then 1 else 0)
  {}

  lemma OneMore(m: multiset<DeviceFrame>, x: DeviceFrame, d: DeviceFrame)
    ensures (m + multiset{x})[d] == m[d] + (if d == x then 1 else 0)
  {}

  // One device's share is handed to the pool.
  lemma DetachKeepsFile(s: State, d: DeviceFrame)
    requires FileConserved(s, d) && InFlightCounts(s) && WriterCan(s, Detach)
    ensures FileConserved(WriterStep(s, Detach), d)
  {
    var w := s.writer;
    OwedFromNext(w.frame, w.next, d);
    OneMore(s.tasks, DeviceFrame(w.frame.index, w.next), d);
  }

  // One device's share is written.
  lemma WritesOne(s: State, d: DeviceFrame)
    requires WriterCan(s, WriteNext) && s.writer.next < |s.writer.frame.devices| && !s.parallel
    ensures
      var s', one := WriterStep(s, WriteNext), if d == DeviceFrame(s.writer.frame.index, s.writer.next) then 1 else 0;
      && s'.enqueued == s.enqueued && s'.queue == s.queue && s'.tasks == s.tasks
      && s'.written[d] == s.written[d] + one && OwedByWriter(s.writer, d) == OwedByWriter(s'.writer, d) + one
  {
    OwedFromNext(s.writer.frame, s.writer.next, d);
    OneMore(s.written, DeviceFrame(s.writer.frame.index, s.writer.next), d);
  }

  // The pool is about to get one device's share, or the frame is done.
  lemma WritesNone(s: State, d: DeviceFrame)
    requires WriterCan(s, WriteNext) && (s.writer.next >= |s.writer.frame.devices| || s.parallel)
    ensures
      && SameFiles(s, WriterStep(s, WriteNext))
      && OwedByWriter(WriterStep(s, WriteNext).writer, d) == OwedByWriter(s.writer, d)
  {}

  lemma WriteKeepsFile(s: State, d: DeviceFrame)
    requires FileConserved(s, d) && WriterCan(s, WriteNext)
    ensures FileConserved(WriterStep(s, WriteNext), d)
  {
    if s.writer.next >= |s.writer.frame.devices| || s.parallel { WritesNone(s, d); } else { WritesOne(s, d); }
  }

  lemma IdleKeepsFile(s: State, a: WriterAction, d: DeviceFrame)
    requires WriterCan(s, a) && !a.TimedDequeue? && !a.DrainDequeue? && !a.WriteNext? && !a.Detach?
    ensures SameFiles(s, WriterStep(s, a)) && OwedByWriter(WriterStep(s, a).writer, d) == OwedByWriter(s.writer, d)
  {}

  lemma WriterKeepsFile(s: State, a: WriterAction, d: DeviceFrame)
    requires FileConserved(s, d) && InFlightCounts(s) && WriterCan(s, a)
    ensures FileConserved(WriterStep(s, a), d)
  {
    match a
    case TimedDequeue => DequeueKeepsFile(s, a, d);
    case DrainDequeue => DequeueKeepsFile(s, a, d);
    case WriteNext => WriteKeepsFile(s, d);
    case Detach => DetachKeepsFile(s, d);
    case _ => IdleKeepsFile(s, a, d);
  }

  lemma PoolKeepsFile(s: State, a: Action, d: DeviceFrame)
    requires FileConserved(s, d) && Enabled(s, a) && (a.RunTask? || a.EndTask?)
    ensures FileConserved(Step(s, a), d)
  {}

  lemma PoolKeepsCounts(s: State, a: Action)
    requires DepthSound(s) && CountersSound(s) && Enabled(s, a) && (a.RunTask? || a.EndTask?)
    ensures DepthSound(Step(s, a)) && CountersSound(Step(s, a))
  {
    SameCounters(s, Step(s, a));
  }

  lemma PoolKeepsShutdown(s: State, a: Action)
    requires ShutdownSound(s) && InFlightCounts(s) && Enabled(s, a) && (a.RunTask? || a.EndTask?)
    ensures ShutdownSound(Step(s, a)) && InFlightCounts(Step(s, a))
  {}

  lemma PoolKeepsInv(s: State, a: Action)
    requires Inv(s) && Enabled(s, a) && (a.RunTask? || a.EndTask?)
    ensures Inv(Step(s, a))
  {
    PoolKeepsCounts(s, a);
    PoolKeepsShutdown(s, a);
    forall d ensures FileConserved(Step(s, a), d) {
      assert FileConserved(s, d);
      PoolKeepsFile(s, a, d);
    }
  }

  lemma StepKeepsInv(s: State, a: Action)
    requires Inv(s) && Enabled(s, a)
    ensures Inv(Step(s, a))
  {
    match a
    case StopRecording =>
      forall d ensures FileConserved(Step(s, a), d) { assert FileConserved(s, d); }
    case ByProducer(p) =>
      ProducerKeepsCounts(s, p);
      ProducerKeepsShutdown(s, p);
      forall d ensures FileConserved(ProducerStep(s, p), d) { ProducerKeepsFile(s, p, d); }
    case ByWriter(w) =>
      WriterKeepsDepth(s, w);
      WriterKeepsCounters(s, w);
      WriterKeepsShutdown(s, w);
      forall d ensures FileConserved(WriterStep(s, w), d) { WriterKeepsFile(s, w, d); }
    case RunTask(_) => PoolKeepsInv(s, a);
    case EndTask(_) => PoolKeepsInv(s, a);
  }

  lemma {:induction false} RunKeepsInv(parallel: bool, actions: seq<Action>)
    requires CanRun(Start(parallel), actions)
    ensures Inv(Run(Start(parallel), actions))
    decreases |actions|
  {
    if actions == [] {
    } else {
      RunKeepsInv(parallel, actions[..|actions| - 1]);
      StepKeepsInv(Run(Start(parallel), actions[..|actions| - 1]), actions[|actions| - 1]);
    }
  }

  // ---- main results, for every interleaving of one recording ----

  // The queue is bounded, and every tick either queued a frame or counted it as
  // dropped.
  lemma QueueIsBoundedAndTicksAreAccountedFor(parallel: bool, actions: seq<Action>)
    requires CanRun(Start(parallel), actions)
    ensures
      var s := Run(Start(parallel), actions);
      && |s.queue| <= 100
      && (s.producer.Top? || s.producer.Finished? ==> |s.enqueued| + s.dropped == s.currentFrame)
  {
    RunKeepsInv(parallel, actions);
  }

  // A tick drops its frame exactly when a hundred are queued, or one fewer and
  // the writer has still to count out the one it took.
  lemma DropsOnlyWhenFull(parallel: bool, actions: seq<Action>)
    requires CanRun(Start(parallel), actions)
    requires Enabled(Run(Start(parallel), actions), ByProducer(CheckDepth))
    ensures
      var s := Run(Start(parallel), actions);
      Step(s, ByProducer(CheckDepth)).producer.Dropping? <==> |s.queue| + (if s.writer.Took? then 1 else 0) >= 100
  {
    RunKeepsInv(parallel, actions);
  }

  // The frame the writer is at work on.
  predicate AtWork(w: Writer) {
    w.Took? || w.Writing? || w.Detaching?
  }

  // The queue is what was enqueued last, and the writer is at work on the frame
  // before it.
  ghost predicate TakenInOrder(s: State) {
    var taken := |s.enqueued| - |s.queue|;
    && taken >= 0 && s.queue == s.enqueued[taken..]
    && (AtWork(s.writer) ==> taken >= 1 && s.writer.frame == s.enqueued[taken - 1])
  }

  lemma EnqueuedLast(s: State, f: Frame, s': State)
    requires TakenInOrder(s) && s'.writer == s.writer
    requires s'.queue == s.queue + [f] && s'.enqueued == s.enqueued + [f]
    ensures TakenInOrder(s')
  {
    var taken := |s.enqueued| - |s.queue|;
    assert s'.enqueued[taken..] == s.enqueued[taken..] + [f];
    assert taken >= 1 ==> s'.enqueued[taken - 1] == s.enqueued[taken - 1];
  }

  lemma TakenFirst(s: State, s': State)
    requires TakenInOrder(s) && s.queue != [] && s'.writer.Took? && s'.writer.frame == s.queue[0]
    requires s'.queue == s.queue[1..] && s'.enqueued == s.enqueued
    ensures TakenInOrder(s')
  {
    var taken := |s.enqueued| - |s.queue|;
    assert s.enqueued[taken..][0] == s.enqueued[taken];
    assert s.enqueued[taken + 1..] == s.enqueued[taken..][1..];
  }

  lemma StaysInOrder(s: State, s': State)
    requires TakenInOrder(s) && SameWork(s, s')
    ensures TakenInOrder(s')
  {}

  predicate Dequeues(s: State, a: Action) {
    a.ByWriter? && (a.w.TimedDequeue? || a.w.DrainDequeue?) && s.queue != []
  }

  predicate SameWork(s: State, s': State) {
    && s'.queue == s.queue && s'.enqueued == s.enqueued
    && (AtWork(s'.writer) ==> AtWork(s.writer) && s'.writer.frame == s.writer.frame)
  }

  lemma ProducerKeepsWork(s: State, p: ProducerAction)
    requires ProducerCan(s, p) && !p.Enqueue?
    ensures SameWork(s, ProducerStep(s, p))
  {}

  lemma WriterKeepsWork(s: State, w: WriterAction)
    requires WriterCan(s, w) && ((w.TimedDequeue? || w.DrainDequeue?) ==> s.queue == [])
    ensures SameWork(s, WriterStep(s, w))
  {}

  lemma OtherStepsKeepWork(s: State, a: Action)
    requires Enabled(s, a) && !(a.ByProducer? && a.p.Enqueue?) && !Dequeues(s, a)
    ensures SameWork(s, Step(s, a))
  {
    match a
    case ByProducer(p) => ProducerKeepsWork(s, p);
    case ByWriter(w) => WriterKeepsWork(s, w);
    case StopRecording =>
    case RunTask(_) =>
    case EndTask(_) =>
  }

  lemma DequeueTakesFirst(s: State, a: Action)
    requires Enabled(s, a) && Dequeues(s, a)
    ensures
      var s' := Step(s, a);
      && s'.queue == s.queue[1..] && s'.enqueued == s.enqueued
      && s'.writer.Took? && s'.writer.frame == s.queue[0]
  {}

  lemma StartsInOrder(parallel: bool)
    ensures TakenInOrder(Start(parallel))
  {}

  lemma StepTakesInOrder(s: State, a: Action)
    requires TakenInOrder(s) && Enabled(s, a)
    ensures TakenInOrder(Step(s, a))
  {
    var s' := Step(s, a);
    if a.ByProducer? && a.p.Enqueue? {
      EnqueuedLast(s, Frame(s.currentFrame, a.p.devices), s');
    } else if Dequeues(s, a) {
      DequeueTakesFirst(s, a);
      TakenFirst(s, s');
    } else {
      OtherStepsKeepWork(s, a);
      StaysInOrder(s, s');
    }
  }

  // In every interleaving frames are taken for writing in the order in which
  // they were enqueued, none passed over.
  lemma {:induction false} FramesAreTakenInOrder(parallel: bool, actions: seq<Action>)
    requires CanRun(Start(parallel), actions)
    ensures TakenInOrder(Run(Start(parallel), actions))
    decreases |actions|
  {
    if actions == [] {
      StartsInOrder(parallel);
    } else {
      FramesAreTakenInOrder(parallel, actions[..|actions| - 1]);
      StepTakesInOrder(Run(Start(parallel), actions[..|actions| - 1]), actions[|actions| - 1]);
    }
  }

  // The depth counter can wrap below zero, because a frame is counted only
  // after it is queued; but not where the producer reads it.
  lemma ProducerReadsTheTrueDepth(parallel: bool, actions: seq<Action>)
    requires CanRun(Start(parallel), actions)
    ensures
      var s := Run(Start(parallel), actions);
      s.producer.Top? ==> |s.queue| <= s.depth <= |s.queue| + 1 <= 101
  {
    RunKeepsInv(parallel, actions);
  }

  // It has wrapped exactly between the queueing and the counting of a frame that
  // has already been taken and counted out, with none left queued.
  lemma DepthIsWrappedIff(parallel: bool, actions: seq<Action>)
    requires CanRun(Start(parallel), actions)
    ensures
      var s := Run(Start(parallel), actions);
      s.depth == 0xFFFF_FFFF_FFFF_FFFF <==> s.producer.Counting? && s.queue == [] && !s.writer.Took?
  {
    RunKeepsInv(parallel, actions);
  }

  lemma OthersCanReadAWrappedDepth(parallel: bool) returns (actions: seq<Action>)
    ensures CanRun(Start(parallel), actions)
    ensures Run(Start(parallel), actions).depth == COUNTER_MODULUS - 1
  {
    var start := Start(parallel);
    actions := RunOneMore(start, [], ByProducer(CheckDepth));
    actions := RunOneMore(start, actions, ByProducer(Enqueue([])));
    actions := RunOneMore(start, actions, ByWriter(StartWriter));
    actions := RunOneMore(start, actions, ByWriter(CheckStop));
    actions := RunOneMore(start, actions, ByWriter(TimedDequeue));
    actions := RunOneMore(start, actions, ByWriter(UncountFrame));
  }

  lemma RunOneMore(s: State, before: seq<Action>, a: Action) returns (actions: seq<Action>)
    requires CanRun(s, before) && Enabled(Run(s, before), a)
    ensures CanRun(s, actions) && Run(s, actions) == Step(Run(s, before), a)
  {
    actions := before + [a];
    assert actions[..|before|] == before;
  }

  lemma {:induction false} EachFileOwedOnce(frames: seq<Frame>, d: DeviceFrame)
    requires forall i, j :: 0 <= i < j < |frames| ==> frames[i].index < frames[j].index
    ensures OwedByAll(frames, d) ==
      if exists i :: 0 <= i < |frames| && frames[i].index == d.index && d.device < |frames[i].devices| then 1 else 0
    decreases |frames|
  {
    if frames == [] {
    } else {
      EachFileOwedOnce(frames[1..], d);
      assert forall i :: 1 <= i < |frames| ==> frames[i] == frames[1..][i - 1];
    }
  }

  // Once the file writer says it is done, every device's share of every queued
  // frame has been handed to write_ply exactly once, nothing else has, and
  // nothing is in flight.
  lemma ClosedMeansEverythingWasWrittenOnce(parallel: bool, actions: seq<Action>, d: DeviceFrame)
    requires CanRun(Start(parallel), actions)
    ensures
      var s := Run(Start(parallel), actions);
      s.writer.Closed? ==>
        && !s.fileWriting && s.queue == [] && s.inFlight == 0 && s.tasks == multiset{} && s.ending == multiset{}
        && s.written[d] ==
             if exists i :: 0 <= i < |s.enqueued| && s.enqueued[i].index == d.index
                 && d.device < |s.enqueued[i].devices|
             then 1 else 0
  {
    RunKeepsInv(parallel, actions);
    var s := Run(Start(parallel), actions);
    EachFileOwedOnce(s.enqueued, d);
    assert FileConserved(s, d);
  }

  // The flag is only ever down before the writer starts or after it is done.
  lemma FileWritingCoversTheWriter(parallel: bool, actions: seq<Action>)
    requires CanRun(Start(parallel), actions)
    ensures
      var s := Run(Start(parallel), actions);
      !s.fileWriting <==> s.writer.NotStarted? || s.writer.Closed?
  {
    RunKeepsInv(parallel, actions);
  }

  // ---- which file a device's share goes to ----

  predicate KeptInNames(c: char) {
    'a' <= c <= 'z' || 'A' <= c <= 'Z' || '0' <= c <= '9' || c == '-' || c == '_'
  }

  function Sanitised(id: string): string {
    seq(|id|, i requires 0 <= i < |id| => if KeptInNames(id[i]) then id[i] else '_')
  }

  // The directory a device's files go to; a file is one of these and an index.
  // The names are drawn up once, for the devices present when the recorder's
  // thread starts; looking up any other device gives the empty name.
  // A name has a character for each of the id's: itself if it is a letter, a
  // digit, a dash or an underscore, which the name then consists of, and else an
  // underscore. So a name is its own.
  lemma NameIsSafe(id: string)
    ensures |Sanitised(id)| == |id| && Sanitised(Sanitised(id)) == Sanitised(id)
    ensures forall i :: 0 <= i < |id| ==>
              var c, d := id[i], Sanitised(id)[i];
              && ('a' <= d <= 'z' || 'A' <= d <= 'Z' || '0' <= d <= '9' || d == '-' || d == '_')
              && (d == c || d == '_')
              && ('a' <= c <= 'z' || 'A' <= c <= 'Z' || '0' <= c <= '9' || c == '-' ==> d == c)
  {}

  function NameOf(present: seq<Device>, d: Device): string {
    if d in present then Sanitised(d.id) else ""
  }

  function NamesOf(present: seq<Device>, devices: seq<Device>): (names: seq<string>)
    ensures |names| == |devices|
  {
    seq(|devices|, i requires 0 <= i < |devices| => NameOf(present, devices[i]))
  }

  // How often the file of one index in one directory has been written.
  function FileWrites(written: multiset<DeviceFrame>, names: seq<string>, index: nat, name: string): nat
    decreases |names|
  {
    if names == [] then 0 else
      var k := |names| - 1;
      FileWrites(written, names[..k], index, name) + (if names[k] == name then written[DeviceFrame(index, k)] else 0)
  }

  function Sharing(names: seq<string>, name: string): nat
    decreases |names|
  {
    if names == [] then 0
    else Sharing(names[..|names| - 1], name) + (if names[|names| - 1] == name then 1 else 0)
  }

  lemma {:induction false} WritesAreShared(written: multiset<DeviceFrame>, names: seq<string>, index: nat, name: string)
    requires forall k :: 0 <= k < |names| ==> written[DeviceFrame(index, k)] == 1
    ensures FileWrites(written, names, index, name) == Sharing(names, name)
    decreases |names|
  {
    if names == [] {
    } else {
      WritesAreShared(written, names[..|names| - 1], index, name);
    }
  }

  lemma {:induction false} SharedByNoneIff(names: seq<string>, name: string)
    ensures Sharing(names, name) == 0 <==> name !in names
    decreases |names|
  {
    if names == [] {
    } else {
      var front, last := names[..|names| - 1], names[|names| - 1];
      SharedByNoneIff(front, name);
      assert names == front + [last];
    }
  }

  ghost predicate AllDiffer(names: seq<string>) {
    forall i, j :: 0 <= i < j < |names| ==> names[i] != names[j]
  }

  lemma AllDifferFromLast(front: seq<string>, last: string)
    ensures AllDiffer(front + [last]) <==> AllDiffer(front) && last !in front
  {
    var names := front + [last];
    if AllDiffer(names) {
      forall i, j | 0 <= i < j < |front| ensures front[i] != front[j] {
        assert names[i] == front[i] && names[j] == front[j];
      }
      forall i | 0 <= i < |front| ensures front[i] != last { assert names[i] == front[i] && names[|front|] == last; }
    }
  }

  lemma {:induction false} SharedByOneIff(names: seq<string>)
    ensures (forall name :: Sharing(names, name) <= 1) <==> AllDiffer(names)
    decreases |names|
  {
    if names == [] {
    } else {
      var front, last := names[..|names| - 1], names[|names| - 1];
      SharedByOneIff(front);
      SharedByNoneIff(front, last);
      AllDifferFromLast(front, last);
      assert names == front + [last];
      forall name ensures Sharing(names, name) == Sharing(front, name) + (if last == name then 1 else 0) {}
      if AllDiffer(names) {
        assert forall name :: Sharing(front, name) <= 1;
      } else if AllDiffer(front) {
        assert Sharing(names, last) > 1;
      } else {
        var name :| Sharing(front, name) > 1;
        assert Sharing(names, name) > 1;
      }
    }
  }

  // Two devices that are given one directory: both were there at the start and
  // their ids are sanitised alike, or neither was, or one was, with no id.
  predicate Clash(present: seq<Device>, a: Device, b: Device) {
    if a in present && b in present then Sanitised(a.id) == Sanitised(b.id)
    else (a in present ==> a.id == "") && (b in present ==> b.id == "")
  }

  lemma ClashIff(present: seq<Device>, a: Device, b: Device)
    ensures Clash(present, a, b) <==> NameOf(present, a) == NameOf(present, b)
  {
    assert |Sanitised(a.id)| == |a.id| && |Sanitised(b.id)| == |b.id|;
  }

  lemma NamesDifferIff(present: seq<Device>, devices: seq<Device>)
    ensures AllDiffer(NamesOf(present, devices)) <==>
              forall i, j :: 0 <= i < j < |devices| ==> !Clash(present, devices[i], devices[j])
  {
    var names := NamesOf(present, devices);
    forall i, j | 0 <= i < j < |devices| ensures names[i] == names[j] <==> Clash(present, devices[i], devices[j]) {
      ClashIff(present, devices[i], devices[j]);
    }
  }

  // When the writer is done, a queued frame has written each of its files as
  // often as devices share its name, so once exactly when no two of its devices
  // clash.
  lemma FilesWrittenOnceIffNoneClash(parallel: bool, actions: seq<Action>, frame: Frame, present: seq<Device>)
    requires CanRun(Start(parallel), actions)
    requires Run(Start(parallel), actions).writer.Closed? && frame in Run(Start(parallel), actions).enqueued
    ensures
      var written, names := Run(Start(parallel), actions).written, NamesOf(present, frame.devices);
      && (forall name :: FileWrites(written, names, frame.index, name) == Sharing(names, name))
      && ((forall name :: FileWrites(written, names, frame.index, name) <= 1) <==>
            forall i, j :: 0 <= i < j < |frame.devices| ==> !Clash(present, frame.devices[i], frame.devices[j]))
  {
    var s := Run(Start(parallel), actions);
    var names := NamesOf(present, frame.devices);
    forall k | 0 <= k < |names| ensures s.written[DeviceFrame(frame.index, k)] == 1 {
      ClosedMeansEverythingWasWrittenOnce(parallel, actions, DeviceFrame(frame.index, k));
    }
    forall name ensures FileWrites(s.written, names, frame.index, name) == Sharing(names, name) {
      WritesAreShared(s.written, names, frame.index, name);
    }
    SharedByOneIff(names);
    NamesDifferIff(present, frame.devices);
  }

  // A recording of one frame, from its start until the writer is done.
  lemma RecordOneFrame(devices: seq<Device>) returns (actions: seq<Action>)
    requires |devices| == 2
    ensures CanRun(Start(false), actions)
    ensures
      var s := Run(Start(false), actions);
      s.writer.Closed? && s.enqueued == [Frame(0, devices)]
  {
    var start := Start(false);
    actions := RunOneMore(start, [], ByProducer(CheckDepth));
    actions := RunOneMore(start, actions, ByProducer(Enqueue(devices)));
    actions := RunOneMore(start, actions, ByProducer(CountFrame));
    actions := RunOneMore(start, actions, ByProducer(Tick));
    actions := RunOneMore(start, actions, StopRecording);
    actions := RunOneMore(start, actions, ByProducer(LeaveLoop));
    actions := WriteOneFrame(start, actions, devices);
  }

  lemma WriteOneFrame(start: State, before: seq<Action>, devices: seq<Device>) returns (actions: seq<Action>)
    requires CanRun(start, before) && |devices| == 2
    requires
      var s := Run(start, before);
      s.writer.NotStarted? && !s.parallel && s.stopRequested && s.queue == [Frame(0, devices)] && s.inFlight == 0
    ensures CanRun(start, actions)
    ensures Run(start, actions).writer.Closed? && Run(start, actions).enqueued == Run(start, before).enqueued
  {
    actions := RunOneMore(start, before, ByWriter(StartWriter));
    actions := RunOneMore(start, actions, ByWriter(CheckStop));
    actions := RunOneMore(start, actions, ByWriter(DrainDequeue));
    actions := RunOneMore(start, actions, ByWriter(UncountFrame));
    actions := RunOneMore(start, actions, ByWriter(WriteNext));
    actions := RunOneMore(start, actions, ByWriter(WriteNext));
    actions := RunOneMore(start, actions, ByWriter(WriteNext));
    actions := RunOneMore(start, actions, ByWriter(DrainDequeue));
    actions := RunOneMore(start, actions, ByWriter(CheckInFlight));
    actions := RunOneMore(start, actions, ByWriter(CloseFile));
  }

  // Two devices of different ids, there from the start, whose ids become one
  // name: a recording that writes one file twice.
  lemma DifferentIdsCanShareAName() returns (actions: seq<Action>, present: seq<Device>)
    ensures CanRun(Start(false), actions)
    ensures
      var s := Run(Start(false), actions);
      && s.writer.Closed? && s.enqueued == [Frame(0, present)] && |present| == 2 && present[0].id != present[1].id
      && FileWrites(s.written, NamesOf(present, present), 0, "a_") == 2
  {
    present := [Device(0, "a:"), Device(1, "a.")];
    actions := RecordOneFrame(present);
    assert Frame(0, present) in Run(Start(false), actions).enqueued;
    FilesWrittenOnceIffNoneClash(false, actions, Frame(0, present), present);
    assert Sanitised("a:") == "a_" == Sanitised("a.");
    assert NamesOf(present, present) == ["a_", "a_"];
    SharedByBoth("a_");
  }

  // And two that were added after the start, whatever their ids.
  lemma AddedDevicesShareAName(a: Device, b: Device, present: seq<Device>) returns (actions: seq<Action>)
    requires a !in present && b !in present
    ensures CanRun(Start(false), actions)
    ensures
      var s := Run(Start(false), actions);
      && s.writer.Closed? && s.enqueued == [Frame(0, [a, b])]
      && FileWrites(s.written, NamesOf(present, [a, b]), 0, "") == 2
  {
    actions := RecordOneFrame([a, b]);
    assert Frame(0, [a, b]) in Run(Start(false), actions).enqueued;
    FilesWrittenOnceIffNoneClash(false, actions, Frame(0, [a, b]), present);
    assert NamesOf(present, [a, b]) == ["", ""];
    SharedByBoth("");
  }

  lemma SharedByBoth(name: string)
    ensures Sharing([name, name], name) == 2
  {
    assert [name, name][..1] == [name] && [name][..0] == [];
    assert Sharing([name], name) == 1;
  }
}
