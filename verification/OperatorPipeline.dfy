// The concurrent operator pipeline: one submitter at a time, a bounded queue
// that evicts its oldest frame, N workers, and a compare-and-swap gate that
// orders the output. Every step below is one atomic action of the program, so
// a list of actions is an interleaving.
module OperatorPipeline {
  import opened Common

  // How a submitted frame ended.
  datatype Fate = Evicted | Superseded | Nulled | Outrun | Published

  // Where a submitted frame is. Recorded beside the program's own state.
  datatype Place = AtSubmitter | Queued | Held(worker: nat) | Done(fate: Fate)

  // The submitting thread: outside submit, about to try_push, or about to
  // try_pop because its last push found the queue full.
  datatype Submitter =
    | Away
    | Pushing(frame: nat, retried: bool, evictions: nat)
    | Popping(frame: nat, evictions: nat)

  // A worker's position in its loop.
  datatype Worker =
    | Waiting
    | Popped(frame: nat)
    | Processing(frame: nat)
    | Processed(frame: nat)
    | AtGate(frame: nat, prev: nat)
    | Winner(frame: nat)

  datatype State = State(
    capacity: nat,
    inputSeq: nat,
    publishedSeq: nat,
    latest: nat,            // sequence number of the stored frame, 0 for null
    queue: seq<nat>,
    submitter: Submitter,
    workers: seq<Worker>,
    place: map<nat, Place>, // history: where each submitted frame is
    wins: seq<nat>          // history: gate winners, in the order they won
  )

  datatype Action =
    | Submit
    | TryPush
    | TryPop
    | Pop(w: nat)
    | Check(w: nat)
    | Process(w: nat, produced: bool)
    | Load(w: nat)
    | Exchange(w: nat, spurious: bool)
    | Store(w: nat)

  // The queue capacity the constructor picks.
  function Capacity(maxQueueSize: nat, workerCount: nat): (c: nat)
    ensures c >= 1
  {
    if maxQueueSize != 0 then maxQueueSize else if workerCount >= 1 then workerCount else 1
  }

  function Start(maxQueueSize: nat, workerCount: nat): State {
    State(Capacity(maxQueueSize, workerCount), 0, 0, 0, [], Away,
          seq(workerCount, _ => Waiting), map[], [])
  }

  predicate Enabled(s: State, a: Action) {
    match a
    case Submit => s.submitter.Away?
    case TryPush => s.submitter.Pushing?
    case TryPop => s.submitter.Popping?
    case Pop(w) => w < |s.workers| && s.workers[w].Waiting? && s.queue != []
    case Check(w) => w < |s.workers| && s.workers[w].Popped?
    case Process(w, _) => w < |s.workers| && s.workers[w].Processing?
    case Load(w) => w < |s.workers| && s.workers[w].Processed?
    case Exchange(w, _) => w < |s.workers| && s.workers[w].AtGate?
    case Store(w) => w < |s.workers| && s.workers[w].Winner?
  }

  function Finish(s: State, w: nat, n: nat, fate: Fate): State
    requires w < |s.workers|
  {
    s.(workers := s.workers[w := Waiting], place := s.place[n := Done(fate)])
  }

  function Step(s: State, a: Action): State
    requires Enabled(s, a)
  {
    match a
    case Submit =>
      var n := s.inputSeq + 1;
      s.(inputSeq := n, submitter := Pushing(n, false, 0), place := s.place[n := AtSubmitter])
    case TryPush =>
      var p := s.submitter;
      if |s.queue| < s.capacity then
        s.(queue := s.queue + [p.frame], submitter := Away, place := s.place[p.frame := Queued])
      else
        s.(submitter := Popping(p.frame, p.evictions))
    case TryPop =>
      var p := s.submitter;
      if s.queue == [] then
        s.(submitter := Pushing(p.frame, true, p.evictions))
      else
        s.(queue := s.queue[1..], submitter := Pushing(p.frame, true, p.evictions + 1),
           place := s.place[s.queue[0] := Done(Evicted)])
    case Pop(w) =>
      var n := s.queue[0];
      s.(queue := s.queue[1..], workers := s.workers[w := Popped(n)], place := s.place[n := Held(w)])
    case Check(w) =>
      var n := s.workers[w].frame;
      if n <= s.publishedSeq then Finish(s, w, n, Superseded)
      else s.(workers := s.workers[w := Processing(n)])
    case Process(w, produced) =>
      var n := s.workers[w].frame;
      if produced then s.(workers := s.workers[w := Processed(n)])
      else Finish(s, w, n, Nulled)
    case Load(w) =>
      var n := s.workers[w].frame;
      if n > s.publishedSeq then s.(workers := s.workers[w := AtGate(n, s.publishedSeq)])
      else Finish(s, w, n, Outrun)
    case Exchange(w, spurious) =>
      var n := s.workers[w].frame;
      if s.workers[w].prev == s.publishedSeq && !spurious then
        s.(publishedSeq := n, workers := s.workers[w := Winner(n)],
           place := s.place[n := Done(Published)], wins := s.wins + [n])
      else if n > s.publishedSeq then
        s.(workers := s.workers[w := AtGate(n, s.publishedSeq)])
      else Finish(s, w, n, Outrun)
    case Store(w) =>
      s.(latest := s.workers[w].frame, workers := s.workers[w := Waiting])
  }

  predicate CanRun(s: State, actions: seq<Action>)
    decreases |actions|
  {
    actions == [] || (Enabled(s, actions[0]) && CanRun(Step(s, actions[0]), actions[1..]))
  }

  function Run(s: State, actions: seq<Action>): State
    requires CanRun(s, actions)
    decreases |actions|
  {
    if actions == [] then s else Run(Step(s, actions[0]), actions[1..])
  }

  // ---- what every step keeps ----

  predicate Holding(worker: Worker) {
    !worker.Waiting? && !worker.Winner?
  }

  predicate Holds(worker: Worker, n: nat) {
    Holding(worker) && worker.frame == n
  }

  ghost predicate PlacesCover(s: State) {
    forall n :: n in s.place <==> 1 <= n <= s.inputSeq
  }

  ghost predicate QueuePlaces(s: State) {
    && (forall n :: n in s.queue ==> n in s.place)
    && (forall n :: n in s.place ==> (s.place[n] == Queued <==> n in s.queue))
  }

  ghost predicate SubmitterPlaces(s: State) {
    && (!s.submitter.Away? ==> s.submitter.frame in s.place)
    && (forall n :: n in s.place ==>
          (s.place[n] == AtSubmitter <==> !s.submitter.Away? && s.submitter.frame == n))
  }

  ghost predicate WorkerPlaces(s: State) {
    && (forall w :: 0 <= w < |s.workers| && !s.workers[w].Waiting? ==> s.workers[w].frame in s.place)
    && (forall n :: n in s.place && s.place[n].Held? ==>
          s.place[n].worker < |s.workers| && Holds(s.workers[s.place[n].worker], n))
    && (forall w :: 0 <= w < |s.workers| && Holding(s.workers[w]) ==>
          s.place[s.workers[w].frame] == Held(w))
  }

  ghost predicate WinPlaces(s: State) {
    && (forall n :: n in s.wins ==> n in s.place)
    && (forall n :: n in s.place ==> (s.place[n] == Done(Published) <==> n in s.wins))
  }

  ghost predicate PlacesAgree(s: State) {
    PlacesCover(s) && QueuePlaces(s) && SubmitterPlaces(s) && WorkerPlaces(s) && WinPlaces(s)
  }

  ghost predicate Increasing(ns: seq<nat>) {
    forall i, j :: 0 <= i < j < |ns| ==> ns[i] < ns[j]
  }

  ghost predicate QueueOrdered(s: State) {
    && 1 <= s.capacity
    && |s.queue| <= s.capacity
    && Increasing(s.queue)
    && (!s.submitter.Away? ==> s.submitter.frame == s.inputSeq)
    && (s.submitter.Popping? ==> s.submitter.evictions == 0)
    && (s.submitter.Pushing? ==>
          && s.submitter.evictions <= 1
          && (s.submitter.retried ==> |s.queue| < s.capacity)
          && (!s.submitter.retried ==> s.submitter.evictions == 0))
  }

  ghost predicate GateOrdered(s: State) {
    && Increasing(s.wins)
    && s.publishedSeq == Last(s.wins)
    && (forall w :: 0 <= w < |s.workers| && s.workers[w].AtGate? ==>
          s.workers[w].prev < s.workers[w].frame && s.workers[w].prev <= s.publishedSeq)
  }

  ghost predicate StoreOrdered(s: State) {
    && (s.latest == 0 || s.latest in s.wins)
    && (forall w :: 0 <= w < |s.workers| && s.workers[w].Winner? ==> s.workers[w].frame in s.wins)
  }

  // Only an outdated frame is lost: eviction never takes the newest frame, and
  // a worker only lets a frame go for one that has already been published.
  ghost predicate LossesJustified(s: State) {
    && (forall n :: n in s.place && s.place[n] == Done(Evicted) ==> n < s.inputSeq)
    && (forall n :: n in s.place && s.place[n] in {Done(Superseded), Done(Outrun)} ==> n <= s.publishedSeq)
  }

  // With one worker the stored frame is the newest winner, except in the gap
  // between winning and storing.
  ghost predicate SingleWorkerStore(s: State) {
    |s.workers| == 1 ==>
      if s.workers[0].Winner? then
        s.wins != [] && s.workers[0].frame == s.publishedSeq && s.latest == Last(s.wins[..|s.wins| - 1])
      else s.latest == s.publishedSeq
  }

  ghost predicate Inv(s: State) {
    PlacesAgree(s) && QueueOrdered(s) && GateOrdered(s) && StoreOrdered(s) && LossesJustified(s) && SingleWorkerStore(s)
  }

  lemma StartInv(maxQueueSize: nat, workerCount: nat)
    ensures Inv(Start(maxQueueSize, workerCount))
  {}

  lemma QueueHead(s: State)
    requires Inv(s) && s.queue != []
    ensures s.queue[0] in s.queue && s.queue[0] !in s.queue[1..]
    ensures forall n :: n in s.queue[1..] <==> n in s.queue && n != s.queue[0]
    ensures s.submitter.Popping? ==> s.queue[0] < s.inputSeq
  {
    assert forall n :: n in s.queue && n != s.queue[0] ==> n in s.queue[1..];
  }

  // A frame that is not queued goes where it is not queued either.
  lemma OtherMoveKeepsQueuePlaces(s: State, n: nat, to: Place, s': State)
    requires PlacesCover(s) && QueuePlaces(s) && n !in s.queue && to != Queued
    requires s'.queue == s.queue && s'.place == s.place[n := to]
    requires s'.inputSeq == if n in s.place then s.inputSeq else s.inputSeq + 1
    requires n !in s.place ==> n == s.inputSeq + 1
    ensures PlacesCover(s') && QueuePlaces(s')
  {}

  lemma PushKeepsQueuePlaces(s: State)
    requires PlacesCover(s) && QueuePlaces(s) && SubmitterPlaces(s) && Enabled(s, TryPush)
    ensures PlacesCover(Step(s, TryPush)) && QueuePlaces(Step(s, TryPush))
  {}

  // The queue's head goes where it is not queued.
  lemma HeadMoveKeepsQueuePlaces(s: State, to: Place, s': State)
    requires PlacesCover(s) && QueuePlaces(s) && s.queue != [] && to != Queued
    requires forall n :: n in s.queue[1..] <==> n in s.queue && n != s.queue[0]
    requires s'.queue == s.queue[1..] && s'.place == s.place[s.queue[0] := to] && s'.inputSeq == s.inputSeq
    ensures PlacesCover(s') && QueuePlaces(s')
  {
    assert s.queue[0] in s.queue;
  }

  lemma WorkerStepKeepsQueuePlaces(s: State, a: Action)
    requires PlacesAgree(s) && Enabled(s, a) && (a.Check? || a.Process? || a.Load? || a.Exchange?)
    ensures PlacesCover(Step(s, a)) && QueuePlaces(Step(s, a))
  {
    var s' := Step(s, a);
    var n := s.workers[a.w].frame;
    assert s.place[n] == Held(a.w);
    if s'.place != s.place { OtherMoveKeepsQueuePlaces(s, n, s'.place[n], s'); }
  }

  lemma StepKeepsQueuePlaces(s: State, a: Action)
    requires Inv(s) && Enabled(s, a)
    ensures PlacesCover(Step(s, a)) && QueuePlaces(Step(s, a))
  {
    var s' := Step(s, a);
    match a
    case Submit => OtherMoveKeepsQueuePlaces(s, s.inputSeq + 1, AtSubmitter, s');
    case TryPush => PushKeepsQueuePlaces(s);
    case TryPop =>
      if s.queue != [] {
        QueueHead(s);
        HeadMoveKeepsQueuePlaces(s, Done(Evicted), s');
      }
    case Pop(w) =>
      QueueHead(s);
      HeadMoveKeepsQueuePlaces(s, Held(w), s');
    case Store(_) =>
    case Check(_) => WorkerStepKeepsQueuePlaces(s, a);
    case Process(_, _) => WorkerStepKeepsQueuePlaces(s, a);
    case Load(_) => WorkerStepKeepsQueuePlaces(s, a);
    case Exchange(_, _) => WorkerStepKeepsQueuePlaces(s, a);
  }

  // A frame the submitter does not have goes where the submitter does not have
  // it either.
  lemma OtherMoveKeepsSubmitterPlaces(s: State, n: nat, to: Place, s': State)
    requires SubmitterPlaces(s) && n in s.place && s.place[n] != AtSubmitter && to != AtSubmitter
    requires s'.place == s.place[n := to] && s'.submitter.Away? == s.submitter.Away?
    requires !s.submitter.Away? ==> s'.submitter.frame == s.submitter.frame
    ensures SubmitterPlaces(s')
  {}

  lemma SubmitterKeepsItsPlaces(s: State, a: Action)
    requires PlacesCover(s) && SubmitterPlaces(s) && Enabled(s, a) && (a.Submit? || a.TryPush?)
    ensures SubmitterPlaces(Step(s, a))
  {}

  lemma WorkerStepKeepsSubmitterPlaces(s: State, a: Action)
    requires PlacesAgree(s) && Enabled(s, a) && (a.Check? || a.Process? || a.Load? || a.Exchange?)
    ensures SubmitterPlaces(Step(s, a))
  {
    var s' := Step(s, a);
    var n := s.workers[a.w].frame;
    assert s.place[n] == Held(a.w);
    if s'.place != s.place { OtherMoveKeepsSubmitterPlaces(s, n, s'.place[n], s'); }
  }

  lemma StepKeepsSubmitterPlaces(s: State, a: Action)
    requires Inv(s) && Enabled(s, a)
    ensures SubmitterPlaces(Step(s, a))
  {
    var s' := Step(s, a);
    if s.queue != [] { QueueHead(s); }
    match a
    case Submit => SubmitterKeepsItsPlaces(s, a);
    case TryPush => SubmitterKeepsItsPlaces(s, a);
    case TryPop => if s.queue != [] { OtherMoveKeepsSubmitterPlaces(s, s.queue[0], Done(Evicted), s'); }
    case Pop(w) => OtherMoveKeepsSubmitterPlaces(s, s.queue[0], Held(w), s');
    case Store(_) =>
    case Check(_) => WorkerStepKeepsSubmitterPlaces(s, a);
    case Process(_, _) => WorkerStepKeepsSubmitterPlaces(s, a);
    case Load(_) => WorkerStepKeepsSubmitterPlaces(s, a);
    case Exchange(_, _) => WorkerStepKeepsSubmitterPlaces(s, a);
  }

  // A worker that keeps its frame.
  lemma AdvanceKeepsWorkerPlaces(s: State, w: nat, next: Worker, s': State)
    requires WorkerPlaces(s) && w < |s.workers|
    requires Holding(s.workers[w]) && Holds(next, s.workers[w].frame)
    requires s'.workers == s.workers[w := next] && s'.place == s.place
    ensures WorkerPlaces(s')
  {}

  // A worker that lets its frame go.
  lemma ReleaseKeepsWorkerPlaces(s: State, w: nat, next: Worker, fate: Fate, s': State)
    requires WorkerPlaces(s) && w < |s.workers| && Holding(s.workers[w])
    requires !Holding(next) && (next.Winner? ==> next.frame == s.workers[w].frame)
    requires s'.workers == s.workers[w := next]
    requires s'.place == s.place[s.workers[w].frame := Done(fate)]
    ensures WorkerPlaces(s')
  {}

  // A frame no worker holds that changes place.
  lemma OtherMoveKeepsWorkerPlaces(s: State, n: nat, to: Place, s': State)
    requires WorkerPlaces(s) && (n in s.place ==> !s.place[n].Held?) && !to.Held?
    requires s'.workers == s.workers && s'.place == s.place[n := to]
    ensures WorkerPlaces(s')
  {}

  lemma StepKeepsWorkerPlaces(s: State, a: Action)
    requires Inv(s) && Enabled(s, a)
    ensures WorkerPlaces(Step(s, a))
  {
    var s' := Step(s, a);
    match a
    case Submit => OtherMoveKeepsWorkerPlaces(s, s.inputSeq + 1, AtSubmitter, s');
    case TryPush =>
      if |s.queue| < s.capacity { OtherMoveKeepsWorkerPlaces(s, s.submitter.frame, Queued, s'); }
    case TryPop =>
      if s.queue != [] { OtherMoveKeepsWorkerPlaces(s, s.queue[0], Done(Evicted), s'); }
    case Pop(w) => assert s.queue[0] in s.queue;
    case Store(w) =>
    case Check(w) => WorkerStepKeepsWorkerPlaces(s, a);
    case Process(w, _) => WorkerStepKeepsWorkerPlaces(s, a);
    case Load(w) => WorkerStepKeepsWorkerPlaces(s, a);
    case Exchange(w, _) => WorkerStepKeepsWorkerPlaces(s, a);
  }

  lemma WorkerStepKeepsWorkerPlaces(s: State, a: Action)
    requires Inv(s) && Enabled(s, a)
    requires a.Check? || a.Process? || a.Load? || a.Exchange?
    ensures WorkerPlaces(Step(s, a))
  {
    var s' := Step(s, a);
    var next := s'.workers[a.w];
    if Holding(next) {
      AdvanceKeepsWorkerPlaces(s, a.w, next, s');
    } else {
      ReleaseKeepsWorkerPlaces(s, a.w, next, s'.place[s.workers[a.w].frame].fate, s');
    }
  }

  // A frame that has not won goes where it has not won either.
  lemma OtherMoveKeepsWinPlaces(s: State, n: nat, to: Place, s': State)
    requires WinPlaces(s) && n !in s.wins && to != Done(Published)
    requires s'.place == s.place[n := to] && s'.wins == s.wins
    ensures WinPlaces(s')
  {}

  lemma WinKeepsWinPlaces(s: State, n: nat, s': State)
    requires WinPlaces(s) && s'.place == s.place[n := Done(Published)] && s'.wins == s.wins + [n]
    ensures WinPlaces(s')
  {}

  lemma WorkerStepKeepsWinPlaces(s: State, a: Action)
    requires PlacesAgree(s) && Enabled(s, a) && (a.Check? || a.Process? || a.Load? || a.Exchange?)
    ensures WinPlaces(Step(s, a))
  {
    var s' := Step(s, a);
    var n := s.workers[a.w].frame;
    assert s.place[n] == Held(a.w);
    if s'.wins != s.wins {
      WinKeepsWinPlaces(s, n, s');
    } else if s'.place != s.place {
      OtherMoveKeepsWinPlaces(s, n, s'.place[n], s');
    }
  }

  lemma StepKeepsWinPlaces(s: State, a: Action)
    requires Inv(s) && Enabled(s, a)
    ensures WinPlaces(Step(s, a))
  {
    var s' := Step(s, a);
    if s.queue != [] { QueueHead(s); }
    match a
    case Submit => OtherMoveKeepsWinPlaces(s, s.inputSeq + 1, AtSubmitter, s');
    case TryPush => if |s.queue| < s.capacity { OtherMoveKeepsWinPlaces(s, s.submitter.frame, Queued, s'); }
    case TryPop => if s.queue != [] { OtherMoveKeepsWinPlaces(s, s.queue[0], Done(Evicted), s'); }
    case Pop(w) => OtherMoveKeepsWinPlaces(s, s.queue[0], Held(w), s');
    case Store(_) =>
    case Check(_) => WorkerStepKeepsWinPlaces(s, a);
    case Process(_, _) => WorkerStepKeepsWinPlaces(s, a);
    case Load(_) => WorkerStepKeepsWinPlaces(s, a);
    case Exchange(_, _) => WorkerStepKeepsWinPlaces(s, a);
  }

  lemma PushKeepsQueue(s: State)
    requires PlacesAgree(s) && QueueOrdered(s) && Enabled(s, TryPush)
    ensures QueueOrdered(Step(s, TryPush))
  {
    forall i | 0 <= i < |s.queue| ensures s.queue[i] < s.submitter.frame {
      assert s.queue[i] in s.queue;
      assert s.place[s.queue[i]] == Queued;
    }
  }

  lemma StepKeepsQueue(s: State, a: Action)
    requires Inv(s) && Enabled(s, a)
    ensures QueueOrdered(Step(s, a))
  {
    if a.TryPush? { PushKeepsQueue(s); } else { OthersKeepQueue(s, a); }
  }

  lemma OthersKeepQueue(s: State, a: Action)
    requires QueueOrdered(s) && Enabled(s, a) && !a.TryPush?
    ensures QueueOrdered(Step(s, a))
  {}

  lemma StepKeepsGate(s: State, a: Action)
    requires GateOrdered(s) && Enabled(s, a)
    ensures GateOrdered(Step(s, a))
    ensures s.publishedSeq <= Step(s, a).publishedSeq
  {}

  lemma StepKeepsStore(s: State, a: Action)
    requires StoreOrdered(s) && Enabled(s, a)
    ensures StoreOrdered(Step(s, a))
  {}

  // One frame changes place; if it is lost by that, the loss is justified.
  lemma MoveJustifiesLosses(s: State, n: nat, to: Place, s': State)
    requires LossesJustified(s) && s'.place == s.place[n := to]
    requires s.inputSeq <= s'.inputSeq && s.publishedSeq <= s'.publishedSeq
    requires to == Done(Evicted) ==> n < s'.inputSeq
    requires to in {Done(Superseded), Done(Outrun)} ==> n <= s'.publishedSeq
    ensures LossesJustified(s')
  {}

  lemma WorkerStepJustifiesLosses(s: State, a: Action)
    requires LossesJustified(s) && GateOrdered(s) && Enabled(s, a) && (a.Check? || a.Process? || a.Load? || a.Exchange?)
    ensures LossesJustified(Step(s, a))
  {
    var s' := Step(s, a);
    var n := s.workers[a.w].frame;
    StepKeepsGate(s, a);
    if s'.place != s.place { MoveJustifiesLosses(s, n, s'.place[n], s'); }
  }

  lemma StepJustifiesLosses(s: State, a: Action)
    requires Inv(s) && Enabled(s, a)
    ensures LossesJustified(Step(s, a))
  {
    var s' := Step(s, a);
    match a
    case Submit => MoveJustifiesLosses(s, s.inputSeq + 1, AtSubmitter, s');
    case TryPush => if |s.queue| < s.capacity { MoveJustifiesLosses(s, s.submitter.frame, Queued, s'); }
    case TryPop =>
      if s.queue != [] {
        QueueHead(s);
        MoveJustifiesLosses(s, s.queue[0], Done(Evicted), s');
      }
    case Pop(w) => MoveJustifiesLosses(s, s.queue[0], Held(w), s');
    case Store(_) =>
    case Check(_) => WorkerStepJustifiesLosses(s, a);
    case Process(_, _) => WorkerStepJustifiesLosses(s, a);
    case Load(_) => WorkerStepJustifiesLosses(s, a);
    case Exchange(_, _) => WorkerStepJustifiesLosses(s, a);
  }

  lemma StepKeepsSingleWorkerStore(s: State, a: Action)
    requires SingleWorkerStore(s) && GateOrdered(s) && Enabled(s, a)
    ensures SingleWorkerStore(Step(s, a))
  {
    if a.Exchange? { assert (s.wins + [s.workers[a.w].frame])[..|s.wins|] == s.wins; }
  }

  lemma StepKeepsInv(s: State, a: Action)
    requires Inv(s) && Enabled(s, a)
    ensures Inv(Step(s, a))
  {
    StepKeepsQueuePlaces(s, a);
    StepKeepsSubmitterPlaces(s, a);
    StepKeepsWorkerPlaces(s, a);
    StepKeepsWinPlaces(s, a);
    StepKeepsQueue(s, a);
    StepKeepsGate(s, a);
    StepKeepsStore(s, a);
    StepJustifiesLosses(s, a);
    StepKeepsSingleWorkerStore(s, a);
  }

  // ---- main results, for every interleaving ----

  lemma {:induction false} RunKeepsInv(s: State, actions: seq<Action>)
    requires Inv(s) && CanRun(s, actions)
    ensures Inv(Run(s, actions))
    decreases |actions|
  {
    if actions == [] {
    } else {
      StepKeepsInv(s, actions[0]);
      RunKeepsInv(Step(s, actions[0]), actions[1..]);
    }
  }

  // Frame n is at place p, read from the queue, the submitter and the workers;
  // only how a finished frame ended is read from the history.
  ghost predicate IsAt(s: State, n: nat, p: Place) {
    match p
    case AtSubmitter => !s.submitter.Away? && s.submitter.frame == n
    case Queued => n in s.queue
    case Held(w) => w < |s.workers| && Holds(s.workers[w], n)
    case Done(fate) =>
      if fate == Published then n in s.wins else n in s.place && s.place[n] == Done(fate)
  }

  // Conservation: every submitted frame is in exactly one place, and nothing
  // that was never submitted is anywhere.
  lemma EveryFrameInExactlyOnePlace(maxQueueSize: nat, workerCount: nat, actions: seq<Action>, n: nat)
    requires CanRun(Start(maxQueueSize, workerCount), actions)
    ensures
      var s := Run(Start(maxQueueSize, workerCount), actions);
      if 1 <= n <= s.inputSeq then
        exists p :: IsAt(s, n, p) && forall q :: IsAt(s, n, q) ==> q == p
      else
        forall p :: !IsAt(s, n, p)
  {
    StartInv(maxQueueSize, workerCount);
    RunKeepsInv(Start(maxQueueSize, workerCount), actions);
    var s := Run(Start(maxQueueSize, workerCount), actions);
    if 1 <= n <= s.inputSeq {
      var p := s.place[n];
      assert IsAt(s, n, p);
      forall q | IsAt(s, n, q) ensures q == p {
        match q { case AtSubmitter => case Queued => case Held(w) => case Done(f) => }
      }
    }
  }

  // The gate never goes back, admits each frame once and in order, and what is
  // stored never runs ahead of it.
  lemma GateIsMonotonic(maxQueueSize: nat, workerCount: nat, actions: seq<Action>, a: Action)
    requires CanRun(Start(maxQueueSize, workerCount), actions)
    requires Enabled(Run(Start(maxQueueSize, workerCount), actions), a)
    ensures
      var s := Run(Start(maxQueueSize, workerCount), actions);
      var s' := Step(s, a);
      && s.publishedSeq <= s'.publishedSeq
      && s.wins <= s'.wins && Increasing(s'.wins)
      && s'.latest <= s'.publishedSeq
      && (s'.latest != 0 ==> s'.latest in s'.wins)
  {
    StartInv(maxQueueSize, workerCount);
    RunKeepsInv(Start(maxQueueSize, workerCount), actions);
    StepIsMonotonic(Run(Start(maxQueueSize, workerCount), actions), a);
  }

  lemma StepOnlyAddsWins(s: State, a: Action)
    requires Enabled(s, a)
    ensures s.wins <= Step(s, a).wins
  {}

  lemma StepIsMonotonic(s: State, a: Action)
    requires Inv(s) && Enabled(s, a)
    ensures
      var s' := Step(s, a);
      && s.publishedSeq <= s'.publishedSeq
      && s.wins <= s'.wins && Increasing(s'.wins)
      && s'.latest <= s'.publishedSeq
      && (s'.latest != 0 ==> s'.latest in s'.wins)
  {
    StepOnlyAddsWins(s, a);
    StepKeepsGate(s, a);
    StepKeepsInv(s, a);
    LatestBehindGate(Step(s, a));
  }

  lemma LatestBehindGate(s: State)
    requires Inv(s)
    ensures s.latest <= s.publishedSeq
  {
    if s.latest != 0 {
      var i :| 0 <= i < |s.wins| && s.wins[i] == s.latest;
    }
  }

  // submit gives up at most one frame: the retry after an eviction attempt
  // always finds room, whatever the workers do in between.
  lemma SubmitEvictsAtMostOne(maxQueueSize: nat, workerCount: nat, actions: seq<Action>)
    requires CanRun(Start(maxQueueSize, workerCount), actions)
    ensures
      var s := Run(Start(maxQueueSize, workerCount), actions);
      && |s.queue| <= s.capacity
      && (!s.submitter.Away? ==> s.submitter.evictions <= 1)
      && (s.submitter.Pushing? && s.submitter.retried ==> Step(s, TryPush).submitter.Away?)
  {
    StartInv(maxQueueSize, workerCount);
    RunKeepsInv(Start(maxQueueSize, workerCount), actions);
  }

  // ---- first in, first out ----

  // What has left the queue, for a worker or by eviction, is older than all
  // that is in it.
  ghost predicate LeftInOrder(s: State) {
    forall n, m :: n in s.place && (s.place[n].Held? || s.place[n].Done?) && m in s.queue ==> n < m
  }

  lemma HeadLeavesInOrder(s: State, to: Place, s': State)
    requires Inv(s) && LeftInOrder(s) && s.queue != []
    requires s'.queue == s.queue[1..] && s'.place == s.place[s.queue[0] := to]
    ensures LeftInOrder(s')
  {
    QueueHead(s);
    forall m | m in s'.queue ensures s.queue[0] < m {
      var i :| 0 <= i < |s'.queue| && s'.queue[i] == m;
      assert s.queue[i + 1] == m;
    }
  }

  lemma PushStaysInOrder(s: State)
    requires Inv(s) && LeftInOrder(s) && Enabled(s, TryPush)
    ensures LeftInOrder(Step(s, TryPush))
  {
    var frame := s.submitter.frame;
    forall n | n in s.place && n != frame ensures n < frame { assert n <= s.inputSeq; }
  }

  lemma WorkerStepStaysInOrder(s: State, a: Action)
    requires Inv(s) && LeftInOrder(s) && Enabled(s, a) && (a.Check? || a.Process? || a.Load? || a.Exchange?)
    ensures LeftInOrder(Step(s, a))
  {
    assert s.place[s.workers[a.w].frame].Held?;
  }

  lemma StepStaysInOrder(s: State, a: Action)
    requires Inv(s) && LeftInOrder(s) && Enabled(s, a)
    ensures LeftInOrder(Step(s, a))
  {
    match a
    case Submit =>
    case TryPush => PushStaysInOrder(s);
    case TryPop => if s.queue != [] { HeadLeavesInOrder(s, Done(Evicted), Step(s, a)); }
    case Pop(w) => HeadLeavesInOrder(s, Held(w), Step(s, a));
    case Store(_) =>
    case Check(_) => WorkerStepStaysInOrder(s, a);
    case Process(_, _) => WorkerStepStaysInOrder(s, a);
    case Load(_) => WorkerStepStaysInOrder(s, a);
    case Exchange(_, _) => WorkerStepStaysInOrder(s, a);
  }

  lemma {:induction false} RunStaysInOrder(s: State, actions: seq<Action>)
    requires Inv(s) && LeftInOrder(s) && CanRun(s, actions)
    ensures LeftInOrder(Run(s, actions))
    decreases |actions|
  {
    if actions == [] {
    } else {
      StepKeepsInv(s, actions[0]);
      StepStaysInOrder(s, actions[0]);
      RunStaysInOrder(Step(s, actions[0]), actions[1..]);
    }
  }

  // So in every interleaving an evicted frame, like one a worker has taken, is
  // older than every frame still queued.
  lemma OldestLeavesFirst(maxQueueSize: nat, workerCount: nat, actions: seq<Action>, n: nat, p: Place, m: nat)
    requires CanRun(Start(maxQueueSize, workerCount), actions)
    requires
      var s := Run(Start(maxQueueSize, workerCount), actions);
      IsAt(s, n, p) && (p.Held? || p.Done?) && m in s.queue
    ensures n < m
  {
    StartInv(maxQueueSize, workerCount);
    RunKeepsInv(Start(maxQueueSize, workerCount), actions);
    RunStaysInOrder(Start(maxQueueSize, workerCount), actions);
    var s := Run(Start(maxQueueSize, workerCount), actions);
    assert s.place[n] == p;
  }

  // A worker passes over the frame it took exactly when one as new has already
  // been published, and goes on to process it otherwise.
  lemma CheckPassesOverIff(maxQueueSize: nat, workerCount: nat, actions: seq<Action>, w: nat)
    requires CanRun(Start(maxQueueSize, workerCount), actions)
    requires Enabled(Run(Start(maxQueueSize, workerCount), actions), Check(w))
    ensures
      var s := Run(Start(maxQueueSize, workerCount), actions);
      var n, s' := s.workers[w].frame, Step(s, Check(w));
      if exists m :: m in s.wins && n <= m then IsAt(s', n, Done(Superseded)) && s'.workers[w] == Waiting
      else IsAt(s', n, Held(w)) && s'.workers[w] == Processing(n)
  {
    StartInv(maxQueueSize, workerCount);
    RunKeepsInv(Start(maxQueueSize, workerCount), actions);
    var s := Run(Start(maxQueueSize, workerCount), actions);
    if s.wins != [] { assert s.publishedSeq in s.wins; }
  }

  // ---- submitting with no worker at work ----

  predicate BySubmitter(a: Action) {
    a.Submit? || a.TryPush? || a.TryPop?
  }

  // The newest frame whose submission is over.
  function Submitted(s: State): int {
    if s.submitter.Away? then s.inputSeq else s.inputSeq - 1
  }

  ghost predicate HoldsTheNewest(s: State) {
    && Submitted(s) >= |s.queue|
    && (forall i :: 0 <= i < |s.queue| ==> s.queue[i] == Submitted(s) - |s.queue| + 1 + i)
    && (forall n: nat :: 1 <= n <= Submitted(s) - |s.queue| ==> n in s.place && s.place[n] == Done(Evicted))
  }

  ghost predicate AloneSoFar(s: State, capacity: nat) {
    && HoldsTheNewest(s) && s.capacity == capacity >= 1
    && (!s.submitter.Away? ==> s.inputSeq >= 1 && s.submitter.frame == s.inputSeq)
    && (if s.submitter.Popping? || (s.submitter.Pushing? && s.submitter.retried)
        then Submitted(s) >= capacity && |s.queue| == (if s.submitter.Popping? then capacity else capacity - 1)
        else |s.queue| == if Submitted(s) < capacity then Submitted(s) else capacity)
  }

  lemma EvictionKeepsNewest(s: State)
    requires HoldsTheNewest(s) && Enabled(s, TryPop) && s.queue != []
    ensures HoldsTheNewest(Step(s, TryPop))
  {
    var s' := Step(s, TryPop);
    forall n: nat | 1 <= n <= Submitted(s') - |s'.queue| ensures n in s'.place && s'.place[n] == Done(Evicted) {
      assert n != s.queue[0] ==> n <= Submitted(s) - |s.queue|;
    }
  }

  lemma SubmitterStepAlone(s: State, a: Action, capacity: nat)
    requires AloneSoFar(s, capacity) && Enabled(s, a) && BySubmitter(a)
    ensures AloneSoFar(Step(s, a), capacity)
  {
    if a.TryPop? { EvictionKeepsNewest(s); }
  }

  lemma {:induction false} SubmitterRunsAlone(s: State, actions: seq<Action>, capacity: nat)
    requires AloneSoFar(s, capacity) && CanRun(s, actions) && forall a :: a in actions ==> BySubmitter(a)
    ensures AloneSoFar(Run(s, actions), capacity)
    decreases |actions|
  {
    if actions == [] {
    } else {
      SubmitterStepAlone(s, actions[0], capacity);
      SubmitterRunsAlone(Step(s, actions[0]), actions[1..], capacity);
    }
  }

  // With no worker at work, whenever a submission is over the queue holds the
  // newest frames in order, as many as the size asked for or else as there are
  // workers, but at least one; all the older ones have been evicted.
  lemma QueueKeepsTheNewest(maxQueueSize: nat, workerCount: nat, actions: seq<Action>)
    requires CanRun(Start(maxQueueSize, workerCount), actions) && forall a :: a in actions ==> BySubmitter(a)
    requires Run(Start(maxQueueSize, workerCount), actions).submitter.Away?
    ensures
      var s := Run(Start(maxQueueSize, workerCount), actions);
      var room := if maxQueueSize > 0 then maxQueueSize else if workerCount > 1 then workerCount else 1;
      && |s.queue| == (if s.inputSeq < room then s.inputSeq else room)
      && (forall i :: 0 <= i < |s.queue| ==> s.queue[i] == s.inputSeq - |s.queue| + 1 + i)
      && (forall n: nat :: 1 <= n <= s.inputSeq - |s.queue| ==> IsAt(s, n, Done(Evicted)))
  {
    var room := if maxQueueSize > 0 then maxQueueSize else if workerCount > 1 then workerCount else 1;
    SubmitterRunsAlone(Start(maxQueueSize, workerCount), actions, room);
  }

  // ---- at rest ----

  ghost predicate AtRest(s: State) {
    s.submitter.Away? && s.queue == [] && forall w :: 0 <= w < |s.workers| ==> s.workers[w].Waiting?
  }

  // When everything has drained, the newest frame is the one published, unless
  // an operator returned nothing for it.
  lemma NewestIsPublishedAtRest(maxQueueSize: nat, workerCount: nat, actions: seq<Action>)
    requires CanRun(Start(maxQueueSize, workerCount), actions)
    requires AtRest(Run(Start(maxQueueSize, workerCount), actions))
    ensures
      var s := Run(Start(maxQueueSize, workerCount), actions);
      s.publishedSeq == s.inputSeq <==> s.inputSeq == 0 || !IsAt(s, s.inputSeq, Done(Nulled))
  {
    var s := Run(Start(maxQueueSize, workerCount), actions);
    StartInv(maxQueueSize, workerCount);
    RunKeepsInv(Start(maxQueueSize, workerCount), actions);
    if s.wins != [] { assert s.publishedSeq in s.wins; }
    if s.inputSeq != 0 {
      assert s.inputSeq in s.place;
      if s.place[s.inputSeq] == Done(Published) {
        var i :| 0 <= i < |s.wins| && s.wins[i] == s.inputSeq;
      }
    }
  }

  // The stored frame never goes back to an older one, in any interleaving.
  ghost predicate StoreNeverGoesBack(maxQueueSize: nat, workerCount: nat) {
    forall actions: seq<Action>, a: Action ::
      CanRun(Start(maxQueueSize, workerCount), actions)
      && Enabled(Run(Start(maxQueueSize, workerCount), actions), a) ==>
        Run(Start(maxQueueSize, workerCount), actions).latest
          <= Step(Run(Start(maxQueueSize, workerCount), actions), a).latest
  }

  // With a single worker the stored frame is the published one whenever the
  // worker is not between its gate and its store.
  lemma OneWorkerStoresWhatItPublishes(maxQueueSize: nat, actions: seq<Action>)
    requires CanRun(Start(maxQueueSize, 1), actions)
    ensures
      var s := Run(Start(maxQueueSize, 1), actions);
      |s.workers| == 1 && (!s.workers[0].Winner? ==> s.latest == s.publishedSeq)
  {
    StartInv(maxQueueSize, 1);
    RunKeepsInv(Start(maxQueueSize, 1), actions);
    RunKeepsWorkerCount(Start(maxQueueSize, 1), actions);
  }

  lemma {:induction false} RunKeepsWorkerCount(s: State, actions: seq<Action>)
    requires CanRun(s, actions)
    ensures |Run(s, actions).workers| == |s.workers|
    decreases |actions|
  {
    if actions == [] {
    } else {
      RunKeepsWorkerCount(Step(s, actions[0]), actions[1..]);
    }
  }

  // A winner can stall between the gate and the store while a newer winner
  // stores, so with two or more workers the stored frame can go back, and can
  // stay behind the gate for good.
  lemma OvertakenWinnerStoresLast(maxQueueSize: nat, workerCount: nat) returns (actions: seq<Action>)
    requires workerCount >= 2
    ensures CanRun(Start(maxQueueSize, workerCount), actions)
    ensures
      var s := Run(Start(maxQueueSize, workerCount), actions);
      Enabled(s, Store(0)) &&
      var s' := Step(s, Store(0));
      s.latest == 2 && s'.latest == 1 && s'.publishedSeq == 2 && AtRest(s')
  {
    var start := Start(maxQueueSize, workerCount);
    var taken := TakeNext(start, [], 0);
    taken := TakeNext(start, taken, 1);
    actions := WinGate(start, taken, 0);
    actions := WinGate(start, actions, 1);
    Extend(start, actions, Store(1));
    actions := actions + [Store(1)];
  }

  // Submit one frame and let waiting worker w take it.
  lemma TakeNext(start: State, before: seq<Action>, w: nat) returns (actions: seq<Action>)
    requires CanRun(start, before)
    requires
      var s := Run(start, before);
      s.submitter.Away? && s.queue == [] && s.capacity >= 1 && w < |s.workers| && s.workers[w].Waiting?
    ensures CanRun(start, actions)
    ensures
      var s, s' := Run(start, before), Run(start, actions);
      && s'.inputSeq == s.inputSeq + 1 && s'.submitter.Away? && s'.queue == []
      && s'.workers == s.workers[w := Popped(s.inputSeq + 1)]
      && (s'.capacity, s'.publishedSeq, s'.latest, s'.wins) == (s.capacity, s.publishedSeq, s.latest, s.wins)
  {
    Extend(start, before, Submit);
    Extend(start, before + [Submit], TryPush);
    Extend(start, before + [Submit] + [TryPush], Pop(w));
    actions := before + [Submit] + [TryPush] + [Pop(w)];
  }

  // Carry worker w, alone, from its pop through the gate.
  lemma WinGate(start: State, before: seq<Action>, w: nat) returns (actions: seq<Action>)
    requires CanRun(start, before)
    requires
      var s := Run(start, before);
      w < |s.workers| && s.workers[w].Popped? && s.workers[w].frame > s.publishedSeq
    ensures CanRun(start, actions)
    ensures
      var s, s' := Run(start, before), Run(start, actions);
      var n := s.workers[w].frame;
      && s'.publishedSeq == n && s'.workers == s.workers[w := Winner(n)]
      && (s'.capacity, s'.inputSeq, s'.latest, s'.queue, s'.submitter)
           == (s.capacity, s.inputSeq, s.latest, s.queue, s.submitter)
  {
    var n := Run(start, before).workers[w].frame;
    Extend(start, before, Check(w));
    Extend(start, before + [Check(w)], Process(w, true));
    var processed := before + [Check(w)] + [Process(w, true)];
    Extend(start, processed, Load(w));
    Extend(start, processed + [Load(w)], Exchange(w, false));
    actions := processed + [Load(w)] + [Exchange(w, false)];
  }

  lemma {:induction false} Extend(s: State, actions: seq<Action>, a: Action)
    requires CanRun(s, actions) && Enabled(Run(s, actions), a)
    ensures CanRun(s, actions + [a]) && Run(s, actions + [a]) == Step(Run(s, actions), a)
    decreases |actions|
  {
    if actions == [] {
    } else {
      Extend(Step(s, actions[0]), actions[1..], a);
      assert (actions + [a])[1..] == actions[1..] + [a];
    }
  }

  lemma StoreNeverGoesBackIffOneWorker(maxQueueSize: nat, workerCount: nat)
    ensures StoreNeverGoesBack(maxQueueSize, workerCount) <==> workerCount <= 1
  {
    var start := Start(maxQueueSize, workerCount);
    if workerCount >= 2 {
      var actions := OvertakenWinnerStoresLast(maxQueueSize, workerCount);
    } else {
      forall actions: seq<Action>, a: Action | CanRun(start, actions) && Enabled(Run(start, actions), a)
        ensures Run(start, actions).latest <= Step(Run(start, actions), a).latest
      {
        StartInv(maxQueueSize, workerCount);
        RunKeepsInv(start, actions);
        RunKeepsWorkerCount(start, actions);
        var s := Run(start, actions);
        LatestBehindGate(s);
      }
    }
  }
}
