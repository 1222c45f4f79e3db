// The operator pipeline comes to rest: once no more is submitted, every way of
// running on is bounded, and stops only with everything drained.
module PipelineRest {
  import opened OperatorPipeline

  // How many stages a worker still has before it, and the submitter.
  function WorkerStages(worker: Worker): nat {
    match worker
    case Waiting => 0
    case Winner(_) => 1
    case AtGate(_, _) => 2
    case Processed(_) => 3
    case Processing(_) => 4
    case Popped(_) => 5
  }

  const QUEUED_STAGES := 6

  function SubmitterStages(submitter: Submitter): nat {
    match submitter
    case Away => 0
    case Pushing(_, retried, _) => if retried then 7 else 9
    case Popping(_, _) => 8
  }

  function StagesOf(workers: seq<Worker>): nat
    decreases |workers|
  {
    if workers == [] then 0 else StagesOf(workers[..|workers| - 1]) + WorkerStages(workers[|workers| - 1])
  }

  // At the gate with a value that is no longer the gate's.
  predicate Stale(worker: Worker, gate: nat) {
    worker.AtGate? && worker.prev != gate
  }

  function StaleCount(workers: seq<Worker>, gate: nat): (n: nat)
    ensures n <= |workers|
    decreases |workers|
  {
    if workers == [] then 0
    else StaleCount(workers[..|workers| - 1], gate) + (if Stale(workers[|workers| - 1], gate) then 1 else 0)
  }

  function Stages(s: State): nat {
    SubmitterStages(s.submitter) + QUEUED_STAGES * |s.queue| + StagesOf(s.workers)
  }

  // A winner can make every other worker's value stale, so a stage outweighs
  // them all.
  function Remaining(s: State): nat {
    (|s.workers| + 1) * Stages(s) + StaleCount(s.workers, s.publishedSeq)
  }

  lemma {:induction false} OneWorkerChanges(workers: seq<Worker>, w: nat, next: Worker, gate: nat)
    requires w < |workers|
    ensures StagesOf(workers[w := next]) == StagesOf(workers) - WorkerStages(workers[w]) + WorkerStages(next)
    ensures StaleCount(workers[w := next], gate)
         == StaleCount(workers, gate) - (if Stale(workers[w], gate) then 1 else 0)
            + (if Stale(next, gate) then 1 else 0)
    decreases |workers|
  {
    var last := |workers| - 1;
    if w == last {
      assert workers[w := next][..last] == workers[..last];
    } else {
      assert workers[w := next][..last] == workers[..last][w := next];
      OneWorkerChanges(workers[..last], w, next, gate);
    }
  }

  // An exchange fails spuriously when it fails although nothing changed.
  predicate Spurious(s: State, a: Action)
    requires Enabled(s, a)
  {
    a.Exchange? && a.spurious && s.workers[a.w].prev == s.publishedSeq
  }

  lemma FewerStages(k: nat, before: nat, after: nat, stale: nat, stale': nat)
    requires after < before && stale' < k
    ensures k * after + stale' < k * before + stale
  {
    assert k * (after + 1) <= k * before;
  }

  lemma SubmitterProgresses(s: State, a: Action)
    requires QueueOrdered(s) && Enabled(s, a) && (a.TryPush? || a.TryPop?)
    ensures Stages(Step(s, a)) < Stages(s) && Step(s, a).workers == s.workers
  {}

  lemma WorkerProgresses(s: State, a: Action)
    requires GateOrdered(s) && Enabled(s, a) && !a.Submit? && !a.TryPush? && !a.TryPop? && !Spurious(s, a)
    ensures
      var s' := Step(s, a);
      && |s'.workers| == |s.workers|
      && (Stages(s') < Stages(s)
          || (Stages(s') == Stages(s)
              && StaleCount(s'.workers, s'.publishedSeq) < StaleCount(s.workers, s.publishedSeq)))
  {
    var s' := Step(s, a);
    OneWorkerChanges(s.workers, a.w, s'.workers[a.w], s.publishedSeq);
  }

  // Everything but a new submission and a spurious failure is progress.
  lemma StepProgresses(s: State, a: Action)
    requires Inv(s) && Enabled(s, a) && !a.Submit? && !Spurious(s, a)
    ensures Remaining(Step(s, a)) < Remaining(s)
  {
    var s' := Step(s, a);
    if a.TryPush? || a.TryPop? { SubmitterProgresses(s, a); } else { WorkerProgresses(s, a); }
    if Stages(s') < Stages(s) {
      FewerStages(|s.workers| + 1, Stages(s), Stages(s'), StaleCount(s.workers, s.publishedSeq),
                  StaleCount(s'.workers, s'.publishedSeq));
    }
  }

  // A run in which nothing is submitted and no exchange fails spuriously.
  ghost predicate Drains(s: State, actions: seq<Action>)
    decreases |actions|
  {
    actions == []
    || (Enabled(s, actions[0]) && !actions[0].Submit? && !Spurious(s, actions[0])
        && Drains(Step(s, actions[0]), actions[1..]))
  }

  lemma {:induction false} DrainingIsBounded(s: State, actions: seq<Action>)
    requires Inv(s) && Drains(s, actions)
    ensures CanRun(s, actions) && Inv(Run(s, actions))
    ensures |actions| + Remaining(Run(s, actions)) <= Remaining(s)
    decreases |actions|
  {
    if actions == [] {
    } else {
      StepProgresses(s, actions[0]);
      StepKeepsInv(s, actions[0]);
      DrainingIsBounded(Step(s, actions[0]), actions[1..]);
    }
  }

  // An action that makes progress, wherever there is something left.
  ghost predicate Progress(s: State, a: Action) {
    Enabled(s, a) && !a.Submit? && !Spurious(s, a)
  }

  function NextOf(worker: Worker, w: nat): Action {
    match worker
    case Popped(_) => Check(w)
    case Processing(_) => Process(w, true)
    case Processed(_) => Load(w)
    case AtGate(_, _) => Exchange(w, false)
    case _ => Store(w)
  }

  lemma RestIffNoProgress(s: State)
    requires |s.workers| >= 1
    ensures AtRest(s) <==> forall a :: !Progress(s, a)
  {
    if !s.submitter.Away? {
      assert Progress(s, if s.submitter.Pushing? then TryPush else TryPop);
    } else if w :| 0 <= w < |s.workers| && !s.workers[w].Waiting? {
      assert Progress(s, NextOf(s.workers[w], w));
    } else if s.queue != [] {
      assert Progress(s, Pop(0));
    }
  }

  // From every reachable state, with no more submissions and no spurious
  // failures, the pipeline runs on for a bounded number of steps, and can stop
  // only at rest.
  lemma PipelineComesToRest(maxQueueSize: nat, workerCount: nat, actions: seq<Action>, further: seq<Action>)
    requires workerCount >= 1 && CanRun(Start(maxQueueSize, workerCount), actions)
    requires Drains(Run(Start(maxQueueSize, workerCount), actions), further)
    ensures
      var s := Run(Start(maxQueueSize, workerCount), actions);
      && CanRun(s, further) && |further| <= Remaining(s)
      && (AtRest(Run(s, further)) <==> forall a :: !Progress(Run(s, further), a))
  {
    var start := Start(maxQueueSize, workerCount);
    StartInv(maxQueueSize, workerCount);
    RunKeepsInv(start, actions);
    DrainingIsBounded(Run(start, actions), further);
    RunKeepsWorkerCount(start, actions);
    RunKeepsWorkerCount(Run(start, actions), further);
    RestIffNoProgress(Run(Run(start, actions), further));
  }

  // With no worker at all a queued frame stays queued.
  lemma NoWorkersNoRest(maxQueueSize: nat)
    ensures
      var s := Start(maxQueueSize, 0);
      CanRun(s, [Submit, TryPush]) && !AtRest(Run(s, [Submit, TryPush]))
      && forall a :: !Progress(Run(s, [Submit, TryPush]), a)
  {
    var s := Start(maxQueueSize, 0);
    var acts := [Submit, TryPush];
    assert acts[1..] == [TryPush] && acts[1..][1..] == [];
    assert Step(Step(s, Submit), TryPush).queue == [1];
  }
}
