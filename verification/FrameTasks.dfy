// The slots a device's frame tasks run in: claimed with a compare-and-exchange
// loop by any number of threads, released in two steps.
module FrameTasks {
  const MAX_IN_FLIGHT: nat := 2

  // Where a thread stands: trying to claim, with the value it last saw; having
  // seen too many; running a task; or having counted it done but not yet left.
  datatype Phase = Idle | Trying(seen: nat) | Refused | Running | Leaving

  datatype State = State(inFlight: nat, dropped: nat, processed: nat, attempts: nat, threads: seq<Phase>)

  datatype Action =
    | Begin(thread: nat)
    | Exchange(thread: nat, spurious: bool)
    | Drop(thread: nat)
    | CountDone(thread: nat)
    | Leave(thread: nat)

  function Start(threads: nat): State {
    State(0, 0, 0, 0, seq(threads, _ => Idle))
  }

  predicate Enabled(s: State, a: Action) {
    a.thread < |s.threads|
    && match a
       case Begin(t) => s.threads[t].Idle?
       case Exchange(t, _) => s.threads[t].Trying?
       case Drop(t) => s.threads[t].Refused?
       case CountDone(t) => s.threads[t].Running?
       case Leave(t) => s.threads[t].Leaving? && s.inFlight > 0
  }

  // A thread that has seen a free slot exchanges; one that lost the race, or
  // failed for no reason, has seen the value there now. The loop's test comes
  // with the value seen.
  function Looked(seen: nat): Phase {
    if seen < MAX_IN_FLIGHT then Trying(seen) else Refused
  }

  function Step(s: State, a: Action): State
    requires Enabled(s, a)
  {
    match a
    case Begin(t) => s.(attempts := s.attempts + 1, threads := s.threads[t := Looked(s.inFlight)])
    case Exchange(t, spurious) =>
      if s.threads[t].seen == s.inFlight && !spurious
      then s.(inFlight := s.inFlight + 1, threads := s.threads[t := Running])
      else s.(threads := s.threads[t := Looked(s.inFlight)])
    case Drop(t) => s.(dropped := s.dropped + 1, threads := s.threads[t := Idle])
    case CountDone(t) => s.(processed := s.processed + 1, threads := s.threads[t := Leaving])
    case Leave(t) => s.(inFlight := s.inFlight - 1, threads := s.threads[t := Idle])
  }

  // A thread that loses the race, or fails for no reason, has the slot at its next
  // undisturbed exchange when there is still room, and is refused when there is
  // not.
  lemma LoserTriesAgain(s: State, t: nat, spurious: bool)
    requires Enabled(s, Exchange(t, spurious)) && (spurious || s.threads[t].seen != s.inFlight)
    ensures
      var lost := Step(s, Exchange(t, spurious));
      && lost.inFlight == s.inFlight
      && (if s.inFlight < 2
          then Enabled(lost, Exchange(t, false))
               && Step(lost, Exchange(t, false)) == s.(inFlight := s.inFlight + 1, threads := s.threads[t := Running])
          else Enabled(lost, Drop(t))
               && Step(lost, Drop(t)) == s.(dropped := s.dropped + 1, threads := s.threads[t := Idle]))
  {}

  predicate RunEnabled(s: State, actions: seq<Action>)
    decreases |actions|
  {
    actions == [] || (Enabled(s, actions[0]) && RunEnabled(Step(s, actions[0]), actions[1..]))
  }

  function Run(s: State, actions: seq<Action>): State
    requires RunEnabled(s, actions)
    decreases |actions|
  {
    if actions == [] then s else Run(Step(s, actions[0]), actions[1..])
  }

  // ---- what the counters count ----

  predicate HoldsSlot(p: Phase) {
    p.Running? || p.Leaving?
  }

  predicate Undecided(p: Phase) {
    p.Trying? || p.Refused? || p.Running?
  }

  function Count(threads: seq<Phase>, p: Phase -> bool): nat
    decreases |threads|
  {
    if threads == [] then 0
    else Count(threads[..|threads| - 1], p) + (if p(threads[|threads| - 1]) then 1 else 0)
  }

  function One(b: bool): nat {
    if b then 1 else 0
  }

  lemma {:induction false} CountUpdate(threads: seq<Phase>, p: Phase -> bool, t: nat, phase: Phase)
    requires t < |threads|
    ensures Count(threads[t := phase], p) + One(p(threads[t])) == Count(threads, p) + One(p(phase))
    decreases |threads|
  {
    var n := |threads| - 1;
    if t < n {
      assert threads[t := phase][..n] == threads[..n][t := phase];
      CountUpdate(threads[..n], p, t, phase);
    } else {
      assert threads[t := phase][..n] == threads[..n];
    }
  }

  lemma {:induction false} CountNone(n: nat, p: Phase -> bool)
    requires !p(Idle)
    ensures Count(seq(n, _ => Idle), p) == 0
  {
    if n == 0 {
    } else {
      assert seq(n, _ => Idle)[..n - 1] == seq(n - 1, _ => Idle);
      CountNone(n - 1, p);
    }
  }

  lemma {:induction false} CountedIfThere(threads: seq<Phase>, p: Phase -> bool, t: nat)
    requires t < |threads| && p(threads[t])
    ensures Count(threads, p) > 0
    decreases |threads|
  {
    if t == |threads| - 1 {
    } else {
      CountedIfThere(threads[..|threads| - 1], p, t);
    }
  }

  ghost predicate Inv(s: State) {
    && s.inFlight == Count(s.threads, HoldsSlot)
    && s.inFlight <= MAX_IN_FLIGHT
    && s.attempts == s.dropped + s.processed + Count(s.threads, Undecided)
    && forall t :: 0 <= t < |s.threads| && s.threads[t].Trying? ==> s.threads[t].seen < MAX_IN_FLIGHT
  }

  lemma StepKeepsInv(s: State, a: Action)
    requires Inv(s) && Enabled(s, a)
    ensures Inv(Step(s, a))
  {
    var t, phase := a.thread, Step(s, a).threads[a.thread];
    CountUpdate(s.threads, HoldsSlot, t, phase);
    CountUpdate(s.threads, Undecided, t, phase);
  }

  lemma {:induction false} RunKeepsInv(s: State, actions: seq<Action>)
    requires Inv(s) && RunEnabled(s, actions)
    ensures Inv(Run(s, actions))
    decreases |actions|
  {
    if actions == [] {
    } else {
      StepKeepsInv(s, actions[0]);
      RunKeepsInv(Step(s, actions[0]), actions[1..]);
    }
  }

  // However threads interleave: at most two tasks are in flight, as many as
  // there are holders; every attempt is dropped, done or still under way; and a
  // slot can always be left.
  lemma SlotsAreBoundedAndAttemptsConserved(threads: nat, actions: seq<Action>)
    requires RunEnabled(Start(threads), actions)
    ensures
      var s := Run(Start(threads), actions);
      && s.inFlight <= 2 && s.inFlight == Count(s.threads, HoldsSlot)
      && s.attempts == s.dropped + s.processed + Count(s.threads, Undecided)
      && forall t :: 0 <= t < |s.threads| && s.threads[t].Leaving? ==> Enabled(s, Leave(t))
  {
    CountNone(threads, HoldsSlot);
    CountNone(threads, Undecided);
    RunKeepsInv(Start(threads), actions);
    var s := Run(Start(threads), actions);
    forall t | 0 <= t < |s.threads| && s.threads[t].Leaving? ensures Enabled(s, Leave(t)) {
      CountedIfThere(s.threads, HoldsSlot, t);
    }
  }

  // An attempt is turned away only by looking while both slots are held.
  lemma RefusedOnlyWhenFull(s: State, a: Action)
    requires Inv(s) && Enabled(s, a) && Step(s, a).threads[a.thread].Refused?
    ensures Count(s.threads, HoldsSlot) == 2
  {}
}
