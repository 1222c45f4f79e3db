// The sequence number a channel keeps beside its published frame. The writer
// stores it after the frame, and a reconnect clears it after the frame while a
// new writer is already running, so the two can come to disagree.
module FrameSequences {
  import opened Common
  import opened FramePool

  // The sequence of the frame published, zero when there is none.
  function ShownSequence(s: State): nat {
    if s.published.Some? && s.published.value < |s.frames| then s.frames[s.published.value].sequence else 0
  }

  predicate Agrees(s: State) {
    s.sequence == ShownSequence(s)
  }

  // ---- the stores that are due, in whatever order they land ----

  predicate IsDue(a: Action) {
    a.StoreSequence? || a.ClearFrame? || a.ClearSequence?
  }

  predicate Settled(s: State) {
    !s.writer.Published? && s.reconnect.Quiet?
  }

  ghost predicate Settles(s: State, order: seq<Action>)
    decreases |order|
  {
    if order == [] then Settled(s)
    else Enabled(s, order[0]) && IsDue(order[0]) && Settles(Step(s, order[0]), order[1..])
  }

  ghost function SettledBy(s: State, order: seq<Action>): State
    requires Settles(s, order)
    decreases |order|
  {
    if order == [] then s else SettledBy(Step(s, order[0]), order[1..])
  }

  ghost predicate SettlesAgreed(s: State) {
    forall order :: Settles(s, order) ==> Agrees(SettledBy(s, order))
  }

  // The same, read off the state.
  predicate OnCourse(s: State) {
    match s.reconnect
    case Quiet => if s.writer.Published? then s.writer.sequence == ShownSequence(s) else Agrees(s)
    case ClearingFrame => !s.writer.Published?
    case ClearingSequence => !s.writer.Published? && ShownSequence(s) == 0
  }

  // Sequences are counted from one.
  predicate Positive(s: State) {
    && (forall i :: 0 <= i < |s.log| ==> s.log[i] >= 1)
    && (s.writer.Stamped? && s.writer.frame < |s.frames| ==> s.frames[s.writer.frame].sequence >= 1)
    && (s.writer.Published? ==> s.writer.sequence >= 1)
    && (s.published.Some? ==> s.published.value < |s.frames| && s.frames[s.published.value].sequence >= 1)
  }

  lemma StepStaysPositive(s: State, a: Action)
    requires Inv(s) && Positive(s) && Enabled(s, a)
    ensures Positive(Step(s, a))
  {
    if s.published.Some? { VisibleIsNotWritten(s, a, s.published.value); }
  }

  lemma {:induction false} OnCourseEndsAgreed(s: State, order: seq<Action>)
    requires OnCourse(s) && Settles(s, order)
    ensures Agrees(SettledBy(s, order))
    decreases |order|
  {
    if order == [] {
    } else {
      OnCourseEndsAgreed(Step(s, order[0]), order[1..]);
    }
  }

  lemma SettlesFirst(s: State, a: Action, order: seq<Action>)
    requires Enabled(s, a) && IsDue(a) && Settles(Step(s, a), order)
    ensures Settles(s, [a] + order) && SettledBy(s, [a] + order) == SettledBy(Step(s, a), order)
  {
    assert ([a] + order)[1..] == order;
  }

  // Off course, the clearing and the storing can land so as to disagree.
  lemma OffCourseCanDisagree(s: State) returns (order: seq<Action>)
    requires Positive(s) && !OnCourse(s)
    ensures Settles(s, order) && !Agrees(SettledBy(s, order))
    decreases if s.reconnect.ClearingFrame? then 2 else if s.reconnect.ClearingSequence? then 1 else 0,
              if s.writer.Published? then 1 else 0
  {
    if Settled(s) {
      order := [];
    } else {
      var a := if s.reconnect.ClearingFrame? then ClearFrame
               else if s.reconnect.ClearingSequence? && ShownSequence(s) == 0 then ClearSequence
               else if s.writer.Published? then StoreSequence
               else ClearSequence;
      var rest := OffCourseCanDisagree(Step(s, a));
      SettlesFirst(s, a, rest);
      order := [a] + rest;
    }
  }

  lemma OnCourseIffSettlesAgreed(s: State)
    requires Positive(s)
    ensures OnCourse(s) <==> SettlesAgreed(s)
  {
    if OnCourse(s) {
      forall order | Settles(s, order) ensures Agrees(SettledBy(s, order)) { OnCourseEndsAgreed(s, order); }
    } else {
      var order := OffCourseCanDisagree(s);
    }
  }

  // ---- over whole runs ----

  // A frame is published while a reconnect is still clearing.
  predicate PublishesIntoClearing(s: State, a: Action) {
    a.Publish? && !s.reconnect.Quiet?
  }

  // The frame published and its number change only where they are stored.
  lemma ShownStays(s: State, a: Action)
    requires Inv(s) && Enabled(s, a) && !a.Publish? && !a.ClearFrame?
    ensures ShownSequence(Step(s, a)) == ShownSequence(s)
  {
    if s.published.Some? { VisibleIsNotWritten(s, a, s.published.value); }
  }

  lemma OthersStoreNothing(s: State, a: Action)
    requires Enabled(s, a) && !IsDue(a) && !a.Publish? && !a.BeginReconnect?
    ensures
      var s' := Step(s, a);
      && s'.sequence == s.sequence && s'.reconnect == s.reconnect
      && (s'.writer.Published? <==> s.writer.Published?) && (s.writer.Published? ==> s'.writer == s.writer)
  {}

  lemma StoresStayOnCourse(s: State, a: Action)
    requires Inv(s) && Positive(s) && OnCourse(s) && Enabled(s, a) && (IsDue(a) || a.Publish? || a.BeginReconnect?)
    ensures OnCourse(Step(s, a)) <==> !PublishesIntoClearing(s, a)
  {
    if !a.Publish? && !a.ClearFrame? { ShownStays(s, a); }
  }

  lemma StepStaysOnCourse(s: State, a: Action)
    requires Inv(s) && Positive(s) && OnCourse(s) && Enabled(s, a)
    ensures OnCourse(Step(s, a)) <==> !PublishesIntoClearing(s, a)
  {
    if IsDue(a) || a.Publish? || a.BeginReconnect? {
      StoresStayOnCourse(s, a);
    } else {
      ShownStays(s, a);
      OthersStoreNothing(s, a);
    }
  }

  // Whatever went before, a frame published with no reconnect under way puts
  // the two right again, and so does a reconnect from its beginning.
  lemma PutRight(s: State, a: Action)
    requires Inv(s) && Enabled(s, a) && (a.BeginReconnect? || (a.Publish? && s.reconnect.Quiet?))
    ensures OnCourse(Step(s, a))
  {}

  ghost predicate AlwaysSettlesAgreed(actions: seq<Action>)
    requires CanRun(Start(), actions)
    decreases |actions|
  {
    SettlesAgreed(Run(Start(), actions)) && (actions == [] || AlwaysSettlesAgreed(actions[..|actions| - 1]))
  }

  ghost predicate NeverPublishesIntoClearing(actions: seq<Action>)
    requires CanRun(Start(), actions)
    decreases |actions|
  {
    actions == [] ||
    (!PublishesIntoClearing(Run(Start(), actions[..|actions| - 1]), actions[|actions| - 1])
     && NeverPublishesIntoClearing(actions[..|actions| - 1]))
  }

  lemma {:induction false} RunIsPositive(actions: seq<Action>)
    requires CanRun(Start(), actions)
    ensures Inv(Run(Start(), actions)) && Positive(Run(Start(), actions))
    decreases |actions|
  {
    if actions == [] {
      RunKeepsInv(actions);
    } else {
      RunIsPositive(actions[..|actions| - 1]);
      StepStaysPositive(Run(Start(), actions[..|actions| - 1]), actions[|actions| - 1]);
      RunKeepsInv(actions);
    }
  }

  // In every interleaving: after every action the number kept ends as that of
  // the frame published, however the stores due land, exactly when no frame was
  // ever published while a reconnect was clearing.
  lemma {:induction false} SequenceAgreesUnlessPublishedIntoClearing(actions: seq<Action>)
    requires CanRun(Start(), actions)
    ensures AlwaysSettlesAgreed(actions) <==> NeverPublishesIntoClearing(actions)
    decreases |actions|
  {
    RunIsPositive(actions);
    OnCourseIffSettlesAgreed(Run(Start(), actions));
    if actions == [] {
    } else {
      var before := actions[..|actions| - 1];
      SequenceAgreesUnlessPublishedIntoClearing(before);
      RunIsPositive(before);
      OnCourseIffSettlesAgreed(Run(Start(), before));
      if NeverPublishesIntoClearing(before) {
        assert SettlesAgreed(Run(Start(), before));
        StepStaysOnCourse(Run(Start(), before), actions[|actions| - 1]);
      }
    }
  }

  lemma RunOneMore(before: seq<Action>, a: Action) returns (actions: seq<Action>)
    requires CanRun(Start(), before) && Enabled(Run(Start(), before), a)
    ensures CanRun(Start(), actions) && Run(Start(), actions) == Step(Run(Start(), before), a)
  {
    actions := before + [a];
    assert actions[..|before|] == before;
  }

  // A new writer that has filled its one frame while a reconnect, its first
  // clear done, has yet to clear the number.
  lemma FilledBetweenTheClears() returns (actions: seq<Action>)
    ensures CanRun(Start(), actions)
    ensures
      var s := Run(Start(), actions);
      s.reconnect.ClearingSequence? && s.writer == Stamped(0) && |s.frames| == 1 && s.frames[0].sequence == 1
  {
    actions := RunOneMore([], Repool(1));
    actions := RunOneMore(actions, BeginReconnect);
    actions := RunOneMore(actions, ClearFrame);
    actions := RunOneMore(actions, BeginScan);
    var s := Run(Start(), actions);
    assert Slot(s, 0) == 0;
    OnlyInPool(s, 0);
    actions := RunOneMore(actions, ScanSlot);
    actions := RunOneMore(actions, Stamp(1));
  }

  // A frame published then stays published, and its number, cleared after it
  // was stored, stays zero.
  lemma ClearedAfterStored() returns (actions: seq<Action>)
    ensures CanRun(Start(), actions)
    ensures
      var s := Run(Start(), actions);
      Settled(s) && s.writer.Idle? && s.sequence == 0 && ShownSequence(s) == 1
  {
    actions := FilledBetweenTheClears();
    actions := RunOneMore(actions, Publish);
    actions := RunOneMore(actions, StoreSequence);
    actions := RunOneMore(actions, ClearSequence);
  }
}
