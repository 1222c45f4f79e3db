// A session in use: its clock moved under a lock by the update thread and by
// the controls, and its devices scrubbed one by one after the lock is released,
// so that two scrubs can overlap. Every step is one locked region or one device.
module SessionUse {
  import opened Common
  import opened SessionClock

  // What a thread still has to scrub: the devices from next on, to a frame.
  datatype Due = Nothing | Due(frame: int, next: nat)

  // The clock, the length and the configured frame it reads, the session frame
  // each device was last scrubbed to, and what the two threads have still to do.
  datatype Use = Use(
    clock: Clock,
    total: int,
    configFrame: int,
    shown: seq<int>,
    updater: Due,
    controller: Due)

  datatype Action =
    | Lock(control: Control)
    | Land(byUpdater: bool)     // one device is scrubbed
    | Recount(total: int)       // the timeline's length is computed anew

  function DueOf(u: Use, byUpdater: bool): Due {
    if byUpdater then u.updater else u.controller
  }

  function WithDue(u: Use, byUpdater: bool, due: Due): Use {
    if byUpdater then u.(updater := due) else u.(controller := due)
  }

  function Remaining(frame: int, next: nat, devices: nat): Due {
    if next < devices then Due(frame, next) else Nothing
  }

  // A thread scrubs to the end before it takes the lock again. A configuration
  // comes from outside the two and scrubs nothing.
  predicate Enabled(u: Use, a: Action) {
    match a
    case Lock(control) =>
      if control.Advance? then control.dt >= 0.0 && u.updater.Nothing? else control.Configure? || u.controller.Nothing?
    case Land(byUpdater) => DueOf(u, byUpdater).Due? && DueOf(u, byUpdater).next < |u.shown|
    case Recount(_) => u.updater.Nothing?
  }

  function Landed(u: Use, byUpdater: bool): Use
    requires Enabled(u, Land(byUpdater))
  {
    var due := DueOf(u, byUpdater);
    WithDue(u.(shown := u.shown[due.next := due.frame]), byUpdater, Remaining(due.frame, due.next + 1, |u.shown|))
  }

  ghost function Locked(u: Use, control: Control): Use {
    var c := Controlled(u.clock, u.total, u.configFrame, control);
    var v := u.(clock := c, configFrame := if control.Configure? then control.timeline.frame else u.configFrame);
    if Scrubs(u.clock, u.total, control)
    then WithDue(v, control.Advance?, Remaining(c.playback.frame, 0, |u.shown|))
    else v
  }

  ghost function Step(u: Use, a: Action): Use
    requires Enabled(u, a)
  {
    match a
    case Lock(control) => Locked(u, control)
    case Land(byUpdater) => Landed(u, byUpdater)
    case Recount(total) => u.(total := total)
  }

  function Frame(u: Use): int {
    u.clock.playback.frame
  }

  predicate Settled(u: Use) {
    u.updater.Nothing? && u.controller.Nothing?
  }

  predicate InStep(u: Use) {
    forall i :: 0 <= i < |u.shown| ==> u.shown[i] == Frame(u)
  }

  ghost predicate Valid(u: Use) {
    && ValidClock(u.clock)
    && (u.updater.Due? ==> u.updater.next < |u.shown|)
    && (u.controller.Due? ==> u.controller.next < |u.shown|)
  }

  lemma StepStaysValid(u: Use, a: Action)
    requires Valid(u) && Enabled(u, a)
    ensures Valid(Step(u, a))
  {
    if a.Lock? { ControlKeepsClockValid(u.clock, u.total, u.configFrame, a.control); }
  }

  // ---- however the scrubs that are due land ----

  // Landings that leave nothing due.
  predicate Settles(u: Use, order: seq<bool>)
    decreases |order|
  {
    if order == [] then Settled(u)
    else Enabled(u, Land(order[0])) && Settles(Landed(u, order[0]), order[1..])
  }

  function LandedAll(u: Use, order: seq<bool>): Use
    requires Settles(u, order)
    decreases |order|
  {
    if order == [] then u else LandedAll(Landed(u, order[0]), order[1..])
  }

  // In whatever order they land, the devices end on the session's frame.
  ghost predicate SettlesInStep(u: Use) {
    forall order :: Settles(u, order) ==> InStep(LandedAll(u, order))
  }

  predicate Owes(due: Due, i: nat) {
    due.Due? && due.next <= i
  }

  // Device i is on the frame, or will be scrubbed to it and to no other.
  predicate OnCourseAt(u: Use, i: nat)
    requires i < |u.shown|
  {
    && (Owes(u.updater, i) ==> u.updater.frame == Frame(u))
    && (Owes(u.controller, i) ==> u.controller.frame == Frame(u))
    && (!Owes(u.updater, i) && !Owes(u.controller, i) ==> u.shown[i] == Frame(u))
  }

  ghost predicate OnCourse(u: Use) {
    forall i :: 0 <= i < |u.shown| ==> OnCourseAt(u, i)
  }

  lemma LandingStaysOnCourse(u: Use, byUpdater: bool)
    requires OnCourse(u) && Enabled(u, Land(byUpdater))
    ensures OnCourse(Landed(u, byUpdater))
  {
    forall i | 0 <= i < |u.shown| ensures OnCourseAt(Landed(u, byUpdater), i) { assert OnCourseAt(u, i); }
  }

  lemma {:induction false} OnCourseEndsInStep(u: Use, order: seq<bool>)
    requires OnCourse(u) && Settles(u, order)
    ensures InStep(LandedAll(u, order))
    decreases |order|
  {
    if order == [] {
      forall i | 0 <= i < |u.shown| ensures u.shown[i] == Frame(u) { assert OnCourseAt(u, i); }
    } else {
      LandingStaysOnCourse(u, order[0]);
      OnCourseEndsInStep(Landed(u, order[0]), order[1..]);
    }
  }

  // One thread, then what is left in the other, can land to the end.
  lemma {:induction false} LandThreadFirst(u: Use, byUpdater: bool) returns (order: seq<bool>)
    requires Valid(u)
    ensures Settles(u, order)
    ensures
      var last, first, end := DueOf(u, !byUpdater), DueOf(u, byUpdater), LandedAll(u, order);
      && end.clock == u.clock && |end.shown| == |u.shown|
      && forall i :: 0 <= i < |u.shown| ==>
           end.shown[i] == if Owes(last, i) then last.frame else if Owes(first, i) then first.frame else u.shown[i]
    decreases if u.updater.Due? then |u.shown| - u.updater.next else 0,
              if u.controller.Due? then |u.shown| - u.controller.next else 0
  {
    if Settled(u) {
      order := [];
    } else {
      var next := if DueOf(u, byUpdater).Due? then byUpdater else !byUpdater;
      var rest := LandThreadFirst(Landed(u, next), byUpdater);
      order := [next] + rest;
      assert order[1..] == rest;
    }
  }

  // So being on course is exactly to settle in step.
  lemma OnCourseIffSettlesInStep(u: Use)
    requires Valid(u)
    ensures OnCourse(u) <==> SettlesInStep(u)
  {
    if OnCourse(u) {
      forall order | Settles(u, order) ensures InStep(LandedAll(u, order)) { OnCourseEndsInStep(u, order); }
    } else {
      var i :| 0 <= i < |u.shown| && !OnCourseAt(u, i);
      var updaterIsLast := Owes(u.updater, i) && u.updater.frame != Frame(u);
      var order := LandThreadFirst(u, !updaterIsLast);
      assert LandedAll(u, order).shown[i] != Frame(u);
    }
  }

  // ---- what puts devices off their session's frame ----

  // A locked step that leaves a device on another frame, or that may: the clock
  // snaps unseen, a configuration puts another frame in place, or the frame is
  // moved while the other thread is still scrubbing to the one before.
  ghost predicate Strays(u: Use, a: Action) {
    a.Lock? && |u.shown| > 0 && (
      || (a.control.Advance? && SnapsUnseen(u.clock, u.total, a.control.dt))
      || (a.control.Configure? && Configured(u.clock.playback, u.configFrame, a.control.timeline).frame != Frame(u))
      || (Scrubs(u.clock, u.total, a.control) && DueOf(u, !a.control.Advance?).Due?
          && Controlled(u.clock, u.total, u.configFrame, a.control).playback.frame != Frame(u)))
  }

  lemma LockStaysOnCourse(u: Use, control: Control)
    requires Valid(u) && OnCourse(u) && Enabled(u, Lock(control))
    ensures OnCourse(Locked(u, control)) <==> !Strays(u, Lock(control))
  {
    var v := Locked(u, control);
    MovesUnseenIff(u.clock, u.total, u.configFrame, control);
    forall i | 0 <= i < |u.shown| && !Strays(u, Lock(control)) ensures OnCourseAt(v, i) { assert OnCourseAt(u, i); }
    if Strays(u, Lock(control)) {
      var i := if Scrubs(u.clock, u.total, control) then DueOf(u, !control.Advance?).next else 0;
      assert OnCourseAt(u, i) && !OnCourseAt(v, i);
    }
  }

  lemma StepStaysOnCourse(u: Use, a: Action)
    requires Valid(u) && OnCourse(u) && Enabled(u, a)
    ensures OnCourse(Step(u, a)) <==> !Strays(u, a)
  {
    match a
    case Lock(control) => LockStaysOnCourse(u, control);
    case Land(byUpdater) => LandingStaysOnCourse(u, byUpdater);
    case Recount(_) => forall i | 0 <= i < |u.shown| ensures OnCourseAt(Step(u, a), i) { assert OnCourseAt(u, i); }
  }

  ghost predicate CanRun(u: Use, acts: seq<Action>)
    decreases |acts|
  {
    acts == [] || (Enabled(u, acts[0]) && CanRun(Step(u, acts[0]), acts[1..]))
  }

  ghost function Run(u: Use, acts: seq<Action>): Use
    requires CanRun(u, acts)
    decreases |acts|
  {
    if acts == [] then u else Run(Step(u, acts[0]), acts[1..])
  }

  predicate Configures(a: Action) {
    a.Lock? && a.control.Configure?
  }

  // A configuration is compared with the frame of the latest one before it, or
  // with the frame there was to begin with.
  lemma {:induction false} LatestConfigurationIsKept(u: Use, acts: seq<Action>, last: int)
    requires CanRun(u, acts) && -1 <= last < |acts|
    requires last >= 0 ==> Configures(acts[last])
    requires forall j :: last < j < |acts| ==> !Configures(acts[j])
    ensures Run(u, acts).configFrame == if last < 0 then u.configFrame else acts[last].control.timeline.frame
    decreases |acts|
  {
    if acts == [] {
    } else {
      LatestConfigurationIsKept(Step(u, acts[0]), acts[1..], if last < 0 then -1 else last - 1);
    }
  }

  // And the length the clock resolves is the latest counted.
  lemma {:induction false} LatestCountIsKept(u: Use, acts: seq<Action>, last: int)
    requires CanRun(u, acts) && -1 <= last < |acts|
    requires last >= 0 ==> acts[last].Recount?
    requires forall j :: last < j < |acts| ==> !acts[j].Recount?
    ensures Run(u, acts).total == if last < 0 then u.total else acts[last].total
    decreases |acts|
  {
    if acts == [] {
    } else {
      LatestCountIsKept(Step(u, acts[0]), acts[1..], if last < 0 then -1 else last - 1);
    }
  }

  // After every action the devices end in step however what is due lands.
  ghost predicate AlwaysSettlesInStep(u: Use, acts: seq<Action>)
    requires CanRun(u, acts)
    decreases |acts|
  {
    SettlesInStep(u) && (acts == [] || AlwaysSettlesInStep(Step(u, acts[0]), acts[1..]))
  }

  ghost predicate NeverStrays(u: Use, acts: seq<Action>)
    requires CanRun(u, acts)
    decreases |acts|
  {
    acts == [] || (!Strays(u, acts[0]) && NeverStrays(Step(u, acts[0]), acts[1..]))
  }

  // Over every interleaving of the clock, the controls, configurations and the
  // scrubs device by device: the devices stay bound for their session's frame
  // exactly when no step strays.
  lemma {:induction false} InStepUnlessSomeStepStrays(u: Use, acts: seq<Action>)
    requires Valid(u) && SettlesInStep(u) && CanRun(u, acts)
    ensures AlwaysSettlesInStep(u, acts) <==> NeverStrays(u, acts)
    decreases |acts|
  {
    if acts == [] {
    } else {
      var v := Step(u, acts[0]);
      OnCourseIffSettlesInStep(u);
      StepStaysOnCourse(u, acts[0]);
      StepStaysValid(u, acts[0]);
      OnCourseIffSettlesInStep(v);
      if OnCourse(v) { InStepUnlessSomeStepStrays(v, acts[1..]); }
    }
  }

  // ---- each of the three does happen ----

  // A session with some devices, nothing due, all of them on its frame.
  function AtRest(p: Playback, total: int, configFrame: int, devices: nat): Use {
    Use(Clock(p, 0.0), total, configFrame, seq(devices, _ => p.frame), Nothing, Nothing)
  }

  // The region is moved away from a playing frame, and the next call comes
  // sooner than a frame's time.
  lemma RegionMovedAway(p: Playback, total: int, configFrame: int, devices: nat, first: int, dt: real)
    requires p.playing && 0 <= p.frame < first < ResolveLength(p, total) && dt >= 0.0 && InFrames(p.fps, dt) < 1.0
    ensures
      var u, acts := AtRest(p, total, configFrame, devices), [Lock(SetLoop(first, -1)), Lock(Advance(dt))];
      && CanRun(u, acts)
      && var v := Run(u, acts);
         Settled(v) && Frame(v) == first && v.shown == u.shown
  {
    var u, acts := AtRest(p, total, configFrame, devices), [Lock(SetLoop(first, -1)), Lock(Advance(dt))];
    var w := Step(u, acts[0]);
    RunOfTwo(u, acts[0], acts[1]);
    assert w.clock == Clock(p.(startFrame := first, endFrame := -1), 0.0);
    assert Entered(w.clock, total).accum == 0.0;
    assert SnapsUnseen(w.clock, total, dt);
    SnapsToStart(w.clock, total, dt);
  }

  // A paused session receives a configuration that names another frame.
  lemma ConfiguredElsewhere(p: Playback, total: int, configFrame: int, devices: nat, t: Timeline)
    requires t.frame != configFrame && p.frame != t.frame >= Max(0, t.startFrame)
    ensures
      var u := AtRest(p, total, configFrame, devices);
      && Enabled(u, Lock(Configure(t)))
      && var v := Step(u, Lock(Configure(t)));
         Settled(v) && Frame(v) == t.frame && v.shown == u.shown
  {}

  // The clock counts a frame; before its devices are scrubbed the session is
  // stopped, and they with it; then the late scrub lands.
  lemma LateScrub(p: Playback, total: int, configFrame: int, dt: real)
    requires p.playing && p.startFrame == 0 && p.endFrame < 0 && 0 <= p.frame < ResolveLength(p, total) - 1
    requires dt >= 0.0 && 1.0 <= InFrames(p.fps, dt) < 2.0
    ensures
      var u, acts := AtRest(p, total, configFrame, 1), [Lock(Advance(dt)), Lock(Stop), Land(false), Land(true)];
      && CanRun(u, acts)
      && var v := Run(u, acts);
         Settled(v) && !v.clock.playback.playing && Frame(v) == 0 && v.shown == [p.frame + 1]
  {
    var u, acts := AtRest(p, total, configFrame, 1), [Lock(Advance(dt)), Lock(Stop), Land(false), Land(true)];
    AdvancedByTime(u.clock, total, dt, InFrames(p.fps, dt));
    var w := Step(u, acts[0]);
    assert Entered(u.clock, total) == u.clock && Frame(w) == p.frame + 1 && w.updater == Due(p.frame + 1, 0);
    var x := Step(w, Lock(Stop));
    assert x.controller == Due(0, 0);
    RunOfTwo(u, acts[0], acts[1]);
    RunOfTwo(x, Land(false), Land(true));
    RunOn(u, [acts[0], acts[1]], [Land(false), Land(true)]);
    assert [acts[0], acts[1]] + [Land(false), Land(true)] == acts;
  }

  lemma RunOfTwo(u: Use, a: Action, b: Action)
    ensures CanRun(u, [a, b]) <==> Enabled(u, a) && Enabled(Step(u, a), b)
    ensures CanRun(u, [a, b]) ==> Run(u, [a, b]) == Step(Step(u, a), b)
  {
    assert [a, b][1..] == [b] && [b][1..] == [];
    if Enabled(u, a) && Enabled(Step(u, a), b) {
      var w := Step(Step(u, a), b);
      assert CanRun(w, []) && Run(w, []) == w;
      assert CanRun(Step(u, a), [b]) && Run(Step(u, a), [b]) == w;
    }
  }

  lemma {:induction false} RunOn(u: Use, acts: seq<Action>, more: seq<Action>)
    requires CanRun(u, acts) && CanRun(Run(u, acts), more)
    ensures CanRun(u, acts + more) && Run(u, acts + more) == Run(Run(u, acts), more)
    decreases |acts|
  {
    if acts == [] {
      assert acts + more == more;
    } else {
      RunOn(Step(u, acts[0]), acts[1..], more);
      assert (acts + more)[1..] == acts[1..] + more;
    }
  }
}
