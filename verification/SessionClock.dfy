// The session master clock: fractional frame accumulation, the loop region,
// and the scrubbing of every sequence device to the session frame.
module SessionClock {
  import opened Common
  import opened Modulo

  datatype Playback = Playback(
    playing: bool,
    frame: int,
    startFrame: int,
    endFrame: int,        // negative: end of the timeline
    looping: bool,
    fps: int,
    explicitLength: int)

  function Min(a: int, b: int): int { if b < a then b else a }
  function Clamp(x: int, lo: int, hi: int): int { if x < lo then lo else if hi < x then hi else x }

  function ResolveLength(p: Playback, totalDeviceFrames: int): (n: int)
    ensures n >= 1
  {
    if p.explicitLength > 0 then p.explicitLength else Max(1, totalDeviceFrames)
  }

  function RegionStart(p: Playback, total: int): (f: int)
    ensures 0 <= f < ResolveLength(p, total)
  {
    Clamp(p.startFrame, 0, ResolveLength(p, total) - 1)
  }

  function RegionEnd(p: Playback, total: int): (f: int)
    ensures RegionStart(p, total) <= f < ResolveLength(p, total)
  {
    var last := ResolveLength(p, total) - 1;
    if p.endFrame < 0 then last else Clamp(p.endFrame, RegionStart(p, total), last)
  }

  predicate InRegion(p: Playback, total: int) {
    RegionStart(p, total) <= p.frame <= RegionEnd(p, total)
  }

  // ---- the clock in closed form ----

  datatype Clock = Clock(playback: Playback, accum: real)

  // The clock after a drifted frame has snapped to the start of the region.
  function Entered(c: Clock, total: int): Clock {
    if InRegion(c.playback, total) then c
    else Clock(c.playback.(frame := RegionStart(c.playback, total)), 0.0)
  }

  function InFrames(fps: int, dt: real): (time: real)
    ensures dt >= 0.0 ==> time >= 0.0
  {
    TimesRate(dt, Max(1, fps));
    dt * (Max(1, fps) as real)
  }

  lemma TimesRate(dt: real, rate: int)
    requires rate >= 1
    ensures dt >= 0.0 ==> dt * (rate as real) >= 0.0
  {}

  lemma InFramesAdds(fps: int, dt1: real, dt2: real)
    ensures InFrames(fps, dt1 + dt2) == InFrames(fps, dt1) + InFrames(fps, dt2)
  {}

  function Elapsed(c: Clock, dt: real): real {
    c.accum + InFrames(c.playback.fps, dt)
  }

  // Some frames on: round a loop, or up to the end and stopped if beyond it.
  function Stepped(p: Playback, start: int, end: int, steps: int): Playback
    requires start <= end
  {
    if p.looping then p.(frame := start + (p.frame - start + steps) % (end - start + 1))
    else p.(frame := Min(p.frame + steps, end), playing := p.frame + steps <= end)
  }

  function WholeFrames(accum: real, time: real): int {
    (accum + time).Floor
  }

  function PartFrame(accum: real, time: real): real {
    accum + time - WholeFrames(accum, time) as real
  }

  // The clock some time later, in frames, inside a region.
  function Counted(e: Clock, start: int, end: int, time: real): Clock
    requires start <= end
  {
    Clock(Stepped(e.playback, start, end, WholeFrames(e.accum, time)), PartFrame(e.accum, time))
  }

  // Time is counted from where the clock entered the region.
  function AdvancedBy(c: Clock, total: int, time: real): Clock {
    if !c.playback.playing then c
    else Counted(Entered(c, total), RegionStart(c.playback, total), RegionEnd(c.playback, total), time)
  }

  function Advanced(c: Clock, total: int, dt: real): Clock {
    AdvancedBy(c, total, InFrames(c.playback.fps, dt))
  }

  // Whether dt seconds carry a playing clock over at least one whole frame.
  ghost predicate CountsAFrame(c: Clock, total: int, dt: real) {
    c.playback.playing && Elapsed(Entered(c, total), dt) >= 1.0
  }

  ghost predicate ValidClock(c: Clock) {
    0.0 <= c.accum < 1.0
  }

  function Sum(dts: seq<real>): real {
    if dts == [] then 0.0 else dts[0] + Sum(dts[1..])
  }

  function AdvancedAll(c: Clock, total: int, dts: seq<real>): Clock
    decreases |dts|
  {
    if dts == [] then c else AdvancedAll(Advanced(c, total, dts[0]), total, dts[1..])
  }

  ghost predicate NonNegative(dts: seq<real>) {
    forall i :: 0 <= i < |dts| ==> dts[i] >= 0.0
  }

  // The same clock as far as anything can be seen of it: what is left in the
  // accumulator of a stopped clock is never read before play resets it.
  ghost predicate SameClock(c: Clock, d: Clock) {
    c.playback == d.playback && (c.playback.playing ==> c.accum == d.accum)
  }

  lemma EnteredThenCounted(c: Clock, total: int, dt: real)
    requires c.playback.playing && ValidClock(c) && dt >= 0.0
    ensures
      var e := Entered(c, total);
      var start, end, whole := RegionStart(c.playback, total), RegionEnd(c.playback, total), Elapsed(e, dt).Floor;
      && start <= e.playback.frame <= end && Elapsed(e, dt) >= 0.0 && e.playback.playing
      && Advanced(c, total, dt) == Clock(Stepped(e.playback, start, end, whole), Elapsed(e, dt) - whole as real)
      && ValidClock(Advanced(c, total, dt))
  {}

  lemma AdvancedStaysInRegion(c: Clock, total: int, dt: real)
    requires c.playback.playing && ValidClock(c) && dt >= 0.0
    ensures
      var d := Advanced(c, total, dt);
      && ValidClock(d) && InRegion(d.playback, total)
      && d.playback.(frame := c.playback.frame, playing := true) == c.playback
  {
    var e := Entered(c, total);
  }

  lemma FloorsAdd(accum: real, time1: real, time2: real)
    requires accum >= 0.0 && time1 >= 0.0 && time2 >= 0.0
    ensures WholeFrames(accum, time1) >= 0 && WholeFrames(PartFrame(accum, time1), time2) >= 0
    ensures WholeFrames(accum, time1 + time2) == WholeFrames(accum, time1) + WholeFrames(PartFrame(accum, time1), time2)
    ensures PartFrame(accum, time1 + time2) == PartFrame(PartFrame(accum, time1), time2)
  {}

  lemma LoopedSteps(p: Playback, start: int, end: int, k1: int, k2: int)
    requires p.looping && start <= end
    ensures Stepped(Stepped(p, start, end, k1), start, end, k2) == Stepped(p, start, end, k1 + k2)
  {
    ModuloOfSum(p.frame - start + k1, k2, end - start + 1);
  }

  lemma LoopedTwice(e: Clock, start: int, end: int, time1: real, time2: real)
    requires ValidClock(e) && time1 >= 0.0 && time2 >= 0.0 && e.playback.looping && start <= e.playback.frame <= end
    ensures Counted(Counted(e, start, end, time1), start, end, time2) == Counted(e, start, end, time1 + time2)
  {
    FloorsAdd(e.accum, time1, time2);
    LoopedSteps(e.playback, start, end, WholeFrames(e.accum, time1), WholeFrames(PartFrame(e.accum, time1), time2));
  }

  lemma PlayedTwice(e: Clock, start: int, end: int, time1: real, time2: real)
    requires ValidClock(e) && time1 >= 0.0 && time2 >= 0.0 && e.playback.playing && start <= e.playback.frame <= end
    requires !e.playback.looping
    ensures
      var d := Counted(e, start, end, time1);
      SameClock(if d.playback.playing then Counted(d, start, end, time2) else d, Counted(e, start, end, time1 + time2))
  {
    FloorsAdd(e.accum, time1, time2);
  }

  lemma CountedTwice(e: Clock, start: int, end: int, time1: real, time2: real)
    requires ValidClock(e) && time1 >= 0.0 && time2 >= 0.0 && e.playback.playing && start <= e.playback.frame <= end
    ensures
      var d := Counted(e, start, end, time1);
      SameClock(if d.playback.playing then Counted(d, start, end, time2) else d, Counted(e, start, end, time1 + time2))
  {
    if e.playback.looping {
      LoopedTwice(e, start, end, time1, time2);
    } else {
      PlayedTwice(e, start, end, time1, time2);
    }
  }

  lemma SteppedStays(p: Playback, start: int, end: int, steps: int)
    requires start <= p.frame <= end && steps >= 0
    ensures
      var q := Stepped(p, start, end, steps);
      start <= q.frame <= end && q == p.(frame := q.frame, playing := q.playing)
  {}

  lemma AdvancedEnters(c: Clock, total: int, time: real)
    requires c.playback.playing && ValidClock(c) && time >= 0.0
    ensures
      var d := AdvancedBy(c, total, time);
      && Entered(d, total) == d && ValidClock(d)
      && RegionStart(d.playback, total) == RegionStart(c.playback, total)
      && RegionEnd(d.playback, total) == RegionEnd(c.playback, total)
  {
    var e := Entered(c, total);
    SteppedStays(e.playback, RegionStart(c.playback, total), RegionEnd(c.playback, total), (e.accum + time).Floor);
  }

  lemma TwoAdvancesByTime(c: Clock, total: int, time1: real, time2: real)
    requires ValidClock(c) && time1 >= 0.0 && time2 >= 0.0 && c.playback.playing
    ensures SameClock(AdvancedBy(AdvancedBy(c, total, time1), total, time2), AdvancedBy(c, total, time1 + time2))
  {
    AdvancedEnters(c, total, time1);
    CountedTwice(Entered(c, total), RegionStart(c.playback, total), RegionEnd(c.playback, total), time1, time2);
  }

  // Two calls are one call over the summed time.
  lemma TwoAdvancesAreOne(c: Clock, total: int, dt1: real, dt2: real)
    requires ValidClock(c) && dt1 >= 0.0 && dt2 >= 0.0
    ensures SameClock(Advanced(Advanced(c, total, dt1), total, dt2), Advanced(c, total, dt1 + dt2))
  {
    if c.playback.playing {
      InFramesAdds(c.playback.fps, dt1, dt2);
      TwoAdvancesByTime(c, total, InFrames(c.playback.fps, dt1), InFrames(c.playback.fps, dt2));
    }
  }

  // However elapsed time is split into calls, the clock ends where a single
  // call over the total would have put it.
  lemma {:induction false} SplittingTimeChangesNothing(c: Clock, total: int, dts: seq<real>)
    requires ValidClock(c) && dts != [] && NonNegative(dts)
    ensures SameClock(AdvancedAll(c, total, dts), Advanced(c, total, Sum(dts)))
    decreases |dts|
  {
    var d := Advanced(c, total, dts[0]);
    if |dts| == 1 {
      assert dts[1..] == [];
    } else {
      var rest := dts[1..];
      SumNonNegative(rest);
      if c.playback.playing { AdvancedStaysInRegion(c, total, dts[0]); }
      SplittingTimeChangesNothing(d, total, rest);
      TwoAdvancesAreOne(c, total, dts[0], Sum(rest));
    }
  }

  lemma {:induction false} SumNonNegative(dts: seq<real>)
    requires NonNegative(dts)
    ensures Sum(dts) >= 0.0
  {
    if dts == [] {
    } else {
      SumNonNegative(dts[1..]);
    }
  }

  lemma ElapsedAtRate(c: Clock, dt: real)
    ensures Elapsed(c, dt) == c.accum + dt * (Max(1, c.playback.fps) as real)
  {}

  // What that single frame is, for a clock inside its region, once so many
  // frames have gone by at its rate.
  lemma FrameAfterAnySplit(c: Clock, total: int, dts: seq<real>, passed: int)
    requires ValidClock(c) && dts != [] && NonNegative(dts)
    requires c.playback.playing && InRegion(c.playback, total)
    requires passed == (c.accum + Sum(dts) * (Max(1, c.playback.fps) as real)).Floor
    ensures
      var start, end := RegionStart(c.playback, total), RegionEnd(c.playback, total);
      var p := AdvancedAll(c, total, dts).playback;
      && start <= p.frame <= end
      && (if c.playback.looping then
            p.playing && p.frame == start + (c.playback.frame - start + passed) % (end - start + 1)
          else
            && p.frame == Min(c.playback.frame + passed, end)
            && (p.playing <==> c.playback.frame + passed <= end))
  {
    ElapsedAtRate(c, Sum(dts));
    FrameAfterFrames(c, total, dts, passed);
  }

  lemma FrameAfterFrames(c: Clock, total: int, dts: seq<real>, passed: int)
    requires ValidClock(c) && dts != [] && NonNegative(dts)
    requires c.playback.playing && InRegion(c.playback, total) && passed == Elapsed(c, Sum(dts)).Floor
    ensures
      var start, end := RegionStart(c.playback, total), RegionEnd(c.playback, total);
      var p := AdvancedAll(c, total, dts).playback;
      && start <= p.frame <= end
      && (if c.playback.looping then
            p.playing && p.frame == start + (c.playback.frame - start + passed) % (end - start + 1)
          else
            && p.frame == Min(c.playback.frame + passed, end)
            && (p.playing <==> c.playback.frame + passed <= end))
  {
    SplittingTimeChangesNothing(c, total, dts);
    SumNonNegative(dts);
    AdvancedStaysInRegion(c, total, Sum(dts));
  }

  // The loop region: a start inside the timeline is kept and any other is
  // brought to its nearer end; so is an end, but for a negative one, which means
  // the end of the timeline, and one before the start.
  lemma RegionByCase(p: Playback, total: int)
    ensures
      var last := (if p.explicitLength > 0 then p.explicitLength else if total > 1 then total else 1) - 1;
      var start, end := RegionStart(p, total), RegionEnd(p, total);
      && (p.startFrame < 0 ==> start == 0)
      && (0 <= p.startFrame <= last ==> start == p.startFrame)
      && (p.startFrame > last ==> start == last)
      && (p.endFrame < 0 || p.endFrame > last ==> end == last)
      && (0 <= p.endFrame <= start ==> end == start)
      && (start <= p.endFrame <= last ==> end == p.endFrame)
      && (InRegion(p, total) <==> start <= p.frame <= end)
  {}

  lemma AdvancedByTime(c: Clock, total: int, dt: real, time: real)
    requires ValidClock(c) && c.playback.playing && dt >= 0.0 && time == Elapsed(Entered(c, total), dt)
    ensures
      var e, d := Entered(c, total), Advanced(c, total, dt);
      var start, end := RegionStart(c.playback, total), RegionEnd(c.playback, total);
      var next := e.playback.frame + time.Floor;
      && time.Floor >= 0 && ValidClock(d) && d.accum == time - time.Floor as real
      && (next <= end ==> d.playback == e.playback.(frame := next))
      && (next > end && c.playback.looping ==>
            d.playback == e.playback.(frame := start + (next - start) % (end - start + 1)) && start <= d.playback.frame)
      && (next > end && !c.playback.looping ==> d.playback == e.playback.(frame := end, playing := false))
  {
    AdvancedStaysInRegion(c, total, dt);
    var e := Entered(c, total);
    var start, end := RegionStart(c.playback, total), RegionEnd(c.playback, total);
    var next := e.playback.frame + time.Floor;
    if next <= end { ModuloUnique(next - start, end - start + 1, 0, next - start); }
  }

  // Where the clock counts from.
  lemma EnteredByCase(c: Clock, total: int)
    ensures
      var p, e := c.playback, Entered(c, total);
      var start, end := RegionStart(p, total), RegionEnd(p, total);
      && (start <= p.frame <= end ==> e == c)
      && (p.frame < start || end < p.frame ==> e == Clock(p.(frame := start), 0.0))
  {}

  // The closed form, case by case: the frame and the fraction the clock counts
  // from, the frames that go by at its rate, and where they lead.
  lemma AdvancedByCase(c: Clock, total: int, dt: real)
    requires ValidClock(c) && c.playback.playing && dt >= 0.0
    ensures
      var p, d := c.playback, Advanced(c, total, dt);
      var start, end := RegionStart(p, total), RegionEnd(p, total);
      var inside := start <= p.frame <= end;
      var from, held := if inside then p.frame else start, if inside then c.accum else 0.0;
      var time := held + dt * (Max(1, p.fps) as real);
      var next := from + time.Floor;
      && time.Floor >= 0 && ValidClock(d) && d.accum == time - time.Floor as real
      && (CountsAFrame(c, total, dt) <==> time >= 1.0)
      && (next <= end ==> d.playback == p.(frame := next))
      && (next > end && p.looping ==>
            d.playback == p.(frame := start + (next - start) % (end - start + 1)) && start <= d.playback.frame)
      && (next > end && !p.looping ==> d.playback == p.(frame := end, playing := false))
  {
    var e := Entered(c, total);
    EnteredByCase(c, total);
    ElapsedAtRate(e, dt);
    AdvancedByTime(c, total, dt, e.accum + dt * (Max(1, c.playback.fps) as real));
  }

  // ---- what is done to a session's clock under its lock ----

  // The timeline of a session's configuration.
  datatype Timeline = Timeline(frame: int, startFrame: int, endFrame: int, looping: bool, fps: int, length: int)

  datatype Control =
    | Advance(dt: real)
    | Play
    | Stop
    | Pause
    | ScrubTo(frame: int)
    | SetLoop(first: int, last: int)
    | SetLooping(looping: bool)
    | SetFps(fps: int)
    | Configure(timeline: Timeline)

  // A new configuration moves the frame only if it names another frame than the
  // configuration before it, or if the region now starts later.
  function Configured(p: Playback, configFrame: int, t: Timeline): Playback {
    var start := Max(0, t.startFrame);
    Playback(p.playing, Max(start, if t.frame != configFrame then t.frame else p.frame), start, t.endFrame,
             t.looping, Max(1, t.fps), t.length)
  }

  function Controlled(c: Clock, total: int, configFrame: int, a: Control): Clock {
    var p := c.playback;
    match a
    case Advance(dt) => Advanced(c, total, dt)
    case Play => Clock(p.(playing := true), 0.0)
    case Stop => Clock(p.(playing := false, frame := Max(0, p.startFrame)), 0.0)
    case Pause => Clock(p.(playing := false), c.accum)
    case ScrubTo(frame) => Clock(p.(frame := Max(p.startFrame, frame)), c.accum)
    case SetLoop(first, last) => Clock(p.(startFrame := Max(0, first), endFrame := last), c.accum)
    case SetLooping(looping) => Clock(p.(looping := looping), c.accum)
    case SetFps(fps) => Clock(p.(fps := Max(1, fps)), c.accum)
    case Configure(t) => Clock(Configured(p, configFrame, t), c.accum)
  }

  // Whether the devices are scrubbed to the new frame once the lock is released.
  ghost predicate Scrubs(c: Clock, total: int, a: Control) {
    a.Play? || a.Stop? || a.ScrubTo? || (a.Advance? && CountsAFrame(c, total, a.dt))
  }

  // The clock snaps a drifted frame to the start of the region without counting
  // a whole frame, so nothing tells the devices.
  ghost predicate SnapsUnseen(c: Clock, total: int, dt: real) {
    c.playback.playing && !InRegion(c.playback, total) && !CountsAFrame(c, total, dt)
  }

  lemma ControlKeepsClockValid(c: Clock, total: int, configFrame: int, a: Control)
    requires ValidClock(c) && (a.Advance? ==> a.dt >= 0.0)
    ensures ValidClock(Controlled(c, total, configFrame, a))
  {
    if a.Advance? && c.playback.playing { AdvancedByTime(c, total, a.dt, Elapsed(Entered(c, total), a.dt)); }
  }

  // The frame moves without the devices being scrubbed exactly by an unseen snap
  // and by a configuration that puts another frame in place.
  lemma MovesUnseenIff(c: Clock, total: int, configFrame: int, a: Control)
    requires ValidClock(c) && (a.Advance? ==> a.dt >= 0.0)
    ensures
      !Scrubs(c, total, a) && Controlled(c, total, configFrame, a).playback.frame != c.playback.frame <==>
        (a.Advance? && SnapsUnseen(c, total, a.dt))
        || (a.Configure? && Configured(c.playback, configFrame, a.timeline).frame != c.playback.frame)
  {
    if a.Advance? && c.playback.playing { AdvancedByTime(c, total, a.dt, Elapsed(Entered(c, total), a.dt)); }
  }

  lemma SnapsToStart(c: Clock, total: int, dt: real)
    requires ValidClock(c) && dt >= 0.0 && SnapsUnseen(c, total, dt)
    ensures Advanced(c, total, dt).playback.frame == RegionStart(c.playback, total)
  {
    AdvancedByTime(c, total, dt, Elapsed(Entered(c, total), dt));
  }

  // ---- devices ----

  // A device that plays a sequence of frames, with its own in and out points.
  class SequenceDevice {
    const discovery: bool
    const included: bool      // switched on for this session
    const isSequence: bool
    const hasSequenceConfig: bool
    const frameCount: int
    var playing: bool
    var startFrame: int
    var endFrame: int
    var looping: bool
    var currentFrame: int

    constructor (discovery: bool, included: bool, isSequence: bool, hasSequenceConfig: bool, frameCount: int)
    {
      this.discovery, this.included, this.isSequence := discovery, included, isSequence;
      this.hasSequenceConfig, this.frameCount := hasSequenceConfig, frameCount;
      playing, startFrame, endFrame, looping, currentFrame := false, 0, -1, false, 0;
    }

    predicate Scrubbable() {
      !discovery && included && isSequence && frameCount > 0 && hasSequenceConfig
    }

    // The device's share of scrub_devices.
    method Scrub(sessionFrame: int)
      modifies this`playing, this`currentFrame
      ensures Scrubbed(this, sessionFrame)
      ensures !discovery && included && isSequence && frameCount > 0 && hasSequenceConfig ==>
                !playing && LockedTo(currentFrame, sessionFrame, startFrame, endFrame, frameCount, looping)
      ensures discovery || !included || !isSequence || frameCount <= 0 || !hasSequenceConfig ==> unchanged(this)
    {
      if discovery || !included || !isSequence || frameCount <= 0 { return; }
      if hasSequenceConfig {
        var sessionOffset := Max(0, sessionFrame);
        playing := false;
        var devOut := if endFrame > -1 then Min(endFrame, frameCount - 1) else frameCount - 1;
        var devIn := Clamp(startFrame, 0, devOut);
        var devLen := devOut - devIn + 1;
        if looping {
          currentFrame := devIn + sessionOffset % devLen;
          ModuloUnique(sessionOffset - sessionOffset % devLen, devLen, sessionOffset / devLen, 0);
        } else {
          currentFrame := Min(devIn + sessionOffset, devOut);
        }
      }
    }
  }

  function DeviceOut(endFrame: int, frameCount: int): (f: int)
    requires frameCount > 0
    ensures 0 <= f < frameCount
  {
    if endFrame > -1 then Min(endFrame, frameCount - 1) else frameCount - 1
  }

  function DeviceIn(startFrame: int, endFrame: int, frameCount: int): (f: int)
    requires frameCount > 0
    ensures 0 <= f <= DeviceOut(endFrame, frameCount)
  {
    Clamp(startFrame, 0, DeviceOut(endFrame, frameCount))
  }

  // The frame a device shows when it is locked to a session frame.
  ghost predicate LockedTo(frame: int, sessionFrame: int, startFrame: int, endFrame: int, frameCount: int,
                           looping: bool)
    requires frameCount > 0
  {
    LockedBetween(frame, DeviceIn(startFrame, endFrame, frameCount), DeviceOut(endFrame, frameCount),
                  Max(0, sessionFrame), looping)
  }

  // Where the device's own range is played: counted from its first frame, going
  // round when looping and held at the last when not.
  predicate LockedBetween(frame: int, first: int, last: int, offset: int, looping: bool)
    requires first <= last
  {
    && first <= frame <= last
    && (if looping then (offset - (frame - first)) % (last - first + 1) == 0
        else frame - first == offset || (frame == last && last - first < offset))
  }

  // Locked is one frame, not a choice.
  lemma LockedFrameIsUnique(a: int, b: int, sessionFrame: int, startFrame: int, endFrame: int, frameCount: int,
                            looping: bool)
    requires frameCount > 0
    requires LockedTo(a, sessionFrame, startFrame, endFrame, frameCount, looping)
    requires LockedTo(b, sessionFrame, startFrame, endFrame, frameCount, looping)
    ensures a == b
  {
    if looping {
      var first, last := DeviceIn(startFrame, endFrame, frameCount), DeviceOut(endFrame, frameCount);
      var n := last - first + 1;
      var x := Max(0, sessionFrame);
      ModuloUnique(x, n, (x - (a - first)) / n, a - first);
      ModuloUnique(x, n, (x - (b - first)) / n, b - first);
    }
  }

  // Which frame it is, from the device's own in and out points.
  lemma LockedFrameByCase(frame: int, sessionFrame: int, startFrame: int, endFrame: int, frameCount: int,
                          looping: bool)
    requires frameCount > 0
    ensures
      var last := if 0 <= endFrame < frameCount then endFrame else frameCount - 1;
      var first := if startFrame < 0 then 0 else if startFrame <= last then startFrame else last;
      var offset := if sessionFrame > 0 then sessionFrame else 0;
      LockedTo(frame, sessionFrame, startFrame, endFrame, frameCount, looping) <==>
        frame == if looping then first + offset % (last - first + 1)
                 else if first + offset <= last then first + offset else last
  {
    var last := if 0 <= endFrame < frameCount then endFrame else frameCount - 1;
    var first := if startFrame < 0 then 0 else if startFrame <= last then startFrame else last;
    var offset := if sessionFrame > 0 then sessionFrame else 0;
    assert first == DeviceIn(startFrame, endFrame, frameCount) && last == DeviceOut(endFrame, frameCount);
    LockedBetweenIff(frame, first, last, offset, looping);
  }

  lemma WrappedIff(frame: int, first: int, last: int, offset: nat)
    requires first <= last
    ensures first <= frame <= last && (offset - (frame - first)) % (last - first + 1) == 0 <==>
              frame == first + offset % (last - first + 1)
  {
    var n := last - first + 1;
    ModuloUnique(offset - offset % n, n, offset / n, 0);
    if first <= frame <= last && (offset - (frame - first)) % n == 0 {
      ModuloUnique(offset, n, (offset - (frame - first)) / n, frame - first);
    }
  }

  lemma LockedBetweenIff(frame: int, first: int, last: int, offset: nat, looping: bool)
    requires first <= last
    ensures LockedBetween(frame, first, last, offset, looping) <==>
              frame == if looping then first + offset % (last - first + 1)
                       else if first + offset <= last then first + offset else last
  {
    if looping { WrappedIff(frame, first, last, offset); }
  }

  ghost predicate Scrubbed(d: SequenceDevice, sessionFrame: int)
    reads d
  {
    d.Scrubbable() ==>
      && !d.playing
      && LockedTo(d.currentFrame, sessionFrame, d.startFrame, d.endFrame, d.frameCount, d.looping)
  }

  class Session {
    var playback: Playback
    var accum: real
    var cachedTotalFrames: int
    var configFrame: int      // the frame of the configuration last applied
    const devices: seq<SequenceDevice>

    constructor (devices: seq<SequenceDevice>)
      ensures Valid() && this.devices == devices
      ensures playback == Playback(false, 0, 0, -1, true, 30, -1) && configFrame == 0
    {
      this.devices := devices;
      playback := Playback(false, 0, 0, -1, true, 30, -1);
      accum := 0.0;
      cachedTotalFrames, configFrame := 1, 0;
    }

    ghost predicate Valid()
      reads this
    {
      ValidClock(Now())
    }

    function Now(): Clock
      reads this
    {
      Clock(playback, accum)
    }

    // The clock goes where the control takes it.
    ghost predicate Follows(before: Clock, a: Control, after: Clock)
      reads this
    {
      SameClock(after, Controlled(before, cachedTotalFrames, configFrame, a))
    }

    ghost predicate DevicesScrubbed(sessionFrame: int)
      reads devices
    {
      forall i :: 0 <= i < |devices| ==> Scrubbed(devices[i], sessionFrame)
    }

    method ScrubDevices(sessionFrame: int)
      modifies devices`playing, devices`currentFrame
      ensures DevicesScrubbed(sessionFrame)
      ensures forall i :: 0 <= i < |devices| && !devices[i].Scrubbable() ==> unchanged(devices[i])
      ensures forall i :: 0 <= i < |devices| ==>
                var d := devices[i];
                !d.discovery && d.included && d.isSequence && d.frameCount > 0 && d.hasSequenceConfig ==>
                  && !d.playing
                  && LockedTo(d.currentFrame, sessionFrame, d.startFrame, d.endFrame, d.frameCount, d.looping)
    {
      for k := 0 to |devices|
        invariant forall i :: 0 <= i < k ==> Scrubbed(devices[i], sessionFrame)
        invariant forall i :: 0 <= i < |devices| && !devices[i].Scrubbable() ==> unchanged(devices[i])
      {
        devices[k].Scrub(sessionFrame);
      }
    }

    // Move on some frames inside the region [start, end].
    method ApplyFrames(start: int, end: int, advance: int) returns (next: int)
      requires start <= playback.frame <= end && advance > 0 && playback.playing
      modifies this`playback
      ensures start <= next <= end && playback.frame == next
      ensures playback == Stepped(old(playback), start, end, advance)
    {
      next := playback.frame + advance;
      if next > end {
        if playback.looping {
          var span := end - start + 1;
          next := if span > 0 then start + (next - start) % span else start;
        } else {
          next := end;
          playback := playback.(playing := false);
        }
      } else {
        ModuloUnique(next - start, end - start + 1, 0, next - start);
      }
      playback := playback.(frame := next);
    }

    // Take the whole frames out of the accumulator.
    method CountFrames(start: int, end: int) returns (frameToApply: int)
      requires start <= playback.frame <= end && accum >= 0.0 && playback.playing
      modifies this`playback, this`accum
      ensures Now() == Clock(Stepped(old(playback), start, end, old(accum).Floor),
                             old(accum) - old(accum).Floor as real)
      ensures frameToApply == if old(accum) >= 1.0 then playback.frame else -1
      ensures frameToApply >= 0 ==> start <= frameToApply <= end
    {
      var advance := Truncate(accum);
      if advance <= 0 {
        ModuloUnique(playback.frame - start, end - start + 1, 0, playback.frame - start);
        return -1;
      }
      accum := accum - advance as real;
      frameToApply := ApplyFrames(start, end, advance);
    }

    // The loop region; a frame that has drifted out of it snaps to its start.
    method EnterRegion() returns (start: int, end: int)
      modifies this`playback, this`accum
      ensures Now() == Entered(old(Now()), cachedTotalFrames)
      ensures start == RegionStart(playback, cachedTotalFrames) && end == RegionEnd(playback, cachedTotalFrames)
    {
      var length := ResolveLength(playback, cachedTotalFrames);
      var last := Max(0, length - 1);
      start := Clamp(playback.startFrame, 0, last);
      end := if playback.endFrame < 0 then last else Clamp(playback.endFrame, start, last);
      if playback.frame < start || playback.frame > end {
        playback := playback.(frame := start);
        accum := 0.0;
      }
    }

    // The part of advance_playback under the playback mutex: moves the clock
    // and says which frame the devices should show, or -1 for none.
    method AdvanceClock(dt: real) returns (frameToApply: int)
      requires Valid() && dt >= 0.0
      modifies this`playback, this`accum
      ensures Valid()
      ensures SameClock(Now(), Advanced(old(Now()), cachedTotalFrames, dt))
      ensures frameToApply == if CountsAFrame(old(Now()), cachedTotalFrames, dt) then playback.frame else -1
    {
      if !playback.playing { return -1; }
      EnteredThenCounted(Now(), cachedTotalFrames, dt);
      var start, end := EnterRegion();
      accum := Elapsed(Now(), dt);
      frameToApply := CountFrames(start, end);
    }

    method AdvancePlayback(dt: real)
      requires Valid() && dt >= 0.0
      modifies this`playback, this`accum, devices`playing, devices`currentFrame
      ensures Valid()
      ensures SameClock(Now(), Advanced(old(Now()), cachedTotalFrames, dt))
      // the devices move exactly when the clock counts at least one frame
      ensures CountsAFrame(old(Now()), cachedTotalFrames, dt) ==> DevicesScrubbed(playback.frame)
      ensures !CountsAFrame(old(Now()), cachedTotalFrames, dt) ==>
                forall i :: 0 <= i < |devices| ==> unchanged(devices[i])
      ensures Follows(old(Now()), Advance(dt), Now())
      ensures forall shown :: old(DevicesScrubbed(shown)) ==>
                DevicesScrubbed(if Scrubs(old(Now()), cachedTotalFrames, Advance(dt)) then playback.frame else shown)
    {
      if playback.playing { AdvancedStaysInRegion(Now(), cachedTotalFrames, dt); }
      var frameToApply := AdvanceClock(dt);
      if frameToApply >= 0 { ScrubDevices(frameToApply); }
    }

    // ---- playback controls ----

    method Play()
      requires Valid()
      modifies this`playback, this`accum, devices`playing, devices`currentFrame
      ensures Valid() && Now() == Clock(old(playback).(playing := true), 0.0)
      ensures Follows(old(Now()), Control.Play, Now())
      ensures DevicesScrubbed(playback.frame)
    {
      playback := playback.(playing := true);
      accum := 0.0;
      ScrubDevices(playback.frame);
    }

    method Pause()
      requires Valid()
      modifies this`playback
      ensures Valid() && Now() == Clock(old(playback).(playing := false), old(accum))
      ensures Follows(old(Now()), Control.Pause, Now())
    {
      playback := playback.(playing := false);
    }

    method Stop()
      requires Valid()
      modifies this`playback, this`accum, devices`playing, devices`currentFrame
      ensures Valid()
      ensures Now() == Clock(old(playback).(playing := false, frame := Max(0, old(playback).startFrame)), 0.0)
      ensures Follows(old(Now()), Control.Stop, Now())
      ensures DevicesScrubbed(playback.frame)
    {
      playback := playback.(playing := false);
      accum := 0.0;
      playback := playback.(frame := Max(0, playback.startFrame));
      ScrubDevices(playback.frame);
    }

    method ScrubTo(frame: int)
      requires Valid()
      modifies this`playback, devices`playing, devices`currentFrame
      ensures Valid()
      ensures Now() == Clock(old(playback).(frame := Max(old(playback).startFrame, frame)), old(accum))
      ensures Follows(old(Now()), Control.ScrubTo(frame), Now())
      ensures DevicesScrubbed(playback.frame)
    {
      var f := Max(playback.startFrame, frame);
      playback := playback.(frame := f);
      ScrubDevices(f);
    }

    method SetLoop(first: int, last: int)
      requires Valid()
      modifies this`playback
      ensures Valid() && Now() == Clock(old(playback).(startFrame := Max(0, first), endFrame := last), old(accum))
      ensures Follows(old(Now()), Control.SetLoop(first, last), Now())
    {
      playback := playback.(startFrame := Max(0, first));
      playback := playback.(endFrame := last);
    }

    method SetLooping(looping: bool)
      requires Valid()
      modifies this`playback
      ensures Valid() && Now() == Clock(old(playback).(looping := looping), old(accum))
      ensures Follows(old(Now()), Control.SetLooping(looping), Now())
    {
      playback := playback.(looping := looping);
    }

    method SetFps(fps: int)
      requires Valid()
      modifies this`playback
      ensures Valid() && Now() == Clock(old(playback).(fps := Max(1, fps)), old(accum))
      ensures Follows(old(Now()), Control.SetFps(fps), Now())
    {
      playback := playback.(fps := Max(1, fps));
    }

    // The share of update_config that concerns the clock. It scrubs nothing.
    method UpdateConfig(t: Timeline)
      requires Valid()
      modifies this`playback, this`configFrame
      ensures Valid() && configFrame == t.frame && accum == old(accum)
      ensures SameClock(Now(), Controlled(old(Now()), cachedTotalFrames, old(configFrame), Configure(t)))
      ensures playback == Playback(old(playback).playing, playback.frame, Max(0, t.startFrame), t.endFrame, t.looping,
                                   Max(1, t.fps), t.length)
      ensures playback.frame
           == Max(Max(0, t.startFrame), if t.frame == old(configFrame) then old(playback).frame else t.frame)
      // the frame stays exactly when the configured one is what is shown, or
      // when none is newly configured, unless the region now starts later
      ensures playback.frame == old(playback).frame <==>
                old(playback).frame >= Max(0, t.startFrame)
                && (t.frame == old(configFrame) || Max(Max(0, t.startFrame), t.frame) == old(playback).frame)
    {
      var previous := configFrame;
      configFrame := t.frame;
      playback := playback.(looping := t.looping, fps := Max(1, t.fps), startFrame := Max(0, t.startFrame),
                            endFrame := t.endFrame, explicitLength := t.length);
      if t.frame != previous {
        playback := playback.(frame := Max(playback.startFrame, t.frame));
      } else {
        playback := playback.(frame := Max(playback.startFrame, playback.frame));
      }
    }
  }
}
