// The TouchDesigner receiver's per-channel frame pool: one writer that reuses
// frames by their use count, any number of readers that pin what is published,
// and a reconnect that clears the published frame while a new writer runs.
// Every step is one atomic action.
module FramePool {
  import opened Common
  import opened Modulo

  datatype Frame = Frame(sequence: nat, points: nat, data: nat)

  // The writer's position in its loop. A scan remembers which frames were
  // free when it began.
  datatype Writer =
    | Idle
    | Scanning(offset: nat, freeAtStart: set<nat>)
    | Filling(frame: nat)
    | Stamped(frame: nat)
    | Published(sequence: nat)

  datatype Reconnect = Quiet | ClearingFrame | ClearingSequence

  datatype State = State(
    pool: seq<nat>,            // frames by identity
    frames: seq<Frame>,        // every frame ever allocated
    cursor: nat,
    writer: Writer,
    published: Option<nat>,
    sequence: nat,
    framesReceived: nat,
    pins: multiset<nat>,       // references held by readers' views
    loaded: map<nat, nat>,     // per reader, the frame it has loaded and not yet tested
    lastSeen: map<nat, nat>,   // per reader, the sequence of its latest view
    reconnect: Reconnect,
    log: seq<nat>              // history: sequences in the order published
  )

  datatype Action =
    | Repool(size: nat)
    | BeginScan
    | ScanSlot
    | GiveUp
    | Fill(data: nat)
    | Stamp(points: nat)
    | Publish
    | StoreSequence
    | Load(reader: nat)        // a reader takes a reference to the published frame
    | Test(reader: nat)        // and keeps it in a view, or drops it
    | CopyPin(frame: nat)
    | Unpin(frame: nat)
    | BeginReconnect
    | ClearFrame
    | ClearSequence

  // The readers between loading a frame and testing it.
  function Testers(s: State, f: nat): set<nat> {
    set r | r in s.loaded && s.loaded[r] == f
  }

  // References to a frame: the pool's, the published one, and the readers'.
  function UseCount(s: State, f: nat): nat {
    (if f in s.pool then 1 else 0) + (if s.published == Some(f) then 1 else 0) + s.pins[f] + |Testers(s, f)|
  }

  // Whether a reader holds a reference to a frame, in a view or about to test it.
  predicate Held(s: State, f: nat) {
    f in s.pins || exists r :: r in s.loaded && s.loaded[r] == f
  }

  // What the writer reads off the use count.
  lemma OnlyInPool(s: State, f: nat)
    requires f in s.pool
    ensures UseCount(s, f) == 1 <==> s.published != Some(f) && !Held(s, f)
  {
    if r :| r in s.loaded && s.loaded[r] == f { assert r in Testers(s, f); }
    if !Held(s, f) { assert Testers(s, f) == {}; }
  }

  ghost predicate Visible(s: State, f: nat) {
    s.published == Some(f) || Held(s, f)
  }

  // By OnlyInPool, those the pool alone refers to.
  ghost function FreeFrames(s: State): set<nat> {
    set f | f in s.pool && s.published != Some(f) && !Held(s, f)
  }

  // The pool slot a scan looks at after k others.
  function Slot(s: State, k: nat): nat
    requires s.pool != []
  {
    s.pool[(s.cursor + k) % |s.pool|]
  }

  function Start(): State {
    State([], [], 0, Idle, None, 0, 0, multiset{}, map[], map[], Quiet, [])
  }

  predicate Enabled(s: State, a: Action) {
    match a
    case Repool(_) => s.writer.Idle?
    case BeginScan => s.writer.Idle?
    case ScanSlot => s.writer.Scanning? && s.writer.offset < |s.pool|
    case GiveUp => s.writer.Scanning? && s.writer.offset >= |s.pool|
    case Fill(_) => s.writer.Filling? && s.writer.frame < |s.frames|
    case Stamp(_) => s.writer.Filling? && s.writer.frame < |s.frames|
    case Publish => s.writer.Stamped? && s.writer.frame < |s.frames|
    case StoreSequence => s.writer.Published?
    case Load(reader) => s.published.Some? && reader !in s.loaded
    case Test(reader) => reader in s.loaded && s.loaded[reader] < |s.frames|
    case CopyPin(f) => f in s.pins
    case Unpin(f) => f in s.pins
    // the old worker has been joined, so no writer is in its loop
    case BeginReconnect => s.writer.Idle? && s.reconnect.Quiet?
    case ClearFrame => s.reconnect.ClearingFrame?
    case ClearSequence => s.reconnect.ClearingSequence?
  }

  function Seen(s: State, reader: nat): nat {
    if reader in s.lastSeen then s.lastSeen[reader] else 0
  }

  // try_get_latest_frame hands the loaded frame out unless it is one already
  // seen or has no points.
  predicate HandsOut(s: State, reader: nat)
    requires reader in s.loaded && s.loaded[reader] < |s.frames|
  {
    var f := s.frames[s.loaded[reader]];
    f.sequence != 0 && f.sequence != Seen(s, reader) && f.points != 0
  }

  // A reader that tests what it loaded gets a view of it exactly when it has a
  // number, points, and not the number of the reader's latest view; otherwise
  // the reference is dropped, and nothing else changes either way.
  lemma TestHandsOutIff(s: State, reader: nat)
    requires Enabled(s, Test(reader))
    ensures
      var s', f := Step(s, Test(reader)), s.loaded[reader];
      var frame, seen := s.frames[f], if reader in s.lastSeen then s.lastSeen[reader] else 0;
      && s'.loaded == s.loaded - {reader}
      && s' == s.(loaded := s'.loaded, pins := s'.pins, lastSeen := s'.lastSeen)
      && (if frame.sequence > 0 && frame.points > 0 && frame.sequence != seen
          then s'.pins == s.pins + multiset{f} && s'.lastSeen == s.lastSeen[reader := frame.sequence]
          else s'.pins == s.pins && s'.lastSeen == s.lastSeen)
  {}

  ghost function Step(s: State, a: Action): State
    requires Enabled(s, a)
  {
    match a
    case Repool(size) =>
      var n := |s.frames|; // fresh frames take identities no frame has had
      s.(pool := seq(size, i => n + i),
         frames := s.frames + seq(size, _ => Frame(0, 0, 0)),
         cursor := 0)
    case BeginScan => s.(writer := Scanning(0, FreeFrames(s)))
    case ScanSlot =>
      var f := Slot(s, s.writer.offset);
      if UseCount(s, f) == 1 then
        s.(cursor := ((s.cursor + s.writer.offset) % |s.pool| + 1) % |s.pool|, writer := Filling(f))
      else
        s.(writer := s.writer.(offset := s.writer.offset + 1))
    case GiveUp => s.(writer := Idle)
    case Fill(data) =>
      var f := s.writer.frame;
      s.(frames := s.frames[f := s.frames[f].(data := data)])
    case Stamp(points) =>
      var f := s.writer.frame;
      s.(framesReceived := s.framesReceived + 1, writer := Stamped(f),
         frames := s.frames[f := s.frames[f].(sequence := s.framesReceived + 1, points := points)])
    case Publish =>
      var n := s.frames[s.writer.frame].sequence;
      s.(published := Some(s.writer.frame), writer := Published(n), log := s.log + [n])
    case StoreSequence => s.(sequence := s.writer.sequence, writer := Idle)
    case Load(reader) => s.(loaded := s.loaded[reader := s.published.value])
    case Test(reader) =>
      var f := s.loaded[reader];
      var tested := s.(loaded := s.loaded - {reader});
      if HandsOut(s, reader) then
        tested.(pins := s.pins + multiset{f}, lastSeen := s.lastSeen[reader := s.frames[f].sequence])
      else tested
    case CopyPin(f) => s.(pins := s.pins + multiset{f})
    case Unpin(f) => s.(pins := s.pins - multiset{f})
    case BeginReconnect => s.(reconnect := ClearingFrame)
    case ClearFrame => s.(published := None, reconnect := ClearingSequence)
    case ClearSequence => s.(sequence := 0, reconnect := Quiet)
  }

  ghost predicate CanRun(s: State, actions: seq<Action>)
    decreases |actions|, 0
  {
    actions == [] ||
    (CanRun(s, actions[..|actions| - 1]) && Enabled(Run(s, actions[..|actions| - 1]), actions[|actions| - 1]))
  }

  ghost function Run(s: State, actions: seq<Action>): State
    requires CanRun(s, actions)
    decreases |actions|, 1
  {
    if actions == [] then s else Step(Run(s, actions[..|actions| - 1]), actions[|actions| - 1])
  }

  // ---- what every step keeps ----

  ghost predicate PoolSound(s: State) {
    && (forall i :: 0 <= i < |s.pool| ==> s.pool[i] < |s.frames|)
    && (forall i, j :: 0 <= i < j < |s.pool| ==> s.pool[i] != s.pool[j])
    && (forall f: nat :: Held(s, f) ==> f < |s.frames|)
    && (s.published.Some? ==> s.published.value < |s.frames|)
  }

  // The frame being written is the writer's alone.
  ghost predicate WriterAlone(s: State) {
    s.writer.Filling? || s.writer.Stamped? ==>
      var f := s.writer.frame;
      f in s.pool && f < |s.frames| && s.published != Some(f) && !Held(s, f)
  }

  // Frames found free when a scan began stay free while it lasts, and none of
  // them is among the slots already passed over.
  ghost predicate ScanSound(s: State) {
    s.writer.Scanning? ==>
      && s.writer.offset <= |s.pool|
      && s.writer.freeAtStart <= FreeFrames(s)
      && (forall k :: 0 <= k < s.writer.offset ==> Slot(s, k) !in s.writer.freeAtStart)
  }

  ghost predicate SequencesSound(s: State) {
    && (forall i, j :: 0 <= i < j < |s.log| ==> s.log[i] < s.log[j])
    && Last(s.log) <= s.framesReceived
    && (s.published.Some? && s.published.value < |s.frames| ==> s.frames[s.published.value].sequence == Last(s.log))
    && (s.writer.Stamped? && s.writer.frame < |s.frames| ==>
          s.frames[s.writer.frame].sequence == s.framesReceived && Last(s.log) < s.framesReceived)
    && (forall r :: r in s.lastSeen ==> s.lastSeen[r] <= Last(s.log))
  }

  // A frame being tested is no older than what its reader has seen.
  ghost predicate LoadsSound(s: State) {
    forall r :: r in s.loaded && s.loaded[r] < |s.frames| ==>
      Seen(s, r) <= s.frames[s.loaded[r]].sequence <= Last(s.log)
  }

  ghost predicate Inv(s: State) {
    PoolSound(s) && WriterAlone(s) && ScanSound(s) && SequencesSound(s) && LoadsSound(s)
  }

  // Readers only take up what is published or already held.
  lemma HeldBefore(s: State, a: Action, f: nat)
    requires Enabled(s, a) && Held(Step(s, a), f)
    ensures Held(s, f) || s.published == Some(f)
  {
    var s' := Step(s, a);
    if r :| r in s'.loaded && s'.loaded[r] == f {
      assert r in s.loaded ==> s.loaded[r] == f;
    }
  }

  lemma StepKeepsPool(s: State, a: Action)
    requires Inv(s) && Enabled(s, a)
    ensures PoolSound(Step(s, a))
  {
    forall f: nat | Held(Step(s, a), f) ensures f < |Step(s, a).frames| { HeldBefore(s, a, f); }
  }

  lemma StepKeepsWriterAlone(s: State, a: Action)
    requires Inv(s) && Enabled(s, a)
    ensures WriterAlone(Step(s, a))
  {
    var s' := Step(s, a);
    if a.ScanSlot? { OnlyInPool(s, Slot(s, s.writer.offset)); }
    if (s'.writer.Filling? || s'.writer.Stamped?) && Held(s', s'.writer.frame) { HeldBefore(s, a, s'.writer.frame); }
  }

  // A reader can only take what is published or already held, so no frame a
  // scan could use is taken from under it.
  lemma FreeStaysFree(s: State, a: Action)
    requires Inv(s) && Enabled(s, a) && s.writer.Scanning?
    ensures FreeFrames(s) <= FreeFrames(Step(s, a)) && Step(s, a).pool == s.pool
  {
    forall f | f in FreeFrames(s) ensures f in FreeFrames(Step(s, a)) {
      if Held(Step(s, a), f) { HeldBefore(s, a, f); }
    }
  }

  lemma ScanCarriesOver(s: State, s': State)
    requires ScanSound(s) && s.writer.Scanning?
    requires (s'.writer, s'.pool, s'.cursor) == (s.writer, s.pool, s.cursor) && FreeFrames(s) <= FreeFrames(s')
    ensures ScanSound(s')
  {
    if s.pool != [] {
      forall k | 0 <= k < s'.writer.offset ensures Slot(s', k) !in s'.writer.freeAtStart {
        assert Slot(s', k) == Slot(s, k);
      }
    }
  }

  lemma ScanMovesOn(s: State, s': State)
    requires ScanSound(s) && s.writer.Scanning? && s.writer.offset < |s.pool|
    requires UseCount(s, Slot(s, s.writer.offset)) != 1
    requires s' == s.(writer := Scanning(s.writer.offset + 1, s.writer.freeAtStart))
    ensures ScanSound(s')
  {
    assert FreeFrames(s') == FreeFrames(s);
    forall k | 0 <= k < s'.writer.offset ensures Slot(s', k) !in s'.writer.freeAtStart {
      assert Slot(s', k) == Slot(s, k);
    }
  }

  lemma StepKeepsScan(s: State, a: Action)
    requires Inv(s) && Enabled(s, a)
    ensures ScanSound(Step(s, a))
  {
    var s' := Step(s, a);
    if s.writer.Scanning? && s'.writer.Scanning? {
      if a.ScanSlot? {
        ScanMovesOn(s, s');
      } else {
        FreeStaysFree(s, a);
        ScanCarriesOver(s, s');
      }
    }
  }

  lemma TestedIsAsOld(s: State, reader: nat)
    requires Inv(s) && Enabled(s, Test(reader))
    ensures Seen(s, reader) <= s.frames[s.loaded[reader]].sequence <= Last(s.log)
  {}

  lemma StepKeepsSequences(s: State, a: Action)
    requires Inv(s) && Enabled(s, a)
    ensures SequencesSound(Step(s, a))
  {
    if a.Test? { TestedIsAsOld(s, a.reader); }
  }

  lemma StepKeepsLoads(s: State, a: Action)
    requires Inv(s) && Enabled(s, a)
    ensures LoadsSound(Step(s, a))
  {
    var s' := Step(s, a);
    StepKeepsSequences(s, a);
    forall r | r in s'.loaded && s'.loaded[r] < |s'.frames|
      ensures Seen(s', r) <= s'.frames[s'.loaded[r]].sequence <= Last(s'.log)
    {
      if r in s.loaded {
        assert Held(s, s.loaded[r]);
        VisibleIsNotWritten(s, a, s.loaded[r]);
        LastGrows(s, a);
        SeenStays(s, a, r);
      }
    }
  }

  lemma LastGrows(s: State, a: Action)
    requires Inv(s) && Enabled(s, a)
    ensures Last(s.log) <= Last(Step(s, a).log)
  {}

  lemma SeenStays(s: State, a: Action, r: nat)
    requires Enabled(s, a) && r in s.loaded && r in Step(s, a).loaded
    ensures Seen(Step(s, a), r) == Seen(s, r) && Step(s, a).loaded[r] == s.loaded[r]
  {}

  lemma VisibleIsNotWritten(s: State, a: Action, f: nat)
    requires Inv(s) && Enabled(s, a) && Visible(s, f)
    ensures f < |s.frames| <= |Step(s, a).frames| && Step(s, a).frames[f] == s.frames[f]
  {}

  lemma StepKeepsInv(s: State, a: Action)
    requires Inv(s) && Enabled(s, a)
    ensures Inv(Step(s, a))
  {
    StepKeepsPool(s, a);
    StepKeepsWriterAlone(s, a);
    StepKeepsScan(s, a);
    StepKeepsSequences(s, a);
    StepKeepsLoads(s, a);
  }

  lemma {:induction false} RunKeepsInv(actions: seq<Action>)
    requires CanRun(Start(), actions)
    ensures Inv(Run(Start(), actions))
    decreases |actions|
  {
    if actions == [] {
    } else {
      RunKeepsInv(actions[..|actions| - 1]);
      StepKeepsInv(Run(Start(), actions[..|actions| - 1]), actions[|actions| - 1]);
    }
  }

  // ---- main results, for every interleaving ----

  // A frame a reader holds or is testing, or could load, is never written.
  lemma VisibleFramesAreNeverWritten(actions: seq<Action>, a: Action, f: nat)
    requires CanRun(Start(), actions) && Enabled(Run(Start(), actions), a)
    requires Visible(Run(Start(), actions), f)
    ensures
      var s := Run(Start(), actions);
      var s' := Step(s, a);
      f < |s.frames| <= |s'.frames| && s'.frames[f] == s.frames[f]
  {
    RunKeepsInv(actions);
    VisibleIsNotWritten(Run(Start(), actions), a, f);
  }

  ghost predicate PinnedThroughout(actions: seq<Action>, from: nat, f: nat)
    requires CanRun(Start(), actions) && from <= |actions|
    decreases |actions|
  {
    f in Run(Start(), actions).pins
    && (from < |actions| ==> PinnedThroughout(actions[..|actions| - 1], from, f))
  }

  // So what a reader sees through a view stays what it was for as long as the
  // view is held, through any number of further frames and reconnects.
  lemma {:induction false} HeldViewsAreStable(actions: seq<Action>, from: nat, f: nat)
    requires CanRun(Start(), actions) && from <= |actions| && PinnedThroughout(actions, from, f)
    ensures CanRun(Start(), actions[..from])
    ensures
      var s, s' := Run(Start(), actions[..from]), Run(Start(), actions);
      f < |s.frames| <= |s'.frames| && s'.frames[f] == s.frames[f]
    decreases |actions|
  {
    RunKeepsInv(actions);
    assert Held(Run(Start(), actions), f);
    if from == |actions| {
      assert actions[..from] == actions;
    } else {
      var before := actions[..|actions| - 1];
      HeldViewsAreStable(before, from, f);
      assert before[..from] == actions[..from];
      VisibleFramesAreNeverWritten(before, actions[|actions| - 1], f);
    }
  }

  // Published sequences strictly increase, reconnects included, so a reader is
  // only ever handed a frame newer than every frame it has seen.
  lemma SequencesOnlyIncrease(actions: seq<Action>, reader: nat)
    requires CanRun(Start(), actions)
    ensures
      var s := Run(Start(), actions);
      && (forall i, j :: 0 <= i < j < |s.log| ==> s.log[i] < s.log[j])
      && (Enabled(s, Test(reader)) && HandsOut(s, reader) ==>
            Seen(s, reader) < Seen(Step(s, Test(reader)), reader) == s.frames[s.loaded[reader]].sequence <= Last(s.log))
  {
    RunKeepsInv(actions);
  }

  // ---- what is published, and what a reader gets ----

  // Every frame stamped is published next, and they are numbered from one.
  ghost predicate Numbered(s: State) {
    && s.framesReceived == |s.log| + (if s.writer.Stamped? then 1 else 0)
    && forall i :: 0 <= i < |s.log| ==> s.log[i] == i + 1
  }

  lemma StepStaysNumbered(s: State, a: Action)
    requires SequencesSound(s) && Numbered(s) && Enabled(s, a)
    ensures Numbered(Step(s, a))
  {}

  // So the sequences published are 1, 2, 3 and on, reconnects included, and as
  // many as frames have been received, but for one under way.
  lemma {:induction false} SequencesCountFrames(actions: seq<Action>)
    requires CanRun(Start(), actions)
    ensures Numbered(Run(Start(), actions))
    decreases |actions|
  {
    if actions == [] {
    } else {
      var before := actions[..|actions| - 1];
      SequencesCountFrames(before);
      RunKeepsInv(before);
      StepStaysNumbered(Run(Start(), before), actions[|actions| - 1]);
    }
  }

  // What is filled in and stamped is what is then published.
  lemma PublishShowsWhatWasWritten(s: State, data: nat, points: nat)
    requires s.writer.Filling? && s.writer.frame < |s.frames|
    ensures
      var filled := Step(s, Fill(data));
      Enabled(filled, Stamp(points)) &&
      var stamped := Step(filled, Stamp(points));
      Enabled(stamped, Publish) &&
      var shown := Step(stamped, Publish);
      && shown.published == Some(s.writer.frame) && shown.log == s.log + [s.framesReceived + 1]
      && shown.frames == s.frames[s.writer.frame := Frame(s.framesReceived + 1, points, data)]
  {}

  // A reader that looks at a channel undisturbed gets a view of the published
  // frame exactly when that has a number, points, and not the number the reader
  // saw last; and nothing else changes.
  lemma ReaderGetsPublished(s: State, reader: nat)
    requires s.published.Some? && s.published.value < |s.frames| && reader !in s.loaded
    ensures Enabled(s, Load(reader)) && Enabled(Step(s, Load(reader)), Test(reader))
    ensures
      var s', f := Step(Step(s, Load(reader)), Test(reader)), s.published.value;
      var frame, seen := s.frames[f], if reader in s.lastSeen then s.lastSeen[reader] else 0;
      s' == if frame.sequence > 0 && frame.points > 0 && frame.sequence != seen
            then s.(pins := s.pins + multiset{f}, lastSeen := s.lastSeen[reader := frame.sequence]) else s
  {
    TestHandsOutIff(Step(s, Load(reader)), reader);
    assert s.loaded[reader := s.published.value] - {reader} == s.loaded;
  }

  // A new pool is as large as asked for, of frames no one has ever had.
  lemma RepoolIsFresh(s: State, size: nat)
    requires Enabled(s, Repool(size))
    ensures
      var s' := Step(s, Repool(size));
      && |s'.pool| == size && s.frames <= s'.frames && s'.published == s.published && s'.pins == s.pins
      && (forall i :: 0 <= i < size ==> |s.frames| <= s'.pool[i] < |s'.frames|)
      && (forall i, j :: 0 <= i < j < size ==> s'.pool[i] != s'.pool[j])
      && (forall f :: |s.frames| <= f < |s'.frames| ==> s'.frames[f] == Frame(0, 0, 0))
      && (forall k :: 0 <= k < size ==> Slot(s', k) == s'.pool[k])
  {
    forall k | 0 <= k < size ensures Slot(Step(s, Repool(size)), k) == |s.frames| + k { ModuloUnique(k, size, 0, k); }
  }

  // A frame is in one view more when a reader's test hands it out or a view of it
  // is copied, in one fewer when a view of it goes, and in as many otherwise.
  lemma ViewsAreCounted(s: State, a: Action, f: nat)
    requires Enabled(s, a)
    ensures
      var handedOut :=
        a.Test? && s.loaded[a.reader] == f && s.frames[f].sequence != 0 && s.frames[f].points != 0
        && !(a.reader in s.lastSeen && s.lastSeen[a.reader] == s.frames[f].sequence);
      Step(s, a).pins[f] + (if a == Unpin(f) then 1 else 0)
        == s.pins[f] + (if a == CopyPin(f) || handedOut then 1 else 0)
  {}

  // The scan after a frame is taken begins with the slot after it.
  lemma NextScanStartsAfter(s: State, k: nat)
    requires Enabled(s, ScanSlot) && UseCount(s, Slot(s, s.writer.offset)) == 1
    ensures
      var s' := Step(s, ScanSlot);
      && s'.writer == Filling(Slot(s, s.writer.offset)) && s'.pool == s.pool
      && Slot(s', k) == Slot(s, s.writer.offset + 1 + k)
  {
    SlotsShift(s, Step(s, ScanSlot), s.writer.offset, k);
  }

  lemma SlotsShift(s: State, s': State, offset: nat, k: nat)
    requires s.pool != [] && s'.pool == s.pool && s'.cursor == ((s.cursor + offset) % |s.pool| + 1) % |s.pool|
    ensures Slot(s', k) == Slot(s, offset + 1 + k)
  {
    var n, a := |s.pool|, s.cursor + offset;
    AfterTheTaken(a, n, a % n + 1, k, s'.cursor, s.cursor + (offset + 1 + k));
  }

  lemma AfterTheTaken(a: int, n: int, next: int, k: int, x: int, y: int)
    requires n > 0 && next == a % n + 1 && x == next % n && y == a + 1 + k
    ensures (x + k) % n == y % n
  {
    ModuloOfSum(a, 1, n);
    ModuloOfSum(a + 1, k, n);
  }

  // Pool frames readers still refer to, tests in progress included, that are no
  // longer the published one.
  ghost function OlderHeld(s: State): set<nat> {
    set f | f in s.pool && Held(s, f) && s.published != Some(f)
  }

  // A scan that began with a free frame never gives up.
  lemma ScanWithAFreeFrameSucceeds(actions: seq<Action>)
    requires CanRun(Start(), actions)
    ensures
      var s := Run(Start(), actions);
      s.writer.Scanning? && s.writer.freeAtStart != {} ==> !Enabled(s, GiveUp)
  {
    RunKeepsInv(actions);
    var s := Run(Start(), actions);
    if s.writer.Scanning? && s.writer.freeAtStart != {} && s.writer.offset >= |s.pool| {
      var f :| f in s.writer.freeAtStart;
      var j :| 0 <= j < |s.pool| && s.pool[j] == f;
      var k := (j - s.cursor) % |s.pool|;
      SlotReached(s, j, k);
      assert false;
    }
  }

  lemma SlotReached(s: State, j: nat, k: nat)
    requires j < |s.pool| && k == (j - s.cursor) % |s.pool|
    ensures k < |s.pool| && Slot(s, k) == s.pool[j]
  {
    var n := |s.pool|;
    var q := (j - s.cursor) / n;
    assert j - s.cursor == q * n + k;
    RemainderOfShift(j, -q, n);
    assert (-q) * n == -(q * n);
  }

  lemma RemainderOfShift(j: int, q: int, n: int)
    requires 0 <= j < n
    ensures (j + q * n) % n == j
  {
    var r := (j + q * n) % n;
    var d := (j + q * n) / n;
    assert j + q * n == d * n + r;
    assert (d - q) * n == j - r;
    NonZeroMultiple(d - q, n);
  }

  ghost function Elements(xs: seq<nat>): set<nat> {
    set x | x in xs
  }

  lemma {:induction false} DistinctCount(xs: seq<nat>)
    requires forall i, j :: 0 <= i < j < |xs| ==> xs[i] != xs[j]
    ensures |Elements(xs)| == |xs|
  {
    if xs == [] {
    } else {
      var rest := Elements(xs[1..]);
      DistinctCount(xs[1..]);
      assert xs[0] !in rest;
      assert Elements(xs) == {xs[0]} + rest by {
        forall x ensures x in Elements(xs) <==> x in {xs[0]} + rest {
          assert xs == [xs[0]] + xs[1..];
        }
      }
    }
  }

  // There is a free frame whenever readers hold at most pool size less two
  // older frames; one place is kept for the published frame.
  lemma FreeFrameUnlessReadersHoldTheRest(actions: seq<Action>)
    requires CanRun(Start(), actions)
    ensures
      var s := Run(Start(), actions);
      && (FreeFrames(s) == {} <==>
            |OlderHeld(s)| + (if s.published.Some? && s.published.value in s.pool then 1 else 0) == |s.pool|)
      && (|OlderHeld(s)| + 2 <= |s.pool| ==> FreeFrames(s) != {})
  {
    RunKeepsInv(actions);
    CountPool(Run(Start(), actions));
  }

  lemma CountPool(s: State)
    requires PoolSound(s)
    ensures |FreeFrames(s)| + |OlderHeld(s)| + (if s.published.Some? && s.published.value in s.pool then 1 else 0)
         == |s.pool|
  {
    DistinctCount(s.pool);
    PoolParts(s);
    CountThree(FreeFrames(s), OlderHeld(s), Shown(s));
  }

  ghost function Shown(s: State): set<nat> {
    if s.published.Some? && s.published.value in s.pool then {s.published.value} else {}
  }

  // Every frame of the pool is free, published, or an older one that readers
  // hold.
  lemma PoolParts(s: State)
    requires PoolSound(s)
    ensures Elements(s.pool) == FreeFrames(s) + OlderHeld(s) + Shown(s)
    ensures FreeFrames(s) !! OlderHeld(s) && (FreeFrames(s) + OlderHeld(s)) !! Shown(s)
  {}

  lemma CountThree(a: set<nat>, b: set<nat>, c: set<nat>)
    requires a !! b && (a + b) !! c
    ensures |a + b + c| == |a| + |b| + |c|
  {
    assert |a + b| == |a| + |b|;
  }

  // A scan that readers leave alone, after k slots or until it has a frame.
  ghost function Scanned(s: State, k: nat): State
    requires s.writer.Idle?
  {
    if k == 0 then Step(s, BeginScan) else
      var before := Scanned(s, k - 1);
      if Enabled(before, ScanSlot) then Step(before, ScanSlot) else before
  }

  // And when there is no free frame such a scan passes over every slot, and
  // gives up with nothing changed.
  lemma ScanWithoutAFreeFrameFails(s: State, k: nat)
    requires s.writer.Idle? && FreeFrames(s) == {} && k <= |s.pool|
    ensures Scanned(s, k) == s.(writer := Scanning(k, {}))
    ensures Enabled(Scanned(s, k), GiveUp) <==> k == |s.pool|
    ensures k == |s.pool| ==> Step(Scanned(s, k), GiveUp) == s
  {
    ScanPassesOverAll(s, k, s.(writer := Scanning(k, {})));
    GivesUpAtTheEnd(s, k);
  }

  lemma {:induction false} ScanPassesOverAll(s: State, k: nat, after: State)
    requires s.writer.Idle? && FreeFrames(s) == {} && k <= |s.pool| && after == s.(writer := Scanning(k, {}))
    ensures Scanned(s, k) == after
  {
    if k == 0 {
    } else {
      var before := s.(writer := Scanning(k - 1, {}));
      ScanPassesOverAll(s, k - 1, before);
      ScanPassesOver(s, k - 1);
      ScannedOneMore(s, k, before, after);
    }
  }

  lemma ScannedOneMore(s: State, k: nat, before: State, after: State)
    requires s.writer.Idle? && k > 0 && before == Scanned(s, k - 1)
    requires Enabled(before, ScanSlot) && after == Step(before, ScanSlot)
    ensures Scanned(s, k) == after
  {}

  lemma GivesUpAtTheEnd(s: State, k: nat)
    requires k <= |s.pool|
    ensures Enabled(s.(writer := Scanning(k, {})), GiveUp) <==> k == |s.pool|
  {}

  lemma ScanPassesOver(s: State, k: nat)
    requires FreeFrames(s) == {} && k < |s.pool|
    ensures Enabled(s.(writer := Scanning(k, {})), ScanSlot)
    ensures Step(s.(writer := Scanning(k, {})), ScanSlot) == s.(writer := Scanning(k + 1, {}))
  {
    var f := Slot(s, k);
    assert f in s.pool && f !in FreeFrames(s);
    OnlyInPool(s, f);
  }
}
