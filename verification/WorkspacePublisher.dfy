// The workspace publisher: each tick snapshots the published paths from the
// config registry and sends what changed since the last snapshot, or is pushed.
module WorkspacePublisher {

  // A config value; a cloud stream holds a pointer, possibly null, and
  // compares by it.
  datatype Value = Plain(value: int) | NullStream | Stream(pointer: nat)

  predicate HasPayload(v: Value) {
    !v.NullStream?
  }

  datatype Update = Update(path: string, value: Value)

  // What one tick reads: the registry's fields, the two path sets, and the
  // paths whose message cannot be serialized or sent this time.
  datatype TickInput = TickInput(
    fields: map<string, Value>,
    publishPaths: set<string>,
    pushPaths: set<string>,
    failing: set<string>)

  function SnapshotOf(input: TickInput): map<string, Value> {
    map p | p in input.publishPaths && p in input.fields :: input.fields[p]
  }

  // Whether a tick sends a path, given the snapshot before it.
  predicate Sends(before: map<string, Value>, input: TickInput, p: string) {
    && p in input.publishPaths && p in input.fields && HasPayload(input.fields[p])
    && (p !in before || before[p] != input.fields[p] || p in input.pushPaths)
    && p !in input.failing
  }

  ghost predicate TickSends(before: map<string, Value>, input: TickInput, sent: seq<Update>) {
    && (forall p, v :: Update(p, v) in sent <==> Sends(before, input, p) && v == input.fields[p])
    && (forall i, j :: 0 <= i < j < |sent| ==> sent[i].path != sent[j].path)
  }

  class Registry {
    var fields: map<string, Value>

    constructor (fields: map<string, Value>)
      ensures this.fields == fields
    {
      this.fields := fields;
    }

    // Read a set of paths in one pass; paths with no field are skipped.
    method Snapshot(paths: set<string>) returns (out: map<string, Value>)
      ensures out == map p | p in paths && p in fields :: fields[p]
    {
      out := map[];
      var left := paths;
      while left != {}
        invariant left <= paths
        invariant out == map p | p in paths - left && p in fields :: fields[p]
        decreases |left|
      {
        var p :| p in left;
        left := left - {p};
        if p in fields { out := out[p := fields[p]]; }
      }
    }
  }

  class Publisher {
    var current: map<string, Value>
    var previous: map<string, Value>

    constructor ()
      ensures current == map[]
    {
      current, previous := map[], map[];
    }

    method Tick(registry: Registry, publishPaths: set<string>, pushPaths: set<string>, failing: set<string>)
      returns (sent: seq<Update>)
      modifies this
      ensures
        var input := TickInput(registry.fields, publishPaths, pushPaths, failing);
        current == SnapshotOf(input) && TickSends(old(current), input, sent)
    {
      ghost var input := TickInput(registry.fields, publishPaths, pushPaths, failing);
      current, previous := previous, current;
      current := registry.Snapshot(publishPaths);
      sent := [];
      var left := current.Keys;
      while left != {}
        invariant left <= current.Keys
        invariant current == SnapshotOf(input) && previous == old(current)
        invariant forall p, v :: Update(p, v) in sent <==>
          p in current && p !in left && Sends(previous, input, p) && v == input.fields[p]
        invariant forall i, j :: 0 <= i < j < |sent| ==> sent[i].path != sent[j].path
        decreases |left|
      {
        var p :| p in left;
        left := left - {p};
        var value := current[p];
        if !HasPayload(value) { continue; }
        var changed := p !in previous || previous[p] != value;
        if changed || p in pushPaths {
          if p in failing { continue; }
          sent := sent + [Update(p, value)];
        }
      }
    }
  }

  // ---- what a subscriber that applies every update holds ----

  function Applied(held: map<string, Value>, sent: seq<Update>): map<string, Value>
    decreases |sent|
  {
    if sent == [] then held else
      var u := sent[|sent| - 1];
      Applied(held, sent[..|sent| - 1])[u.path := u.value]
  }

  lemma {:induction false} AppliedAt(held: map<string, Value>, sent: seq<Update>, p: string)
    requires forall i, j :: 0 <= i < j < |sent| ==> sent[i].path != sent[j].path
    ensures forall v :: Update(p, v) in sent ==> p in Applied(held, sent) && Applied(held, sent)[p] == v
    ensures (forall v :: Update(p, v) !in sent) ==>
              (p in Applied(held, sent) <==> p in held) && (p in held ==> Applied(held, sent)[p] == held[p])
    decreases |sent|
  {
    if sent == [] {
    } else {
      var front, u := sent[..|sent| - 1], sent[|sent| - 1];
      AppliedAt(held, front, p);
      assert sent == front + [u];
      assert u in sent;
      forall v | Update(p, v) in sent && u.path == p ensures v == u.value {
        var i :| 0 <= i < |sent| && sent[i] == Update(p, v);
      }
    }
  }

  // A run of ticks from startup: snapshots[i] is what the publisher holds
  // before tick i.
  ghost predicate IsRun(snapshots: seq<map<string, Value>>, inputs: seq<TickInput>, outputs: seq<seq<Update>>) {
    && |snapshots| == |inputs| + 1 == |outputs| + 1
    && snapshots[0] == map[]
    && forall i :: 0 <= i < |inputs| ==>
         TickSends(snapshots[i], inputs[i], outputs[i]) && snapshots[i + 1] == SnapshotOf(inputs[i])
  }

  function Replay(outputs: seq<seq<Update>>): map<string, Value>
    decreases |outputs|
  {
    if outputs == [] then map[] else Applied(Replay(outputs[..|outputs| - 1]), outputs[|outputs| - 1])
  }

  lemma RunButLast(snapshots: seq<map<string, Value>>, inputs: seq<TickInput>, outputs: seq<seq<Update>>)
    requires IsRun(snapshots, inputs, outputs) && inputs != []
    ensures
      var n := |inputs|;
      && IsRun(snapshots[..n], inputs[..n - 1], outputs[..n - 1])
      && TickSends(snapshots[n - 1], inputs[n - 1], outputs[n - 1]) && snapshots[n] == SnapshotOf(inputs[n - 1])
  {
    var n := |inputs|;
    assert snapshots[n - 1 + 1] == SnapshotOf(inputs[n - 1]);
  }

  // Whether a subscriber that applied these updates holds a value at p.
  predicate Holds(outputs: seq<seq<Update>>, p: string, value: Value) {
    p in Replay(outputs) && Replay(outputs)[p] == value
  }

  // After a tick a subscriber is up to date at p exactly when the tick sent p
  // or the subscriber held the present value already.
  lemma UpToDateAfterTick(snapshots: seq<map<string, Value>>, inputs: seq<TickInput>, outputs: seq<seq<Update>>,
                          p: string)
    requires IsRun(snapshots, inputs, outputs) && inputs != [] && p in snapshots[|inputs|]
    ensures
      var n, value := |inputs|, snapshots[|inputs|][p];
      Holds(outputs, p, value) <==> Sends(snapshots[n - 1], inputs[n - 1], p) || Holds(outputs[..n - 1], p, value)
  {
    var n := |inputs|;
    RunButLast(snapshots, inputs, outputs);
    AppliedAt(Replay(outputs[..n - 1]), outputs[n - 1], p);
    if Sends(snapshots[n - 1], inputs[n - 1], p) {
      assert Update(p, inputs[n - 1].fields[p]) in outputs[n - 1];
    }
  }

  // The first snapshot of the unbroken stretch, up to the last one, in which p
  // has its present value.
  function StretchStart(snapshots: seq<map<string, Value>>, p: string): (k: nat)
    requires |snapshots| > 1 && snapshots[0] == map[] && p in snapshots[|snapshots| - 1]
    ensures 1 <= k < |snapshots|
    ensures forall i :: k <= i < |snapshots| ==> p in snapshots[i] && snapshots[i][p] == snapshots[|snapshots| - 1][p]
    ensures p in snapshots[k - 1] ==> snapshots[k - 1][p] != snapshots[|snapshots| - 1][p]
    decreases |snapshots|
  {
    var n := |snapshots| - 1;
    if p in snapshots[n - 1] && snapshots[n - 1][p] == snapshots[n][p] then StretchStart(snapshots[..n], p) else n
  }

  // A tick of the stretch that starts at index first lets p through: its message
  // goes out, and the tick is the one that brought the value or pushes the path.
  predicate GoesOut(inputs: seq<TickInput>, first: nat, i: nat, p: string)
    requires i < |inputs|
  {
    p !in inputs[i].failing && (i == first || p in inputs[i].pushPaths)
  }

  ghost predicate LetThrough(inputs: seq<TickInput>, first: nat, p: string) {
    exists i :: first <= i < |inputs| && GoesOut(inputs, first, i, p)
  }

  lemma LetThroughButLast(inputs: seq<TickInput>, first: nat, p: string)
    requires first < |inputs|
    ensures
      var n := |inputs|;
      LetThrough(inputs, first, p) <==> GoesOut(inputs, first, n - 1, p) || LetThrough(inputs[..n - 1], first, p)
  {
    var n := |inputs|;
    if LetThrough(inputs, first, p) {
      var i :| first <= i < n && GoesOut(inputs, first, i, p);
      assert i < n - 1 ==> GoesOut(inputs[..n - 1], first, i, p);
    }
    if LetThrough(inputs[..n - 1], first, p) {
      var i :| first <= i < n - 1 && GoesOut(inputs[..n - 1], first, i, p);
      assert GoesOut(inputs, first, i, p);
    }
  }

  lemma SendsIffGoesOut(snapshots: seq<map<string, Value>>, inputs: seq<TickInput>, outputs: seq<seq<Update>>,
                        p: string)
    requires IsRun(snapshots, inputs, outputs) && p in snapshots[|inputs|] && HasPayload(snapshots[|inputs|][p])
    ensures
      var n, first := |inputs|, StretchStart(snapshots, p) - 1;
      Sends(snapshots[n - 1], inputs[n - 1], p) <==> GoesOut(inputs, first, n - 1, p)
  {
    RunButLast(snapshots, inputs, outputs);
  }

  // A stretch of at least two snapshots starts where it did before the last.
  lemma StretchContinues(snapshots: seq<map<string, Value>>, p: string)
    requires |snapshots| > 1 && snapshots[0] == map[] && p in snapshots[|snapshots| - 1]
    ensures
      var n, k := |snapshots| - 1, StretchStart(snapshots, p);
      k < n ==> p in snapshots[n - 1] && snapshots[n - 1][p] == snapshots[n][p]
                && n > 1 && StretchStart(snapshots[..n], p) == k
  {}

  // One tick on: how being current after a tick follows from before it.
  lemma CurrentStep(snapshots: seq<map<string, Value>>, inputs: seq<TickInput>, outputs: seq<seq<Update>>, p: string,
                    value: Value, first: nat)
    requires IsRun(snapshots, inputs, outputs) && p in snapshots[|inputs|] && snapshots[|inputs|][p] == value
    requires HasPayload(value) && first == StretchStart(snapshots, p) - 1
    requires first < |inputs| - 1 ==>
               (Holds(outputs[..|inputs| - 1], p, value)
                <==> Holds(outputs[..first], p, value) || LetThrough(inputs[..|inputs| - 1], first, p))
    ensures Holds(outputs, p, value) <==> Holds(outputs[..first], p, value) || LetThrough(inputs, first, p)
  {
    UpToDateAfterTick(snapshots, inputs, outputs, p);
    SendsIffGoesOut(snapshots, inputs, outputs, p);
    LetThroughButLast(inputs, first, p);
  }

  // Whatever the path sets, the streams and the failures have done, replaying
  // everything sent since startup gives the current value of a published path
  // with a payload exactly when it did so already before the value came, or
  // some tick since let the path through.
  lemma {:induction false} ReplayIsCurrentIff(snapshots: seq<map<string, Value>>, inputs: seq<TickInput>,
                                              outputs: seq<seq<Update>>, p: string)
    requires IsRun(snapshots, inputs, outputs) && p in snapshots[|inputs|] && HasPayload(snapshots[|inputs|][p])
    ensures
      var value, first := snapshots[|inputs|][p], StretchStart(snapshots, p) - 1;
      Holds(outputs, p, value) <==> Holds(outputs[..first], p, value) || LetThrough(inputs, first, p)
    decreases |inputs|
  {
    var n := |inputs|;
    var value, first := snapshots[n][p], StretchStart(snapshots, p) - 1;
    if first < n - 1 {
      assert outputs[..n - 1][..first] == outputs[..first];
      StretchContinues(snapshots, p);
      RunButLast(snapshots, inputs, outputs);
      ReplayIsCurrentIff(snapshots[..n], inputs[..n - 1], outputs[..n - 1], p);
    }
    CurrentStep(snapshots, inputs, outputs, p, value, first);
  }

  // So when none of its messages fail, the replay is always current.
  lemma ReplayReproducesSnapshot(snapshots: seq<map<string, Value>>, inputs: seq<TickInput>,
                                 outputs: seq<seq<Update>>, p: string)
    requires IsRun(snapshots, inputs, outputs)
    requires forall i :: 0 <= i < |inputs| ==> p !in inputs[i].failing
    ensures var now := snapshots[|inputs|];
      p in now && HasPayload(now[p]) ==> p in Replay(outputs) && Replay(outputs)[p] == now[p]
  {
    var now := snapshots[|inputs|];
    if p in now && HasPayload(now[p]) {
      ReplayIsCurrentIff(snapshots, inputs, outputs, p);
      var first := StretchStart(snapshots, p) - 1;
      assert GoesOut(inputs, first, first, p);
    }
  }

  // A path a subscriber holds was a published path of some tick, pushed or not,
  // and the value it holds was the field's value then.
  lemma {:induction false} OnlyPublishedPathsAreSent(snapshots: seq<map<string, Value>>, inputs: seq<TickInput>,
                                                     outputs: seq<seq<Update>>, p: string)
    requires IsRun(snapshots, inputs, outputs) && p in Replay(outputs)
    ensures exists i :: 0 <= i < |inputs| && p in inputs[i].publishPaths && p in inputs[i].fields
                        && inputs[i].fields[p] == Replay(outputs)[p]
    decreases |inputs|
  {
    var n := |inputs|;
    if n > 0 {
      assert TickSends(snapshots[n - 1], inputs[n - 1], outputs[n - 1]);
      AppliedAt(Replay(outputs[..n - 1]), outputs[n - 1], p);
      if forall v :: Update(p, v) !in outputs[n - 1] {
        assert IsRun(snapshots[..n], inputs[..n - 1], outputs[..n - 1]);
        OnlyPublishedPathsAreSent(snapshots[..n], inputs[..n - 1], outputs[..n - 1], p);
      } else {
        var v :| Update(p, v) in outputs[n - 1];
        assert Sends(snapshots[n - 1], inputs[n - 1], p);
      }
    }
  }

  // Two ticks: the path's message fails in the first and could go out in the
  // second, but its value has not changed and nothing pushes it. A subscriber
  // never hears of it.
  lemma FailedUpdateIsLost(p: string, value: int)
    returns (snapshots: seq<map<string, Value>>, inputs: seq<TickInput>, outputs: seq<seq<Update>>)
    ensures IsRun(snapshots, inputs, outputs) && |inputs| == 2 && p !in inputs[1].failing
    ensures p in snapshots[2] && HasPayload(snapshots[2][p]) && Replay(outputs) == map[]
  {
    var missed := TickInput(map[p := Plain(value)], {p}, {}, {p});
    var retry := missed.(failing := {});
    var snapshot := map[p := Plain(value)];
    assert SnapshotOf(missed) == snapshot && SnapshotOf(retry) == snapshot;
    assert forall q :: !Sends(map[], missed, q) && !Sends(snapshot, retry, q);
    snapshots, inputs, outputs := [map[], snapshot, snapshot], [missed, retry], [[], []];
    assert outputs[..1] == [[]] && outputs[..1][..0] == [];
  }
}
