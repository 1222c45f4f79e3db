// The receiver's conflating queue: one slot per address holding the newest
// cloud not yet dequeued and the cloud the caller is using, drained oldest
// timestamp first.
module ReceiverQueue {
  import opened Common
  import opened Wire

  // C is a decompressed cloud.
  datatype Slot<C> = Slot(stamp: nat, pending: bool, incoming: Option<C>, current: Option<C>)

  datatype State<C> = State(slots: map<string, Slot<C>>, clock: nat)

  predicate Pending<C>(s: State<C>, a: string) {
    a in s.slots && s.slots[a].pending
  }

  ghost predicate Consistent<C>(s: State<C>) {
    && (forall a :: a in s.slots ==> (s.slots[a].pending <==> s.slots[a].incoming.Some?))
    && (forall a :: a in s.slots ==> 1 <= s.slots[a].stamp <= s.clock)
    && (forall a, b :: a in s.slots && b in s.slots && a != b ==> s.slots[a].stamp != s.slots[b].stamp)
  }

  ghost predicate IsOldest<C>(s: State<C>, a: string) {
    Pending(s, a) && forall b :: Pending(s, b) ==> s.slots[a].stamp <= s.slots[b].stamp
  }

  // A decoded cloud arrives for an address.
  function Arrived<C>(s: State<C>, a: string, cloud: C): State<C> {
    var current := if a in s.slots then s.slots[a].current else None;
    State(s.slots[a := Slot(s.clock + 1, true, Some(cloud), current)], s.clock + 1)
  }

  // The caller takes the cloud waiting at an address.
  function Taken<C>(s: State<C>, a: string): State<C>
    requires a in s.slots
  {
    var slot := s.slots[a];
    s.(slots := s.slots[a := slot.(pending := false, incoming := None, current := slot.incoming)])
  }

  // ---- one batch of messages ----

  // The last packet for an address among messages in order; a message without
  // a NUL is ignored.
  function LastPacket(messages: seq<string>, a: string): Option<string>
    decreases |messages|
  {
    if messages == [] then None else
      var m := Unframe(messages[|messages| - 1]);
      if m.Some? && m.value.address == a then Some(m.value.packet)
      else LastPacket(messages[..|messages| - 1], a)
  }

  // What decoding a batch leaves for an address.
  // The packet of an address is that of the last message framed for it: no
  // message after that one is.
  lemma {:induction false} LastPacketIsLast(messages: seq<string>, a: string, packet: string)
    requires NulFree(a)
    ensures LastPacket(messages, a) == Some(packet) <==>
              exists i :: 0 <= i < |messages| && messages[i] == a + "\0" + packet
                          && forall j :: i < j < |messages| ==> !FramedFor(messages[j], a)
    decreases |messages|
  {
    if messages == [] {
    } else {
      var front, last := messages[..|messages| - 1], messages[|messages| - 1];
      LastPacketIsLast(front, a, packet);
      FramedIffParted(last, a, packet);
      if i :| 0 <= i < |messages| && messages[i] == a + "\0" + packet
              && forall j :: i < j < |messages| ==> !FramedFor(messages[j], a)
      {
        if i < |front| {
          assert front[i] == messages[i] && !FramedFor(last, a);
          assert forall j :: i < j < |front| ==> front[j] == messages[j];
        }
      }
      if i :| 0 <= i < |front| && front[i] == a + "\0" + packet
              && forall j :: i < j < |front| ==> !FramedFor(front[j], a)
      {
        assert messages[i] == front[i];
        assert forall j :: i < j < |front| ==> messages[j] == front[j];
      }
    }
  }

  ghost predicate FramedFor(message: string, a: string) {
    exists packet :: message == a + "\0" + packet
  }

  lemma FramedIffParted(message: string, a: string, packet: string)
    requires NulFree(a)
    ensures Unframe(message) == Some(Parted(a, packet)) <==> message == a + "\0" + packet
    ensures FramedFor(message, a) <==> Unframe(message).Some? && Unframe(message).value.address == a
  {
    UnframeInvertsFrame(a, packet);
    if q :| message == a + "\0" + q { UnframeInvertsFrame(a, q); }
    if Unframe(message).Some? { FrameInvertsUnframe(message); }
  }

  function Decoded<C>(messages: seq<string>, decompress: string -> Option<C>, a: string): Option<C> {
    var packet := LastPacket(messages, a);
    if packet.None? then None else decompress(packet.value)
  }

  datatype Arrival<C> = Arrival(address: string, cloud: C)

  function ArrivedAll<C>(s: State<C>, arrivals: seq<Arrival<C>>): State<C>
    decreases |arrivals|
  {
    if arrivals == [] then s else
      var last := arrivals[|arrivals| - 1];
      Arrived(ArrivedAll(s, arrivals[..|arrivals| - 1]), last.address, last.cloud)
  }

  // A batch conflates: each address whose last packet decodes arrives once,
  // with that packet's cloud. The order across addresses is the hash map's.
  ghost predicate IsBatch<C(!new)>(arrivals: seq<Arrival<C>>, messages: seq<string>, decompress: string -> Option<C>) {
    && (forall i, j :: 0 <= i < j < |arrivals| ==> arrivals[i].address != arrivals[j].address)
    && (forall a, c :: Arrival(a, c) in arrivals <==> Decoded(messages, decompress, a) == Some(c))
  }

  // A batch as far as it has come, with some addresses left.
  ghost predicate BatchSoFar<C(!new)>(arrivals: seq<Arrival<C>>, latest: map<string, string>, left: set<string>,
                                      decompress: string -> Option<C>)
  {
    && (forall i, j :: 0 <= i < j < |arrivals| ==> arrivals[i].address != arrivals[j].address)
    && (forall a, c :: Arrival(a, c) in arrivals <==> a in latest && a !in left && decompress(latest[a]) == Some(c))
  }

  lemma BatchGrows<C(!new)>(arrivals: seq<Arrival<C>>, latest: map<string, string>, left: set<string>,
                            decompress: string -> Option<C>, a: string)
    requires BatchSoFar(arrivals, latest, left, decompress) && a in left && a in latest
    ensures
      var cloud := decompress(latest[a]);
      BatchSoFar(if cloud.Some? then arrivals + [Arrival(a, cloud.value)] else arrivals, latest, left - {a}, decompress)
  {
    forall i | 0 <= i < |arrivals| ensures arrivals[i].address != a {
      assert Arrival(arrivals[i].address, arrivals[i].cloud) in arrivals;
    }
  }

  lemma ArrivedAllOneMore<C>(s: State<C>, arrivals: seq<Arrival<C>>, last: Arrival<C>)
    ensures ArrivedAll(s, arrivals + [last]) == Arrived(ArrivedAll(s, arrivals), last.address, last.cloud)
  {
    assert (arrivals + [last])[..|arrivals|] == arrivals;
  }

  lemma BatchIsWhole<C(!new)>(arrivals: seq<Arrival<C>>, latest: map<string, string>, messages: seq<string>,
                              decompress: string -> Option<C>)
    requires BatchSoFar(arrivals, latest, {}, decompress)
    requires forall a :: LastPacket(messages, a) == if a in latest then Some(latest[a]) else None
    ensures IsBatch(arrivals, messages, decompress)
  {
    forall a, c ensures Arrival(a, c) in arrivals <==> Decoded(messages, decompress, a) == Some(c) {
      assert LastPacket(messages, a) == if a in latest then Some(latest[a]) else None;
    }
  }

  ghost predicate BatchReceived<C(!new)>(s: State<C>, messages: seq<string>, decompress: string -> Option<C>,
                                         s': State<C>)
  {
    exists arrivals :: IsBatch(arrivals, messages, decompress) && s' == ArrivedAll(s, arrivals)
  }

  lemma ArrivedIsConsistent<C>(s: State<C>, a: string, cloud: C)
    requires Consistent(s)
    ensures Consistent(Arrived(s, a, cloud))
  {}

  lemma TakenIsConsistent<C>(s: State<C>, a: string)
    requires Consistent(s) && a in s.slots
    ensures Consistent(Taken(s, a))
  {}

  class Queue<C(!new)> {
    var slots: map<string, Slot<C>>
    var clock: nat
    var known: set<string>

    constructor ()
      ensures Valid() && Now() == State(map[], 0) && known == {}
    {
      slots, clock, known := map[], 0, {};
    }

    ghost predicate Valid()
      reads this
    {
      Consistent(Now()) && slots.Keys <= known
    }

    function Now(): State<C>
      reads this
    {
      State(slots, clock)
    }

    // Keep only the newest packet of each address.
    method CollectLatest(messages: seq<string>) returns (latest: map<string, string>)
      ensures forall a :: LastPacket(messages, a) == if a in latest then Some(latest[a]) else None
    {
      latest := map[];
      for i := 0 to |messages|
        invariant forall a :: LastPacket(messages[..i], a) == if a in latest then Some(latest[a]) else None
      {
        var frame := messages[i];
        assert messages[..i + 1][..i] == messages[..i];
        var separator := FindNul(frame);
        UnframeFinds(frame, separator);
        if separator == |frame| { continue; }
        latest := latest[frame[..separator] := frame[separator + 1..]];
      }
      assert messages[..|messages|] == messages;
    }

    method ReceiveBatch(messages: seq<string>, decompress: string -> Option<C>)
      requires Valid()
      modifies this
      ensures Valid() && old(known) <= known
      ensures BatchReceived(old(Now()), messages, decompress, Now())
    {
      var latest := CollectLatest(messages);
      var left := latest.Keys;
      ghost var arrivals: seq<Arrival<C>> := [];
      while left != {}
        invariant left <= latest.Keys
        invariant Valid() && old(known) <= known
        invariant Now() == ArrivedAll(old(Now()), arrivals)
        invariant BatchSoFar(arrivals, latest, left, decompress)
        decreases |left|
      {
        var a :| a in left;
        BatchGrows(arrivals, latest, left, decompress, a);
        left := left - {a};
        var cloud := decompress(latest[a]);
        if cloud.Some? {
          ArrivedAllOneMore(old(Now()), arrivals, Arrival(a, cloud.value));
          arrivals := arrivals + [Arrival(a, cloud.value)];
          ArrivedIsConsistent(Now(), a, cloud.value);
          Arrive(a, cloud.value);
        }
      }
      BatchIsWhole(arrivals, latest, messages, decompress);
    }

    // What the worker does with a decoded cloud, under the stream mutex.
    method Arrive(a: string, cloud: C)
      modifies this
      ensures Now() == Arrived(old(Now()), a, cloud)
      ensures known == if a in old(slots) then old(known) else old(known) + {a}
    {
      if a !in slots {
        slots := slots[a := Slot(0, false, None, None)];
        known := known + {a};
      }
      slots := slots[a := slots[a].(incoming := Some(cloud))];
      clock := clock + 1;
      slots := slots[a := slots[a].(stamp := clock)];
      slots := slots[a := slots[a].(pending := true)];
    }

    // The oldest pending address, or nothing when the wait runs out first.
    method Dequeue() returns (taken: Option<(string, C)>)
      requires Valid()
      modifies this`slots
      ensures Valid()
      ensures taken.None? <==> forall a :: !Pending(old(Now()), a)
      ensures taken.None? ==> slots == old(slots)
      ensures taken.Some? ==>
        var (a, cloud) := taken.value;
        && IsOldest(old(Now()), a)
        && old(slots)[a].incoming == Some(cloud)
        && Now() == Taken(old(Now()), a)
        && slots[a].current == Some(cloud)
    {
      var oldest := OldestPending();
      if oldest.None? { return None; }
      var a := oldest.value;
      var slot := slots[a];
      slots := slots[a := slot.(pending := false, incoming := None, current := slot.incoming)];
      taken := Some((a, slot.incoming.value));
    }

    // The scan for the least timestamp.
    method OldestPending() returns (oldest: Option<string>)
      requires Valid()
      ensures oldest.None? <==> forall a :: !Pending(Now(), a)
      ensures oldest.Some? ==> IsOldest(Now(), oldest.value)
    {
      oldest := None;
      var left := slots.Keys;
      while left != {}
        invariant left <= slots.Keys
        invariant oldest.Some? ==> Pending(Now(), oldest.value) && oldest.value !in left
        invariant forall b :: Pending(Now(), b) && b !in left ==>
          oldest.Some? && slots[oldest.value].stamp <= slots[b].stamp
        decreases |left|
      {
        var b :| b in left;
        left := left - {b};
        if slots[b].pending && (oldest.None? || slots[b].stamp < slots[oldest.value].stamp) {
          oldest := Some(b);
        }
      }
    }

    method Stop()
      requires Valid()
      modifies this`slots
      ensures Valid() && slots == map[]
    {
      slots := map[];
    }
  }

  // ---- whole histories ----

  datatype Action<C> = Arrive(address: string, cloud: C) | Take(address: string) | Stop

  function Start<C>(): State<C> {
    State(map[], 0)
  }

  ghost predicate Enabled<C>(s: State<C>, act: Action<C>) {
    act.Take? ==> IsOldest(s, act.address)
  }

  ghost function Apply<C>(s: State<C>, act: Action<C>): State<C>
    requires Enabled(s, act)
  {
    match act
    case Arrive(a, cloud) => Arrived(s, a, cloud)
    case Take(a) => Taken(s, a)
    case Stop => s.(slots := map[])
  }

  ghost predicate CanRun<C>(s: State<C>, acts: seq<Action<C>>)
    decreases |acts|, 0
  {
    acts == [] ||
    (CanRun(s, acts[..|acts| - 1]) && Enabled(Run(s, acts[..|acts| - 1]), acts[|acts| - 1]))
  }

  ghost function Run<C>(s: State<C>, acts: seq<Action<C>>): State<C>
    requires CanRun(s, acts)
    decreases |acts|, 1
  {
    if acts == [] then s else Apply(Run(s, acts[..|acts| - 1]), acts[|acts| - 1])
  }

  function Arrivals<C>(arrivals: seq<Arrival<C>>): seq<Action<C>> {
    seq(|arrivals|, i requires 0 <= i < |arrivals| => Arrive(arrivals[i].address, arrivals[i].cloud))
  }

  // A batch is a run of arrivals, so what holds of every run holds of batches.
  lemma {:induction false} BatchIsArrivals<C>(s: State<C>, arrivals: seq<Arrival<C>>)
    ensures CanRun(s, Arrivals(arrivals)) && Run(s, Arrivals(arrivals)) == ArrivedAll(s, arrivals)
    decreases |arrivals|
  {
    if arrivals == [] {
      assert Arrivals(arrivals) == [];
    } else {
      var front := arrivals[..|arrivals| - 1];
      BatchIsArrivals(s, front);
      assert Arrivals(arrivals)[..|arrivals| - 1] == Arrivals(front);
    }
  }

  datatype Delivery<C> = Delivery(address: string, cloud: C, stamp: nat)

  // What the caller has been handed, in order.
  ghost function Deliveries<C>(s: State<C>, acts: seq<Action<C>>): seq<Delivery<C>>
    requires CanRun(s, acts) && Consistent(s)
    decreases |acts|
  {
    if acts == [] then [] else
      var before := acts[..|acts| - 1];
      var last := acts[|acts| - 1];
      RunIsConsistent(s, before);
      if last.Take? then
        var slot := Run(s, before).slots[last.address];
        Deliveries(s, before) + [Delivery(last.address, slot.incoming.value, slot.stamp)]
      else
        Deliveries(s, before)
  }

  lemma {:induction false} RunIsConsistent<C>(s: State<C>, acts: seq<Action<C>>)
    requires CanRun(s, acts) && Consistent(s)
    ensures Consistent(Run(s, acts))
    decreases |acts|
  {
    if acts == [] {
    } else {
      RunIsConsistent(s, acts[..|acts| - 1]);
    }
  }

  // Timestamps of deliveries increase, and what still waits is newer than all
  // of them.
  ghost predicate InOrder<C>(out: seq<Delivery<C>>, s: State<C>) {
    && (forall i, j :: 0 <= i < j < |out| ==> out[i].stamp < out[j].stamp)
    && (forall i :: 0 <= i < |out| ==> out[i].stamp <= s.clock)
    && (forall i, a :: 0 <= i < |out| && Pending(s, a) ==> out[i].stamp < s.slots[a].stamp)
  }

  lemma TakingKeepsOrder<C>(out: seq<Delivery<C>>, s: State<C>, a: string, cloud: C)
    requires Consistent(s) && InOrder(out, s) && IsOldest(s, a)
    ensures InOrder(out + [Delivery(a, cloud, s.slots[a].stamp)], Taken(s, a))
  {}

  // A cloud has one timestamp, so none is delivered twice, whatever arrives, is
  // dequeued or is stopped in between.
  lemma {:induction false} DeliveriesAreInOrder<C>(acts: seq<Action<C>>)
    requires CanRun(Start(), acts)
    ensures Consistent(Start<C>())
    ensures InOrder(Deliveries(Start(), acts), Run(Start(), acts))
    decreases |acts|
  {
    if acts == [] {
    } else {
      var before, last := acts[..|acts| - 1], acts[|acts| - 1];
      DeliveriesAreInOrder(before);
      RunIsConsistent(Start<C>(), before);
      if last.Take? {
        var s := Run(Start(), before);
        TakingKeepsOrder(Deliveries(Start(), before), s, last.address, s.slots[last.address].incoming.value);
      }
    }
  }

  // The cloud waiting at an address: the newest to arrive since it was last
  // taken or the receiver stopped.
  function Waiting<C>(acts: seq<Action<C>>, a: string): Option<C>
    decreases |acts|
  {
    if acts == [] then None else
      match acts[|acts| - 1]
      case Arrive(b, cloud) => if b == a then Some(cloud) else Waiting(acts[..|acts| - 1], a)
      case Take(b) => if b == a then None else Waiting(acts[..|acts| - 1], a)
      case Stop => None
  }

  // The cloud the caller may still be using: what it last took at the address,
  // until it takes there again or the receiver stops.
  function Borrowed<C>(acts: seq<Action<C>>, a: string): Option<C>
    decreases |acts|
  {
    if acts == [] then None else
      match acts[|acts| - 1]
      case Arrive(_, _) => Borrowed(acts[..|acts| - 1], a)
      case Take(b) => if b == a then Waiting(acts[..|acts| - 1], a) else Borrowed(acts[..|acts| - 1], a)
      case Stop => None
  }

  // After any history the slots hold exactly the waiting and the borrowed
  // clouds, and an address is pending just when a cloud waits there.
  lemma {:induction false} SlotsHoldWaitingAndBorrowed<C>(acts: seq<Action<C>>, a: string)
    requires CanRun(Start(), acts)
    ensures
      var s := Run(Start(), acts);
      && (if a in s.slots then s.slots[a].incoming else None) == Waiting(acts, a)
      && (if a in s.slots then s.slots[a].current else None) == Borrowed(acts, a)
      && (Pending(s, a) <==> Waiting(acts, a).Some?)
    decreases |acts|
  {
    if acts == [] {
    } else {
      SlotsHoldWaitingAndBorrowed(acts[..|acts| - 1], a);
      RunIsConsistent(Start<C>(), acts);
    }
  }

  // So each dequeue hands over the newest cloud received there.
  lemma TakeDeliversNewest<C>(acts: seq<Action<C>>, a: string)
    requires CanRun(Start(), acts) && IsOldest(Run(Start(), acts), a)
    ensures CanRun(Start(), acts + [Take(a)]) && Consistent(Start<C>())
    ensures var out := Deliveries(Start(), acts + [Take(a)]);
      out != [] && out[|out| - 1].address == a && Waiting(acts, a) == Some(out[|out| - 1].cloud)
  {
    assert (acts + [Take(a)])[..|acts|] == acts;
    RunIsConsistent(Start<C>(), acts);
    SlotsHoldWaitingAndBorrowed(acts, a);
  }

  // ---- draining ----

  function Takes<C>(order: seq<string>): (r: seq<Action<C>>)
    ensures |r| == |order|
    decreases |order|
  {
    if order == [] then [] else Takes(order[..|order| - 1]) + [Take(order[|order| - 1])]
  }

  ghost function PendingAddresses<C>(s: State<C>): set<string> {
    set a | a in s.slots && s.slots[a].pending
  }

  // Something pending means something oldest, so a dequeue never waits then.
  lemma {:induction false} OldestExists<C>(s: State<C>, among: set<string>) returns (a: string)
    requires among != {} && among <= PendingAddresses(s)
    ensures a in among && forall b :: b in among ==> s.slots[a].stamp <= s.slots[b].stamp
    decreases |among|
  {
    a :| a in among;
    if among != {a} {
      var b := OldestExists(s, among - {a});
      if s.slots[b].stamp < s.slots[a].stamp { a := b; }
    }
  }

  // s' is s with the addresses of order taken, in timestamp order.
  ghost predicate Drained<C>(s: State<C>, order: seq<string>, s': State<C>) {
    && (forall i :: 0 <= i < |order| ==> Pending(s, order[i]))
    && (forall i, j :: 0 <= i < j < |order| ==> s.slots[order[i]].stamp < s.slots[order[j]].stamp)
    && (forall a :: Pending(s', a) <==> Pending(s, a) && a !in order)
    && (forall a :: Pending(s', a) ==> s'.slots[a] == s.slots[a])
    && (forall i, a :: 0 <= i < |order| && Pending(s', a) ==> s.slots[order[i]].stamp < s.slots[a].stamp)
  }

  lemma LastTake<C>(s: State<C>, order: seq<string>, front: seq<string>, a: string)
    requires order != [] && front == order[..|order| - 1] && a == order[|order| - 1] && CanRun(s, Takes(order))
    ensures CanRun(s, Takes(front)) && IsOldest(Run(s, Takes(front)), a)
    ensures Run(s, Takes(order)) == Taken(Run(s, Takes(front)), a)
  {
    var acts: seq<Action<C>> := Takes(order);
    assert acts[..|order| - 1] == Takes(front) && acts[|order| - 1] == Take(a);
  }

  lemma DrainOneMore<C>(s: State<C>, order: seq<string>, s': State<C>, a: string)
    requires Drained(s, order, s') && Consistent(s') && IsOldest(s', a)
    ensures Drained(s, order + [a], Taken(s', a))
    ensures PendingAddresses(s') == PendingAddresses(Taken(s', a)) + {a}
  {}

  lemma DrainStep<C>(s: State<C>, order: seq<string>, front: seq<string>, a: string, before: State<C>,
                     after: State<C>)
    requires order == front + [a] && Consistent(before) && IsOldest(before, a) && after == Taken(before, a)
    requires Drained(s, front, before) && |PendingAddresses(before)| == |PendingAddresses(s)| - |front|
    ensures Drained(s, order, after) && |PendingAddresses(after)| == |PendingAddresses(s)| - |order|
  {
    DrainOneMore(s, front, before, a);
    OneFewerPending(before, Taken(before, a), a);
  }

  // With no arrivals, successive dequeues empty the pending addresses one by
  // one in timestamp order; n of them empty all n.
  lemma {:induction false} DequeuesDrainInOrder<C>(s: State<C>, order: seq<string>)
    requires Consistent(s) && CanRun(s, Takes(order))
    ensures Drained(s, order, Run(s, Takes(order)))
    ensures |PendingAddresses(Run(s, Takes(order)))| == |PendingAddresses(s)| - |order|
    decreases |order|
  {
    if order == [] {
    } else {
      var front, a := order[..|order| - 1], order[|order| - 1];
      assert order == front + [a];
      LastTake(s, order, front, a);
      var before := Run(s, Takes(front));
      DequeuesDrainInOrder(s, front);
      RunIsConsistent(s, Takes(front));
      DrainStep(s, order, front, a, before, Run(s, Takes(order)));
    }
  }

  lemma OneFewerPending<C>(before: State<C>, after: State<C>, a: string)
    requires PendingAddresses(before) == PendingAddresses(after) + {a} && !Pending(after, a)
    ensures |PendingAddresses(after)| == |PendingAddresses(before)| - 1
  {
    assert a !in PendingAddresses(after);
  }

  // ---- how long an address can wait ----

  // The addresses that would be taken before b.
  ghost function Ahead<C>(s: State<C>, b: string): set<string>
    requires b in s.slots
  {
    set a | a in s.slots && s.slots[a].pending && s.slots[a].stamp < s.slots[b].stamp
  }

  function TakeCount<C>(acts: seq<Action<C>>): nat
    decreases |acts|
  {
    if acts == [] then 0
    else TakeCount(acts[..|acts| - 1]) + (if acts[|acts| - 1].Take? then 1 else 0)
  }

  // The receiver is not stopped, and b is neither refreshed nor taken.
  ghost predicate Leaves<C(!new)>(act: Action<C>, b: string) {
    !act.Stop? && act.address != b
  }

  ghost predicate LeavesAlone<C(!new)>(acts: seq<Action<C>>, b: string) {
    forall i :: 0 <= i < |acts| ==> Leaves(acts[i], b)
  }

  lemma OldestHasNoneAhead<C>(s: State<C>, b: string)
    requires Consistent(s) && Pending(s, b)
    ensures Ahead(s, b) == {} <==> IsOldest(s, b)
  {
    if !IsOldest(s, b) {
      var a :| Pending(s, a) && s.slots[a].stamp < s.slots[b].stamp;
      assert a in Ahead(s, b);
    }
  }

  lemma OneOvertakes<C(!new)>(s: State<C>, act: Action<C>, b: string)
    requires Consistent(s) && Pending(s, b) && Enabled(s, act) && Leaves(act, b)
    ensures
      var s' := Apply(s, act);
      && Pending(s', b) && s'.slots[b] == s.slots[b]
      && (if act.Take? then act.address in Ahead(s, b) && Ahead(s', b) == Ahead(s, b) - {act.address}
          else Ahead(s', b) <= Ahead(s, b))
  {
    if act.Take? {
      OldestHasNoneAhead(s, b);
      assert IsOldest(s, act.address);
      assert s.slots[act.address].stamp < s.slots[b].stamp;
    }
  }

  lemma SubsetIsNoLarger<T>(a: set<T>, b: set<T>)
    requires a <= b
    ensures |a| <= |b|
  {
    assert b == a + (b - a);
  }

  // Whatever arrives at other addresses, a waiting address that is not
  // refreshed is overtaken at most once by each address ahead of it.
  lemma {:induction false} BoundedOvertaking<C(!new)>(s: State<C>, acts: seq<Action<C>>, b: string)
    requires Consistent(s) && Pending(s, b) && CanRun(s, acts) && LeavesAlone(acts, b)
    ensures
      var s' := Run(s, acts);
      && Pending(s', b) && s'.slots[b] == s.slots[b]
      && TakeCount(acts) + |Ahead(s', b)| <= |Ahead(s, b)|
    decreases |acts|
  {
    if acts == [] {
    } else {
      var before, last := acts[..|acts| - 1], acts[|acts| - 1];
      assert LeavesAlone(before, b) && Leaves(last, b);
      BoundedOvertaking(s, before, b);
      RunIsConsistent(s, before);
      OneOvertakes(Run(s, before), last, b);
      SubsetIsNoLarger(Ahead(Run(s, acts), b), Ahead(Run(s, before), b));
    }
  }

  lemma OldestAhead<C(!new)>(s: State<C>, b: string) returns (a: string)
    requires Consistent(s) && Pending(s, b) && Ahead(s, b) != {}
    ensures a != b && IsOldest(s, a) && Pending(Taken(s, a), b) && Taken(s, a).slots[b] == s.slots[b]
    ensures |Ahead(Taken(s, a), b)| == |Ahead(s, b)| - 1
  {
    a := OldestExists(s, Ahead(s, b));
    assert IsOldest(s, a);
    OneOvertakes(s, Take(a), b);
  }

  lemma TakesOneMore<C>(s: State<C>, order: seq<string>, a: string)
    requires CanRun(s, Takes(order)) && IsOldest(Run(s, Takes(order)), a)
    ensures CanRun(s, Takes(order + [a])) && Run(s, Takes(order + [a])) == Taken(Run(s, Takes(order)), a)
  {
    assert Takes<C>(order + [a])[..|order|] == Takes(order) && Takes<C>(order + [a])[|order|] == Take(a);
  }

  // And it can wait that long: the addresses ahead of it can be taken first.
  lemma {:induction false} OvertakingIsPossible<C(!new)>(s: State<C>, b: string, n: nat) returns (order: seq<string>)
    requires Consistent(s) && Pending(s, b) && n <= |Ahead(s, b)|
    ensures |order| == n && CanRun(s, Takes(order)) && b !in order
    ensures
      var s' := Run(s, Takes(order));
      Consistent(s') && Pending(s', b) && s'.slots[b] == s.slots[b] && |Ahead(s', b)| == |Ahead(s, b)| - n
  {
    order := [];
    if n == 0 {
      assert Takes<C>(order) == [];
    } else {
      var front := OvertakingIsPossible(s, b, n - 1);
      var s' := Run(s, Takes(front));
      var a := OldestAhead(s', b);
      order := front + [a];
      TakesOneMore(s, front, a);
      TakenIsConsistent(s', a);
    }
  }

  ghost predicate WaitsThrough<C(!new)>(s: State<C>, acts: seq<Action<C>>, b: string, n: nat) {
    CanRun(s, acts) && LeavesAlone(acts, b) && TakeCount(acts) == n
  }

  lemma {:induction false} TakesAreCounted<C(!new)>(order: seq<string>, b: string)
    requires b !in order
    ensures TakeCount(Takes<C>(order)) == |order| && LeavesAlone(Takes<C>(order), b)
    decreases |order|
  {
    if order == [] {
    } else {
      assert Takes<C>(order)[..|order| - 1] == Takes(order[..|order| - 1]);
      TakesAreCounted<C>(order[..|order| - 1], b);
    }
  }

  // So while it is neither refreshed, taken nor stopped, a waiting address can
  // see n dequeues go by exactly when at least n addresses were ahead of it.
  lemma WaitsExactlyBehindThoseAhead<C(!new)>(s: State<C>, b: string, n: nat)
    requires Consistent(s) && Pending(s, b)
    ensures (exists acts :: WaitsThrough(s, acts, b, n)) <==> n <= |Ahead(s, b)|
  {
    if acts :| WaitsThrough(s, acts, b, n) { BoundedOvertaking(s, acts, b); }
    if n <= |Ahead(s, b)| {
      var order := OvertakingIsPossible(s, b, n);
      TakesAreCounted<C>(order, b);
      assert WaitsThrough(s, Takes(order), b, n);
    }
  }

  // Any longer wait, without a stop and without being taken, has a refresh.
  lemma OnlyRefreshesStarve<C(!new)>(s: State<C>, acts: seq<Action<C>>, b: string)
    requires Consistent(s) && Pending(s, b) && CanRun(s, acts) && TakeCount(acts) > |Ahead(s, b)|
    requires Stop !in acts && Take(b) !in acts
    ensures exists cloud :: Arrive(b, cloud) in acts
  {
    if LeavesAlone(acts, b) {
      BoundedOvertaking(s, acts, b);
    } else {
      var i :| 0 <= i < |acts| && !Leaves(acts[i], b);
      assert acts[i] in acts && acts[i].Arrive?;
      assert acts[i] == Arrive(b, acts[i].cloud);
    }
  }

  // A refresh takes a new timestamp, so draining is not fair: an address that
  // is refreshed in every round is never delivered while another keeps up.
  function Rounds<C>(k: nat, cloud: C): seq<Action<C>> {
    if k == 0 then [Arrive("b", cloud)]
    else Rounds(k - 1, cloud) + [Arrive("a", cloud)] + [Arrive("b", cloud)] + [Take("a")]
  }

  ghost predicate OnlyPending<C>(s: State<C>, b: string) {
    forall a :: Pending(s, a) <==> a == b
  }

  // After these actions only b waits, and k deliveries have gone to a alone.
  ghost predicate Starved<C>(acts: seq<Action<C>>, k: nat) {
    && CanRun(Start(), acts) && Consistent(Start<C>())
    && OnlyPending(Run(Start(), acts), "b")
    && |Deliveries(Start(), acts)| == k
    && (forall i :: 0 <= i < k ==> Deliveries(Start(), acts)[i].address == "a")
  }

  lemma {:induction false} RefreshedAddressCanStarve<C>(k: nat, cloud: C)
    ensures Starved(Rounds(k, cloud), k)
  {
    if k == 0 {
      var acts: seq<Action<C>> := [];
      RunOneMore(acts, Arrive("b", cloud));
      assert acts + [Arrive("b", cloud)] == [Arrive("b", cloud)];
    } else {
      RefreshedAddressCanStarve(k - 1, cloud);
      StarveOneMore(Rounds(k - 1, cloud), k - 1, cloud);
    }
  }

  // One round when only b waits: the other address arrives, b is refreshed, and
  // the other is the oldest.
  lemma RoundLeavesOnly<C>(s: State<C>, a: string, b: string, cloud: C)
    requires Consistent(s) && OnlyPending(s, b) && a != b
    ensures var s2 := Arrived(Arrived(s, a, cloud), b, cloud); IsOldest(s2, a) && OnlyPending(Taken(s2, a), b)
  {
    var s2 := Arrived(Arrived(s, a, cloud), b, cloud);
    forall c | Pending(s2, c) ensures c == a || c == b {
      if c != a && c != b { assert Pending(s, c); }
    }
  }

  lemma StarveOneMore<C>(acts: seq<Action<C>>, k: nat, cloud: C)
    requires Starved(acts, k)
    ensures Starved(acts + [Arrive("a", cloud)] + [Arrive("b", cloud)] + [Take("a")], k + 1)
  {
    RunOneMore(acts, Arrive("a", cloud));
    var one := acts + [Arrive("a", cloud)];
    RunOneMore(one, Arrive("b", cloud));
    var two := one + [Arrive("b", cloud)];
    assert "a" != "b";
    RoundLeavesOnly(Run(Start(), acts), "a", "b", cloud);
    RunOneMore(two, Take("a"));
  }

  lemma RunOneMore<C>(acts: seq<Action<C>>, act: Action<C>)
    requires CanRun(Start(), acts) && Enabled(Run(Start(), acts), act)
    ensures CanRun(Start(), acts + [act])
    ensures Run(Start(), acts + [act]) == Apply(Run(Start(), acts), act)
    ensures Consistent(Start<C>()) && Consistent(Run(Start(), acts))
    ensures
      Deliveries(Start(), acts + [act]) ==
        if act.Take? then
          var slot := Run(Start(), acts).slots[act.address];
          Deliveries(Start(), acts) + [Delivery(act.address, slot.incoming.value, slot.stamp)]
        else Deliveries(Start(), acts)
  {
    assert (acts + [act])[..|acts|] == acts;
    RunIsConsistent(Start<C>(), acts);
  }
}
