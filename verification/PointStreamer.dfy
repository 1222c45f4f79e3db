// The publisher side of the point stream: one tick of the streaming thread,
// with its per-channel caches, its change rule, and the clearing frame a
// channel sends when it goes from publishing to not publishing.
module PointStreamer {
  import opened Common

  const SUBSCRIBE := '\U{01}'

  // A shared pointer to a cloud. Two pointers are the same when their ids are;
  // the cloud a thread keeps for clearing channels is no one else's.
  datatype CloudPtr = Null | Clearing | Shared(id: nat, points: nat)

  predicate SamePointer(c: CloudPtr, d: CloudPtr) {
    if c.Shared? && d.Shared? then c.id == d.id else c == d
  }

  function Size(c: CloudPtr): nat {
    if c.Shared? then c.points else 0
  }

  datatype PointStream = PointStream(address: string, cloud: CloudPtr)
  type OfferedStream = s: PointStream | !s.cloud.Clearing? witness PointStream("", Null)

  datatype Channel = Channel(address: string, enabled: bool)

  // A compressed cloud: its packet header and what it was made from.
  datatype Packet = Packet(timestamp: nat, pointCount: nat, source: CloudPtr)

  // What goes on the wire: the address and a NUL, then the packet.
  datatype Message = Message(topic: string, packet: Packet)

  function Frame(address: string, cloud: CloudPtr, now: nat): Message {
    Message(address + NUL, Packet(now, Size(cloud), cloud))
  }

  datatype SocketSettings = SocketSettings(address: string, port: int, sendHighWaterMark: int)

  // Everything one tick reads from outside the thread.
  datatype TickInput = TickInput(
    streams: seq<OfferedStream>,
    channels: seq<Channel>,
    everyFrame: bool,
    bindAddress: string,
    port: int,
    limitQueue: bool,
    queueLimit: int,
    retryDue: bool,        // the connection retry interval has passed
    bindSucceeds: bool,    // what a bind attempted in this tick would return
    received: seq<string>, // subscription messages waiting on the socket
    now: nat)

  predicate ChannelEnabled(channels: seq<Channel>, address: string)
    decreases |channels|
  {
    if channels == [] then true
    else if channels[0].address == address then channels[0].enabled
    else ChannelEnabled(channels[1..], address)
  }

  // A channel is off exactly when the first entry for its address says so.
  lemma {:induction false} ChannelIsOffIff(channels: seq<Channel>, address: string)
    ensures !ChannelEnabled(channels, address) <==>
              exists i :: 0 <= i < |channels| && channels[i] == Channel(address, false)
                          && forall j :: 0 <= j < i ==> channels[j].address != address
    decreases |channels|
  {
    if channels == [] {
    } else {
      var rest := channels[1..];
      ChannelIsOffIff(rest, address);
      if i :| 0 <= i < |rest| && rest[i] == Channel(address, false)
              && forall j :: 0 <= j < i ==> rest[j].address != address
      {
        if channels[0].address != address {
          assert channels[i + 1] == Channel(address, false);
          assert forall j :: 0 <= j < i + 1 ==> channels[j].address != address by {
            assert forall j :: 1 <= j < i + 1 ==> channels[j] == rest[j - 1];
          }
        }
      }
      if i :| 1 <= i < |channels| && channels[i] == Channel(address, false)
              && forall j :: 0 <= j < i ==> channels[j].address != address
      {
        assert rest[i - 1] == Channel(address, false);
        assert forall j :: 0 <= j < i - 1 ==> rest[j] == channels[j + 1];
      }
    }
  }

  // ---- subscriber counts ----

  function StripNul(topic: string): string {
    if topic != "" && topic[|topic| - 1] == '\0' then topic[..|topic| - 1] else topic
  }

  function CountOf(counts: map<string, nat>, topic: string): nat {
    if topic in counts then counts[topic] else 0
  }

  // The counts after one subscription message from the socket.
  function Counted(counts: map<string, nat>, message: string): map<string, nat> {
    if message == "" then counts else
      var topic := StripNul(message[1..]);
      var n := CountOf(counts, topic);
      counts[topic := if message[0] == SUBSCRIBE then n + 1 else if n > 0 then n - 1 else n]
  }

  function CountedAll(counts: map<string, nat>, messages: seq<string>): map<string, nat>
    decreases |messages|
  {
    if messages == [] then counts
    else Counted(CountedAll(counts, messages[..|messages| - 1]), messages[|messages| - 1])
  }

  function Subscribed(messages: seq<string>): seq<string>
    decreases |messages|
  {
    if messages == [] then [] else
      var m := messages[|messages| - 1];
      var before := Subscribed(messages[..|messages| - 1]);
      if m != "" && m[0] == SUBSCRIBE then before + [StripNul(m[1..])] else before
  }

  predicate HasSubscriber(counts: map<string, nat>, address: string) {
    exists topic :: topic in counts && counts[topic] > 0 && topic <= address
  }

  predicate AnyPrefix(topics: seq<string>, address: string) {
    exists i :: 0 <= i < |topics| && topics[i] <= address
  }

  predicate HasListeners(published: map<string, nat>, address: string) {
    CountOf(published, "") > 0 || CountOf(published, address) > 0
  }

  // ---- one channel through one tick ----

  datatype Cached = NotCached | Cached(cloud: CloudPtr, data: Message)

  // The clouds a list of streams offers at one address, in order.
  function At(streams: seq<PointStream>, address: string): seq<CloudPtr>
    decreases |streams|
  {
    if streams == [] then [] else
      var s := streams[|streams| - 1];
      var before := At(streams[..|streams| - 1], address);
      if s.address == address then before + [s.cloud] else before
  }

  predicate Changed(cached: Cached, cloud: CloudPtr) {
    && !cloud.Null?
    && (Size(cloud) == 0 ==> cloud.Clearing?)
    && (cached.NotCached? || !SamePointer(cached.cloud, cloud))
  }

  function ChangedOnly(cached: Cached, clouds: seq<CloudPtr>): seq<CloudPtr>
    decreases |clouds|
  {
    if clouds == [] then [] else
      var c := clouds[|clouds| - 1];
      var before := ChangedOnly(cached, clouds[..|clouds| - 1]);
      if Changed(cached, c) then before + [c] else before
  }

  predicate Stops(cached: Cached, publishing: seq<CloudPtr>) {
    cached.Cached? && !(publishing != [] && Size(publishing[0]) > 0)
  }

  function Redirected(publishing: seq<CloudPtr>): seq<CloudPtr> {
    if publishing == [] then [Clearing] else [Clearing] + publishing[1..]
  }

  function Repeat(m: Message, n: nat): seq<Message> {
    seq(n, _ => m)
  }

  function Refreshed(cached: Cached, changed: seq<CloudPtr>, address: string, now: nat): Cached {
    if changed == [] then cached
    else var c := changed[|changed| - 1]; Cached(c, Frame(address, c, now))
  }

  datatype ChannelTick = ChannelTick(cached: Cached, frames: seq<Message>)

  // The channel at one address: what it had cached, the clouds it publishes
  // this tick, and whether it re-sends an unchanged frame.
  function TickChannel(address: string, cached: Cached, publishing: seq<CloudPtr>, resend: bool, now: nat)
    : ChannelTick
  {
    var stops := Stops(cached, publishing);
    var sending := if stops then Redirected(publishing) else publishing;
    var changed := ChangedOnly(cached, sending);
    var refreshed := Refreshed(cached, changed, address, now);
    ChannelTick(
      if stops then NotCached else refreshed,
      if refreshed.Cached? && (resend || changed != []) then Repeat(refreshed.data, |sending|) else [])
  }

  function FramesTo(sent: seq<Message>, address: string): seq<Message>
    decreases |sent|
  {
    if sent == [] then [] else
      var m := sent[|sent| - 1];
      var before := FramesTo(sent[..|sent| - 1], address);
      if m.topic == address + NUL then before + [m] else before
  }

  // ---- the stages of a tick over whole lists ----

  function Publishing(streams: seq<PointStream>, counts: map<string, nat>, channels: seq<Channel>): seq<PointStream>
    decreases |streams|
  {
    if streams == [] then [] else
      var s := streams[|streams| - 1];
      var before := Publishing(streams[..|streams| - 1], counts, channels);
      if HasSubscriber(counts, s.address) && ChannelEnabled(channels, s.address) then before + [s] else before
  }

  // The clouds that go out at an address: only if someone is subscribed and
  // the channel is switched on.
  function PublishedClouds(streams: seq<PointStream>, channels: seq<Channel>, counts: map<string, nat>, address: string)
    : seq<CloudPtr>
  {
    if HasSubscriber(counts, address) && ChannelEnabled(channels, address) then At(streams, address) else []
  }

  lemma {:induction false} PublishingAt(streams: seq<PointStream>, counts: map<string, nat>,
                                        channels: seq<Channel>, address: string)
    ensures At(Publishing(streams, counts, channels), address)
         == if HasSubscriber(counts, address) && ChannelEnabled(channels, address) then At(streams, address) else []
    decreases |streams|
  {
    if streams == [] {
    } else {
      var s := streams[|streams| - 1];
      PublishingAt(streams[..|streams| - 1], counts, channels, address);
      if HasSubscriber(counts, s.address) && ChannelEnabled(channels, s.address) {
        AtAppend(Publishing(streams[..|streams| - 1], counts, channels), s, address);
      }
    }
  }

  lemma AtAppend(streams: seq<PointStream>, s: PointStream, address: string)
    ensures At(streams + [s], address)
         == if s.address == address then At(streams, address) + [s.cloud] else At(streams, address)
  {
    assert (streams + [s])[..|streams|] == streams;
  }

  function Dirty(streams: seq<PointStream>, clouds: map<string, CloudPtr>, data: map<string, Message>): seq<PointStream>
    requires clouds.Keys == data.Keys
    decreases |streams|
  {
    if streams == [] then [] else
      var s := streams[|streams| - 1];
      var before := Dirty(streams[..|streams| - 1], clouds, data);
      if Changed(CachedAt(clouds, data, s.address), s.cloud) then before + [s] else before
  }

  function CachedAt(clouds: map<string, CloudPtr>, data: map<string, Message>, address: string): Cached
    requires clouds.Keys == data.Keys
  {
    if address in clouds then Cached(clouds[address], data[address]) else NotCached
  }

  lemma {:induction false} DirtyAt(streams: seq<PointStream>, clouds: map<string, CloudPtr>,
                                   data: map<string, Message>, address: string)
    requires clouds.Keys == data.Keys
    ensures At(Dirty(streams, clouds, data), address)
         == ChangedOnly(CachedAt(clouds, data, address), At(streams, address))
    decreases |streams|
  {
    if streams == [] {
    } else {
      var s := streams[|streams| - 1];
      DirtyAt(streams[..|streams| - 1], clouds, data, address);
      if Changed(CachedAt(clouds, data, s.address), s.cloud) {
        AtAppend(Dirty(streams[..|streams| - 1], clouds, data), s, address);
      }
      if s.address == address {
        var before := At(streams[..|streams| - 1], address);
        assert (before + [s.cloud])[..|before|] == before;
      }
    }
  }

  // Overwriting the first stream at an address.
  lemma {:induction false} AtOverwriteFirst(streams: seq<PointStream>, i: nat, address: string)
    requires i < |streams|
    requires forall k :: 0 <= k < i ==> streams[k].address != streams[i].address
    ensures At(streams[i := PointStream(streams[i].address, Clearing)], address)
         == if address == streams[i].address then Redirected(At(streams, address)) else At(streams, address)
    ensures address == streams[i].address ==> At(streams, address) != []
    decreases |streams|
  {
    var last := |streams| - 1;
    var target := PointStream(streams[i].address, Clearing);
    var updated := streams[i := target];
    if i == last {
      assert updated[..last] == streams[..last];
      if address == streams[i].address { AtAbsent(streams[..last], address); }
    } else {
      assert updated[..last] == streams[..last][i := target];
      AtOverwriteFirst(streams[..last], i, address);
    }
  }

  lemma {:induction false} AtAbsent(streams: seq<PointStream>, address: string)
    ensures At(streams, address) == [] <==> forall k :: 0 <= k < |streams| ==> streams[k].address != address
    decreases |streams|
  {
    if streams == [] {
    } else {
      AtAbsent(streams[..|streams| - 1], address);
      assert forall k :: 0 <= k < |streams| - 1 ==> streams[..|streams| - 1][k] == streams[k];
    }
  }

  // ---- the streaming thread ----

  ghost predicate WellKeyed(clouds: map<string, CloudPtr>, data: map<string, Message>) {
    clouds.Keys == data.Keys && forall a :: a in data ==> data[a].topic == a + NUL
  }

  predicate EndsInNul(topic: string) {
    topic != "" && topic[|topic| - 1] == '\0'
  }

  lemma TopicIdentifiesAddress(a: string, b: string)
    ensures a + NUL == b + NUL <==> a == b
  {
    assert (a + NUL)[..|a + NUL| - 1] == a;
    assert (b + NUL)[..|b + NUL| - 1] == b;
  }

  datatype State = State(
    clouds: map<string, CloudPtr>,
    data: map<string, Message>,
    counts: map<string, nat>,
    published: map<string, nat>,
    bound: bool,
    attempted: SocketSettings)

  function EnabledCount(streams: seq<PointStream>, channels: seq<Channel>): nat
    decreases |streams|
  {
    if streams == [] then 0 else
      var s := streams[|streams| - 1];
      EnabledCount(streams[..|streams| - 1], channels) + (if ChannelEnabled(channels, s.address) then 1 else 0)
  }

  function Settings(input: TickInput): SocketSettings {
    SocketSettings(
      if input.bindAddress == "" then "*" else input.bindAddress,
      input.port,
      if input.limitQueue then Max(input.queueLimit, 1)
      else Max(2 * EnabledCount(input.streams, input.channels), 2))
  }

  predicate Rebinds(s: State, input: TickInput) {
    Settings(input) != s.attempted || (!s.bound && input.retryDue)
  }

  function CountsDuring(s: State, input: TickInput, bound: bool): map<string, nat> {
    var counts := if Rebinds(s, input) then map[] else s.counts;
    if bound then CountedAll(counts, input.received) else counts
  }

  predicate Resends(input: TickInput, bound: bool, address: string) {
    input.everyFrame || (bound && AnyPrefix(Subscribed(input.received), address))
  }

  // One tick of the thread: what it may leave behind and send.
  ghost predicate Tick(s: State, input: TickInput, s': State, sent: seq<Message>) {
    && WellKeyed(s.clouds, s.data) && WellKeyed(s'.clouds, s'.data)
    && s'.attempted == Settings(input)
    && s'.bound == (if Rebinds(s, input) then input.bindSucceeds else s.bound)
    && s'.counts == CountsDuring(s, input, s'.bound)
    && s'.published == s'.counts
    && (forall address ::
          ChannelTicked(address, CachedAt(s.clouds, s.data, address),
                        PublishedClouds(input.streams, input.channels, s'.counts, address),
                        Resends(input, s'.bound, address), input.now, s'.bound,
                        CachedAt(s'.clouds, s'.data, address), FramesTo(sent, address)))
    && (forall i :: 0 <= i < |sent| ==> EndsInNul(sent[i].topic))
  }

  class Streamer {
    var clouds: map<string, CloudPtr>
    var data: map<string, Message>
    var counts: map<string, nat>
    var countsDirty: bool
    var published: map<string, nat>
    var newTopics: seq<string>
    var bound: bool
    var attempted: SocketSettings

    constructor ()
      ensures Valid()
      ensures Now() == State(map[], map[], map[], map[], false, SocketSettings("", 0, 0))
    {
      clouds, data, counts, countsDirty, published := map[], map[], map[], true, map[];
      newTopics, bound, attempted := [], false, SocketSettings("", 0, 0);
    }

    function Now(): State
      reads this
    {
      State(clouds, data, counts, published, bound, attempted)
    }

    ghost predicate Valid()
      reads this
    {
      && WellKeyed(clouds, data) && newTopics == []
      && (countsDirty || published == counts)
    }

    method HandleSubscriberMessage(message: string)
      modifies this`counts, this`newTopics, this`countsDirty
      ensures counts == Counted(old(counts), message)
      ensures newTopics == old(newTopics) + Subscribed([message])
      ensures countsDirty || (counts == old(counts) && countsDirty == old(countsDirty))
    {
      assert [message][..0] == [];
      if message == "" { return; }
      var subscribe := message[0] == SUBSCRIBE;
      var topic := message[1..];
      if topic != "" && topic[|topic| - 1] == '\0' { topic := topic[..|topic| - 1]; }
      if topic !in counts { counts := counts[topic := 0]; }
      if subscribe {
        counts := counts[topic := counts[topic] + 1];
        newTopics := newTopics + [topic];
      } else if counts[topic] > 0 {
        counts := counts[topic := counts[topic] - 1];
      }
      countsDirty := true;
    }

    method SyncSocket(input: TickInput)
      requires Valid()
      modifies this`counts, this`newTopics, this`countsDirty, this`bound, this`attempted
      ensures attempted == Settings(input)
      ensures bound == if Rebinds(old(Now()), input) then input.bindSucceeds else old(bound)
      ensures counts == CountsDuring(old(Now()), input, bound)
      ensures newTopics == if bound then Subscribed(input.received) else []
      ensures countsDirty || counts == published
    {
      ghost var before := Now();
      var settings := Settings(input);
      var retry := !bound && input.retryDue;
      if settings != attempted || retry {
        bound := input.bindSucceeds;
        attempted := settings;
        counts, newTopics, countsDirty := map[], [], true;
      }
      if bound {
        ReceiveSubscriptions(input.received);
      }
    }

    method ReceiveSubscriptions(received: seq<string>)
      modifies this`counts, this`newTopics, this`countsDirty
      requires newTopics == []
      ensures counts == CountedAll(old(counts), received)
      ensures newTopics == Subscribed(received)
      ensures countsDirty || (counts == old(counts) && countsDirty == old(countsDirty))
    {
      for i := 0 to |received|
        invariant counts == CountedAll(old(counts), received[..i])
        invariant newTopics == Subscribed(received[..i])
        invariant countsDirty || (counts == old(counts) && countsDirty == old(countsDirty))
      {
        var m := received[i];
        assert received[..i + 1][..i] == received[..i];
        assert [m][..0] == [];
        HandleSubscriberMessage(m);
      }
      assert received[..|received|] == received;
    }

    method FirstAt(streams: seq<PointStream>, address: string) returns (i: nat)
      ensures i <= |streams|
      ensures i < |streams| ==> streams[i].address == address && At(streams, address) != []
                                && At(streams, address)[0] == streams[i].cloud
      ensures i == |streams| ==> At(streams, address) == []
      ensures forall k :: 0 <= k < i ==> streams[k].address != address
    {
      i := 0;
      while i < |streams| && streams[i].address != address
        invariant 0 <= i <= |streams|
        invariant forall k :: 0 <= k < i ==> streams[k].address != address
      {
        i := i + 1;
      }
      AtAbsent(streams, address);
      if i < |streams| { AtFirst(streams, i, address); }
    }

    method StoppedChannels(publishing: seq<PointStream>) returns (stopped: seq<string>)
      requires WellKeyed(clouds, data)
      ensures forall a :: a in stopped <==> Stops(CachedAt(clouds, data, a), At(publishing, a))
      ensures forall i, j :: 0 <= i < j < |stopped| ==> stopped[i] != stopped[j]
    {
      stopped := [];
      var keys := clouds.Keys;
      while keys != {}
        invariant keys <= clouds.Keys
        invariant forall a :: a in stopped <==>
          a in clouds && a !in keys && Stops(CachedAt(clouds, data, a), At(publishing, a))
        invariant forall i, j :: 0 <= i < j < |stopped| ==> stopped[i] != stopped[j]
        decreases |keys|
      {
        var a :| a in keys;
        var i := FirstAt(publishing, a);
        if i == |publishing| || Size(publishing[i].cloud) == 0 {
          stopped := stopped + [a];
        }
        keys := keys - {a};
      }
    }

    method RedirectStopped(publishing: seq<PointStream>, stopped: seq<string>) returns (sending: seq<PointStream>)
      requires forall i, j :: 0 <= i < j < |stopped| ==> stopped[i] != stopped[j]
      ensures RedirectedFor(sending, publishing, stopped)
    {
      sending := publishing;
      for k := 0 to |stopped|
        invariant RedirectedFor(sending, publishing, stopped[..k])
      {
        ghost var before := sending;
        var target := PointStream(stopped[k], Clearing);
        var i := FirstAt(sending, stopped[k]);
        if i < |sending| {
          sending := sending[i := target];
        } else {
          sending := sending + [target];
        }
        assert stopped[..k + 1] == stopped[..k] + [stopped[k]];
        RedirectOne(before, publishing, stopped[..k], stopped[k], i, sending);
      }
      assert stopped[..|stopped|] == stopped;
    }

    method CacheDirty(dirty: seq<PointStream>, now: nat)
      requires WellKeyed(clouds, data)
      modifies this`clouds, this`data
      ensures WellKeyed(clouds, data)
      ensures RefreshedFor(clouds, data, old(clouds), old(data), dirty, now)
    {
      for k := 0 to |dirty|
        invariant WellKeyed(clouds, data)
        invariant RefreshedFor(clouds, data, old(clouds), old(data), dirty[..k], now)
      {
        var s := dirty[k];
        ghost var clouds1, data1 := clouds, data;
        clouds := clouds[s.address := s.cloud];
        data := data[s.address := Frame(s.address, s.cloud, now)];
        assert dirty[..k + 1] == dirty[..k] + [s];
        RefreshOne(clouds1, data1, old(clouds), old(data), dirty[..k], s, now);
      }
      assert dirty[..|dirty|] == dirty;
    }

    method Wants(dirty: seq<PointStream>, everyFrame: bool, address: string) returns (wanted: bool)
      ensures wanted <==> everyFrame || AnyPrefix(newTopics, address) || At(dirty, address) != []
    {
      wanted := everyFrame;
      if !everyFrame {
        var i := FirstAt(dirty, address);
        var frameChanged := i < |dirty|;
        var hasNewSubscriber := AnyPrefix(newTopics, address);
        wanted := frameChanged || hasNewSubscriber;
      }
    }

    method Send(sending: seq<PointStream>, dirty: seq<PointStream>, everyFrame: bool) returns (sent: seq<Message>)
      requires WellKeyed(clouds, data)
      ensures SentFor(sent, sending, data, dirty, newTopics, everyFrame)
      ensures forall i :: 0 <= i < |sent| ==> EndsInNul(sent[i].topic)
    {
      sent := [];
      for k := 0 to |sending|
        invariant SentFor(sent, sending[..k], data, dirty, newTopics, everyFrame)
        invariant forall i :: 0 <= i < |sent| ==> EndsInNul(sent[i].topic)
      {
        var address := sending[k].address;
        var wanted := Wants(dirty, everyFrame, address);
        ghost var before := sent;
        if wanted && address in data {
          sent := sent + [data[address]];
        }
        assert sending[..k + 1] == sending[..k] + [sending[k]];
        SendOne(before, sending[..k], sending[k], data, dirty, newTopics, everyFrame, sent);
      }
      assert sending[..|sending|] == sending;
    }

    method EraseStopped(stopped: seq<string>)
      requires WellKeyed(clouds, data)
      modifies this`clouds, this`data
      ensures WellKeyed(clouds, data)
      ensures forall a :: CachedAt(clouds, data, a)
                       == if a in stopped then NotCached else old(CachedAt(clouds, data, a))
    {
      for k := 0 to |stopped|
        invariant WellKeyed(clouds, data)
        invariant forall a :: CachedAt(clouds, data, a)
                           == if a in stopped[..k] then NotCached else old(CachedAt(clouds, data, a))
      {
        clouds := clouds - {stopped[k]};
        data := data - {stopped[k]};
        assert stopped[..k + 1] == stopped[..k] + [stopped[k]];
      }
      assert stopped[..|stopped|] == stopped;
    }

    method PublishAndSend(streams: seq<PointStream>, channels: seq<Channel>, everyFrame: bool, now: nat)
      returns (sent: seq<Message>)
      requires WellKeyed(clouds, data)
      modifies this`clouds, this`data
      ensures WellKeyed(clouds, data)
      ensures forall a :: ChannelTicked(a, old(CachedAt(clouds, data, a)),
                                        PublishedClouds(streams, channels, counts, a),
                                        everyFrame || AnyPrefix(newTopics, a), now, bound,
                                        CachedAt(clouds, data, a), FramesTo(sent, a))
      ensures forall i :: 0 <= i < |sent| ==> EndsInNul(sent[i].topic)
    {
      ghost var clouds0, data0 := clouds, data;
      var publishing := Publishing(streams, counts, channels);
      var stopped := StoppedChannels(publishing);
      var sending := RedirectStopped(publishing, stopped);
      var dirty := Dirty(sending, clouds, data);
      CacheDirty(dirty, now);
      ghost var clouds1, data1 := clouds, data;
      sent := [];
      if bound {
        sent := Send(sending, dirty, everyFrame);
      }
      EraseStopped(stopped);
      TickFromStages(streams, channels, counts, clouds0, data0, stopped, sending, clouds1, data1, newTopics,
                     everyFrame, now, bound, sent, clouds, data);
    }

    method ProcessTick(input: TickInput) returns (sent: seq<Message>)
      requires Valid()
      modifies this
      ensures Valid()
      ensures Tick(old(Now()), input, Now(), sent)
    {
      SyncSocket(input);
      sent := PublishAndSend(input.streams, input.channels, input.everyFrame, input.now);
      newTopics := [];
      if countsDirty {
        published := counts;
        countsDirty := false;
      }
    }
  }

  lemma FramesAppend(sent: seq<Message>, m: Message, address: string, a: string)
    requires m.topic == address + NUL
    ensures FramesTo(sent + [m], a) == if a == address then FramesTo(sent, a) + [m] else FramesTo(sent, a)
  {
    assert (sent + [m])[..|sent|] == sent;
    TopicIdentifiesAddress(a, address);
  }

  // Whether a sending channel's cached frame goes out.
  predicate Sends(data: map<string, Message>, dirty: seq<PointStream>, topics: seq<string>, everyFrame: bool,
                  address: string)
  {
    address in data && (everyFrame || AnyPrefix(topics, address) || At(dirty, address) != [])
  }

  // What has gone out at one address after some sending streams.
  ghost predicate SentAt(sent: seq<Message>, streams: seq<CloudPtr>, data: map<string, Message>, sends: bool, a: string)
    requires sends ==> a in data
  {
    FramesTo(sent, a) == if sends then Repeat(data[a], |streams|) else []
  }

  ghost predicate SentFor(sent: seq<Message>, sending: seq<PointStream>, data: map<string, Message>,
                          dirty: seq<PointStream>, topics: seq<string>, everyFrame: bool)
  {
    forall a :: SentAt(sent, At(sending, a), data, Sends(data, dirty, topics, everyFrame, a), a)
  }

  lemma SendOneAt(sent: seq<Message>, streams: seq<CloudPtr>, c: CloudPtr, data: map<string, Message>, sends: bool,
                  a: string)
    requires sends ==> a in data && data[a].topic == a + NUL
    requires SentAt(sent, streams, data, sends, a)
    ensures SentAt(if sends then sent + [data[a]] else sent, streams + [c], data, sends, a)
  {
    if sends {
      FramesAppend(sent, data[a], a, a);
      RepeatAppend(data[a], |streams|);
    }
  }

  lemma SendOne(sent: seq<Message>, sending: seq<PointStream>, s: PointStream, data: map<string, Message>,
                dirty: seq<PointStream>, topics: seq<string>, everyFrame: bool, sent': seq<Message>)
    requires SentFor(sent, sending, data, dirty, topics, everyFrame)
    requires forall a :: a in data ==> data[a].topic == a + NUL
    requires sent' == if Sends(data, dirty, topics, everyFrame, s.address) then sent + [data[s.address]] else sent
    ensures SentFor(sent', sending + [s], data, dirty, topics, everyFrame)
  {
    forall a
      ensures SentAt(sent', At(sending + [s], a), data, Sends(data, dirty, topics, everyFrame, a), a)
    {
      AtAppend(sending, s, a);
      var sends := Sends(data, dirty, topics, everyFrame, a);
      assert SentAt(sent, At(sending, a), data, sends, a);
      if a == s.address {
        SendOneAt(sent, At(sending, a), s.cloud, data, sends, a);
      } else if sent' != sent {
        FramesAppend(sent, data[s.address], s.address, a);
      }
    }
  }

  lemma RepeatAppend(m: Message, n: nat)
    ensures Repeat(m, n + 1) == Repeat(m, n) + [m]
  {}

  ghost predicate ChannelTicked(address: string, cached: Cached, publishing: seq<CloudPtr>, resend: bool, now: nat,
                                bound: bool, cached': Cached, frames: seq<Message>)
  {
    var t := TickChannel(address, cached, publishing, resend, now);
    cached' == t.cached && frames == if bound then t.frames else []
  }

  ghost predicate RedirectedFor(sending: seq<PointStream>, publishing: seq<PointStream>, stopped: seq<string>) {
    forall a :: At(sending, a) == if a in stopped then Redirected(At(publishing, a)) else At(publishing, a)
  }

  lemma RedirectOne(before: seq<PointStream>, publishing: seq<PointStream>, stopped: seq<string>, a: string, i: nat,
                    after: seq<PointStream>)
    requires RedirectedFor(before, publishing, stopped) && a !in stopped && i <= |before|
    requires i < |before| ==> before[i].address == a && after == before[i := PointStream(a, Clearing)]
    requires i == |before| ==> after == before + [PointStream(a, Clearing)]
    requires forall k :: 0 <= k < i ==> before[k].address != a
    ensures RedirectedFor(after, publishing, stopped + [a])
  {
    forall b ensures At(after, b) == if b in stopped + [a] then Redirected(At(publishing, b)) else At(publishing, b) {
      if i < |before| {
        AtOverwriteFirst(before, i, b);
      } else {
        AtAppend(before, PointStream(a, Clearing), b);
        AtAbsent(before, a);
      }
    }
  }

  ghost predicate RefreshedFor(clouds: map<string, CloudPtr>, data: map<string, Message>,
                               clouds0: map<string, CloudPtr>, data0: map<string, Message>,
                               dirty: seq<PointStream>, now: nat)
    requires clouds.Keys == data.Keys && clouds0.Keys == data0.Keys
  {
    forall a :: CachedAt(clouds, data, a) == Refreshed(CachedAt(clouds0, data0, a), At(dirty, a), a, now)
  }

  lemma RefreshOne(clouds: map<string, CloudPtr>, data: map<string, Message>,
                   clouds0: map<string, CloudPtr>, data0: map<string, Message>,
                   dirty: seq<PointStream>, s: PointStream, now: nat)
    requires clouds.Keys == data.Keys && clouds0.Keys == data0.Keys
    requires RefreshedFor(clouds, data, clouds0, data0, dirty, now)
    ensures RefreshedFor(clouds[s.address := s.cloud], data[s.address := Frame(s.address, s.cloud, now)],
                         clouds0, data0, dirty + [s], now)
  {
    forall a { AtAppend(dirty, s, a); }
  }

  lemma TickFromStages(streams: seq<PointStream>, channels: seq<Channel>, counts: map<string, nat>,
                       clouds0: map<string, CloudPtr>, data0: map<string, Message>,
                       stopped: seq<string>, sending: seq<PointStream>,
                       clouds1: map<string, CloudPtr>, data1: map<string, Message>,
                       topics: seq<string>, everyFrame: bool, now: nat, bound: bool, sent: seq<Message>,
                       clouds2: map<string, CloudPtr>, data2: map<string, Message>)
    requires WellKeyed(clouds0, data0) && WellKeyed(clouds1, data1) && WellKeyed(clouds2, data2)
    requires
      var publishing, dirty := Publishing(streams, counts, channels), Dirty(sending, clouds0, data0);
      && (forall a :: a in stopped <==> Stops(CachedAt(clouds0, data0, a), At(publishing, a)))
      && RedirectedFor(sending, publishing, stopped)
      && RefreshedFor(clouds1, data1, clouds0, data0, dirty, now)
      && (if bound then SentFor(sent, sending, data1, dirty, topics, everyFrame) else sent == [])
      && (forall a :: CachedAt(clouds2, data2, a) == if a in stopped then NotCached else CachedAt(clouds1, data1, a))
    ensures forall a :: ChannelTicked(a, CachedAt(clouds0, data0, a), PublishedClouds(streams, channels, counts, a),
                                      everyFrame || AnyPrefix(topics, a), now, bound,
                                      CachedAt(clouds2, data2, a), FramesTo(sent, a))
  {
    var publishing, dirty := Publishing(streams, counts, channels), Dirty(sending, clouds0, data0);
    forall a
      ensures ChannelTicked(a, CachedAt(clouds0, data0, a), PublishedClouds(streams, channels, counts, a),
                            everyFrame || AnyPrefix(topics, a), now, bound,
                            CachedAt(clouds2, data2, a), FramesTo(sent, a))
    {
      PublishingAt(streams, counts, channels, a);
      DirtyAt(sending, clouds0, data0, a);
      StagesMakeTick(a, CachedAt(clouds0, data0, a), At(publishing, a), At(sending, a), At(dirty, a),
                     CachedAt(clouds1, data1, a), everyFrame || AnyPrefix(topics, a), now, bound,
                     CachedAt(clouds2, data2, a), FramesTo(sent, a));
    }
  }

  lemma StagesMakeTick(address: string, cached: Cached, publishing: seq<CloudPtr>, sending: seq<CloudPtr>,
                       changed: seq<CloudPtr>, refreshed: Cached, resend: bool, now: nat, bound: bool,
                       cached': Cached, frames: seq<Message>)
    requires sending == if Stops(cached, publishing) then Redirected(publishing) else publishing
    requires changed == ChangedOnly(cached, sending)
    requires refreshed == Refreshed(cached, changed, address, now)
    requires frames == if bound && refreshed.Cached? && (resend || changed != [])
                       then Repeat(refreshed.data, |sending|) else []
    requires cached' == if Stops(cached, publishing) then NotCached else refreshed
    ensures ChannelTicked(address, cached, publishing, resend, now, bound, cached', frames)
  {}

  lemma {:induction false} AtFirst(streams: seq<PointStream>, i: nat, address: string)
    requires i < |streams| && streams[i].address == address
    requires forall k :: 0 <= k < i ==> streams[k].address != address
    ensures At(streams, address) != [] && At(streams, address)[0] == streams[i].cloud
    decreases |streams|
  {
    var last := |streams| - 1;
    if i == last { AtAbsent(streams[..last], address); } else { AtFirst(streams[..last], i, address); }
  }

  // ---- what a tick reads off its input ----

  // A trailing NUL is taken off, one and no more.
  lemma StripNulByCase(topic: string)
    ensures StripNul(topic + "\0") == topic
    ensures (topic == "" || topic[|topic| - 1] != '\0') ==> StripNul(topic) == topic
  {}

  lemma {:induction false} SubscribedMembers(messages: seq<string>, topic: string)
    ensures topic in Subscribed(messages) <==>
              exists i :: 0 <= i < |messages| && messages[i] != "" && messages[i][0] == '\U{01}'
                          && StripNul(messages[i][1..]) == topic
    decreases |messages|
  {
    if messages == [] {
    } else {
      var front, m := messages[..|messages| - 1], messages[|messages| - 1];
      SubscribedMembers(front, topic);
      if i :| 0 <= i < |messages| && messages[i] != "" && messages[i][0] == '\U{01}'
              && StripNul(messages[i][1..]) == topic
      {
        if i < |front| { assert front[i] == messages[i]; }
      }
      if i :| 0 <= i < |front| && front[i] != "" && front[i][0] == '\U{01}' && StripNul(front[i][1..]) == topic {
        assert messages[i] == front[i];
      }
    }
  }

  // An unchanged frame goes out again exactly when every frame does, or when the
  // bound socket has had a subscription to a prefix of the address this tick.
  lemma ResendsIff(input: TickInput, bound: bool, address: string)
    ensures Resends(input, bound, address) <==>
              input.everyFrame
              || (bound && exists i ::
                    0 <= i < |input.received| && input.received[i] != "" && input.received[i][0] == '\U{01}'
                    && StripNul(input.received[i][1..]) <= address)
  {
    var topics := Subscribed(input.received);
    if i :| 0 <= i < |topics| && topics[i] <= address { SubscribedMembers(input.received, topics[i]); }
    if i :| 0 <= i < |input.received| && input.received[i] != "" && input.received[i][0] == '\U{01}'
            && StripNul(input.received[i][1..]) <= address
    {
      SubscribedMembers(input.received, StripNul(input.received[i][1..]));
    }
  }

  // The streams that are switched on, by their places.
  function EnabledAt(streams: seq<PointStream>, channels: seq<Channel>): set<int> {
    set i | 0 <= i < |streams| && ChannelEnabled(channels, streams[i].address)
  }

  lemma {:induction false} EnabledCountIs(streams: seq<PointStream>, channels: seq<Channel>)
    ensures EnabledCount(streams, channels) == |EnabledAt(streams, channels)|
    decreases |streams|
  {
    var n := |streams|;
    if n == 0 {
    } else {
      EnabledCountIs(streams[..n - 1], channels);
      var before, on := EnabledAt(streams[..n - 1], channels), ChannelEnabled(channels, streams[n - 1].address);
      assert EnabledAt(streams, channels) == before + if on then {n - 1} else {};
    }
  }

  // The socket is bound to every interface when no address is given, and its
  // queue holds what it is limited to but at least one frame, or else two frames
  // for each stream that is switched on but at least two.
  lemma SettingsByCase(input: TickInput)
    ensures
      var on := |EnabledAt(input.streams, input.channels)|;
      var queue := if input.limitQueue then (if input.queueLimit > 1 then input.queueLimit else 1)
                   else if on > 1 then 2 * on else 2;
      Settings(input) == SocketSettings(if input.bindAddress == "" then "*" else input.bindAddress, input.port, queue)
  {
    EnabledCountIs(input.streams, input.channels);
  }

  // A tick binds anew exactly when the settings are not those last tried, or
  // when it is unbound and a retry is due; it then counts from nothing.
  lemma TickRebinds(s: State, input: TickInput, s': State, sent: seq<Message>)
    requires Tick(s, input, s', sent)
    ensures
      var anew := Settings(input) != s.attempted || (!s.bound && input.retryDue);
      && s'.attempted == Settings(input) && s'.bound == (if anew then input.bindSucceeds else s.bound)
      && s'.counts == (var before := if anew then map[] else s.counts;
                       if s'.bound then CountedAll(before, input.received) else before)
  {}

  // ---- what subscribers and clients rely on ----

  predicate IsSubscribe(message: string, topic: string) {
    message != "" && message[0] == SUBSCRIBE && StripNul(message[1..]) == topic
  }

  predicate IsUnsubscribe(message: string, topic: string) {
    message != "" && message[0] != SUBSCRIBE && StripNul(message[1..]) == topic
  }

  // Subscriptions less unsubscriptions of one topic.
  function Net(messages: seq<string>, topic: string): int
    decreases |messages|
  {
    if messages == [] then 0 else
      var m := messages[|messages| - 1];
      Net(messages[..|messages| - 1], topic)
        + (if IsSubscribe(m, topic) then 1 else if IsUnsubscribe(m, topic) then -1 else 0)
  }

  // A count never falls below the clients actually subscribed, and is exact
  // when no unsubscription ever came before its subscription.
  lemma {:induction false} CountsCoverSubscriptions(messages: seq<string>, topic: string)
    ensures CountOf(CountedAll(map[], messages), topic) >= Net(messages, topic)
    ensures (forall k :: 0 <= k <= |messages| ==> Net(messages[..k], topic) >= 0) ==>
              CountOf(CountedAll(map[], messages), topic) == Net(messages, topic)
    decreases |messages|
  {
    if messages == [] {
    } else {
      var before := messages[..|messages| - 1];
      CountsCoverSubscriptions(before, topic);
      assert messages[..|messages|] == messages;
      if forall k :: 0 <= k <= |messages| ==> Net(messages[..k], topic) >= 0 {
        forall k | 0 <= k <= |before| ensures Net(before[..k], topic) >= 0 {
          assert before[..k] == messages[..k];
        }
        assert Net(messages[..|messages|], topic) >= 0;
      }
    }
  }

  // No client subscribed to a prefix of an address is ever missed.
  lemma SubscriberIsNeverMissed(messages: seq<string>, topic: string, address: string)
    requires Net(messages, topic) > 0 && topic <= address
    ensures HasSubscriber(CountedAll(map[], messages), address)
  {
    CountsCoverSubscriptions(messages, topic);
    var counts := CountedAll(map[], messages);
    assert topic in counts && counts[topic] > 0;
  }

  // Nor is one found when there is none, where no unsubscription ever came before
  // its subscription.
  lemma SubscriberIsFoundIff(messages: seq<string>, address: string)
    requires forall topic, k :: 0 <= k <= |messages| ==> Net(messages[..k], topic) >= 0
    ensures HasSubscriber(CountedAll(map[], messages), address) <==>
              exists topic :: Net(messages, topic) > 0 && topic <= address
  {
    var counts := CountedAll(map[], messages);
    if topic :| topic in counts && counts[topic] > 0 && topic <= address {
      CountsCoverSubscriptions(messages, topic);
      assert Net(messages, topic) > 0;
    }
    if topic :| Net(messages, topic) > 0 && topic <= address {
      SubscriberIsNeverMissed(messages, topic, address);
    }
  }

  lemma ListenersAreSubscribers(counts: map<string, nat>, address: string)
    ensures HasListeners(counts, address) ==> HasSubscriber(counts, address)
    // and nothing else is, once every counted topic is "" or a whole address
    ensures (forall topic :: topic in counts && counts[topic] > 0 && topic <= address ==>
              topic == "" || topic == address) ==>
              (HasListeners(counts, address) <==> HasSubscriber(counts, address))
  {
    assert "" <= address;
  }

  // ---- caches and clearing frames ----

  ghost predicate UniqueAddresses(streams: seq<PointStream>) {
    forall i, j :: 0 <= i < j < |streams| ==> streams[i].address != streams[j].address
  }

  // The stream a client of this address should be seeing.
  ghost predicate Live(input: TickInput, counts: map<string, nat>, address: string, cloud: CloudPtr) {
    && PointStream(address, cloud) in input.streams && Size(cloud) > 0
    && HasSubscriber(counts, address) && ChannelEnabled(input.channels, address)
  }

  ghost predicate CachedNonEmpty(address: string, cached: Cached) {
    cached.Cached? ==>
      cached.cloud.Shared? && cached.cloud.points > 0
      && cached.data == Frame(address, cached.cloud, cached.data.packet.timestamp)
  }

  lemma {:induction false} AtMembers(streams: seq<PointStream>, address: string)
    ensures forall c :: c in At(streams, address) <==> PointStream(address, c) in streams
    ensures UniqueAddresses(streams) ==> |At(streams, address)| <= 1
    decreases |streams|
  {
    if streams == [] {
    } else {
      var before := streams[..|streams| - 1];
      AtMembers(before, address);
      AtAbsent(before, address);
      assert streams == before + [streams[|streams| - 1]];
    }
  }

  // One tick of one channel that at most one stream feeds: what is cached and
  // sent is decided by whether the stream is live, and a channel that was
  // cached and is no longer live sends exactly one clearing frame.
  lemma TickOfOneStream(address: string, cached: Cached, publishing: seq<CloudPtr>, resend: bool, now: nat)
    requires |publishing| <= 1 && CachedNonEmpty(address, cached)
    requires forall c :: c in publishing ==> !c.Clearing?
    ensures
      var t := TickChannel(address, cached, publishing, resend, now);
      && CachedNonEmpty(address, t.cached)
      && (if publishing != [] && Size(publishing[0]) > 0 then
            && t.cached.Cached? && SamePointer(t.cached.cloud, publishing[0])
            && (t.cached == cached || t.cached == Cached(publishing[0], Frame(address, publishing[0], now)))
            && (t.cached == cached <== cached.Cached? && SamePointer(cached.cloud, publishing[0]))
            && t.frames == (if resend || cached.NotCached? || !SamePointer(cached.cloud, publishing[0])
                            then [t.cached.data] else [])
          else
            && t.cached.NotCached?
            && t.frames == (if cached.Cached? then [Frame(address, Clearing, now)] else []))
  {
    if publishing == [] {
      ChangedOnlyOne(cached, Clearing);
    } else {
      assert publishing == [publishing[0]] && publishing[0] in publishing;
      ChangedOnlyOne(cached, publishing[0]);
      ChangedOnlyOne(cached, Clearing);
    }
  }

  lemma ChangedOnlyOne(cached: Cached, c: CloudPtr)
    ensures ChangedOnly(cached, [c]) == if Changed(cached, c) then [c] else []
    ensures Redirected([]) == [Clearing] && Redirected([c]) == [Clearing]
    ensures forall m: Message :: Repeat(m, 0) == [] && Repeat(m, 1) == [m]
  {
    assert [c][..0] == [];
  }

  lemma PublishedIsLive(input: TickInput, counts: map<string, nat>, address: string)
    requires UniqueAddresses(input.streams)
    ensures
      var publishing := PublishedClouds(input.streams, input.channels, counts, address);
      && |publishing| <= 1
      && (forall c :: c in publishing ==> !c.Clearing?)
      && (forall c :: Live(input, counts, address, c) <==> publishing == [c] && Size(c) > 0)
  {
    AtMembers(input.streams, address);
    var publishing := PublishedClouds(input.streams, input.channels, counts, address);
    forall c | c in publishing ensures !c.Clearing? {
      var i :| 0 <= i < |input.streams| && input.streams[i] == PointStream(address, c);
    }
    forall c ensures Live(input, counts, address, c) <==> publishing == [c] && Size(c) > 0 {
      if Live(input, counts, address, c) { assert c in publishing; assert publishing[0] == c; }
      if publishing == [c] { assert publishing[0] in publishing; }
    }
  }

  // After a tick the cache holds exactly the live streams, each with its framed
  // packet.
  lemma CacheHoldsLiveStreams(s: State, input: TickInput, s': State, sent: seq<Message>, address: string)
    requires Tick(s, input, s', sent) && UniqueAddresses(input.streams)
    requires CachedNonEmpty(address, CachedAt(s.clouds, s.data, address))
    ensures address in s'.clouds <==> exists cloud :: Live(input, s'.counts, address, cloud)
    ensures forall cloud :: Live(input, s'.counts, address, cloud) ==> SamePointer(s'.clouds[address], cloud)
    ensures CachedNonEmpty(address, CachedAt(s'.clouds, s'.data, address))
  {
    var publishing := PublishedClouds(input.streams, input.channels, s'.counts, address);
    PublishedIsLive(input, s'.counts, address);
    TickOfOneStream(address, CachedAt(s.clouds, s.data, address), publishing, Resends(input, s'.bound, address),
                    input.now);
    if publishing != [] && Size(publishing[0]) > 0 {
      assert Live(input, s'.counts, address, publishing[0]);
    }
  }

  // Each address gets its newest frame when it changed or someone needs it, one
  // clearing frame when it stops, and nothing otherwise.
  lemma TickSends(s: State, input: TickInput, s': State, sent: seq<Message>, address: string)
    requires Tick(s, input, s', sent) && UniqueAddresses(input.streams) && s'.bound
    requires CachedNonEmpty(address, CachedAt(s.clouds, s.data, address))
    ensures
      FramesTo(sent, address) ==
        if address in s'.clouds then
          if Resends(input, true, address) || address !in s.clouds
             || !SamePointer(s.clouds[address], s'.clouds[address])
          then [s'.data[address]] else []
        else if address in s.clouds then [Frame(address, Clearing, input.now)]
        else []
  {
    var publishing := PublishedClouds(input.streams, input.channels, s'.counts, address);
    PublishedIsLive(input, s'.counts, address);
    TickOfOneStream(address, CachedAt(s.clouds, s.data, address), publishing, Resends(input, s'.bound, address),
                    input.now);
  }

  // ---- whole runs ----

  ghost predicate Ticks(states: seq<State>, inputs: seq<TickInput>, outputs: seq<seq<Message>>) {
    && |states| == |inputs| + 1 && |outputs| == |inputs|
    && forall i :: 0 <= i < |inputs| ==> Tick(states[i], inputs[i], states[i + 1], outputs[i])
  }

  ghost predicate StaysBound(states: seq<State>, inputs: seq<TickInput>)
    requires |states| == |inputs| + 1
  {
    forall k :: 0 < k < |states| ==> states[k].bound
  }

  lemma RunButLast(states: seq<State>, inputs: seq<TickInput>, outputs: seq<seq<Message>>)
    requires Ticks(states, inputs, outputs) && StaysBound(states, inputs) && inputs != []
    ensures
      var n := |inputs|;
      && Ticks(states[..n], inputs[..n - 1], outputs[..n - 1]) && StaysBound(states[..n], inputs[..n - 1])
      && Tick(states[n - 1], inputs[n - 1], states[n], outputs[n - 1])
  {
    var n := |inputs|;
    var states1, inputs1, outputs1 := states[..n], inputs[..n - 1], outputs[..n - 1];
    forall i | 0 <= i < |inputs1|
      ensures Tick(states1[i], inputs1[i], states1[i + 1], outputs1[i])
    {
      assert Tick(states[i], inputs[i], states[i + 1], outputs[i]);
    }
    assert Tick(states[n - 1], inputs[n - 1], states[n - 1 + 1], outputs[n - 1]);
  }

  function AllFramesTo(outputs: seq<seq<Message>>, address: string): seq<Message>
    decreases |outputs|
  {
    if outputs == [] then []
    else AllFramesTo(outputs[..|outputs| - 1], address) + FramesTo(outputs[|outputs| - 1], address)
  }

  predicate IsClearing(m: Message) {
    m.packet.pointCount == 0
  }

  // What a client shows after some frames: something, unless cleared since.
  function Showing(frames: seq<Message>): bool {
    frames != [] && !IsClearing(frames[|frames| - 1])
  }

  // Every clearing frame directly follows a frame that showed something: the
  // frames form (shown+ clearing)* shown*.
  ghost predicate ClearsOnlyWhatShows(frames: seq<Message>) {
    forall k :: 0 <= k < |frames| && IsClearing(frames[k]) ==> Showing(frames[..k])
  }

  lemma LastTickExtendsFrames(states: seq<State>, inputs: seq<TickInput>, outputs: seq<seq<Message>>, address: string)
    requires Ticks(states, inputs, outputs) && StaysBound(states, inputs) && inputs != []
    requires UniqueAddresses(inputs[|inputs| - 1].streams)
    requires Follows(AllFramesTo(outputs[..|inputs| - 1], address), states[|inputs| - 1], address)
    requires Clears(AllFramesTo(outputs[..|inputs| - 1], address)) == StopCount(states[..|inputs|], address)
    ensures Follows(AllFramesTo(outputs, address), states[|inputs|], address)
    ensures Clears(AllFramesTo(outputs, address)) == StopCount(states, address)
  {
    var n := |inputs|;
    TickExtendsFrames(states[n - 1], inputs[n - 1], states[n], outputs[n - 1], AllFramesTo(outputs[..n - 1], address),
                      address);
  }

  // Over any run of ticks that leave the socket bound, rebinds included, the
  // frames sent to an address show its stream exactly while it is live, and
  // clear it exactly once each time it stops. (They are the frames sent: after a
  // rebind no client is subscribed until it has connected again.)
  lemma {:induction false} FramesFollowLiveness(states: seq<State>, inputs: seq<TickInput>,
                                                outputs: seq<seq<Message>>, address: string)
    requires Ticks(states, inputs, outputs) && StaysBound(states, inputs)
    requires forall i :: 0 <= i < |inputs| ==> UniqueAddresses(inputs[i].streams)
    requires address !in states[0].clouds && WellKeyed(states[0].clouds, states[0].data)
    ensures Follows(AllFramesTo(outputs, address), states[|inputs|], address)
    ensures Clears(AllFramesTo(outputs, address)) == StopCount(states, address)
    decreases |inputs|
  {
    if inputs == [] {
      NothingSentYet(states[0], address);
    } else {
      RunButLast(states, inputs, outputs);
      FramesFollowLiveness(states[..|inputs|], inputs[..|inputs| - 1], outputs[..|inputs| - 1], address);
      LastTickExtendsFrames(states, inputs, outputs, address);
    }
  }

  lemma NothingSentYet(s: State, address: string)
    requires address !in s.clouds && WellKeyed(s.clouds, s.data)
    ensures Follows(AllFramesTo([], address), s, address) && Clears(AllFramesTo([], address)) == 0
  {}

  // A client that has read these frames shows the address exactly when the
  // publisher has it cached.
  ghost predicate Follows(frames: seq<Message>, s: State, address: string) {
    && s.clouds.Keys == s.data.Keys
    && CachedNonEmpty(address, CachedAt(s.clouds, s.data, address))
    && ClearsOnlyWhatShows(frames)
    && (Showing(frames) <==> address in s.clouds)
  }

  lemma TickExtendsFrames(s: State, input: TickInput, s': State, sent: seq<Message>, before: seq<Message>,
                          address: string)
    requires Tick(s, input, s', sent) && UniqueAddresses(input.streams) && s'.bound
    requires Follows(before, s, address)
    ensures
      var frames := before + FramesTo(sent, address);
      && Follows(frames, s', address)
      && Clears(frames) == Clears(before) + (if address in s.clouds && address !in s'.clouds then 1 else 0)
  {
    CacheHoldsLiveStreams(s, input, s', sent, address);
    TickSends(s, input, s', sent, address);
    var added := FramesTo(sent, address);
    if address in s'.clouds {
      assert s'.data[address].packet.pointCount > 0;
      assert added == [] || added == [s'.data[address]];
      ExtendFrames(before, added);
    } else if address in s.clouds {
      assert added == [Frame(address, Clearing, input.now)];
      ExtendFrames(before, added);
    } else {
      assert added == [];
      ExtendFrames(before, added);
    }
  }

  function Clears(frames: seq<Message>): nat
    decreases |frames|
  {
    if frames == [] then 0
    else Clears(frames[..|frames| - 1]) + (if IsClearing(frames[|frames| - 1]) then 1 else 0)
  }

  // How often an address went from cached to not cached.
  function StopCount(states: seq<State>, address: string): nat
    decreases |states|
  {
    if |states| <= 1 then 0 else
      var n := |states| - 1;
      StopCount(states[..n], address)
        + (if address in states[n - 1].clouds && address !in states[n].clouds then 1 else 0)
  }

  lemma ExtendFrames(before: seq<Message>, added: seq<Message>)
    requires |added| <= 1 && ClearsOnlyWhatShows(before)
    requires added != [] && IsClearing(added[0]) ==> Showing(before)
    ensures ClearsOnlyWhatShows(before + added)
    ensures Showing(before + added) == if added == [] then Showing(before) else !IsClearing(added[0])
    ensures Clears(before + added) == Clears(before) + (if added != [] && IsClearing(added[0]) then 1 else 0)
  {
    var frames := before + added;
    if added != [] { assert frames[..|frames| - 1] == before; }
    if added == [] { assert frames == before; }
    forall k | 0 <= k < |frames| && IsClearing(frames[k]) ensures Showing(frames[..k]) {
      if k < |before| { assert frames[..k] == before[..k]; } else { assert frames[..k] == before; }
    }
  }

  // ---- addresses shared by several streams ----
  // A duplicated device keeps its label and its parent, so two streams can have
  // one address. Only the first of them is redirected when the channel stops.

  // Whether the channel, as it stops, is left with a frame that shows something.
  ghost predicate Strays(cached: Cached, publishing: seq<CloudPtr>) {
    Stops(cached, publishing) && exists i :: 1 <= i < |publishing| && Changed(cached, publishing[i])
  }

  lemma {:induction false} LastChanged(cached: Cached, clouds: seq<CloudPtr>)
    requires clouds != [] && Changed(cached, clouds[0])
    ensures
      var changed := ChangedOnly(cached, clouds);
      && changed != []
      && ((changed[|changed| - 1] == clouds[0] && forall i :: 1 <= i < |clouds| ==> !Changed(cached, clouds[i]))
          || exists i :: 1 <= i < |clouds| && Changed(cached, clouds[i]) && changed[|changed| - 1] == clouds[i])
    decreases |clouds|
  {
    var last := |clouds| - 1;
    if last == 0 {
      assert ChangedOnly(cached, clouds[..0]) == [];
    } else if !Changed(cached, clouds[last]) {
      LastChanged(cached, clouds[..last]);
      var changed := ChangedOnly(cached, clouds);
      if i :| 1 <= i < last && Changed(cached, clouds[..last][i]) && changed[|changed| - 1] == clouds[..last][i] {
        assert clouds[..last][i] == clouds[i];
      } else {
        forall i | 1 <= i < |clouds| ensures !Changed(cached, clouds[i]) {
          if i < last { assert clouds[..last][i] == clouds[i]; }
        }
      }
    }
  }

  // What is sent of a stopped address ends with the clearing cloud exactly when
  // none of its other streams has changed.
  lemma LastRedirected(cached: Cached, publishing: seq<CloudPtr>)
    requires cached.Cached? && Changed(cached, Clearing) && forall c :: c in publishing ==> !c.Clearing?
    ensures
      var changed := ChangedOnly(cached, Redirected(publishing));
      && changed != [] && Changed(cached, changed[|changed| - 1])
      && (changed[|changed| - 1] == Clearing || changed[|changed| - 1] in publishing)
      && (changed[|changed| - 1] == Clearing
          <==> forall i :: 1 <= i < |publishing| ==> !Changed(cached, publishing[i]))
  {
    var sending := Redirected(publishing);
    LastChanged(cached, sending);
    assert forall i :: 1 <= i < |publishing| ==> sending[i] == publishing[i] && publishing[i] in publishing;
  }

  // What a stopping channel sends: one frame for each stream, a single clearing
  // frame exactly when no other stream shares the address, and clearing frames
  // only exactly when no other stream at it has something new.
  lemma StoppingTick(address: string, cached: Cached, publishing: seq<CloudPtr>, resend: bool, now: nat)
    requires CachedNonEmpty(address, cached) && Stops(cached, publishing)
    requires forall c :: c in publishing ==> !c.Clearing?
    ensures
      var t := TickChannel(address, cached, publishing, resend, now);
      && t.cached.NotCached?
      && |t.frames| == Max(|publishing|, 1)
      && (t.frames == [Frame(address, Clearing, now)] <==> |publishing| <= 1)
      && ((forall m :: m in t.frames ==> IsClearing(m))
          <==> forall i :: 1 <= i < |publishing| ==> !Changed(cached, publishing[i]))
      && (Showing(t.frames) <==> Strays(cached, publishing))
  {
    var t := TickChannel(address, cached, publishing, resend, now);
    var sending := Redirected(publishing);
    LastRedirected(cached, publishing);
    var changed := ChangedOnly(cached, sending);
    var m := Frame(address, changed[|changed| - 1], now);
    assert t.frames == Repeat(m, |sending|) && t.frames[0] == m && t.frames[|t.frames| - 1] == m;
    assert IsClearing(m) <==> changed[|changed| - 1] == Clearing;
  }

  // A tick that does not stop its channel: it sends nothing but frames that
  // show something, and sends one if the channel is cached only afterwards.
  lemma RunningTick(address: string, cached: Cached, publishing: seq<CloudPtr>, resend: bool, now: nat)
    requires CachedNonEmpty(address, cached) && !Stops(cached, publishing)
    requires forall c :: c in publishing ==> !c.Clearing?
    ensures
      var t := TickChannel(address, cached, publishing, resend, now);
      && CachedNonEmpty(address, t.cached)
      && (t.cached.NotCached? ==> cached.NotCached? && t.frames == [])
      && (t.frames != [] ==> Showing(t.frames))
      && (cached.NotCached? && t.cached.Cached? ==> t.frames != [])
  {
    ChangedAreChanged(cached, publishing);
    var changed := ChangedOnly(cached, publishing);
    if changed != [] { assert changed[|changed| - 1] in publishing; }
  }

  lemma {:induction false} ChangedAreChanged(cached: Cached, clouds: seq<CloudPtr>)
    ensures forall c :: c in ChangedOnly(cached, clouds) ==> Changed(cached, c) && c in clouds
    decreases |clouds|
  {
    if clouds == [] {
    } else {
      ChangedAreChanged(cached, clouds[..|clouds| - 1]);
    }
  }

  ghost predicate StraysAt(s: State, input: TickInput, s': State, address: string)
    requires s.clouds.Keys == s.data.Keys
  {
    Strays(CachedAt(s.clouds, s.data, address), PublishedClouds(input.streams, input.channels, s'.counts, address))
  }

  // Whether a client that read these frames shows the address exactly when the
  // publisher has it cached.
  predicate InStep(frames: seq<Message>, s: State, address: string) {
    Showing(frames) <==> address in s.clouds
  }

  lemma TickStaysInStep(s: State, input: TickInput, s': State, sent: seq<Message>, before: seq<Message>,
                        address: string)
    requires Tick(s, input, s', sent) && s'.bound
    requires CachedNonEmpty(address, CachedAt(s.clouds, s.data, address))
    ensures CachedNonEmpty(address, CachedAt(s'.clouds, s'.data, address))
    ensures InStep(before, s, address) ==>
              (InStep(before + FramesTo(sent, address), s', address) <==> !StraysAt(s, input, s', address))
  {
    var cached := CachedAt(s.clouds, s.data, address);
    var publishing := PublishedClouds(input.streams, input.channels, s'.counts, address);
    var resend := Resends(input, s'.bound, address);
    AtMembers(input.streams, address);
    forall c | c in publishing ensures !c.Clearing? {
      var i :| 0 <= i < |input.streams| && input.streams[i] == PointStream(address, c);
    }
    assert ChannelTicked(address, cached, publishing, resend, input.now, s'.bound,
                         CachedAt(s'.clouds, s'.data, address), FramesTo(sent, address));
    if Stops(cached, publishing) {
      StoppingTick(address, cached, publishing, resend, input.now);
    } else {
      RunningTick(address, cached, publishing, resend, input.now);
    }
    if FramesTo(sent, address) == [] { assert before + FramesTo(sent, address) == before; }
  }

  ghost predicate AlwaysInStep(states: seq<State>, outputs: seq<seq<Message>>, address: string)
    requires |states| == |outputs| + 1
  {
    forall k :: 0 <= k < |states| ==> InStep(AllFramesTo(outputs[..k], address), states[k], address)
  }

  ghost predicate NeverStrays(states: seq<State>, inputs: seq<TickInput>, address: string)
    requires |states| == |inputs| + 1 && CachesAreKeyed(states, address)
  {
    forall k :: 0 <= k < |inputs| ==> !StraysAt(states[k], inputs[k], states[k + 1], address)
  }

  lemma AllInStepButLast(states: seq<State>, outputs: seq<seq<Message>>, address: string)
    requires |states| == |outputs| + 1 && outputs != []
    ensures
      var n := |outputs|;
      AlwaysInStep(states, outputs, address) <==>
        (AlwaysInStep(states[..n], outputs[..n - 1], address)
         && InStep(AllFramesTo(outputs, address), states[n], address))
  {
    var n := |outputs|;
    assert outputs[..n] == outputs;
    forall k | 0 <= k < n ensures outputs[..n - 1][..k] == outputs[..k] && states[..n][k] == states[k] {}
    if AlwaysInStep(states[..n], outputs[..n - 1], address)
        && InStep(AllFramesTo(outputs, address), states[n], address) {
      forall k | 0 <= k < |states| ensures InStep(AllFramesTo(outputs[..k], address), states[k], address) {
        if k < n {
          assert outputs[..n - 1][..k] == outputs[..k] && states[..n][k] == states[k];
          assert InStep(AllFramesTo(outputs[..n - 1][..k], address), states[..n][k], address);
        }
      }
    }
  }

  lemma NeverStraysButLast(states: seq<State>, inputs: seq<TickInput>, address: string)
    requires |states| == |inputs| + 1 && inputs != [] && CachesAreKeyed(states, address)
    ensures
      var n := |inputs|;
      && CachesAreKeyed(states[..n], address)
      && (NeverStrays(states, inputs, address) <==>
            (NeverStrays(states[..n], inputs[..n - 1], address)
             && !StraysAt(states[n - 1], inputs[n - 1], states[n], address)))
  {
    var n := |inputs|;
    assert CachesAreKeyed(states[..n], address);
    if NeverStrays(states[..n], inputs[..n - 1], address) {
      forall k | 0 <= k < n - 1 ensures !StraysAt(states[k], inputs[k], states[k + 1], address) {
        assert !StraysAt(states[..n][k], inputs[..n - 1][k], states[..n][k + 1], address);
      }
    }
    if NeverStrays(states, inputs, address) {
      forall k | 0 <= k < n - 1 ensures !StraysAt(states[..n][k], inputs[..n - 1][k], states[..n][k + 1], address) {
        assert !StraysAt(states[k], inputs[k], states[k + 1], address);
      }
    }
  }

  lemma {:induction false} RunKeepsCachesKeyed(states: seq<State>, inputs: seq<TickInput>,
                                               outputs: seq<seq<Message>>, address: string)
    requires Ticks(states, inputs, outputs) && StaysBound(states, inputs)
    requires states[0].clouds.Keys == states[0].data.Keys && address !in states[0].clouds
    ensures CachesAreKeyed(states, address)
    decreases |inputs|
  {
    var n := |inputs|;
    if n == 0 {
    } else {
      RunButLast(states, inputs, outputs);
      RunKeepsCachesKeyed(states[..n], inputs[..n - 1], outputs[..n - 1], address);
      assert CachesAreKeyed(states[..n], address) && states[..n][n - 1] == states[n - 1];
      TickStaysInStep(states[n - 1], inputs[n - 1], states[n], outputs[n - 1], [], address);
      forall k | 0 <= k < |states| ensures CacheIsKeyed(states[k], address) {
        if k < n { assert CacheIsKeyed(states[..n][k], address); }
      }
    }
  }

  // Over any run of ticks that leave the socket bound, addresses shared or not,
  // the frames sent are in step with the cache after every tick exactly when no
  // tick stopped the channel with something new from another stream at its
  // address.
  lemma {:induction false} InStepUnlessSomeTickStrays(states: seq<State>, inputs: seq<TickInput>,
                                                      outputs: seq<seq<Message>>, address: string)
    requires Ticks(states, inputs, outputs) && StaysBound(states, inputs)
    requires states[0].clouds.Keys == states[0].data.Keys && address !in states[0].clouds
    ensures CachesAreKeyed(states, address)
    ensures AlwaysInStep(states, outputs, address) <==> NeverStrays(states, inputs, address)
    decreases |inputs|
  {
    var n := |inputs|;
    RunKeepsCachesKeyed(states, inputs, outputs, address);
    if n == 0 {
    } else {
      RunButLast(states, inputs, outputs);
      InStepUnlessSomeTickStrays(states[..n], inputs[..n - 1], outputs[..n - 1], address);
      AllInStepButLast(states, outputs, address);
      NeverStraysButLast(states, inputs, address);
      LastInStep(states[..n], outputs[..n - 1], address);
      assert CacheIsKeyed(states[n - 1], address);
      TickStaysInStep(states[n - 1], inputs[n - 1], states[n], outputs[n - 1],
                      AllFramesTo(outputs[..n - 1], address), address);
    }
  }

  lemma LastInStep(states: seq<State>, outputs: seq<seq<Message>>, address: string)
    requires |states| == |outputs| + 1
    ensures AlwaysInStep(states, outputs, address) ==> InStep(AllFramesTo(outputs, address), states[|outputs|], address)
  {
    assert outputs[..|outputs|] == outputs;
  }

  ghost predicate CacheIsKeyed(s: State, address: string) {
    s.clouds.Keys == s.data.Keys && CachedNonEmpty(address, CachedAt(s.clouds, s.data, address))
  }

  ghost predicate CachesAreKeyed(states: seq<State>, address: string) {
    forall k :: 0 <= k < |states| ==> CacheIsKeyed(states[k], address)
  }

  // Input that offers some clouds at one address, on settings that never change.
  function SharedInput(streams: seq<OfferedStream>, received: seq<string>): TickInput {
    TickInput(streams, [], false, "*", 0, true, 1, false, true, received, 0)
  }

  lemma FramesToRepeat(m: Message, n: nat, address: string, a: string)
    requires m.topic == address + NUL
    ensures FramesTo(Repeat(m, n), a) == if a == address then Repeat(m, n) else []
  {
    TopicIdentifiesAddress(a, address);
    if n == 0 {
    } else {
      FramesToRepeat(m, n - 1, address, a);
      assert Repeat(m, n)[..n - 1] == Repeat(m, n - 1);
    }
  }

  // Everything a tick asks of its states at one address.
  ghost predicate TickedAt(s: State, input: TickInput, s': State, frames: seq<Message>, a: string)
    requires s.clouds.Keys == s.data.Keys && s'.clouds.Keys == s'.data.Keys
  {
    ChannelTicked(a, CachedAt(s.clouds, s.data, a), PublishedClouds(input.streams, input.channels, s'.counts, a),
                  Resends(input, s'.bound, a), input.now, s'.bound, CachedAt(s'.clouds, s'.data, a), frames)
  }

  ghost predicate SocketSynced(s: State, input: TickInput, s': State) {
    && s'.bound == (if Rebinds(s, input) then input.bindSucceeds else s.bound)
    && s'.counts == CountsDuring(s, input, s'.bound)
    && s'.published == s'.counts && s'.attempted == Settings(input)
  }

  lemma TickFromAddresses(s: State, input: TickInput, s': State, sent: seq<Message>)
    requires WellKeyed(s.clouds, s.data) && WellKeyed(s'.clouds, s'.data) && SocketSynced(s, input, s')
    requires forall a :: TickedAt(s, input, s', FramesTo(sent, a), a)
    requires forall i :: 0 <= i < |sent| ==> EndsInNul(sent[i].topic)
    ensures Tick(s, input, s', sent)
  {
    forall a
      ensures ChannelTicked(a, CachedAt(s.clouds, s.data, a),
                            PublishedClouds(input.streams, input.channels, s'.counts, a),
                            Resends(input, s'.bound, a), input.now, s'.bound,
                            CachedAt(s'.clouds, s'.data, a), FramesTo(sent, a))
    {
      assert TickedAt(s, input, s', FramesTo(sent, a), a);
    }
  }

  // A tick in which nothing happens away from one address.
  lemma TickAtOneAddress(s: State, input: TickInput, s': State, m: Message, n: nat, address: string)
    requires WellKeyed(s.clouds, s.data) && WellKeyed(s'.clouds, s'.data) && SocketSynced(s, input, s')
    requires s.clouds.Keys <= {address} && s'.clouds.Keys <= {address} && m.topic == address + NUL
    requires forall i :: 0 <= i < |input.streams| ==> input.streams[i].address == address
    requires TickedAt(s, input, s', Repeat(m, n), address)
    ensures Tick(s, input, s', Repeat(m, n))
  {
    forall a ensures TickedAt(s, input, s', FramesTo(Repeat(m, n), a), a) {
      FramesToRepeat(m, n, address, a);
      if a != address {
        QuietElsewhere(input, s'.counts, a);
        assert a !in s.clouds && a !in s'.clouds;
      }
    }
    TickFromAddresses(s, input, s', Repeat(m, n));
  }

  lemma QuietElsewhere(input: TickInput, counts: map<string, nat>, a: string)
    requires forall i :: 0 <= i < |input.streams| ==> input.streams[i].address != a
    ensures PublishedClouds(input.streams, input.channels, counts, a) == []
    ensures forall resend :: TickChannel(a, NotCached, [], resend, input.now) == ChannelTick(NotCached, [])
  {
    AtAbsent(input.streams, a);
  }

  lemma AtBoth(address: string, c: CloudPtr, d: CloudPtr)
    ensures At([PointStream(address, c), PointStream(address, d)], address) == [c, d]
  {
    var first: seq<PointStream> := [PointStream(address, c)];
    assert first[..0] == [];
    AtAppend(first, PointStream(address, d), address);
    assert first + [PointStream(address, d)] == [PointStream(address, c), PointStream(address, d)];
  }

  lemma LastChangedOfTwo(cached: Cached, c: CloudPtr, d: CloudPtr)
    requires Changed(cached, d)
    ensures var changed := ChangedOnly(cached, [c, d]); changed != [] && changed[|changed| - 1] == d
  {
    assert [c, d][..1] == [c] && [c, d][1] == d;
  }

  // What two streams at one address do to their channel.
  lemma TwoStreams(address: string, cached: Cached, c: CloudPtr, d: CloudPtr, resend: bool)
    requires c.Shared? && d.Shared? && d.points > 0
    requires cached.Cached? ==> cached.cloud.Shared? && cached.cloud.id != d.id
    ensures
      var stops := cached.Cached? && c.points == 0;
      TickChannel(address, cached, [c, d], resend, 0)
        == ChannelTick(if stops then NotCached else Cached(d, Frame(address, d, 0)), Repeat(Frame(address, d, 0), 2))
  {
    assert Redirected([c, d]) == [Clearing, d];
    LastChangedOfTwo(cached, c, d);
    LastChangedOfTwo(cached, Clearing, d);
  }

  lemma EverythingIsCounted(address: string)
    ensures CountedAll(map[], [[SUBSCRIBE]]) == map["" := 1]
    ensures HasSubscriber(map["" := 1], address)
  {
    var m: string := [SUBSCRIBE];
    assert [m][..0] == [] && m[1..] == "";
    assert "" in map["" := 1] && "" <= address;
  }

  function SharedStreams(address: string, c: CloudPtr, d: CloudPtr): seq<OfferedStream>
    requires c.Shared? && d.Shared?
  {
    [PointStream(address, c), PointStream(address, d)]
  }

  const EVERYTHING: string := [SUBSCRIBE]

  // A publisher with one client, subscribed to everything.
  function Serving(clouds: map<string, CloudPtr>, data: map<string, Message>): State {
    var counts := map["" := 1];
    State(clouds, data, counts, counts, true, SocketSettings("*", 0, 1))
  }

  function Unbound(): State {
    State(map[], map[], map[], map[], false, SocketSettings("", 0, 0))
  }

  lemma SharedFirstTick(address: string, c: CloudPtr, d: CloudPtr)
    requires c.Shared? && d.Shared? && d.points > 0
    ensures Tick(Unbound(), SharedInput(SharedStreams(address, c, d), [EVERYTHING]),
                 Serving(map[address := d], map[address := Frame(address, d, 0)]), Repeat(Frame(address, d, 0), 2))
  {
    var s, input := Unbound(), SharedInput(SharedStreams(address, c, d), [EVERYTHING]);
    var s' := Serving(map[address := d], map[address := Frame(address, d, 0)]);
    EverythingIsCounted(address);
    AtBoth(address, c, d);
    TwoStreams(address, NotCached, c, d, Resends(input, true, address));
    TickAtOneAddress(s, input, s', Frame(address, d, 0), 2, address);
  }

  lemma SharedStoppingTick(address: string, e: CloudPtr, c: CloudPtr, d: CloudPtr)
    requires e.Shared? && c.Shared? && d.Shared? && e.points > 0 && c.points == 0 && d.points > 0 && d.id != e.id
    ensures Tick(Serving(map[address := e], map[address := Frame(address, e, 0)]),
                 SharedInput(SharedStreams(address, c, d), []), Serving(map[], map[]), Repeat(Frame(address, d, 0), 2))
  {
    var s := Serving(map[address := e], map[address := Frame(address, e, 0)]);
    var input := SharedInput(SharedStreams(address, c, d), []);
    EverythingIsCounted(address);
    AtBoth(address, c, d);
    TwoStreams(address, Cached(e, Frame(address, e, 0)), c, d, Resends(input, true, address));
    TickAtOneAddress(s, input, Serving(map[], map[]), Frame(address, d, 0), 2, address);
  }

  lemma IdleTick(m: Message)
    requires EndsInNul(m.topic)
    ensures Tick(Serving(map[], map[]), SharedInput([], []), Serving(map[], map[]), Repeat(m, 0))
  {
    var s := Serving(map[], map[]);
    forall a ensures TickedAt(s, SharedInput([], []), s, FramesTo(Repeat(m, 0), a), a) {
      QuietElsewhere(SharedInput([], []), map["" := 1], a);
    }
    TickFromAddresses(Serving(map[], map[]), SharedInput([], []), Serving(map[], map[]), Repeat(m, 0));
  }

  lemma FramesOfThree(m1: Message, m2: Message, address: string)
    requires m1.topic == address + NUL && m2.topic == address + NUL
    ensures AllFramesTo([Repeat(m1, 2), Repeat(m2, 2), Repeat(m2, 0)], address) == [m1, m1, m2, m2]
  {
    var outputs := [Repeat(m1, 2), Repeat(m2, 2), Repeat(m2, 0)];
    assert outputs[..2] == [Repeat(m1, 2), Repeat(m2, 2)] && outputs[..2][..1] == [Repeat(m1, 2)];
    assert outputs[..2][..1][..0] == [];
    assert AllFramesTo(outputs, address) == AllFramesTo(outputs[..2], address) + FramesTo(Repeat(m2, 0), address);
    assert AllFramesTo(outputs[..2], address)
        == AllFramesTo([Repeat(m1, 2)], address) + FramesTo(Repeat(m2, 2), address);
    FramesToRepeat(m1, 2, address, address);
    FramesToRepeat(m2, 2, address, address);
  }

  lemma ThreeTicks(s0: State, s1: State, s2: State, s3: State, i0: TickInput, i1: TickInput, i2: TickInput,
                   o0: seq<Message>, o1: seq<Message>, o2: seq<Message>)
    requires Tick(s0, i0, s1, o0) && Tick(s1, i1, s2, o1) && Tick(s2, i2, s3, o2)
    ensures Ticks([s0, s1, s2, s3], [i0, i1, i2], [o0, o1, o2])
  {}

  // From nothing cached: both streams of an address show something, then the
  // first becomes empty while the second has a new cloud, then both are gone.
  // The address is never cleared and goes on being shown.
  lemma SharedAddressIsNeverCleared(address: string)
    returns (states: seq<State>, inputs: seq<TickInput>, outputs: seq<seq<Message>>)
    ensures Ticks(states, inputs, outputs) && StaysBound(states, inputs)
    ensures states[0] == Unbound() && |inputs| == 3 && inputs[2].streams == []
    ensures address in states[1].clouds && address !in states[2].clouds && address !in states[3].clouds
    ensures Showing(AllFramesTo(outputs, address))
    ensures forall m :: m in AllFramesTo(outputs, address) ==> !IsClearing(m)
  {
    var c1, d1, c2, d2 := Shared(1, 5), Shared(2, 7), Shared(3, 0), Shared(4, 7);
    var m1, m2 := Frame(address, d1, 0), Frame(address, d2, 0);
    SharedFirstTick(address, c1, d1);
    SharedStoppingTick(address, d1, c2, d2);
    IdleTick(m2);
    var s1, s2 := Serving(map[address := d1], map[address := m1]), Serving(map[], map[]);
    var i0 := SharedInput(SharedStreams(address, c1, d1), [EVERYTHING]);
    var i1 := SharedInput(SharedStreams(address, c2, d2), []);
    ThreeTicks(Unbound(), s1, s2, s2, i0, i1, SharedInput([], []), Repeat(m1, 2), Repeat(m2, 2), Repeat(m2, 0));
    states, inputs := [Unbound(), s1, s2, s2], [i0, i1, SharedInput([], [])];
    outputs := [Repeat(m1, 2), Repeat(m2, 2), Repeat(m2, 0)];
    FramesOfThree(m1, m2, address);
  }
}
