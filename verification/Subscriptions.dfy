// A receiver's subscriptions: an immutable snapshot the caller replaces, and
// the socket that its worker thread brings into line with it.
module Subscriptions {
  import opened Common
  import opened Wire
  import PointStreamer

  // A shared pointer to an immutable set of addresses.
  datatype Snapshot = NoSnapshot | Snapshot(id: nat, addresses: set<string>)

  function Addresses(s: Snapshot): set<string> {
    if s.NoSnapshot? then {} else s.addresses
  }

  function Topics(addresses: set<string>): multiset<string> {
    multiset(set a | a in addresses :: Topic(a))
  }

  lemma TopicsOfOneMore(addresses: set<string>, a: string)
    requires a !in addresses
    ensures Topics(addresses + {a}) == Topics(addresses) + multiset{Topic(a)}
  {
    forall b | b in addresses ensures Topic(b) != Topic(a) { TopicIsInjective(a, b); }
    assert (set b | b in addresses + {a} :: Topic(b)) == (set b | b in addresses :: Topic(b)) + {Topic(a)};
  }

  // A subscriber socket: its topics, each as often as it was subscribed, and
  // what it has told the publisher.
  class SubSocket {
    var topics: multiset<string>
    var told: seq<string>

    constructor ()
      ensures topics == multiset{} && told == []
    {
      topics, told := multiset{}, [];
    }

    method Subscribe(topic: string)
      modifies this
      ensures topics == old(topics) + multiset{topic}
      ensures told == if topic in old(topics) then old(told) else old(told) + [[PointStreamer.SUBSCRIBE] + topic]
    {
      if topic !in topics { told := told + [[PointStreamer.SUBSCRIBE] + topic]; }
      topics := topics + multiset{topic};
    }

    method Unsubscribe(topic: string)
      modifies this
      ensures topics == old(topics) - multiset{topic}
      ensures told == if old(topics)[topic] == 1 then old(told) + [NUL + topic] else old(told)
    {
      if topics[topic] == 1 { told := told + [NUL + topic]; }
      topics := topics - multiset{topic};
    }
  }

  // What a publisher has heard from this socket agrees with the addresses the
  // socket holds.
  ghost predicate ToldOf(told: seq<string>, addresses: set<string>) {
    forall a :: PointStreamer.Net(told, a) == if a in addresses then 1 else 0
  }

  // The socket holds each of these addresses exactly once, and no others.
  ghost predicate Holds(socket: SubSocket, addresses: set<string>)
    reads socket
  {
    socket.topics == Topics(addresses) && ToldOf(socket.told, addresses)
  }

  lemma TopicHeld(addresses: set<string>, a: string)
    ensures Topic(a) in Topics(addresses) <==> a in addresses
    ensures Topics(addresses)[Topic(a)] == if a in addresses then 1 else 0
  {
    if Topic(a) in Topics(addresses) {
      var b :| b in addresses && Topic(b) == Topic(a);
      TopicIsInjective(a, b);
    }
  }

  lemma TellingOfOne(told: seq<string>, kind: char, a: string)
    ensures forall b ::
      PointStreamer.Net(told + [[kind] + Topic(a)], b)
        == PointStreamer.Net(told, b) + (if b != a then 0 else if kind == PointStreamer.SUBSCRIBE then 1 else -1)
  {
    var message := [kind] + Topic(a);
    assert message[1..] == Topic(a);
    assert a != "" ==> Topic(a)[..|Topic(a)| - 1] == a;
    assert PointStreamer.StripNul(message[1..]) == a;
    assert (told + [message])[..|told|] == told;
  }

  method SubscribeTo(socket: SubSocket, a: string, ghost held: set<string>)
    requires Holds(socket, held) && a !in held
    modifies socket
    ensures Holds(socket, held + {a})
  {
    TopicHeld(held, a);
    TopicsOfOneMore(held, a);
    TellingOfOne(socket.told, PointStreamer.SUBSCRIBE, a);
    socket.Subscribe(if a == "" then a else a + NUL);
  }

  method UnsubscribeFrom(socket: SubSocket, a: string, ghost held: set<string>)
    requires Holds(socket, held) && a in held
    modifies socket
    ensures Holds(socket, held - {a})
  {
    TopicHeld(held, a);
    TopicsOfOneMore(held - {a}, a);
    assert held - {a} + {a} == held;
    TellingOfOne(socket.told, '\0', a);
    socket.Unsubscribe(if a == "" then a else a + NUL);
  }

  method SubscribeNew(current: set<string>, latest: set<string>, socket: SubSocket)
    requires Holds(socket, current)
    modifies socket
    ensures Holds(socket, current + latest)
  {
    var left := latest;
    ghost var held := current;
    while left != {}
      invariant left <= latest && held == current + (latest - left)
      invariant Holds(socket, held)
      decreases |left|
    {
      var a :| a in left;
      if a !in current {
        SubscribeTo(socket, a, held);
        held := held + {a};
      }
      left := left - {a};
    }
    assert held == current + latest;
  }

  method UnsubscribeOld(current: set<string>, latest: set<string>, socket: SubSocket)
    requires Holds(socket, current + latest)
    modifies socket
    ensures Holds(socket, latest)
  {
    var left := current;
    ghost var held := current + latest;
    while left != {}
      invariant left <= current && held == left + latest
      invariant Holds(socket, held)
      decreases |left|
    {
      var a :| a in left;
      if a !in latest {
        UnsubscribeFrom(socket, a, held);
        held := held - {a};
      }
      left := left - {a};
    }
    assert held == latest;
  }

  // Bring the socket from the current snapshot to the latest. Snapshots are
  // compared as pointers.
  method SyncSubscriptions(current: Snapshot, socket: SubSocket, latest: Snapshot) returns (now: Snapshot)
    requires latest.Snapshot?
    requires Holds(socket, Addresses(current))
    requires current.Snapshot? && current.id == latest.id ==> current == latest
    modifies socket
    ensures now == latest && Holds(socket, latest.addresses)
  {
    if current.Snapshot? && latest.id == current.id { return current; }
    SubscribeNew(Addresses(current), latest.addresses, socket);
    now := latest;
    if current.NoSnapshot? || current.addresses == {} {
      assert Addresses(current) + latest.addresses == latest.addresses;
      return;
    }
    UnsubscribeOld(current.addresses, latest.addresses, socket);
  }

  // A receiver context with its point cloud worker: the caller replaces the
  // snapshot, the worker brings its socket into line.
  class Receiver {
    var subscriptions: Snapshot
    var nextId: nat
    var socket: SubSocket
    var synced: Snapshot

    ghost predicate Valid()
      reads this, socket
    {
      && subscriptions.Snapshot? && subscriptions.id < nextId
      && Holds(socket, Addresses(synced))
      && (synced.Snapshot? ==> synced.id < nextId && (synced.id == subscriptions.id ==> synced == subscriptions))
    }

    constructor ()
      ensures Valid() && fresh(socket) && subscriptions.addresses == {} && synced.NoSnapshot?
    {
      subscriptions, nextId, synced := Snapshot(0, {}), 1, NoSnapshot;
      socket := new SubSocket();
      new;
      assert forall a: string :: a !in Addresses(synced);
      assert Topics({}) == multiset{};
    }

    method Subscribe(address: string)
      requires Valid()
      modifies this`subscriptions, this`nextId
      ensures Valid()
      ensures subscriptions.addresses == old(subscriptions.addresses) + {address}
    {
      subscriptions := Snapshot(nextId, subscriptions.addresses + {address});
      nextId := nextId + 1;
    }

    method Unsubscribe(address: string)
      requires Valid()
      modifies this`subscriptions, this`nextId
      ensures Valid()
      ensures subscriptions.addresses == old(subscriptions.addresses) - {address}
    {
      subscriptions := Snapshot(nextId, subscriptions.addresses - {address});
      nextId := nextId + 1;
    }

    // Stopping and starting the worker gives it a new socket that knows of no
    // subscription yet.
    method RestartWorker()
      requires Valid()
      modifies this`socket, this`synced
      ensures Valid() && fresh(socket) && synced.NoSnapshot?
    {
      socket := new SubSocket();
      synced := NoSnapshot;
      assert Topics({}) == multiset{};
    }

    method Sync()
      requires Valid()
      modifies this`synced, socket
      ensures Valid() && synced == subscriptions
      ensures Holds(socket, subscriptions.addresses)
    {
      synced := SyncSubscriptions(synced, socket, subscriptions);
    }
  }

  // ---- from the receivers' subscriptions to the publisher's counts ----

  function Net(messages: seq<string>, topic: string): int {
    PointStreamer.Net(messages, topic)
  }

  lemma {:induction false} NetOfConcatenation(xs: seq<string>, ys: seq<string>, topic: string)
    ensures Net(xs + ys, topic) == Net(xs, topic) + Net(ys, topic)
    decreases |ys|
  {
    if ys == [] {
      assert xs + ys == xs;
    } else {
      var front := ys[..|ys| - 1];
      NetOfConcatenation(xs, front, topic);
      assert (xs + ys)[..|xs + ys| - 1] == xs + front;
    }
  }

  // The order messages arrive in does not matter to the net count.
  lemma {:induction false} NetOfPermutation(xs: seq<string>, ys: seq<string>, topic: string)
    requires multiset(xs) == multiset(ys)
    ensures Net(xs, topic) == Net(ys, topic)
    decreases |xs|
  {
    if xs == [] {
      assert multiset(ys) == multiset{};
      assert forall y :: y in ys ==> y in multiset(ys);
      assert ys == [];
    } else {
      var last := xs[|xs| - 1];
      assert last in multiset(ys);
      var i :| 0 <= i < |ys| && ys[i] == last;
      var before, after := ys[..i], ys[i + 1..];
      assert ys == before + [last] + after;
      assert xs == xs[..|xs| - 1] + [last];
      calc {
        multiset(xs[..|xs| - 1]);
        multiset(xs) - multiset{last};
        multiset(before + [last] + after) - multiset{last};
        multiset(before) + multiset(after);
        multiset(before + after);
      }
      NetOfPermutation(xs[..|xs| - 1], before + after, topic);
      NetOfConcatenation(before + [last], after, topic);
      NetOfConcatenation(before, [last], topic);
      NetOfConcatenation(before, after, topic);
      NetOfConcatenation(xs[..|xs| - 1], [last], topic);
    }
  }

  // A connected socket: what it has told the publisher, and what it holds.
  datatype Client = Client(told: seq<string>, held: set<string>)

  ghost predicate Honest(c: Client) {
    ToldOf(c.told, c.held)
  }

  function Pooled(clients: seq<Client>): seq<string> {
    if clients == [] then [] else clients[0].told + Pooled(clients[1..])
  }

  function Holders(clients: seq<Client>, a: string): nat {
    if clients == [] then 0 else (if a in clients[0].held then 1 else 0) + Holders(clients[1..], a)
  }

  lemma {:induction false} NetCountsHolders(clients: seq<Client>, a: string)
    requires forall i :: 0 <= i < |clients| ==> Honest(clients[i])
    ensures Net(Pooled(clients), a) == Holders(clients, a)
    ensures Holders(clients, a) > 0 <==> exists i :: 0 <= i < |clients| && a in clients[i].held
  {
    if clients == [] {
    } else {
      NetCountsHolders(clients[1..], a);
      NetOfConcatenation(clients[0].told, Pooled(clients[1..]), a);
      assert Honest(clients[0]);
      assert forall i :: 1 <= i < |clients| ==> clients[i] == clients[1..][i - 1];
    }
  }

  ghost predicate SomeoneReceives(clients: seq<Client>, address: string, packet: string) {
    exists i, a :: 0 <= i < |clients| && a in clients[i].held && Matches(Topic(a), FrameBytes(address, packet))
  }

  // However the messages of the connected sockets interleave, the publisher
  // sends whenever one of them would receive the frame; and its listener
  // display says so exactly, once no unsubscription has overtaken its
  // subscription.
  lemma ReceiversAreHeard(clients: seq<Client>, messages: seq<string>, address: string, packet: string)
    requires NulFree(address)
    requires forall i :: 0 <= i < |clients| ==> Honest(clients[i])
    requires forall i, a :: 0 <= i < |clients| && a in clients[i].held ==> NulFree(a)
    requires multiset(messages) == multiset(Pooled(clients))
    ensures
      var counts := PointStreamer.CountedAll(map[], messages);
      && (SomeoneReceives(clients, address, packet) ==>
            PointStreamer.HasSubscriber(counts, address) && PointStreamer.HasListeners(counts, address))
      && ((forall k, a :: 0 <= k <= |messages| ==> Net(messages[..k], a) >= 0) ==>
            (PointStreamer.HasListeners(counts, address) <==> SomeoneReceives(clients, address, packet)))
  {
    var counts := PointStreamer.CountedAll(map[], messages);
    forall a | a in {"", address}
      ensures PointStreamer.CountOf(counts, a) >= Holders(clients, a)
      ensures (forall k :: 0 <= k <= |messages| ==> Net(messages[..k], a) >= 0) ==>
                PointStreamer.CountOf(counts, a) == Holders(clients, a)
    {
      PointStreamer.CountsCoverSubscriptions(messages, a);
      NetOfPermutation(messages, Pooled(clients), a);
      NetCountsHolders(clients, a);
    }
    NetCountsHolders(clients, "");
    NetCountsHolders(clients, address);
    if SomeoneReceives(clients, address, packet) {
      var i, a :| 0 <= i < |clients| && a in clients[i].held && Matches(Topic(a), FrameBytes(address, packet));
      FrameMatchesItsAddress(a, address, packet);
      PointStreamer.ListenersAreSubscribers(counts, address);
    }
    if Holders(clients, "") > 0 || Holders(clients, address) > 0 {
      var a := if Holders(clients, "") > 0 then "" else address;
      var i :| 0 <= i < |clients| && a in clients[i].held;
      FrameMatchesItsAddress(a, address, packet);
      assert SomeoneReceives(clients, address, packet);
    }
  }
}
