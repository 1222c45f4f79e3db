// Framing and subscription topics on the point stream, seen as bytes: a frame
// is an address, a NUL and a packet, and a socket delivers a frame when one of
// its topics is a prefix of it.
module Wire {
  import opened Common

  predicate NulFree(s: string) {
    forall i :: 0 <= i < |s| ==> s[i] != '\0'
  }

  function FrameBytes(address: string, packet: string): string {
    address + NUL + packet
  }

  function Topic(address: string): string {
    if address == "" then "" else address + NUL
  }

  predicate Matches(topic: string, frame: string) {
    topic <= frame
  }

  lemma TopicIsInjective(a: string, b: string)
    ensures Topic(a) == Topic(b) <==> a == b
  {
    if a != "" && b != "" && Topic(a) == Topic(b) {
      assert Topic(a)[..|Topic(a)| - 1] == a && Topic(b)[..|Topic(b)| - 1] == b;
    }
  }

  // A frame reaches a subscription exactly when it is for its address, or the
  // subscription is for everything. The NUL is what keeps an address from
  // matching another that it is a prefix of.
  lemma FrameMatchesItsAddress(subscribed: string, address: string, packet: string)
    requires NulFree(subscribed) && NulFree(address)
    ensures Matches(Topic(subscribed), FrameBytes(address, packet)) <==> subscribed == "" || subscribed == address
  {
    var topic, frame := Topic(subscribed), FrameBytes(address, packet);
    assert forall i :: 0 <= i < |address| ==> frame[i] == address[i];
    assert frame[|address|] == '\0';
    if subscribed != "" && topic <= frame {
      assert topic[|subscribed|] == frame[|subscribed|];
      assert forall i :: 0 <= i < |subscribed| ==> subscribed[i] == topic[i] == frame[i];
      assert |subscribed| >= |address|;
      assert subscribed == frame[..|address|] == address;
    }
    if subscribed == address { assert frame == topic + packet || subscribed == ""; }
  }

  // Where the first NUL is, or the length when there is none.
  method FindNul(frame: string) returns (i: nat)
    ensures i <= |frame| && NulFree(frame[..i])
    ensures i < |frame| ==> frame[i] == '\0'
  {
    i := 0;
    while i < |frame| && frame[i] != '\0'
      invariant i <= |frame| && NulFree(frame[..i])
    {
      i := i + 1;
    }
  }

  // An address and a packet, taken apart at the first NUL.
  datatype Parted = Parted(address: string, packet: string)

  function Unframe(frame: string): Option<Parted>
    decreases |frame|
  {
    if frame == "" then None
    else if frame[0] == '\0' then Some(Parted("", frame[1..]))
    else match Unframe(frame[1..])
         case None => None
         case Some(p) => Some(Parted([frame[0]] + p.address, p.packet))
  }

  lemma {:induction false} UnframeFinds(frame: string, i: nat)
    requires i <= |frame| && NulFree(frame[..i]) && (i < |frame| ==> frame[i] == '\0')
    ensures Unframe(frame) == if i < |frame| then Some(Parted(frame[..i], frame[i + 1..])) else None
    decreases i
  {
    if i == 0 {
    } else {
      assert frame[1..][..i - 1] == frame[..i][1..];
      assert frame[0] == frame[..i][0];
      UnframeFinds(frame[1..], i - 1);
      if i < |frame| {
        assert [frame[0]] + frame[1..][..i - 1] == frame[..i];
        assert frame[1..][i..] == frame[i + 1..];
      }
    }
  }

  // Round trip, both ways.
  lemma UnframeInvertsFrame(address: string, packet: string)
    requires NulFree(address)
    ensures Unframe(FrameBytes(address, packet)) == Some(Parted(address, packet))
  {
    var frame := FrameBytes(address, packet);
    assert frame[..|address|] == address && frame[|address|] == '\0' && frame[|address| + 1..] == packet;
    UnframeFinds(frame, |address|);
  }

  lemma {:induction false} FrameInvertsUnframe(frame: string)
    ensures Unframe(frame).Some? ==>
              NulFree(Unframe(frame).value.address)
              && FrameBytes(Unframe(frame).value.address, Unframe(frame).value.packet) == frame
    ensures Unframe(frame).None? <==> NulFree(frame)
    decreases |frame|
  {
    if frame != "" && frame[0] != '\0' {
      FrameInvertsUnframe(frame[1..]);
      assert frame == [frame[0]] + frame[1..];
    }
  }
}
