/**
 * The per-room broadcast channel (a tokio `broadcast` channel of strings) as
 * the gateway uses it: a value-level model of one channel, and the heap of
 * channels that the room map and the sessions refer to by handle.
 *
 * A channel is the log of every message sent into it and one slot per
 * receiver ever subscribed: `Some(k)` is a live receiver whose next message is
 * the log entry at position `k`, `None` a receiver that was dropped. tokio
 * rounds the requested capacity up to a power of two and keeps only that many
 * of the most recent messages; a receiver that falls further behind is told
 * it lagged.
 */
module Broadcast {
  import opened Wrappers

  /** `CHANNEL_CAPACITY`, the capacity the gateway asks for. */
  const ChannelCapacity: nat := 100

  predicate IsPowerOfTwo(n: nat) {
    n == 1 || (n > 1 && n % 2 == 0 && IsPowerOfTwo(n / 2))
  }

  /** The smallest power of two that is at least `n`, searching up from `p`. */
  function NextPowerOfTwoFrom(n: nat, p: nat): (q: nat)
    requires IsPowerOfTwo(p)
    decreases n - p
    ensures IsPowerOfTwo(q) && q >= n && q >= p
    ensures p < n ==> q / 2 < n
  {
    if p >= n then p else NextPowerOfTwoFrom(n, 2 * p)
  }

  /** How many messages the channel retains: the capacity rounded up. */
  function Retained(): (r: nat)
    ensures IsPowerOfTwo(r) && r >= ChannelCapacity && r / 2 < ChannelCapacity
  {
    NextPowerOfTwoFrom(ChannelCapacity, 1)
  }

  lemma RetainedIs128()
    ensures Retained() == 128
  {
    assert NextPowerOfTwoFrom(ChannelCapacity, 64) == 128;
  }

  datatype Channel = Channel(log: seq<string>, slots: seq<Option<nat>>)

  /** Every live receiver's cursor lies within the log. */
  predicate WellFormed(c: Channel) {
    forall i :: 0 <= i < |c.slots| && c.slots[i].Some? ==> c.slots[i].value <= |c.log|
  }

  predicate IsLive(c: Channel, rx: nat) {
    rx < |c.slots| && c.slots[rx].Some?
  }

  function LiveCount(slots: seq<Option<nat>>): (n: nat)
    ensures n <= |slots|
  {
    if slots == [] then 0
    else LiveCount(slots[..|slots| - 1]) + (if slots[|slots| - 1].Some? then 1 else 0)
  }

  /** `Sender::receiver_count`: zero exactly when no receiver is live. */
  function Receivers(c: Channel): (n: nat)
    ensures n <= |c.slots|
    ensures n == 0 <==> forall i :: 0 <= i < |c.slots| ==> c.slots[i].None?
  {
    LiveCountZero(c.slots);
    LiveCount(c.slots)
  }

  lemma {:induction false} LiveCountAppend(slots: seq<Option<nat>>, s: Option<nat>)
    ensures LiveCount(slots + [s]) == LiveCount(slots) + (if s.Some? then 1 else 0)
  {
    assert (slots + [s])[..|slots|] == slots;
  }

  lemma {:induction false} LiveCountUpdate(slots: seq<Option<nat>>, i: nat, s: Option<nat>)
    requires i < |slots|
    ensures LiveCount(slots[i := s]) ==
      LiveCount(slots) - (if slots[i].Some? then 1 else 0) + (if s.Some? then 1 else 0)
  {
    var n := |slots| - 1;
    if i < n {
      assert slots[i := s][..n] == slots[..n][i := s];
      LiveCountUpdate(slots[..n], i, s);
    } else {
      assert slots[i := s][..n] == slots[..n];
    }
  }

  /** The count is zero exactly when no slot is live. */
  lemma {:induction false} LiveCountZero(slots: seq<Option<nat>>)
    ensures LiveCount(slots) == 0 <==> forall i :: 0 <= i < |slots| ==> slots[i].None?
  {
    if slots != [] {
      var n := |slots| - 1;
      LiveCountZero(slots[..n]);
      if LiveCount(slots) == 0 {
        forall i | 0 <= i < |slots| ensures slots[i].None? {
          if i < n { assert slots[i] == slots[..n][i]; }
        }
      }
      if forall i :: 0 <= i < |slots| ==> slots[i].None? {
        assert forall i :: 0 <= i < n ==> slots[..n][i].None? by {
          forall i | 0 <= i < n ensures slots[..n][i].None? { assert slots[..n][i] == slots[i]; }
        }
        assert slots[n].None?;
      }
    }
  }

  /** `broadcast::channel(..).0`, a channel nobody has subscribed to yet. */
  function NewChannel(): (c: Channel)
    ensures WellFormed(c) && c.log == [] && Receivers(c) == 0
  {
    Channel([], [])
  }

  /** `Sender::subscribe`: a new receiver at the tail, seeing only later messages. */
  function ChannelSubscribe(c: Channel): (r: (Channel, nat))
    requires WellFormed(c)
    ensures WellFormed(r.0) && r.0.log == c.log && r.1 == |c.slots|
    ensures r.0.slots == c.slots + [Some(|c.log|)]
    ensures IsLive(r.0, r.1) && Cursor(r.0, r.1) == |c.log|
    ensures Receivers(r.0) == Receivers(c) + 1
  {
    LiveCountAppend(c.slots, Some(|c.log|));
    (Channel(c.log, c.slots + [Some(|c.log|)]), |c.slots|)
  }

  /**
   * `Sender::send`: fails, storing nothing, when there is no live receiver;
   * otherwise appends the message to the log.
   */
  function ChannelSend(c: Channel, m: string): (r: (Channel, bool))
    requires WellFormed(c)
    ensures WellFormed(r.0) && r.0.slots == c.slots
    ensures r.1 <==> Receivers(c) > 0
    ensures r.0.log == if r.1 then c.log + [m] else c.log
  {
    if Receivers(c) > 0 then (Channel(c.log + [m], c.slots), true) else (c, false)
  }

  /** The dropped receiver no longer counts; nothing else changes. */
  function ChannelDrop(c: Channel, rx: nat): (d: Channel)
    requires WellFormed(c) && IsLive(c, rx)
    ensures WellFormed(d) && d.log == c.log && |d.slots| == |c.slots| && !IsLive(d, rx)
    ensures forall i :: 0 <= i < |c.slots| && i != rx ==> d.slots[i] == c.slots[i]
    ensures Receivers(d) == Receivers(c) - 1
  {
    LiveCountUpdate(c.slots, rx, None);
    Channel(c.log, c.slots[rx := None])
  }

  /** The receiver has fallen so far behind that its next message was overwritten. */
  predicate Lagging(c: Channel, rx: nat)
    requires IsLive(c, rx)
  {
    c.slots[rx].value + Retained() < |c.log|
  }

  /** The log position of a live receiver's next message. */
  function Cursor(c: Channel, rx: nat): nat
    requires IsLive(c, rx)
  {
    c.slots[rx].value
  }

  /** The messages a live receiver has yet to read. */
  function Pending(c: Channel, rx: nat): seq<string>
    requires WellFormed(c) && IsLive(c, rx)
  {
    c.log[c.slots[rx].value..]
  }

  datatype RecvOutcome = Lagged(missed: nat) | Empty | Message(m: string)

  /**
   * `Receiver::recv` without waiting: a lagging receiver is told how many
   * messages it missed and moves to the oldest retained one; otherwise it
   * gets its next message, or `Empty` when it has read everything.
   */
  function ChannelRecv(c: Channel, rx: nat): (r: (Channel, RecvOutcome))
    requires WellFormed(c) && IsLive(c, rx)
    ensures WellFormed(r.0) && r.0.log == c.log && |r.0.slots| == |c.slots| && IsLive(r.0, rx)
    ensures forall i :: 0 <= i < |c.slots| && i != rx ==> r.0.slots[i] == c.slots[i]
    ensures Receivers(r.0) == Receivers(c)
    ensures r.1.Lagged? <==> Lagging(c, rx)
    ensures r.1.Lagged? ==>
      r.1.missed > 0 && r.1.missed + Retained() == |Pending(c, rx)| &&
      Pending(r.0, rx) == Pending(c, rx)[r.1.missed..]
    ensures r.1.Empty? <==> Pending(c, rx) == []
    ensures r.1.Empty? ==> r.0 == c
    ensures r.1.Message? ==> [r.1.m] + Pending(r.0, rx) == Pending(c, rx)
    ensures r.1.Message? ==>
      Cursor(c, rx) < |c.log| && r.1.m == c.log[Cursor(c, rx)] && Cursor(r.0, rx) == Cursor(c, rx) + 1
  {
    var k := c.slots[rx].value;
    if k + Retained() < |c.log| then
      (MoveCursor(c, rx, |c.log| - Retained()), Lagged(|c.log| - Retained() - k))
    else if k < |c.log| then
      (MoveCursor(c, rx, k + 1), Message(c.log[k]))
    else
      (c, Empty)
  }

  /** The live receiver `rx` now reads from position `k`; nothing else changes. */
  function MoveCursor(c: Channel, rx: nat, k: nat): (d: Channel)
    requires WellFormed(c) && IsLive(c, rx) && k <= |c.log|
    ensures WellFormed(d) && d.log == c.log && |d.slots| == |c.slots| && d.slots[rx] == Some(k)
    ensures forall i :: 0 <= i < |c.slots| && i != rx ==> d.slots[i] == c.slots[i]
    ensures Receivers(d) == Receivers(c)
  {
    LiveCountUpdate(c.slots, rx, Some(k));
    Channel(c.log, c.slots[rx := Some(k)])
  }

  /** A new receiver has nothing to read yet: it sees only messages sent after it joined. */
  lemma {:induction false} SubscriberStartsEmpty(c: Channel)
    requires WellFormed(c)
    ensures var r := ChannelSubscribe(c); Pending(r.0, r.1) == []
  {
  }

  /**
   * Fan-out: a successful send adds the message to what EVERY live receiver
   * has yet to read, the sender's own receiver included.
   */
  lemma {:induction false} SendFanOut(c: Channel, m: string, rx: nat)
    requires WellFormed(c) && IsLive(c, rx)
    ensures ChannelSend(c, m).1
    ensures Pending(ChannelSend(c, m).0, rx) == Pending(c, rx) + [m]
  {
    LiveCountZero(c.slots);
  }

  /** A send into a channel without receivers is lost, and the channel is unchanged. */
  lemma {:induction false} SendWithoutReceivers(c: Channel, m: string)
    requires WellFormed(c) && Receivers(c) == 0
    ensures ChannelSend(c, m) == (c, false)
  {
  }

  /** A receiver that has read everything never lags, so it survives up to `Retained()` sends. */
  lemma {:induction false} CaughtUpDoesNotLag(c: Channel, rx: nat, ms: seq<string>)
    requires WellFormed(c) && IsLive(c, rx) && Pending(c, rx) == []
    requires |ms| <= Retained()
    ensures var d := Channel(c.log + ms, c.slots);
      WellFormed(d) && !Lagging(d, rx) && Pending(d, rx) == ms
  {
    var d := Channel(c.log + ms, c.slots);
    assert c.slots[rx].value == |c.log|;
    assert d.log[|c.log|..] == ms;
  }

  /**
   * The heap of broadcast channels. A `ChannelId` stands for a
   * `broadcast::Sender` handle: the room map holds one, each session holds a
   * clone, and a channel outlives its removal from the map.
   */
  type ChannelId = nat

  class Hub {
    var channels: seq<Channel>

    predicate Valid()
      reads this
    {
      forall i :: 0 <= i < |channels| ==> WellFormed(channels[i])
    }

    constructor ()
      ensures Valid() && channels == []
    {
      channels := [];
    }

    /** A fresh channel, with an empty log and no receivers. */
    method Create() returns (id: ChannelId)
      requires Valid()
      modifies this
      ensures Valid() && id == |old(channels)| && channels == old(channels) + [NewChannel()]
    {
      id := |channels|;
      channels := channels + [NewChannel()];
    }

    method Subscribe(id: ChannelId) returns (rx: nat)
      requires Valid() && id < |channels|
      modifies this
      ensures Valid() && |channels| == |old(channels)|
      ensures (channels[id], rx) == ChannelSubscribe(old(channels)[id])
      ensures channels == old(channels)[id := channels[id]]
    {
      var r := ChannelSubscribe(channels[id]);
      channels := channels[id := r.0];
      rx := r.1;
    }

    method Send(id: ChannelId, m: string) returns (ok: bool)
      requires Valid() && id < |channels|
      modifies this
      ensures Valid() && |channels| == |old(channels)|
      ensures (channels[id], ok) == ChannelSend(old(channels)[id], m)
      ensures channels == old(channels)[id := channels[id]]
    {
      var r := ChannelSend(channels[id], m);
      channels := channels[id := r.0];
      ok := r.1;
    }

    method Recv(id: ChannelId, rx: nat) returns (outcome: RecvOutcome)
      requires Valid() && id < |channels| && IsLive(channels[id], rx)
      modifies this
      ensures Valid() && |channels| == |old(channels)|
      ensures (channels[id], outcome) == ChannelRecv(old(channels)[id], rx)
      ensures channels == old(channels)[id := channels[id]]
    {
      var r := ChannelRecv(channels[id], rx);
      channels := channels[id := r.0];
      outcome := r.1;
    }

    method Drop(id: ChannelId, rx: nat)
      requires Valid() && id < |channels| && IsLive(channels[id], rx)
      modifies this
      ensures Valid()
      ensures channels == old(channels)[id := ChannelDrop(old(channels)[id], rx)]
    {
      channels := channels[id := ChannelDrop(channels[id], rx)];
    }

    /** `receiver_count()` on the handle `id`. */
    function ReceiverCount(id: ChannelId): (n: nat)
      reads this
      requires id < |channels|
      ensures n <= |channels[id].slots|
      ensures n == 0 <==> forall i :: 0 <= i < |channels[id].slots| ==> channels[id].slots[i].None?
    {
      Receivers(channels[id])
    }
  }
}
