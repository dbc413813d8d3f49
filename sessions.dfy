/**
 * One WebSocket session (`handle_socket`): the frames the client sends are
 * dispatched into the room's channel until a close frame or a receive error;
 * the forward loop drains the session's receiver into the client; on
 * disconnect the receiver is dropped and the room is removed from the map
 * once its channel has no receivers left.
 */
module Sessions {
  import opened Wrappers
  import opened Strings
  import opened Hex
  import opened Broadcast
  import opened GatewayState

  /** What the socket's stream yields: a message, or a receive error. */
  datatype Frame =
    | Text(text: string)
    | Binary(data: seq<byte>)
    | Ping(payload: seq<byte>)
    | Pong(payload: seq<byte>)
    | Close
    | ReceiveError

  /** Close and errors end the receive loop. */
  predicate Ends(f: Frame) {
    f.Close? || f.ReceiveError?
  }

  /** The message a frame publishes into the room: text verbatim, binary wrapped. */
  function Outgoing(f: Frame): (m: Option<string>)
    ensures m.Some? <==> f.Text? || f.Binary?
    ensures f.Text? ==> m == Some(f.text)
    ensures f.Binary? ==> m.Some? && EnvelopePayload(m.value) == Some(f.data)
  {
    match f
    case Text(t) => Some(t)
    case Binary(d) => EnvelopeRoundTrip(d); Some(BinaryEnvelope(d))
    case _ => None
  }

  function AsSeq(m: Option<string>): seq<string> {
    if m.Some? then [m.value] else []
  }

  predicate NoEnd(frames: seq<Frame>) {
    forall i :: 0 <= i < |frames| ==> !Ends(frames[i])
  }

  /** Everything the receive loop publishes for a stream of frames, in order. */
  function Published(frames: seq<Frame>): (ms: seq<string>)
    ensures |ms| <= Processed(frames)
  {
    if frames == [] || Ends(frames[0]) then []
    else AsSeq(Outgoing(frames[0])) + Published(frames[1..])
  }

  /** How many frames the receive loop takes from the stream, the ending one included. */
  function Processed(frames: seq<Frame>): (n: nat)
    ensures n <= |frames|
    ensures NoEnd(frames[..n]) || (n > 0 && NoEnd(frames[..n - 1]) && Ends(frames[n - 1]))
    ensures n < |frames| ==> n > 0 && Ends(frames[n - 1])
  {
    if frames == [] then 0
    else if Ends(frames[0]) then 1
    else
      var n := Processed(frames[1..]);
      assert frames[..n + 1] == [frames[0]] + frames[1..][..n];
      n + 1
  }

  /** Nothing after a close frame or an error is published. */
  lemma {:induction false} PublishedStopsAtEnd(a: seq<Frame>, f: Frame, b: seq<Frame>)
    requires Ends(f)
    ensures Published(a + [f] + b) == Published(a)
  {
    if a == [] {
      assert a + [f] + b == [f] + b;
    } else {
      assert (a + [f] + b)[1..] == a[1..] + [f] + b;
      if !Ends(a[0]) { PublishedStopsAtEnd(a[1..], f, b); }
    }
  }

  /** Over a stretch without an ending frame, publishing is concatenation. */
  lemma {:induction false} PublishedAppend(a: seq<Frame>, b: seq<Frame>)
    requires NoEnd(a)
    ensures Published(a + b) == Published(a) + Published(b)
  {
    if a == [] {
      assert a + b == b;
    } else {
      assert (a + b)[1..] == a[1..] + b;
      assert !Ends(a[0]);
      PublishedAppend(a[1..], b);
    }
  }

  /** A stream of text frames publishes exactly its strings, in order. */
  lemma {:induction false} TextFramesPublished(frames: seq<Frame>)
    requires forall i :: 0 <= i < |frames| ==> frames[i].Text?
    ensures |Published(frames)| == |frames|
    ensures forall i :: 0 <= i < |frames| ==> Published(frames)[i] == frames[i].text
  {
    if frames != [] {
      TextFramesPublished(frames[1..]);
      assert Published(frames) == [frames[0].text] + Published(frames[1..]);
      forall i | 1 <= i < |frames| ensures Published(frames)[i] == frames[i].text {
        assert frames[1..][i - 1] == frames[i];
      }
    }
  }

  /** Ping and pong frames publish nothing. */
  lemma {:induction false} ControlFramesPublishNothing(frames: seq<Frame>)
    requires forall i :: 0 <= i < |frames| ==> frames[i].Ping? || frames[i].Pong?
    ensures Published(frames) == []
  {
    if frames != [] {
      ControlFramesPublishNothing(frames[1..]);
    }
  }

  /** A binary frame publishes one message: the envelope around its hex encoding. */
  lemma {:induction false} BinaryFramePublished(data: seq<byte>)
    ensures Published([Binary(data)]) == [EnvelopeHead + HexEncode(data) + EnvelopeTail]
    ensures EnvelopePayload(Published([Binary(data)])[0]) == Some(data)
  {
    assert Published([Binary(data)]) == [BinaryEnvelope(data)] + Published([]);
    EnvelopeRoundTrip(data);
  }

  /** `ch`'s channel after `ms` have been sent into it while its receivers stay as they are. */
  function AfterSends(c: Channel, ms: seq<string>): Channel {
    Channel(c.log + (if Receivers(c) > 0 then ms else []), c.slots)
  }

  /** Helper fact for the loop proofs: sending nothing leaves the channel as it is. */
  lemma {:induction false} AfterNoSends(c: Channel)
    ensures AfterSends(c, []) == c
  {
    assert c.log + [] == c.log;
  }

  /** Sending in two stretches is sending the concatenation: the receivers do not change. */
  lemma {:induction false} AfterSendsTwice(c: Channel, a: seq<string>, b: seq<string>)
    ensures AfterSends(AfterSends(c, a), b) == AfterSends(c, a + b)
  {
    if Receivers(c) > 0 {
      assert c.log + a + b == c.log + (a + b);
    } else {
      assert c.log + [] + [] == c.log;
    }
  }

  /** One pass of the receive loop's `match`; `stop` says the loop ends. */
  method OnFrame(hub: Hub, ch: ChannelId, f: Frame) returns (stop: bool)
    requires hub.Valid() && ch < |hub.channels|
    modifies hub
    ensures hub.Valid() && |hub.channels| == |old(hub.channels)|
    ensures stop == Ends(f)
    ensures hub.channels == old(hub.channels)[ch := AfterSends(old(hub.channels[ch]), AsSeq(Outgoing(f)))]
  {
    stop := false;
    AfterNoSends(hub.channels[ch]);
    assert hub.channels[ch := hub.channels[ch]] == hub.channels;
    match f {
      case Text(t) =>
        var _ := hub.Send(ch, t);
      case Binary(d) =>
        var _ := hub.Send(ch, BinaryEnvelope(d));
      case Ping(_) =>
      case Pong(_) =>
      case Close =>
        stop := true;
      case ReceiveError =>
        stop := true;
    }
  }

  /**
   * The receive loop over the frames the client sends: it takes frames until
   * one ends it, and everything they publish goes into the room's channel in
   * order (nowhere, if the channel has no receivers).
   */
  method ReceiveLoop(hub: Hub, ch: ChannelId, frames: seq<Frame>) returns (n: nat)
    requires hub.Valid() && ch < |hub.channels|
    modifies hub
    ensures hub.Valid() && |hub.channels| == |old(hub.channels)|
    ensures n == Processed(frames)
    ensures hub.channels == old(hub.channels)[ch := AfterSends(old(hub.channels[ch]), Published(frames))]
  {
    ghost var c0 := hub.channels[ch];
    n := 0;
    var done := false;
    AfterNoSends(c0);
    assert old(hub.channels)[ch := c0] == old(hub.channels);
    while n < |frames| && !done
      invariant n <= |frames| && hub.Valid() && |hub.channels| == |old(hub.channels)|
      invariant hub.channels == old(hub.channels)[ch := AfterSends(c0, Published(frames[..n]))]
      invariant done ==> n > 0 && NoEnd(frames[..n - 1]) && Ends(frames[n - 1])
      invariant !done ==> NoEnd(frames[..n])
    {
      var f := frames[n];
      ghost var pub := Published(frames[..n]);
      ghost var out := AsSeq(Outgoing(f));
      AfterSendsTwice(c0, pub, out);
      done := OnFrame(hub, ch, f);
      assert hub.channels == old(hub.channels)[ch := AfterSends(c0, pub + out)];
      LoopStep(frames, n);
      n := n + 1;
    }
    LoopExit(frames, n, done);
  }

  /** What one more frame adds to the loop's published prefix. */
  lemma {:induction false} LoopStep(frames: seq<Frame>, n: nat)
    requires n < |frames| && NoEnd(frames[..n])
    ensures Published(frames[..n + 1]) == Published(frames[..n]) + AsSeq(Outgoing(frames[n]))
    ensures !Ends(frames[n]) ==> NoEnd(frames[..n + 1])
    ensures Ends(frames[n]) ==> NoEnd(frames[..n + 1 - 1]) && Ends(frames[n + 1 - 1])
  {
    var f := frames[n];
    assert frames[..n + 1] == frames[..n] + [f];
    if !Ends(f) {
      PublishedAppend(frames[..n], [f]);
      assert Published([f]) == AsSeq(Outgoing(f)) + Published([]);
    } else {
      PublishedStopsAtEnd(frames[..n], f, []);
      assert frames[..n] + [f] + [] == frames[..n + 1];
      assert Published(frames[..n]) + AsSeq(Outgoing(f)) == Published(frames[..n]);
    }
  }

  /** Where the loop stops: it has taken `Processed(frames)` frames and published everything. */
  lemma {:induction false} LoopExit(frames: seq<Frame>, n: nat, done: bool)
    requires n <= |frames| && (n < |frames| ==> done)
    requires done ==> n > 0 && NoEnd(frames[..n - 1]) && Ends(frames[n - 1])
    requires !done ==> NoEnd(frames[..n])
    ensures Processed(frames) == n && Published(frames[..n]) == Published(frames)
  {
    if done {
      ProcessedAt(frames, n);
      PublishedUpToEnd(frames, n);
    } else {
      assert frames[..n] == frames;
      ProcessedNoEnd(frames);
    }
  }

  /** An ending frame at position `n - 1` cuts off everything after it from publishing. */
  lemma {:induction false} PublishedUpToEnd(frames: seq<Frame>, n: nat)
    requires 0 < n <= |frames| && Ends(frames[n - 1])
    ensures Published(frames[..n]) == Published(frames)
  {
    var a, f := frames[..n - 1], frames[n - 1];
    assert a + [f] + frames[n..] == frames;
    assert a + [f] + [] == frames[..n];
    PublishedStopsAtEnd(a, f, frames[n..]);
    PublishedStopsAtEnd(a, f, []);
  }

  /** The first ending frame sits at position `n - 1`: the loop takes `n` frames. */
  lemma {:induction false} ProcessedAt(frames: seq<Frame>, n: nat)
    requires 0 < n <= |frames| && NoEnd(frames[..n - 1]) && Ends(frames[n - 1])
    ensures Processed(frames) == n
  {
    if n > 1 {
      assert frames[..n - 1][0] == frames[0];
      assert frames[1..][..n - 2] == frames[..n - 1][1..];
      assert frames[1..][n - 2] == frames[n - 1];
      NoEndTail(frames[..n - 1]);
      ProcessedAt(frames[1..], n - 1);
    }
  }

  /** Without an ending frame, the loop takes every frame. */
  lemma {:induction false} ProcessedNoEnd(frames: seq<Frame>)
    requires NoEnd(frames)
    ensures Processed(frames) == |frames|
  {
    if frames != [] {
      assert !Ends(frames[0]);
      NoEndTail(frames);
      ProcessedNoEnd(frames[1..]);
    }
  }

  lemma {:induction false} NoEndTail(frames: seq<Frame>)
    requires frames != [] && NoEnd(frames)
    ensures NoEnd(frames[1..])
  {
    forall i | 0 <= i < |frames| - 1 ensures !Ends(frames[1..][i]) {
      assert frames[1..][i] == frames[i + 1];
    }
  }

  /**
   * The forward loop, `while let Ok(msg) = rx.recv()`, run until the receiver
   * has nothing more or the loop ends. `failAt` is the index of the first write
   * to the client that fails, if any. The loop ends, and the receiver is
   * dropped with the task, on a lag (it does not skip ahead) or on that failed
   * write; otherwise every pending message is written, in order.
   */
  method Forward(hub: Hub, ch: ChannelId, rx: nat, failAt: Option<nat>)
    returns (written: seq<string>, ended: bool)
    requires hub.Valid() && ch < |hub.channels| && IsLive(hub.channels[ch], rx)
    modifies hub
    ensures hub.Valid() && |hub.channels| == |old(hub.channels)|
    ensures hub.channels == old(hub.channels)[ch := hub.channels[ch]]
    ensures hub.channels[ch].log == old(hub.channels[ch].log)
    ensures |hub.channels[ch].slots| == |old(hub.channels[ch].slots)|
    ensures forall i :: 0 <= i < |old(hub.channels[ch].slots)| && i != rx ==>
      hub.channels[ch].slots[i] == old(hub.channels[ch].slots[i])
    ensures ended <==> !IsLive(hub.channels[ch], rx)
    ensures Receivers(hub.channels[ch]) == Receivers(old(hub.channels[ch])) - (if ended then 1 else 0)
    ensures Lagging(old(hub.channels[ch]), rx) ==> ended && written == []
    ensures !Lagging(old(hub.channels[ch]), rx) ==>
      var p := Pending(old(hub.channels[ch]), rx);
      if failAt.Some? && failAt.value < |p| then ended && written == p[..failAt.value]
      else !ended && written == p && Pending(hub.channels[ch], rx) == []
  {
    written, ended := Drain(hub, ch, rx, failAt);
    if ended {
      hub.Drop(ch, rx);
    }
  }

  /**
   * The loop of `Forward` itself: reads and writes until the receiver lags,
   * has nothing more, or a write fails (`ended`); the receiver stays live.
   */
  method Drain(hub: Hub, ch: ChannelId, rx: nat, failAt: Option<nat>)
    returns (written: seq<string>, ended: bool)
    requires hub.Valid() && ch < |hub.channels| && IsLive(hub.channels[ch], rx)
    modifies hub
    ensures hub.Valid() && |hub.channels| == |old(hub.channels)|
    ensures hub.channels == old(hub.channels)[ch := hub.channels[ch]]
    ensures CursorMoved(old(hub.channels[ch]), hub.channels[ch], rx)
    ensures Lagging(old(hub.channels[ch]), rx) ==> ended && written == []
    ensures !Lagging(old(hub.channels[ch]), rx) ==>
      var p := Pending(old(hub.channels[ch]), rx);
      if failAt.Some? && failAt.value < |p| then ended && written == p[..failAt.value]
      else !ended && written == p && Pending(hub.channels[ch], rx) == []
  {
    ghost var c0 := hub.channels[ch];
    ghost var k0 := Cursor(c0, rx);
    ghost var lag := Lagging(c0, rx);
    written, ended := [], false;
    var stop := false;
    while !stop
      invariant hub.Valid() && |hub.channels| == |old(hub.channels)|
      invariant hub.channels == old(hub.channels)[ch := hub.channels[ch]]
      invariant CursorMoved(c0, hub.channels[ch], rx)
      invariant ended ==> stop
      invariant lag ==> written == [] && (stop ==> ended) && (!stop ==> hub.channels[ch] == c0)
      invariant !lag ==> k0 + |written| <= Cursor(hub.channels[ch], rx) <= |c0.log|
      invariant !lag ==> written == c0.log[k0..k0 + |written|]
      invariant !lag && !stop ==> Cursor(hub.channels[ch], rx) == k0 + |written|
      invariant !lag && stop && !ended ==> Cursor(hub.channels[ch], rx) == k0 + |written| == |c0.log|
      invariant !lag && ended ==> failAt == Some(|written|) && k0 + |written| < |c0.log|
      invariant failAt.Some? ==> |written| <= failAt.value
      decreases !stop, |c0.log| - |written|
    {
      var outcome := hub.Recv(ch, rx);
      if outcome.Lagged? {
        ended, stop := true, true;
      } else if outcome.Empty? {
        stop := true;
      } else if failAt == Some(|written|) {
        ended, stop := true, true;
      } else {
        SliceGrows(c0.log, k0, written, outcome.m);
        written := written + [outcome.m];
      }
    }
    assert !lag ==> Pending(c0, rx) == c0.log[k0..];
    assert !lag && ended ==> written == c0.log[k0..][..|written|];
  }

  /** A slice of `log` starting at `k`, extended by the element after it. */
  lemma {:induction false} SliceGrows(log: seq<string>, k: nat, w: seq<string>, m: string)
    requires k + |w| < |log| && w == log[k..k + |w|] && m == log[k + |w|]
    ensures w + [m] == log[k..k + |w + [m]|]
  {
    assert log[k..k + |w| + 1] == log[k..k + |w|] + [log[k + |w|]];
  }

  /** `d` is `c` with only the cursor of the live receiver `rx` moved. */
  predicate CursorMoved(c: Channel, d: Channel, rx: nat) {
    IsLive(d, rx) && WellFormed(d) && d.log == c.log && |d.slots| == |c.slots| &&
    Receivers(d) == Receivers(c) &&
    forall i :: 0 <= i < |c.slots| && i != rx ==> d.slots[i] == c.slots[i]
  }

  /**
   * The end of a session: the forward task is stopped, which drops its receiver
   * if it is still live, and then, if the session's channel has no receivers
   * left, the room id is removed from the map, whatever channel it now holds.
   */
  method Finish(rooms: Rooms, hub: Hub, roomId: string, ch: ChannelId, rx: nat)
    requires hub.Valid() && rooms.Valid(hub) && ch < |hub.channels| && rx < |hub.channels[ch].slots|
    modifies rooms, hub
    ensures hub.Valid() && rooms.Valid(hub)
    ensures hub.channels == old(hub.channels)[ch :=
      if IsLive(old(hub.channels[ch]), rx) then ChannelDrop(old(hub.channels[ch]), rx) else old(hub.channels[ch])]
    ensures !IsLive(hub.channels[ch], rx)
    ensures rooms.entries ==
      if Receivers(hub.channels[ch]) == 0 then old(rooms.entries) - {roomId} else old(rooms.entries)
  {
    if IsLive(hub.channels[ch], rx) {
      hub.Drop(ch, rx);
    }
    if hub.ReceiverCount(ch) == 0 {
      rooms.Remove(roomId);
    }
  }

  /**
   * `handle_socket` with the forward task idle: subscribe, run the receive loop
   * over `frames`, then clean up. Every text and binary frame before the first
   * ending one reaches the channel (the session's own receiver keeps it
   * non-empty), and the room is removed exactly when no other receiver is left.
   */
  method HandleSocket(rooms: Rooms, hub: Hub, roomId: string, ch: ChannelId, frames: seq<Frame>)
    returns (n: nat)
    requires hub.Valid() && rooms.Valid(hub) && ch < |hub.channels|
    modifies rooms, hub
    ensures hub.Valid() && rooms.Valid(hub) && |hub.channels| == |old(hub.channels)|
    ensures n == Processed(frames)
    ensures hub.channels[ch].log == old(hub.channels[ch].log) + Published(frames)
    ensures Receivers(hub.channels[ch]) == Receivers(old(hub.channels[ch]))
    ensures hub.channels[ch].slots == old(hub.channels[ch].slots) + [None]
    ensures forall i :: 0 <= i < |hub.channels| && i != ch ==> hub.channels[i] == old(hub.channels[i])
    ensures roomId in old(rooms.entries) && old(rooms.entries)[roomId] == ch ==>
      forall k :: k in old(rooms.entries) && k != roomId ==>
        hub.channels[old(rooms.entries)[k]] == old(hub.channels)[old(rooms.entries)[k]]
    ensures rooms.entries ==
      if Receivers(old(hub.channels[ch])) == 0 then old(rooms.entries) - {roomId} else old(rooms.entries)
  {
    var rx := hub.Subscribe(ch);
    n := ReceiveLoop(hub, ch, frames);
    Finish(rooms, hub, roomId, ch, rx);
  }

  /**
   * What a session leaves a co-member: a receiver live before the session is
   * still live at the same cursor, and everything the session published is
   * queued behind what it already had to read.
   */
  lemma {:induction false} CoMemberAfterSession(c: Channel, d: Channel, rx: nat, ms: seq<string>)
    requires WellFormed(c) && WellFormed(d) && IsLive(c, rx)
    requires d.log == c.log + ms && d.slots == c.slots + [None]
    ensures IsLive(d, rx) && Cursor(d, rx) == Cursor(c, rx)
    ensures Pending(d, rx) == Pending(c, rx) + ms
  {
    assert d.slots[rx] == c.slots[rx];
    assert (c.log + ms)[Cursor(c, rx)..] == c.log[Cursor(c, rx)..] + ms;
  }

  /**
   * One client joins a room, then a second client's whole session runs in it:
   * the first client is still subscribed and has exactly what that session
   * published to read.
   */
  method CoMemberReceives(roomId: string, frames: seq<Frame>) returns (live: bool, pending: seq<string>)
    ensures live && pending == Published(frames)
  {
    var hub := new Hub();
    var rooms := new Rooms();
    var ch := rooms.GetOrCreate(roomId, hub);
    ghost var empty := hub.channels[ch];
    var rx := hub.Subscribe(ch);
    SubscriberStartsEmpty(empty);
    ghost var c := hub.channels[ch];
    var _ := HandleSocket(rooms, hub, roomId, ch, frames);
    CoMemberAfterSession(c, hub.channels[ch], rx, Published(frames));
    live := true;
    pending := Pending(hub.channels[ch], rx);
  }

  /**
   * Two clients in one room, run in sequence: both join, the first sends
   * `frames`, then each one's forward loop runs with writes that never fail.
   * Both receive the same messages — the sender its own too — which are
   * everything published, unless more were published than the channel
   * retains, in which case both lagged and got nothing.
   */
  method TwoClientsInRoom(roomId: string, frames: seq<Frame>)
    returns (first: seq<string>, second: seq<string>)
    ensures first == second
    ensures |Published(frames)| <= Retained() ==> first == Published(frames)
    ensures |Published(frames)| > Retained() ==> first == []
  {
    var hub := new Hub();
    var rooms := new Rooms();
    var ch := rooms.GetOrCreate(roomId, hub);
    var rx1, rx2 := JoinTwoAndSend(hub, ch, frames);
    first, second := ForwardBoth(hub, ch, rx1, rx2, Published(frames));
  }

  /**
   * Two receivers join the channel, then the first client's frames go through
   * the receive loop: both receivers have exactly what was published to read.
   */
  method JoinTwoAndSend(hub: Hub, ch: ChannelId, frames: seq<Frame>) returns (rx1: nat, rx2: nat)
    requires hub.Valid() && ch < |hub.channels|
    modifies hub
    ensures hub.Valid() && ch < |hub.channels|
    ensures rx1 != rx2 && IsLive(hub.channels[ch], rx1) && IsLive(hub.channels[ch], rx2)
    ensures Pending(hub.channels[ch], rx1) == Published(frames)
    ensures Pending(hub.channels[ch], rx2) == Published(frames)
    ensures Lagging(hub.channels[ch], rx1) <==> |Published(frames)| > Retained()
    ensures Lagging(hub.channels[ch], rx2) <==> |Published(frames)| > Retained()
  {
    ghost var c := hub.channels[ch];
    rx1 := hub.Subscribe(ch);
    rx2 := hub.Subscribe(ch);
    var _ := ReceiveLoop(hub, ch, frames);
    TwoSubscribers(c, Published(frames));
  }

  /**
   * The two forward loops, one after the other, with writes that never fail:
   * two receivers with the same pending messages write the same messages.
   */
  method ForwardBoth(hub: Hub, ch: ChannelId, rx1: nat, rx2: nat, ghost ms: seq<string>)
    returns (first: seq<string>, second: seq<string>)
    requires hub.Valid() && ch < |hub.channels| && rx1 != rx2
    requires IsLive(hub.channels[ch], rx1) && IsLive(hub.channels[ch], rx2)
    requires Pending(hub.channels[ch], rx1) == ms && Pending(hub.channels[ch], rx2) == ms
    requires Lagging(hub.channels[ch], rx1) <==> |ms| > Retained()
    requires Lagging(hub.channels[ch], rx2) <==> |ms| > Retained()
    modifies hub
    ensures first == second
    ensures |ms| <= Retained() ==> first == ms
    ensures |ms| > Retained() ==> first == []
  {
    ghost var d := hub.channels[ch];
    var ended1, ended2;
    first, ended1 := Forward(hub, ch, rx1, None);
    SameView(d, hub.channels[ch], rx2);
    second, ended2 := Forward(hub, ch, rx2, None);
  }

  /** A receiver's view depends only on the log and on its own slot. */
  lemma {:induction false} SameView(c: Channel, d: Channel, rx: nat)
    requires WellFormed(c) && WellFormed(d) && IsLive(c, rx)
    requires d.log == c.log && rx < |d.slots| && d.slots[rx] == c.slots[rx]
    ensures IsLive(d, rx) && Pending(d, rx) == Pending(c, rx) && (Lagging(d, rx) <==> Lagging(c, rx))
  {
  }

  /**
   * Two receivers subscribed one after the other to a channel, then `ms` sent:
   * each has exactly `ms` to read, and lags exactly when `ms` is longer than
   * what the channel retains.
   */
  lemma {:induction false} TwoSubscribers(c: Channel, ms: seq<string>)
    requires WellFormed(c)
    ensures var s1 := ChannelSubscribe(c);
      var s2 := ChannelSubscribe(s1.0);
      var d := AfterSends(s2.0, ms);
      s1.1 != s2.1 && WellFormed(d) && IsLive(d, s1.1) && IsLive(d, s2.1) &&
      Pending(d, s1.1) == ms && Pending(d, s2.1) == ms &&
      (Lagging(d, s1.1) <==> |ms| > Retained()) && (Lagging(d, s2.1) <==> |ms| > Retained())
  {
    var s1 := ChannelSubscribe(c);
    var s2 := ChannelSubscribe(s1.0);
    var d := AfterSends(s2.0, ms);
    assert s2.0.slots[s1.1] == s1.0.slots[s1.1];
    assert d.log == c.log + ms;
    assert d.log[|c.log|..] == ms;
  }
}
