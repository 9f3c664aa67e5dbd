/**
  The two loops of src/exex.rs as they run: the forwarder of one client, an object with
  its receiver position, its notification in hand and its client's channel; and the producer.
 */
module Loops {
  import opened Basics
  import opened ConvertChain
  import opened FanOut
  import Server
  import R = Reth
  import P = Proto

  class Forwarder {
    const flags: SubscribeFlags
    var cursor: nat
    var hand: Option<Held>
    var queue: seq<P.Notification>
    var connected: bool
    var running: bool
    ghost const start: nat
    ghost var taken: seq<P.Notification>
    ghost var log: seq<Received>
    ghost var sent: seq<nat>

    ghost function View(): Client
      reads this
    {
      Client(flags, start, cursor, hand, queue, taken, connected, running, log, sent)
    }

    /** A subscription starts behind everything broadcast so far. */
    constructor (flags: SubscribeFlags, tail: nat)
      ensures View() == NewClient(flags, tail)
    {
      this.flags, start, cursor, hand := flags, tail, tail, None;
      queue, taken, log, sent := [], [], [], [];
      connected, running := true, true;
    }

    /** notifications.recv(), returning a notification or a loss. */
    method Receive(history: seq<R.Notification>)
      requires ClientEnabled(|history|, View(), FanOut.Receive)
      modifies this
      ensures View() == ReceiveNext(history, old(View()))
    {
      if cursor + BROADCAST_CHANNEL_CAPACITY < |history| {
        var oldest := |history| - BROADCAST_CHANNEL_CAPACITY;
        log := log + [Lagged(oldest - cursor)];
        cursor := oldest;
      } else {
        log := log + [Got(cursor)];
        hand := Some(Held(cursor, history[cursor]));
        cursor := cursor + 1;
      }
    }

    /** tx.send(..) of the converted notification, ending the loop if the client is gone. */
    method Send()
      requires hand.Some?
      requires !connected || |queue| < PER_CLIENT_CHANNEL_CAPACITY
      modifies this
      ensures View() == SendNext(old(View()))
    {
      if connected {
        queue := queue + [NotificationToProto(hand.value.notification, flags)];
        sent := sent + [hand.value.index];
        hand := None;
      } else {
        running := false;
      }
    }

    /** The client takes the next message off its channel. */
    method Read() returns (message: P.Notification)
      requires connected && queue != []
      modifies this
      ensures message == old(queue)[0]
      ensures View() == old(View()).(queue := old(queue)[1..], read := old(taken) + [message])
    {
      message := queue[0];
      taken := taken + [message];
      queue := queue[1..];
    }

    method Disconnect()
      modifies this
      ensures View() == old(View()).(connected := false, queue := [])
    {
      connected, queue := false, [];
    }

    /**
      The loop of the spawned task, until it waits for the producer, waits for room in the
      client's channel, or has ended. The account of the client stays exact, and nothing is lost
      if the forwarder was not more than 16 behind when it got to run.
     */
    method RunUntilBlocked(history: seq<R.Notification>)
      requires ClientInv(history, View())
      modifies this
      ensures ClientInv(history, View())
      ensures !ClientEnabled(|history|, View(), FanOut.Receive) && !ClientEnabled(|history|, View(), FanOut.Send)
      ensures unchanged(`connected) && unchanged(`taken)
      ensures old(|history| - cursor) <= BROADCAST_CHANNEL_CAPACITY ==> Lost(log) == Lost(old(log))
    {
      hide NotificationToProto, LogInv, Gots, Lost, Convert;
      while running && (if hand.Some? then !connected || |queue| < PER_CLIENT_CHANNEL_CAPACITY else cursor < |history|)
        invariant ClientInv(history, View())
        invariant connected == old(connected) && taken == old(taken)
        invariant cursor >= old(cursor)
        invariant old(|history| - cursor) <= BROADCAST_CHANNEL_CAPACITY ==> Lost(log) == Lost(old(log))
        decreases |history| - cursor, if hand.Some? then 1 else 0, if running then 1 else 0
      {
        ghost var before := View();
        if hand.Some? {
          SendKeepsInv(history, before);
          Send();
        } else {
          ReceiveKeepsInv(history, before);
          LogGrows(log, Got(cursor));
          Receive(history);
        }
      }
    }
  }

  // ---- the producer

  /** How many notifications of the stream are broadcast if the node takes `room` more finished heights. */
  function Broadcast(stream: seq<CanonNotification>, room: nat): (k: nat)
    ensures k <= |stream|
  {
    if |stream| == 0 then 0
    else if stream[0].Commit? then
      if room == 0 then 0 else 1 + Broadcast(stream[1..], room - 1)
    else 1 + Broadcast(stream[1..], room)
  }

  lemma BroadcastFrom(stream: seq<CanonNotification>, i: nat, room: nat)
    requires i <= |stream|
    ensures Broadcast(stream[i..], room) ==
            if i == |stream| then 0
            else if !stream[i].Commit? then 1 + Broadcast(stream[i + 1..], room)
            else if room == 0 then 0
            else 1 + Broadcast(stream[i + 1..], room - 1)
  {
    if i < |stream| {
      assert stream[i..][1..] == stream[i + 1..];
    }
  }

  function Tips(stream: seq<CanonNotification>): seq<U64>
    requires forall n :: n in stream && n.Commit? ==> n.new_.blocks != []
  {
    if |stream| == 0 then []
    else (if stream[0].Commit? then [TipNumber(stream[0].new_)] else []) + Tips(stream[1..])
  }

  function Broadcasts(stream: seq<CanonNotification>): seq<Server.Step> {
    seq(|stream|, i requires 0 <= i < |stream| => Server.Produce(stream[i]))
  }

  /** The steps of the server that the loop takes: a broadcast each, and how it ends. */
  function ProducerSteps(stream: seq<CanonNotification>, room: nat): seq<Server.Step> {
    var k := Broadcast(stream, room);
    Broadcasts(stream[..k]) + [if k < |stream| then Server.EventsClosed(stream[k]) else Server.StreamEnds]
  }

  /** The loop ends early only at a commit. */
  lemma {:induction false} BroadcastStopsAtCommit(stream: seq<CanonNotification>, room: nat)
    requires Broadcast(stream, room) < |stream|
    ensures stream[Broadcast(stream, room)].Commit?
  {
    if stream[0].Commit? && room == 0 {
    } else if stream[0].Commit? {
      BroadcastStopsAtCommit(stream[1..], room - 1);
    } else {
      BroadcastStopsAtCommit(stream[1..], room);
    }
  }

  function Commits(stream: seq<CanonNotification>): nat {
    if |stream| == 0 then 0 else (if stream[0].Commit? then 1 else 0) + Commits(stream[1..])
  }

  /** As many commits are broadcast as heights are taken; the loop ends early exactly when a further one is refused. */
  lemma {:induction false} BroadcastUsesRoom(stream: seq<CanonNotification>, room: nat)
    ensures var k := Broadcast(stream, room);
            && Commits(stream[..k]) <= room
            && (k < |stream| ==> stream[k].Commit? && Commits(stream[..k]) == room)
            && (k < |stream| <==> Commits(stream) > room)
  {
    if |stream| == 0 {
    } else if stream[0].Commit? && room == 0 {
      assert stream[..0] == [];
    } else {
      var left := if stream[0].Commit? then room - 1 else room;
      BroadcastUsesRoom(stream[1..], left);
      var k := Broadcast(stream, room);
      assert stream[..k][1..] == stream[1..][..k - 1];
    }
  }

  lemma {:induction false} ProducesAll(stream: seq<CanonNotification>)
    requires forall n :: n in stream && n.Commit? ==> n.new_.blocks != []
    ensures Server.After(Broadcasts(stream))
         == Some(Server.State(Map(ToExEx, stream), Tips(stream), true, map[]))
  {
    if |stream| == 0 {
    } else {
      var init, last := stream[..|stream| - 1], stream[|stream| - 1];
      assert stream == init + [last];
      assert forall n :: n in init ==> n in stream;
      ProducesAll(init);
      TipsSnoc(init, last);
      assert Broadcasts(stream) == Broadcasts(init) + [Server.Produce(last)];
      Server.AfterSnoc(Broadcasts(init), Server.Produce(last));
      assert Map(ToExEx, stream) == Map(ToExEx, init) + [ToExEx(last)];
    }
  }

  /** The loop over a stream is a run of the server: what it broadcasts and reports is the state it leaves. */
  lemma LoopIsServerRun(stream: seq<CanonNotification>, room: nat)
    requires forall n :: n in stream && n.Commit? ==> n.new_.blocks != []
    ensures var sent := stream[..Broadcast(stream, room)];
            Server.After(ProducerSteps(stream, room)) == Some(Server.State(Map(ToExEx, sent), Tips(sent), false, map[]))
  {
    hide Server.After, Tips, ToExEx, Broadcast, Broadcasts;
    var k := Broadcast(stream, room);
    if k < |stream| {
      BroadcastStopsAtCommit(stream, room);
      assert stream[k] in stream;
    }
    assert forall n :: n in stream[..k] ==> n in stream;
    ProducesAll(stream[..k]);
    Server.AfterSnoc(
      Broadcasts(stream[..k]),
      if k < |stream| then Server.EventsClosed(stream[k]) else Server.StreamEnds);
  }

  lemma AllAnnounced(stream: seq<CanonNotification>)
    ensures forall i :: 0 <= i < |stream| ==> Announces(ToExEx(stream[i]), stream[i])
  {
  }

  class Producer {
    var history: seq<R.Notification>
    var heights: seq<U64>

    constructor ()
      ensures history == [] && heights == []
    {
      history, heights := [], [];
    }

    /**
      remote_exex: until the stream ends, report the tip of a commit, then broadcast. If a height
      cannot be reported the loop ends there, with that notification not broadcast.
     */
    method Run(stream: seq<CanonNotification>, room: nat) returns (ok: bool)
      requires forall n :: n in stream && n.Commit? ==> n.new_.blocks != []
      modifies this
      ensures history == old(history) + Map(ToExEx, stream[..Broadcast(stream, room)])
      ensures heights == old(heights) + Tips(stream[..Broadcast(stream, room)])
      ensures ok <==> Broadcast(stream, room) == |stream|
      ensures |history| == |old(history)| + Broadcast(stream, room)
      ensures forall i :: 0 <= i < Broadcast(stream, room) ==> Announces(history[|old(history)| + i], stream[i])
    {
      AllAnnounced(stream);
      hide ToExEx, Tips, TipNumber, Broadcast, Announces;
      var i: nat, left: nat := 0, room;
      assert stream[0..] == stream;
      NoTips();
      while i < |stream|
        invariant i <= |stream| && left <= room
        invariant Broadcast(stream, room) == i + Broadcast(stream[i..], left)
        invariant history == old(history) + Map(ToExEx, stream[..i])
        invariant heights == old(heights) + Tips(stream[..i])
      {
        var n := stream[i];
        BroadcastFrom(stream, i, left);
        if n.Commit? {
          if left == 0 {
            return false;
          }
          heights := heights + [TipNumber(n.new_)];
          left := left - 1;
        }
        history := history + [ToExEx(n)];
        TipsSnoc(stream[..i], n);
        assert stream[..i + 1] == stream[..i] + [n];
        assert Map(ToExEx, stream[..i + 1]) == Map(ToExEx, stream[..i]) + [ToExEx(n)];
        i := i + 1;
      }
      BroadcastFrom(stream, i, left);
      assert stream[..|stream|] == stream;
      ok := true;
    }
  }

  lemma NoTips()
    ensures Tips([]) == []
  {
  }

  lemma {:induction false} TipsSnoc(stream: seq<CanonNotification>, n: CanonNotification)
    requires forall m :: m in stream + [n] && m.Commit? ==> m.new_.blocks != []
    ensures n in stream + [n] && (forall m :: m in stream ==> m in stream + [n])
    ensures Tips(stream + [n]) == Tips(stream) + if n.Commit? then [TipNumber(n.new_)] else []
  {
    assert forall m :: m in stream ==> m in stream + [n];
    assert (stream + [n])[|stream|] == n;
    if |stream| > 0 {
      assert (stream + [n])[1..] == stream[1..] + [n];
      TipsSnoc(stream[1..], n);
    } else {
      assert (stream + [n])[1..] == [];
    }
  }

  /** The loop from its start leaves the state of the server's run. */
  method RemoteExEx(stream: seq<CanonNotification>, room: nat) returns (p: Producer, ok: bool)
    requires forall n :: n in stream && n.Commit? ==> n.new_.blocks != []
    ensures fresh(p)
    ensures Server.After(ProducerSteps(stream, room)) == Some(Server.State(p.history, p.heights, false, map[]))
    ensures ok <==> Server.StreamEnds in ProducerSteps(stream, room)
  {
    LoopIsServerRun(stream, room);
    hide Server.After, Tips;
    p := new Producer();
    ok := p.Run(stream, room);
    assert p.history == Map(ToExEx, stream[..Broadcast(stream, room)]);
    assert p.heights == Tips(stream[..Broadcast(stream, room)]);
  }
}
