/**
  The push path of src/exex.rs as interleaved steps: the producer loop sends every notification
  to a broadcast channel that keeps the last 16; one forwarder per client receives from it,
  converts with the client's flags and sends into the client's own channel of 16.

  The history of everything broadcast is kept. A receiver that has fallen more than 16 behind is
  told how many notifications it has lost and goes on at the oldest one still retained, as a
  tokio broadcast receiver does. A send that no receiver can see is ignored by the program, and
  every later receiver starts behind it; recording it anyway changes nothing that is observed.
 */
module FanOut {
  import opened Basics
  import opened ConvertChain
  import R = Reth
  import P = Proto

  const BROADCAST_CHANNEL_CAPACITY: nat := 16
  const PER_CLIENT_CHANNEL_CAPACITY: nat := 16

  // ---- the producer's input

  /** What the node's canonical state stream yields. */
  datatype CanonNotification = Commit(new_: R.Chain) | Reorg(old_: R.Chain, new_: R.Chain)

  function ToExEx(n: CanonNotification): R.Notification {
    match n
    case Commit(new_) => R.ChainCommitted(new_)
    case Reorg(old_, new_) => R.ChainReorged(old_, new_)
  }

  /** A broadcast tells what happened: a commit its chain, a reorg which chain went and which one came. */
  ghost predicate Announces(x: R.Notification, n: CanonNotification) {
    && (n.Commit? ==> x.ChainCommitted? && x.new_ == n.new_)
    && (n.Reorg? ==> x.ChainReorged? && x.old_ == n.old_ && x.new_ == n.new_)
  }

  /** The number of a chain's last block; a committed chain always has one. */
  function TipNumber(c: R.Chain): U64
    requires c.blocks != []
  {
    c.blocks[|c.blocks| - 1].header.number
  }

  // ---- one client

  /** What one call of the receiver returned: the notification at a position of the history, or a loss. */
  datatype Received = Got(index: nat) | Lagged(missed: nat)

  /** A received notification on its way to the client, with its position. */
  datatype Held = Held(index: nat, notification: R.Notification)

  /**
    A client and its forwarder: the next notification to receive, the one converted and waiting
    to be sent, the client's channel, and what the client has read. `log` and `sent` record all
    that was received and all that went into the channel, by position in the history.
   */
  datatype Client = Client(
    flags: SubscribeFlags,
    start: nat,
    cursor: nat,
    hand: Option<Held>,
    queue: seq<P.Notification>,
    read: seq<P.Notification>,
    connected: bool,
    running: bool,
    log: seq<Received>,
    sent: seq<nat>)

  datatype ClientStep = Receive | Send | Read | Disconnect

  function NewClient(flags: SubscribeFlags, tail: nat): Client {
    Client(flags, tail, tail, None, [], [], true, true, [], [])
  }

  predicate ClientEnabled(tail: nat, c: Client, a: ClientStep) {
    match a
    case Receive => c.running && c.hand.None? && c.cursor < tail
    case Send => c.running && c.hand.Some? && (!c.connected || |c.queue| < PER_CLIENT_CHANNEL_CAPACITY)
    case Read => c.connected && c.queue != []
    case Disconnect => c.connected
  }

  predicate Behind(tail: nat, c: Client) {
    c.cursor + BROADCAST_CHANNEL_CAPACITY < tail
  }

  function ReceiveNext(history: seq<R.Notification>, c: Client): Client
    requires ClientEnabled(|history|, c, Receive)
  {
    if Behind(|history|, c) then
      var oldest := |history| - BROADCAST_CHANNEL_CAPACITY;
      c.(cursor := oldest, log := c.log + [Lagged(oldest - c.cursor)])
    else
      c.(cursor := c.cursor + 1,
         hand := Some(Held(c.cursor, history[c.cursor])),
         log := c.log + [Got(c.cursor)])
  }

  /** Sending the converted notification; a client that is gone ends its forwarder. */
  function SendNext(c: Client): Client
    requires c.hand.Some?
  {
    if c.connected then
      c.(queue := c.queue + [NotificationToProto(c.hand.value.notification, c.flags)],
         sent := c.sent + [c.hand.value.index],
         hand := None)
    else
      c.(running := false)
  }

  function ClientNext(history: seq<R.Notification>, c: Client, a: ClientStep): Client
    requires ClientEnabled(|history|, c, a)
  {
    match a
    case Receive => ReceiveNext(history, c)
    case Send => SendNext(c)
    case Read => c.(queue := c.queue[1..], read := c.read + [c.queue[0]])
    case Disconnect => c.(connected := false, queue := [])
  }

  // ---- exact accounting for one client

  function Gots(log: seq<Received>): seq<nat> {
    if |log| == 0 then []
    else
      var last := log[|log| - 1];
      Gots(log[..|log| - 1]) + if last.Got? then [last.index] else []
  }

  /** The sum of all reported losses. */
  function Lost(log: seq<Received>): nat {
    if |log| == 0 then 0
    else
      var last := log[|log| - 1];
      Lost(log[..|log| - 1]) + if last.Lagged? then last.missed else 0
  }

  /** The sum of the losses reported before the receiver got its (m+1)-th notification. */
  function LostBefore(log: seq<Received>, m: nat): nat {
    if |log| == 0 then 0
    else
      var init, last := log[..|log| - 1], log[|log| - 1];
      LostBefore(init, m) + if last.Lagged? && |Gots(init)| <= m then last.missed else 0
  }

  function InHand(c: Client): seq<nat> {
    if c.hand.Some? then [c.hand.value.index] else []
  }

  function Convert(history: seq<R.Notification>, flags: SubscribeFlags, indices: seq<nat>): seq<P.Notification>
    requires forall i :: 0 <= i < |indices| ==> indices[i] < |history|
  {
    seq(|indices|, i requires 0 <= i < |indices| => NotificationToProto(history[indices[i]], flags))
  }

  /** The receiver's log explains its position, and the position of everything it got. */
  ghost predicate LogInv(start: nat, cursor: nat, log: seq<Received>) {
    && cursor == start + |Gots(log)| + Lost(log)
    && (forall m :: 0 <= m < |Gots(log)| ==> Gots(log)[m] == start + m + LostBefore(log, m) < cursor)
    && (forall m :: m >= |Gots(log)| ==> LostBefore(log, m) == Lost(log))
  }

  ghost predicate ClientInv(history: seq<R.Notification>, c: Client) {
    && c.start <= c.cursor <= |history|
    && LogInv(c.start, c.cursor, c.log)
    && Gots(c.log) == c.sent + InHand(c)
    && (c.hand.Some? ==> c.hand.value.index < |history| && c.hand.value.notification == history[c.hand.value.index])
    && (forall i :: 0 <= i < |c.sent| ==> c.sent[i] < |history|)
    && |c.queue| <= PER_CLIENT_CHANNEL_CAPACITY
    && (if c.connected then c.read + c.queue == Convert(history, c.flags, c.sent)
        else c.queue == [] && c.read <= Convert(history, c.flags, c.sent))
    && (!c.running ==> !c.connected)
  }

  lemma LogGrows(log: seq<Received>, e: Received)
    ensures Gots(log + [e]) == Gots(log) + if e.Got? then [e.index] else []
    ensures Lost(log + [e]) == Lost(log) + if e.Lagged? then e.missed else 0
    ensures forall m: nat :: LostBefore(log + [e], m) ==
              LostBefore(log, m) + if e.Lagged? && |Gots(log)| <= m then e.missed else 0
  {
    assert (log + [e])[..|log|] == log;
  }

  lemma GotKeepsLog(start: nat, cursor: nat, log: seq<Received>)
    requires LogInv(start, cursor, log)
    ensures LogInv(start, cursor + 1, log + [Got(cursor)])
  {
    hide Gots, Lost, LostBefore;
    LogGrows(log, Got(cursor));
  }

  lemma LagKeepsLog(start: nat, cursor: nat, log: seq<Received>, missed: nat)
    requires LogInv(start, cursor, log)
    ensures LogInv(start, cursor + missed, log + [Lagged(missed)])
  {
    hide Gots, Lost, LostBefore;
    LogGrows(log, Lagged(missed));
  }

  lemma NewClientInv(history: seq<R.Notification>, flags: SubscribeFlags)
    ensures ClientInv(history, NewClient(flags, |history|))
  {
  }

  lemma ReceiveKeepsInv(history: seq<R.Notification>, c: Client)
    requires ClientInv(history, c) && ClientEnabled(|history|, c, Receive)
    ensures ClientInv(history, ReceiveNext(history, c))
  {
    hide Gots, Lost, LostBefore, Convert, LogInv, NotificationToProto;
    if Behind(|history|, c) {
      var missed := |history| - BROADCAST_CHANNEL_CAPACITY - c.cursor;
      LagKeepsLog(c.start, c.cursor, c.log, missed);
      LogGrows(c.log, Lagged(missed));
    } else {
      GotKeepsLog(c.start, c.cursor, c.log);
      LogGrows(c.log, Got(c.cursor));
      assert c.sent == Gots(c.log);
    }
  }

  lemma ConvertSnoc(history: seq<R.Notification>, flags: SubscribeFlags, indices: seq<nat>, k: nat)
    requires k < |history| && forall i :: 0 <= i < |indices| ==> indices[i] < |history|
    ensures Convert(history, flags, indices + [k]) ==
            Convert(history, flags, indices) + [NotificationToProto(history[k], flags)]
  {
  }

  lemma SendKeepsInv(history: seq<R.Notification>, c: Client)
    requires ClientInv(history, c) && ClientEnabled(|history|, c, Send)
    ensures ClientInv(history, ClientNext(history, c, Send))
  {
    hide Gots, Lost, LostBefore, LogInv, Convert, NotificationToProto;
    ConvertSnoc(history, c.flags, c.sent, c.hand.value.index);
  }

  lemma ClientStepKeepsInv(history: seq<R.Notification>, c: Client, a: ClientStep)
    requires ClientInv(history, c) && ClientEnabled(|history|, c, a)
    ensures ClientInv(history, ClientNext(history, c, a))
  {
    match a
    case Receive => ReceiveKeepsInv(history, c);
    case Send => SendKeepsInv(history, c);
    case Read =>
      hide Gots, Lost, LostBefore, LogInv, Convert, NotificationToProto;
      assert c.read + [c.queue[0]] + c.queue[1..] == c.read + c.queue;
    case Disconnect =>
      hide Gots, Lost, LostBefore, LogInv, Convert, NotificationToProto;
  }

  /** A longer history leaves a client's account as it is: only its backlog grows. */
  lemma HistoryGrows(history: seq<R.Notification>, n: R.Notification, c: Client)
    requires ClientInv(history, c)
    ensures ClientInv(history + [n], c)
  {
    assert Convert(history + [n], c.flags, c.sent) == Convert(history, c.flags, c.sent);
    hide Gots, Lost, LostBefore, Convert;
  }

  lemma ConvertAgain(history: seq<R.Notification>, c: Client, i: nat)
    requires ClientInv(history, c) && i < |c.read|
    ensures i < |c.sent| && c.read[i] == NotificationToProto(history[c.sent[i]], c.flags)
  {
    hide NotificationToProto;
    var all := Convert(history, c.flags, c.sent);
    if c.connected {
      assert c.read[i] == (c.read + c.queue)[i] == all[i];
    }
  }

  /**
    The account of one client. What it was sent are notifications of the history since its
    subscription, in strictly increasing positions: the m-th at the start plus m plus the losses
    reported before it, so that each gap is exactly the losses reported in between. What it has
    read is a beginning of that, converted with its own flags. And nothing is unaccounted for:
    sent, in hand, reported lost and still to come add up to everything since the subscription.
   */
  lemma ExactAccount(history: seq<R.Notification>, c: Client)
    requires ClientInv(history, c)
    ensures forall m :: 0 <= m < |c.sent| ==> c.sent[m] == c.start + m + LostBefore(c.log, m) < |history|
    ensures forall m :: 0 <= m < |c.sent| - 1 ==>
              && c.sent[m] < c.sent[m + 1]
              && c.sent[m + 1] + LostBefore(c.log, m) == c.sent[m] + 1 + LostBefore(c.log, m + 1)
    ensures |c.read| <= |c.sent|
    ensures forall i :: 0 <= i < |c.read| ==> c.read[i] == NotificationToProto(history[c.sent[i]], c.flags)
    ensures c.connected ==> |c.sent| == |c.read| + |c.queue|
    ensures |c.sent| + |InHand(c)| + Lost(c.log) + (|history| - c.cursor) == |history| - c.start
  {
    forall m | 0 <= m < |c.sent|
      ensures c.sent[m] == c.start + m + LostBefore(c.log, m) < |history|
      ensures LostBefore(c.log, m) <= LostBefore(c.log, m + 1)
    {
      assert c.sent[m] == Gots(c.log)[m];
      LostBeforeMonotone(c.log, m);
    }
    forall i | 0 <= i < |c.read|
      ensures i < |c.sent| && c.read[i] == NotificationToProto(history[c.sent[i]], c.flags)
    {
      ConvertAgain(history, c, i);
    }
    if |c.read| > 0 {
      ConvertAgain(history, c, |c.read| - 1);
    }
    assert |Gots(c.log)| == |c.sent| + |InHand(c)|;
    assert |Convert(history, c.flags, c.sent)| == |c.sent|;
    hide NotificationToProto, Convert, Gots, Lost, LostBefore;
  }

  lemma {:induction false} LostBeforeMonotone(log: seq<Received>, m: nat)
    ensures LostBefore(log, m) <= LostBefore(log, m + 1)
  {
    if |log| == 0 {
    } else {
      LostBeforeMonotone(log[..|log| - 1], m);
    }
  }
}
