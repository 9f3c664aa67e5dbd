/**
  The server of module Server with the broadcast channel as src/exex.rs asks for it: sixteen slots
  that are overwritten in turn, and a count of what has been sent. It makes the same runs with the
  same clients as the server that keeps the whole history: sixteen slots are enough for every
  receiver, so the producer may overwrite the oldest one without looking at any client.
 */
module Ring {
  import opened Basics
  import opened ConvertChain
  import opened FanOut
  import opened Server
  import R = Reth

  /** What was sent as number p is in slot p modulo 16 until number p + 16 takes its place. */
  datatype Ring = Ring(slots: seq<Option<R.Notification>>, tail: nat)

  function Empty(): Ring {
    Ring(seq(BROADCAST_CHANNEL_CAPACITY, _ => None), 0)
  }

  function Slot(p: nat): (k: nat)
    ensures k < BROADCAST_CHANNEL_CAPACITY
  {
    p % BROADCAST_CHANNEL_CAPACITY
  }

  function Push(r: Ring, n: R.Notification): Ring
    requires |r.slots| == BROADCAST_CHANNEL_CAPACITY
  {
    Ring(r.slots[Slot(r.tail) := Some(n)], r.tail + 1)
  }

  /** One call of a client's receiver: it sees the count and the slot of its position only. */
  function RingReceive(r: Ring, c: Client): Client
    requires |r.slots| == BROADCAST_CHANNEL_CAPACITY
  {
    if Behind(r.tail, c) then
      var oldest := r.tail - BROADCAST_CHANNEL_CAPACITY;
      c.(cursor := oldest, log := c.log + [Lagged(oldest - c.cursor)])
    else
      match r.slots[Slot(c.cursor)]
      case None => c
      case Some(n) => c.(cursor := c.cursor + 1, hand := Some(Held(c.cursor, n)), log := c.log + [Got(c.cursor)])
  }

  datatype RingState = RingState(ring: Ring, heights: seq<U64>, producing: bool, clients: map<nat, Client>)

  function RingInit(): RingState {
    RingState(Empty(), [], true, map[])
  }

  ghost predicate RingEnabled(s: RingState, a: Step) {
    && |s.ring.slots| == BROADCAST_CHANNEL_CAPACITY
    && match a
       case Produce(n) => s.producing && WellFormed(n)
       case EventsClosed(n) => s.producing && WellFormed(n) && n.Commit?
       case StreamEnds => s.producing
       case Subscribe(id, flags) => id !in s.clients
       case At(id, b) => id in s.clients && ClientEnabled(s.ring.tail, s.clients[id], b)
  }

  /** A client's steps other than receiving do not look at the broadcast channel. */
  function RingClientNext(r: Ring, c: Client, a: ClientStep): Client
    requires |r.slots| == BROADCAST_CHANNEL_CAPACITY && ClientEnabled(r.tail, c, a)
  {
    match a
    case Receive => RingReceive(r, c)
    case _ => ClientNext([], c, a)
  }

  ghost function RingNext(s: RingState, a: Step): RingState
    requires RingEnabled(s, a)
  {
    match a
    case Produce(n) =>
      s.(heights := s.heights + if n.Commit? then [TipNumber(n.new_)] else [],
         ring := Push(s.ring, ToExEx(n)))
    case EventsClosed(_) => s.(producing := false)
    case StreamEnds => s.(producing := false)
    case Subscribe(id, flags) => s.(clients := s.clients[id := NewClient(flags, s.ring.tail)])
    case At(id, b) => s.(clients := s.clients[id := RingClientNext(s.ring, s.clients[id], b)])
  }

  ghost function RingAfter(run: seq<Step>): Option<RingState> {
    if |run| == 0 then Some(RingInit())
    else
      match RingAfter(run[..|run| - 1])
      case None => None
      case Some(s) => if RingEnabled(s, run[|run| - 1]) then Some(RingNext(s, run[|run| - 1])) else None
  }

  // ---- the ring holds the end of the history

  ghost predicate Holds(r: Ring, history: seq<R.Notification>) {
    && |r.slots| == BROADCAST_CHANNEL_CAPACITY
    && r.tail == |history|
    && forall p :: 0 <= p < |history| <= p + BROADCAST_CHANNEL_CAPACITY ==>
         r.slots[Slot(p)] == Some(history[p])
  }

  ghost predicate SameServer(s: RingState, t: State) {
    && Holds(s.ring, t.history)
    && s.heights == t.heights
    && s.producing == t.producing
    && s.clients == t.clients
  }

  lemma DifferentSlots(p: nat, q: nat)
    requires p < q < p + BROADCAST_CHANNEL_CAPACITY
    ensures Slot(p) != Slot(q)
  {
  }

  lemma PushHolds(r: Ring, history: seq<R.Notification>, n: R.Notification)
    requires Holds(r, history)
    ensures Holds(Push(r, n), history + [n])
  {
    forall p | 0 <= p < |history| + 1 <= p + BROADCAST_CHANNEL_CAPACITY
      ensures Push(r, n).slots[Slot(p)] == Some((history + [n])[p])
    {
      if p < |history| {
        DifferentSlots(p, |history|);
      }
    }
  }

  /** A receiver finds in the ring what the history has at its position. */
  lemma ReceiveFromRing(r: Ring, history: seq<R.Notification>, c: Client)
    requires Holds(r, history) && ClientEnabled(|history|, c, Receive)
    ensures RingReceive(r, c) == ReceiveNext(history, c)
  {
  }

  lemma RingStep(s: RingState, t: State, a: Step)
    requires SameServer(s, t)
    ensures RingEnabled(s, a) <==> Enabled(t, a)
    ensures RingEnabled(s, a) ==> SameServer(RingNext(s, a), Next(t, a))
  {
    hide Holds, Push, RingReceive, ReceiveNext, SendNext, ToExEx, NewClient;
    assert |s.ring.slots| == BROADCAST_CHANNEL_CAPACITY && s.ring.tail == |t.history| by {
      HoldsSizes(s.ring, t.history);
    }
    if a.Produce? {
      PushHolds(s.ring, t.history, ToExEx(a.n));
    }
    if a.At? && a.a.Receive? && Enabled(t, a) {
      ReceiveFromRing(s.ring, t.history, t.clients[a.id]);
    }
  }

  lemma HoldsSizes(r: Ring, history: seq<R.Notification>)
    requires Holds(r, history)
    ensures |r.slots| == BROADCAST_CHANNEL_CAPACITY && r.tail == |history|
  {
  }

  /** The server with sixteen slots and the server with the whole history have the same runs and the same clients. */
  lemma {:induction false} RingRefinesHistory(run: seq<Step>)
    ensures RingAfter(run).Some? <==> IsRun(run)
    ensures IsRun(run) ==> SameServer(RingAfter(run).value, After(run).value)
  {
    hide SameServer, Enabled, Next, RingEnabled, RingNext;
    if |run| == 0 {
      assert SameServer(RingInit(), INIT) by { StartsAlike(); }
    } else {
      var init, last := run[..|run| - 1], run[|run| - 1];
      RingRefinesHistory(init);
      if IsRun(init) {
        RingStep(RingAfter(init).value, After(init).value, last);
      }
    }
  }

  lemma StartsAlike()
    ensures SameServer(RingInit(), INIT)
  {
  }

  /**
    Overwriting never waits and never hurts: in every reachable state of the sixteen slots the
    producer can send, and every client ends as with an unbounded history.
   */
  lemma RingNeverWaits(run: seq<Step>, n: CanonNotification)
    requires RingAfter(run).Some? && WellFormed(n)
    ensures RingAfter(run + [Produce(n)]).Some? <==> RingAfter(run).value.producing
    ensures IsRun(run) && RingAfter(run).value.clients == After(run).value.clients
  {
    RingRefinesHistory(run);
    RingRefinesHistory(run + [Produce(n)]);
    ProducerNeverWaits(run, n);
  }
}
