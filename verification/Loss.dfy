/**
  How many notifications may be outstanding for a client of src/exex.rs, broadcast since its
  subscription and not yet read, before one can be lost: 16 if nothing is assumed about the
  forwarder, 33 if it moves whenever it can (16 in the client's channel, one waiting to be sent,
  16 in the broadcast channel). Both numbers are exact.
 */
module Loss {
  import opened Basics
  import opened ConvertChain
  import opened FanOut
  import opened Server
  import R = Reth

  /** Everything broadcast since the subscription that the client has not read. */
  function Outstanding(tail: nat, c: Client): int {
    tail - c.start - |c.read|
  }

  ghost predicate NoLoss(c: Client) {
    forall e :: e in c.log ==> e.Got?
  }

  /** In every state of the run, at most `bound` notifications are outstanding for the client. */
  ghost predicate OutstandingAtMost(run: seq<Step>, id: nat, bound: nat) {
    && (|run| > 0 ==> OutstandingAtMost(run[..|run| - 1], id, bound))
    && (IsRun(run) && id in After(run).value.clients ==>
          Outstanding(|After(run).value.history|, After(run).value.clients[id]) <= bound)
  }

  /** The forwarder of the client cannot move. */
  ghost predicate Settled(s: State, id: nat) {
    id in s.clients ==>
      !ClientEnabled(|s.history|, s.clients[id], Receive) && !ClientEnabled(|s.history|, s.clients[id], Send)
  }

  /** Whenever anything else happens, the forwarder of the client has moved as far as it can. */
  ghost predicate Eager(run: seq<Step>, id: nat) {
    |run| > 0 ==>
      var init, last := run[..|run| - 1], run[|run| - 1];
      && Eager(init, id)
      && (IsRun(init) && last != At(id, Receive) && last != At(id, Send) ==> Settled(After(init).value, id))
  }

  lemma {:induction false} NoLossMeansNothingLost(log: seq<Received>)
    requires forall e :: e in log ==> e.Got?
    ensures Lost(log) == 0
  {
    if |log| == 0 {
    } else {
      NoLossMeansNothingLost(log[..|log| - 1]);
      assert log[|log| - 1] in log;
    }
  }

  // ---- the bounds suffice

  /** A loss is reported only to a receiver that is more than 16 behind, and what it is behind is outstanding. */
  lemma BacklogIsOutstanding(history: seq<R.Notification>, c: Client)
    requires ClientInv(history, c)
    ensures |history| - c.cursor <= Outstanding(|history|, c)
    ensures NoLoss(c) && c.connected ==>
              Outstanding(|history|, c) == |c.queue| + |InHand(c)| + (|history| - c.cursor)
  {
    ExactAccount(history, c);
    if NoLoss(c) {
      NoLossMeansNothingLost(c.log);
    }
  }

  lemma {:induction false} LossFreeUnderAnySchedule(run: seq<Step>, id: nat)
    requires IsRun(run) && OutstandingAtMost(run, id, 16)
    ensures id in After(run).value.clients ==> NoLoss(After(run).value.clients[id])
  {
    hide ClientInv, NotificationToProto;
    if |run| == 0 {
    } else {
      var init, last := run[..|run| - 1], run[|run| - 1];
      LossFreeUnderAnySchedule(init, id);
      RunKeepsInv(init);
      var s := After(init).value;
      if id in s.clients {
        BacklogIsOutstanding(s.history, s.clients[id]);
      }
    }
  }

  /** One step of an eager run keeps the backlog of a running forwarder within the broadcast channel. */
  lemma EagerStep(s: State, a: Step, id: nat)
    requires Inv(s) && Enabled(s, a)
    requires a != At(id, Receive) && a != At(id, Send) ==> Settled(s, id)
    requires id in s.clients ==>
               var c := s.clients[id];
               NoLoss(c) && (c.running ==> |s.history| - c.cursor <= 16)
    requires id in Next(s, a).clients ==> Outstanding(|Next(s, a).history|, Next(s, a).clients[id]) <= 33
    ensures id in Next(s, a).clients ==>
               var d := Next(s, a).clients[id];
               NoLoss(d) && (d.running ==> |Next(s, a).history| - d.cursor <= 16)
  {
    hide NotificationToProto, ToExEx, Gots, Lost, LogInv, Convert;
    if id in s.clients {
      var c := s.clients[id];
      BacklogIsOutstanding(s.history, c);
      assert |c.queue| <= PER_CLIENT_CHANNEL_CAPACITY;
    }
    hide Inv, ClientInv, NotificationToProto, ToExEx;
  }

  lemma {:induction false} LossFreeWhenEager(run: seq<Step>, id: nat)
    requires IsRun(run) && Eager(run, id) && OutstandingAtMost(run, id, 33)
    ensures id in After(run).value.clients ==>
              var s := After(run).value;
              var c := s.clients[id];
              NoLoss(c) && (c.running ==> |s.history| - c.cursor <= 16)
  {
    hide Next, Enabled, NoLoss;
    if |run| == 0 {
    } else {
      LossFreeWhenEager(run[..|run| - 1], id);
      RunKeepsInv(run[..|run| - 1]);
      EagerStep(After(run[..|run| - 1]).value, run[|run| - 1], id);
    }
  }

  // ---- one more loses

  const EMPTY_CHAIN := R.Chain([], R.Bundle([], [], []), None)
  const SOME_NOTIFICATION := Reorg(EMPTY_CHAIN, EMPTY_CHAIN)
  const NO_FLAGS := SubscribeFlags(false, false, false, false, false, false)

  /** One client subscribes and `k` notifications are broadcast while its forwarder does not run. */
  function Stalled(k: nat): seq<Step> {
    if k == 0 then [Subscribe(0, NO_FLAGS)] else Stalled(k - 1) + [Produce(SOME_NOTIFICATION)]
  }

  lemma {:induction false} StalledState(k: nat)
    ensures IsRun(Stalled(k)) && OutstandingAtMost(Stalled(k), 0, k)
    ensures var s := After(Stalled(k)).value;
            && |s.history| == k && s.producing
            && s.clients == map[0 := NewClient(NO_FLAGS, 0)]
  {
    hide NotificationToProto;
    if k == 0 {
      AfterSnoc([], Subscribe(0, NO_FLAGS));
      assert [] + [Subscribe(0, NO_FLAGS)] == Stalled(0);
      assert Stalled(0)[..0] == [];
    } else {
      StalledState(k - 1);
      OutstandingGrows(Stalled(k - 1), 0, k - 1, k);
      AfterSnoc(Stalled(k - 1), Produce(SOME_NOTIFICATION));
      assert Stalled(k)[..|Stalled(k)| - 1] == Stalled(k - 1);
    }
  }

  lemma {:induction false} OutstandingGrows(run: seq<Step>, id: nat, b: nat, b': nat)
    requires OutstandingAtMost(run, id, b) && b <= b'
    ensures OutstandingAtMost(run, id, b')
  {
    if |run| == 0 {
    } else {
      OutstandingGrows(run[..|run| - 1], id, b, b');
    }
  }

  /** With 17 or more outstanding, a forwarder that was not scheduled loses all but the last 16. */
  lemma StalledForwarderLoses(k: nat)
    requires k > 16
    ensures var run := Stalled(k) + [At(0, Receive)];
            && IsRun(run)
            && OutstandingAtMost(run, 0, k)
            && After(run).value.clients[0].log == [Lagged(k - 16)]
  {
    hide NotificationToProto;
    StalledState(k);
    var run := Stalled(k) + [At(0, Receive)];
    AfterSnoc(Stalled(k), At(0, Receive));
    assert run[..|run| - 1] == Stalled(k);
  }

  /** One client subscribes and never reads; `k` notifications are broadcast and its forwarder moves whenever it can. */
  function Filled(k: nat): seq<Step> {
    if k == 0 then [Subscribe(0, NO_FLAGS)]
    else
      Filled(k - 1) + [Produce(SOME_NOTIFICATION)]
      + (if k <= 17 then [At(0, Receive)] else [])
      + (if k <= 16 then [At(0, Send)] else [])
  }

  /** The client after that: its channel full after 16, one more waiting to be sent after 17. */
  ghost predicate FilledClient(k: nat, c: Client) {
    && c.start == 0 && c.running && c.connected
    && c.cursor == (if k <= 17 then k else 17)
    && (c.hand.Some? <==> k >= 17)
    && |c.queue| == (if k <= 16 then k else 16)
    && c.read == []
    && NoLoss(c)
  }

  ghost predicate FilledState(run: seq<Step>, k: nat, s: State) {
    && After(run) == Some(s)
    && |s.history| == k && s.producing
    && 0 in s.clients
    && Eager(run, 0)
    && OutstandingAtMost(run, 0, k)
  }

  /** Appending a step to a run: what is to be checked of the last state only. */
  lemma Append(run: seq<Step>, a: Step, k: nat)
    requires IsRun(run) && Enabled(After(run).value, a)
    requires Eager(run, 0) && OutstandingAtMost(run, 0, k)
    requires a == At(0, Receive) || a == At(0, Send) || Settled(After(run).value, 0)
    requires var t := Next(After(run).value, a);
             0 in t.clients ==> Outstanding(|t.history|, t.clients[0]) <= k
    ensures After(run + [a]) == Some(Next(After(run).value, a))
    ensures Eager(run + [a], 0) && OutstandingAtMost(run + [a], 0, k)
  {
    hide Next, Enabled, Settled;
    AfterSnoc(run, a);
    assert (run + [a])[..|run|] == run;
  }

  /** A broadcast to the settled forwarder. */
  lemma FillOne(run: seq<Step>, s: State, k: nat) returns (t: State)
    requires k > 0 && FilledState(run, k - 1, s) && FilledClient(k - 1, s.clients[0])
    ensures var run' := run + [Produce(SOME_NOTIFICATION)];
            && FilledState(run', k, t)
            && t.clients == s.clients
  {
    hide NotificationToProto, Eager, OutstandingAtMost, After, NoLoss;
    OutstandingGrows(run, 0, k - 1, k);
    Append(run, Produce(SOME_NOTIFICATION), k);
    t := Next(s, Produce(SOME_NOTIFICATION));
  }

  lemma FillReceive(run: seq<Step>, s: State, k: nat) returns (t: State)
    requires 0 < k <= 17 && FilledState(run, k, s) && FilledClient(k - 1, s.clients[0])
    ensures FilledState(run + [At(0, Receive)], k, t)
    ensures var c, d := s.clients[0], t.clients[0];
            && d == c.(cursor := k, hand := d.hand, log := d.log) && d.hand.Some? && NoLoss(d)
  {
    hide NotificationToProto, Eager, OutstandingAtMost, After;
    Append(run, At(0, Receive), k);
    t := Next(s, At(0, Receive));
  }

  lemma FillSend(run: seq<Step>, s: State, k: nat) returns (t: State)
    requires 0 < k <= 16 && FilledState(run, k, s)
    requires var c := s.clients[0];
             && c.start == 0 && c.running && c.connected && c.cursor == k
             && c.hand.Some? && |c.queue| == k - 1 && c.read == []
             && NoLoss(c)
    ensures FilledState(run + [At(0, Send)], k, t) && FilledClient(k, t.clients[0])
  {
    hide NotificationToProto, Eager, OutstandingAtMost, After;
    Append(run, At(0, Send), k);
    t := Next(s, At(0, Send));
  }

  lemma {:induction false} FilledReaches(k: nat) returns (s: State)
    ensures FilledState(Filled(k), k, s) && FilledClient(k, s.clients[0])
  {
    hide NotificationToProto, Eager, OutstandingAtMost, After, NoLoss;
    if k == 0 {
      FilledStart();
      s := After(Filled(0)).value;
    } else {
      s := FilledReaches(k - 1);
      var run := Filled(k - 1);
      s := FillOne(run, s, k);
      run := run + [Produce(SOME_NOTIFICATION)];
      if k <= 17 {
        s := FillReceive(run, s, k);
        run := run + [At(0, Receive)];
      }
      if k <= 16 {
        s := FillSend(run, s, k);
        run := run + [At(0, Send)];
      }
      assert Filled(k) == run;
    }
  }

  lemma FilledStart()
    ensures IsRun(Filled(0))
    ensures FilledState(Filled(0), 0, After(Filled(0)).value) && FilledClient(0, After(Filled(0)).value.clients[0])
  {
    hide NotificationToProto;
    assert Filled(0)[..0] == [];
  }

  /**
    With 34 or more outstanding, an eager forwarder loses all but the 33 that the two channels and
    its hand can hold.
   */
  lemma EagerForwarderLoses(k: nat) returns (run: seq<Step>, s: State)
    requires k > 33
    ensures After(run) == Some(s) && Eager(run, 0) && OutstandingAtMost(run, 0, k)
    ensures 0 in s.clients && Lagged(k - 33) in s.clients[0].log
  {
    hide NotificationToProto, Eager, OutstandingAtMost;
    s := FilledReaches(k);
    run := Filled(k);
    Append(run, At(0, Read), k);
    run, s := run + [At(0, Read)], Next(s, At(0, Read));
    Append(run, At(0, Send), k);
    run, s := run + [At(0, Send)], Next(s, At(0, Send));
    Append(run, At(0, Receive), k);
    run, s := run + [At(0, Receive)], Next(s, At(0, Receive));
    assert s.clients[0].log[|s.clients[0].log| - 1] == Lagged(k - 33);
  }

  // ---- the exact bounds

  ghost predicate SafeUnderAnySchedule(bound: nat) {
    forall run, id | IsRun(run) && OutstandingAtMost(run, id, bound) && id in After(run).value.clients ::
      NoLoss(After(run).value.clients[id])
  }

  ghost predicate SafeWhenEager(bound: nat) {
    forall run, id |
      IsRun(run) && Eager(run, id) && OutstandingAtMost(run, id, bound) && id in After(run).value.clients ::
      NoLoss(After(run).value.clients[id])
  }

  /** Whatever the schedule, nothing is lost exactly as long as at most 16 are outstanding. */
  lemma SixteenIsExact(bound: nat)
    ensures SafeUnderAnySchedule(bound) <==> bound <= 16
  {
    if bound <= 16 {
      forall run, id | IsRun(run) && OutstandingAtMost(run, id, bound) && id in After(run).value.clients
        ensures NoLoss(After(run).value.clients[id])
      {
        OutstandingGrows(run, id, bound, 16);
        LossFreeUnderAnySchedule(run, id);
      }
    } else {
      var run := Stalled(bound) + [At(0, Receive)];
      StalledForwarderLoses(bound);
      assert Lagged(bound - 16) in After(run).value.clients[0].log;
    }
  }

  /** With an eager forwarder, nothing is lost exactly as long as at most 33 are outstanding. */
  lemma ThirtyThreeIsExact(bound: nat)
    ensures SafeWhenEager(bound) <==> bound <= 33
  {
    if bound <= 33 {
      forall run, id |
        IsRun(run) && Eager(run, id) && OutstandingAtMost(run, id, bound) && id in After(run).value.clients
        ensures NoLoss(After(run).value.clients[id])
      {
        OutstandingGrows(run, id, bound, 33);
        LossFreeWhenEager(run, id);
      }
    } else {
      var run, s := EagerForwarderLoses(bound);
      assert IsRun(run) && After(run).value == s;
      hide After, Eager, OutstandingAtMost;
      assert !NoLoss(s.clients[0]);
    }
  }
}
