/**
  Whole runs of src/exex.rs: the producer loop and any number of clients, interleaved in any
  order. Every client's account is exact in every reachable state, and clients do not influence
  each other or the producer.
 */
module Server {
  import opened Basics
  import opened ConvertChain
  import opened FanOut
  import R = Reth

  /** `heights` are the finished heights reported to the node; `producing` is false once the producer loop has ended. */
  datatype State = State(
    history: seq<R.Notification>, heights: seq<U64>, producing: bool, clients: map<nat, Client>)

  datatype Step =
    | Produce(n: CanonNotification)      // the stream yields a notification
    | EventsClosed(n: CanonNotification) // it does, but the finished height cannot be reported
    | StreamEnds
    | Subscribe(id: nat, flags: SubscribeFlags)
    | At(id: nat, a: ClientStep)

  const INIT := State([], [], true, map[])

  ghost predicate WellFormed(n: CanonNotification) {
    n.Commit? ==> n.new_.blocks != []
  }

  ghost predicate Enabled(s: State, a: Step) {
    match a
    case Produce(n) => s.producing && WellFormed(n)
    case EventsClosed(n) => s.producing && WellFormed(n) && n.Commit?
    case StreamEnds => s.producing
    case Subscribe(id, flags) => id !in s.clients
    case At(id, b) => id in s.clients && ClientEnabled(|s.history|, s.clients[id], b)
  }

  /** The finished height is reported for a commit only, and before the notification is broadcast. */
  ghost function Next(s: State, a: Step): State
    requires Enabled(s, a)
  {
    match a
    case Produce(n) =>
      s.(heights := s.heights + if n.Commit? then [TipNumber(n.new_)] else [],
         history := s.history + [ToExEx(n)])
    case EventsClosed(_) => s.(producing := false)
    case StreamEnds => s.(producing := false)
    case Subscribe(id, flags) => s.(clients := s.clients[id := NewClient(flags, |s.history|)])
    case At(id, b) => s.(clients := s.clients[id := ClientNext(s.history, s.clients[id], b)])
  }

  /** The state after a run, None if some step of it was not enabled. */
  ghost function After(run: seq<Step>): Option<State> {
    if |run| == 0 then Some(INIT)
    else
      match After(run[..|run| - 1])
      case None => None
      case Some(s) => if Enabled(s, run[|run| - 1]) then Some(Next(s, run[|run| - 1])) else None
  }

  ghost predicate IsRun(run: seq<Step>) {
    After(run).Some?
  }

  lemma AfterSnoc(run: seq<Step>, a: Step)
    ensures After(run + [a]) ==
            if IsRun(run) && Enabled(After(run).value, a) then Some(Next(After(run).value, a)) else None
  {
    assert (run + [a])[..|run|] == run;
  }

  // ---- every reachable state

  ghost predicate Inv(s: State) {
    forall id :: id in s.clients ==> ClientInv(s.history, s.clients[id])
  }

  lemma {:induction false} RunKeepsInv(run: seq<Step>)
    requires IsRun(run)
    ensures Inv(After(run).value)
  {
    if |run| == 0 {
    } else {
      var s, a := After(run[..|run| - 1]).value, run[|run| - 1];
      RunKeepsInv(run[..|run| - 1]);
      StepKeepsInv(s, a);
    }
  }

  lemma StepKeepsInv(s: State, a: Step)
    requires Inv(s) && Enabled(s, a)
    ensures Inv(Next(s, a))
  {
    hide ClientInv, ClientEnabled, ClientNext, NewClient;
    match a
    case Produce(n) =>
      forall id | id in s.clients
        ensures ClientInv(s.history + [ToExEx(n)], s.clients[id])
      {
        HistoryGrows(s.history, ToExEx(n), s.clients[id]);
      }
    case EventsClosed(_) =>
    case StreamEnds =>
    case Subscribe(id, flags) => NewClientInv(s.history, flags);
    case At(id, b) => ClientStepKeepsInv(s.history, s.clients[id], b);
  }

  /** In every reachable state the account of every client is exact (FanOut.ExactAccount says what that means). */
  lemma EveryClientAccounted(run: seq<Step>, id: nat)
    requires IsRun(run) && id in After(run).value.clients
    ensures var s := After(run).value;
            var c := s.clients[id];
            && ClientInv(s.history, c)
            && (forall m :: 0 <= m < |c.sent| ==> c.sent[m] == c.start + m + LostBefore(c.log, m) < |s.history|)
            && (forall m :: 0 <= m < |c.sent| - 1 ==> c.sent[m] < c.sent[m + 1])
            && |c.sent| + |InHand(c)| + Lost(c.log) + (|s.history| - c.cursor) == |s.history| - c.start
  {
    hide After, ClientInv;
    RunKeepsInv(run);
    var s := After(run).value;
    ExactAccount(s.history, s.clients[id]);
  }

  /** A client's account starts where its subscription found the history, and its flags never change. */
  lemma {:induction false} StartsWhereSubscribed(run: seq<Step>, k: nat)
    requires IsRun(run) && k < |run| && run[k].Subscribe?
    ensures IsRun(run[..k]) && run[k].id in After(run).value.clients
    ensures var c := After(run).value.clients[run[k].id];
            c.flags == run[k].flags && c.start == |After(run[..k]).value.history|
  {
    var init, last := run[..|run| - 1], run[|run| - 1];
    if k < |init| {
      StartsWhereSubscribed(init, k);
      assert init[..k] == run[..k];
    }
  }

  // ---- finished heights

  function CommittedTips(history: seq<R.Notification>): seq<U64>
    requires forall n :: n in history && n.ChainCommitted? ==> n.new_.blocks != []
  {
    if |history| == 0 then []
    else
      var last := history[|history| - 1];
      CommittedTips(history[..|history| - 1]) + if last.ChainCommitted? then [TipNumber(last.new_)] else []
  }

  /**
    The reported heights are the tips of the committed chains in the order of broadcast: reorgs
    report nothing, and nothing that was not broadcast is reported. The producer never broadcasts
    a ChainReverted: the canonical stream has no such notification.
   */
  lemma {:induction false} HeightsFollowCommits(run: seq<Step>)
    requires IsRun(run)
    ensures var s := After(run).value;
            && (forall n :: n in s.history && n.ChainCommitted? ==> n.new_.blocks != [])
            && s.heights == CommittedTips(s.history)
            && (forall n :: n in s.history ==> !n.ChainReverted?)
  {
    hide ClientEnabled, ClientNext, NewClient;
    if |run| == 0 {
    } else {
      var s, a := After(run[..|run| - 1]).value, run[|run| - 1];
      HeightsFollowCommits(run[..|run| - 1]);
      if a.Produce? {
        assert Next(s, a).history[..|s.history|] == s.history;
      }
    }
  }

  // ---- the history is the stream

  /** What the stream has yielded for broadcast in a run. */
  function Produced(run: seq<Step>): seq<CanonNotification> {
    if |run| == 0 then []
    else
      var last := run[|run| - 1];
      Produced(run[..|run| - 1]) + if last.Produce? then [last.n] else []
  }

  /** The chains that were committed, in order. */
  function CommittedChains(ns: seq<CanonNotification>): seq<R.Chain> {
    if |ns| == 0 then []
    else
      var last := ns[|ns| - 1];
      CommittedChains(ns[..|ns| - 1]) + if last.Commit? then [last.new_] else []
  }

  /**
    The history holds a broadcast for each of these notifications, in order, with the chains in
    their roles; the reported heights are the numbers of the last blocks of the committed chains.
   */
  ghost predicate TellsOf(s: State, ns: seq<CanonNotification>) {
    && |s.history| == |ns|
    && (forall i :: 0 <= i < |ns| ==> Announces(s.history[i], ns[i]))
    && |s.heights| == |CommittedChains(ns)|
    && forall i :: 0 <= i < |s.heights| ==>
         var blocks := CommittedChains(ns)[i].blocks;
         |blocks| > 0 && s.heights[i] == blocks[|blocks| - 1].header.number
  }

  lemma CommittedSnoc(ns: seq<CanonNotification>, n: CanonNotification)
    ensures CommittedChains(ns + [n]) == CommittedChains(ns) + if n.Commit? then [n.new_] else []
  {
    assert (ns + [n])[..|ns|] == ns;
  }

  lemma ProduceTells(s: State, ns: seq<CanonNotification>, n: CanonNotification)
    requires TellsOf(s, ns) && Enabled(s, Produce(n))
    ensures TellsOf(Next(s, Produce(n)), ns + [n])
  {
    hide CommittedChains;
    CommittedSnoc(ns, n);
  }

  /** In every reachable state the history and the heights are those of the stream. */
  lemma {:induction false} HistoryIsTheStream(run: seq<Step>)
    requires IsRun(run)
    ensures TellsOf(After(run).value, Produced(run))
  {
    hide ClientEnabled, ClientNext, NewClient, TellsOf;
    if |run| == 0 {
      assert TellsOf(INIT, []) by { StartTells(); }
    } else {
      var init, last := run[..|run| - 1], run[|run| - 1];
      HistoryIsTheStream(init);
      if last.Produce? {
        ProduceTells(After(init).value, Produced(init), last.n);
      } else {
        SilentTells(After(init).value, Produced(init), last);
        assert Produced(run) == Produced(init);
      }
    }
  }

  lemma StartTells()
    ensures TellsOf(INIT, [])
  {
  }

  lemma SilentTells(s: State, ns: seq<CanonNotification>, a: Step)
    requires TellsOf(s, ns) && Enabled(s, a) && !a.Produce?
    ensures TellsOf(Next(s, a), ns)
  {
  }

  // ---- isolation

  predicate OfOther(a: Step, id: nat) {
    (a.Subscribe? || a.At?) && a.id != id
  }

  /** The steps of a run that concern the producer or one given client. */
  function Concerning(run: seq<Step>, id: nat): seq<Step> {
    if |run| == 0 then []
    else
      var last := run[|run| - 1];
      Concerning(run[..|run| - 1], id)
      + if OfOther(last, id) then [] else [last]
  }

  /** Both states look the same to the producer and to client `id`. */
  ghost predicate SameFor(s: State, t: State, id: nat) {
    && s.history == t.history
    && s.heights == t.heights
    && s.producing == t.producing
    && (id in s.clients <==> id in t.clients)
    && (id in s.clients ==> s.clients[id] == t.clients[id])
  }

  lemma OwnStep(s: State, t: State, a: Step, id: nat)
    requires SameFor(s, t, id) && Enabled(s, a) && !OfOther(a, id)
    ensures Enabled(t, a) && SameFor(Next(s, a), Next(t, a), id)
  {
    hide ClientEnabled, ClientNext, NewClient, ToExEx;
  }

  lemma OtherStep(s: State, t: State, a: Step, id: nat)
    requires SameFor(s, t, id) && Enabled(s, a) && OfOther(a, id)
    ensures SameFor(Next(s, a), t, id)
  {
    hide ClientEnabled, ClientNext, NewClient;
  }

  /** Removing every step of every other client from a run leaves a run, and `id` cannot tell the difference. */
  lemma {:induction false} OthersDoNotMatter(run: seq<Step>, id: nat)
    requires IsRun(run)
    ensures IsRun(Concerning(run, id))
    ensures SameFor(After(run).value, After(Concerning(run, id)).value, id)
  {
    hide Enabled, Next, SameFor;
    if |run| == 0 {
      assert SameFor(INIT, INIT, id) by { SameAsItself(INIT, id); }
    } else {
      var init, last := run[..|run| - 1], run[|run| - 1];
      OthersDoNotMatter(init, id);
      AfterSnoc(Concerning(init, id), last);
      if OfOther(last, id) {
        OtherStep(After(init).value, After(Concerning(init, id)).value, last, id);
        assert Concerning(run, id) == Concerning(init, id);
      } else {
        OwnStep(After(init).value, After(Concerning(init, id)).value, last, id);
      }
    }
  }

  lemma SameAsItself(s: State, id: nat)
    ensures SameFor(s, s, id)
  {
  }

  /**
    What a client observes depends on the producer and on itself only: two runs that agree on
    these end alike for it, whatever other clients subscribe, stall, disconnect or are missing.
   */
  lemma Isolation(run: seq<Step>, other: seq<Step>, id: nat)
    requires IsRun(run) && IsRun(other) && Concerning(run, id) == Concerning(other, id)
    ensures SameFor(After(run).value, After(other).value, id)
  {
    OthersDoNotMatter(run, id);
    OthersDoNotMatter(other, id);
  }

  /** The producer never waits for a client: as long as its loop goes on, it can broadcast in every reachable state. */
  lemma ProducerNeverWaits(run: seq<Step>, n: CanonNotification)
    requires IsRun(run) && WellFormed(n)
    ensures IsRun(run + [Produce(n)]) <==> After(run).value.producing
  {
    AfterSnoc(run, Produce(n));
  }
}
