/**
  The select loop of examples/go-internal-txs-bench/main.go as a function of its events, and what
  whole sequences of events lead to: the bookkeeping invariant, and that the matcher computes the
  join of its two sources.
 */
module Matching {
  import opened Basics
  import opened Stats

  /** matchTimeout, in nanoseconds. */
  const MATCH_TIMEOUT: int := 10_000_000_000

  /** A block that one side has delivered; a time of 0 means that the side has not. */
  datatype Entry = Entry(grpcMs: int, rpcMs: int, since: int, txCount: U64, gasUsed: U64)

  datatype Emitted = Emitted(
    block: U64, txCount: U64, gasUsed: U64, grpcMs: int, rpcMs: int, delta: int)

  /** What the select statement can receive; `now` is the clock at that moment. */
  datatype Event =
    | Grpc(block: U64, ms: int, txCount: U64, gasUsed: U64, now: int)
    | Rpc(block: U64, ms: int, now: int)
    | Tick(now: int)
    | Failure
    | Interrupt

  /** The loop goes on, or the process has exited: target reached, interrupted, or a source failed. */
  datatype Status = Running | Reached | Interrupted | Failed

  datatype State = State(
    pending: map<U64, Entry>,
    matched: nat,
    unmatched: nat,
    deltas: seq<int>,
    emitted: seq<Emitted>,
    created: nat,
    status: Status)

  const INIT := State(map[], 0, 0, [], [], 0, Running)

  // ---- one event

  function EntryFor(s: State, block: U64, now: int): Entry {
    if block in s.pending then s.pending[block] else Entry(0, 0, now, 0, 0)
  }

  function CreatedFor(s: State, block: U64): nat {
    if block in s.pending then 0 else 1
  }

  function Emit(block: U64, p: Entry): Emitted {
    Emitted(block, p.txCount, p.gasUsed, p.grpcMs, p.rpcMs, Wrap(p.grpcMs - p.rpcMs))
  }

  predicate Expired(p: Entry, now: int) {
    now - p.since > MATCH_TIMEOUT
  }

  function ExpiredBlocks(s: State, now: int): set<U64> {
    set b | b in s.pending && Expired(s.pending[b], now)
  }

  /** When a side arrives, only the time of the other side is looked at. */
  function Next(s: State, target: nat, e: Event): State
    requires s.status.Running?
  {
    match e
    case Grpc(block, ms, txCount, gasUsed, now) =>
      var p := EntryFor(s, block, now).(grpcMs := ms, txCount := txCount, gasUsed := gasUsed);
      if p.rpcMs != 0 then Matched(s, target, block, p) else Kept(s, block, p)
    case Rpc(block, ms, now) =>
      var p := EntryFor(s, block, now).(rpcMs := ms);
      if p.grpcMs != 0 then Matched(s, target, block, p) else Kept(s, block, p)
    case Tick(now) =>
      TimedOut(s, ExpiredBlocks(s, now))
    case Failure => s.(status := Failed)
    case Interrupt => s.(status := Interrupted)
  }

  function Matched(s: State, target: nat, block: U64, p: Entry): State {
    var e := Emit(block, p);
    s.(pending := s.pending - {block},
       matched := s.matched + 1,
       deltas := s.deltas + [e.delta],
       emitted := s.emitted + [e],
       created := s.created + CreatedFor(s, block),
       status := if s.matched + 1 == target then Reached else Running)
  }

  function Kept(s: State, block: U64, p: Entry): State {
    s.(pending := s.pending[block := p], created := s.created + CreatedFor(s, block))
  }

  function TimedOut(s: State, gone: set<U64>): State {
    s.(pending := s.pending - gone, unmatched := s.unmatched + |gone|)
  }

  /** The state after some events, None if the process had exited before the last of them. */
  function After(target: nat, events: seq<Event>): Option<State> {
    if |events| == 0 then Some(INIT)
    else
      match After(target, events[..|events| - 1])
      case None => None
      case Some(s) => if s.status.Running? then Some(Next(s, target, events[|events| - 1])) else None
  }

  // ---- the bookkeeping invariant

  ghost predicate OneSided(p: Entry) {
    p.grpcMs != 0 <==> p.rpcMs == 0
  }

  ghost predicate AllOneSided(s: State) {
    forall b :: b in s.pending ==> OneSided(s.pending[b])
  }

  /** The counters: matches are the emitted lines, up to the target, and no entry is unaccounted for. */
  ghost predicate Books(s: State, target: nat) {
    && s.matched == |s.deltas| == |s.emitted|
    && (forall i :: 0 <= i < |s.emitted| ==> s.deltas[i] == s.emitted[i].delta)
    && s.matched <= target
    && (s.status.Running? ==> s.matched < target)
    && (s.status.Reached? ==> s.matched == target)
    && s.created == s.matched + s.unmatched + |s.pending|
  }

  ghost predicate Inv(s: State, target: nat) {
    AllOneSided(s) && Books(s, target)
  }

  /** The event is no arrival, or finds the other side there, or has a time other than 0. */
  predicate Harmless(s: State, e: Event) {
    match e
    case Grpc(block, ms, _, _, now) => EntryFor(s, block, now).rpcMs == 0 ==> ms != 0
    case Rpc(block, ms, now) => EntryFor(s, block, now).grpcMs == 0 ==> ms != 0
    case _ => true
  }

  lemma RemoveOne<T>(m: map<U64, T>, b: U64)
    ensures |m - {b}| == |m| - if b in m then 1 else 0
  {
    assert (m - {b}).Keys == m.Keys - {b};
    assert |m.Keys| == |m|;
  }

  lemma RemoveSome<T>(m: map<U64, T>, bs: set<U64>)
    requires bs <= m.Keys
    ensures |m - bs| + |bs| == |m|
  {
    assert (m - bs).Keys == m.Keys - bs;
    assert |m.Keys - bs| == |m.Keys| - |bs|;
  }

  lemma PutOne<T>(m: map<U64, T>, b: U64, t: T)
    ensures |m[b := t]| == |m| + if b in m then 0 else 1
  {
    assert m[b := t].Keys == m.Keys + {b};
    assert |m.Keys| == |m|;
  }

  lemma MatchedKeepsBooks(s: State, target: nat, block: U64, p: Entry)
    requires Books(s, target) && s.status.Running?
    ensures Books(Matched(s, target, block, p), target)
  {
    RemoveOne(s.pending, block);
  }

  lemma KeptKeepsBooks(s: State, target: nat, block: U64, p: Entry)
    requires Books(s, target) && s.status.Running?
    ensures Books(Kept(s, block, p), target)
  {
    PutOne(s.pending, block, p);
  }

  /** Every event keeps the books, whatever its time. */
  lemma NextKeepsBooks(s: State, target: nat, e: Event)
    requires Books(s, target) && s.status.Running?
    ensures Books(Next(s, target, e), target)
  {
    match e
    case Grpc(block, ms, txCount, gasUsed, now) =>
      var p := EntryFor(s, block, now).(grpcMs := ms, txCount := txCount, gasUsed := gasUsed);
      MatchedKeepsBooks(s, target, block, p);
      KeptKeepsBooks(s, target, block, p);
    case Rpc(block, ms, now) =>
      var p := EntryFor(s, block, now).(rpcMs := ms);
      MatchedKeepsBooks(s, target, block, p);
      KeptKeepsBooks(s, target, block, p);
    case Tick(now) =>
      RemoveSome(s.pending, ExpiredBlocks(s, now));
    case _ =>
  }

  lemma KeptOneSidedIff(s: State, block: U64, p: Entry)
    requires AllOneSided(s)
    ensures AllOneSided(Kept(s, block, p)) <==> OneSided(p)
  {
    assert Kept(s, block, p).pending[block] == p;
  }

  /** An event keeps every pending entry one-sided exactly when it is harmless. */
  lemma NextKeepsInvIff(s: State, target: nat, e: Event)
    requires Inv(s, target) && s.status.Running?
    ensures Inv(Next(s, target, e), target) <==> Harmless(s, e)
  {
    hide Books, Matched, Kept;
    NextKeepsBooks(s, target, e);
    match e
    case Grpc(block, ms, txCount, gasUsed, now) =>
      var p := EntryFor(s, block, now).(grpcMs := ms, txCount := txCount, gasUsed := gasUsed);
      MatchedKeepsOneSided(s, target, block, p);
      KeptOneSidedIff(s, block, p);
    case Rpc(block, ms, now) =>
      var p := EntryFor(s, block, now).(rpcMs := ms);
      MatchedKeepsOneSided(s, target, block, p);
      KeptOneSidedIff(s, block, p);
    case _ =>
  }

  lemma MatchedKeepsOneSided(s: State, target: nat, block: U64, p: Entry)
    requires AllOneSided(s)
    ensures AllOneSided(Matched(s, target, block, p))
  {
  }

  /** For any events, repeats, timeouts and times of 0 included, the books balance. */
  lemma {:induction false} BooksBalance(target: nat, events: seq<Event>)
    requires target > 0 && After(target, events).Some?
    ensures Books(After(target, events).value, target)
  {
    if |events| == 0 {
    } else {
      var init := events[..|events| - 1];
      BooksBalance(target, init);
      NextKeepsBooks(After(target, init).value, target, events[|events| - 1]);
    }
  }

  /** Every state of the run has one-sided entries only. */
  ghost predicate AlwaysOneSided(target: nat, events: seq<Event>)
    requires After(target, events).Some?
  {
    && AllOneSided(After(target, events).value)
    && (|events| > 0 ==> AlwaysOneSided(target, events[..|events| - 1]))
  }

  /** Every event of the run is harmless when it arrives. */
  ghost predicate AlwaysHarmless(target: nat, events: seq<Event>)
    requires After(target, events).Some?
  {
    |events| > 0 ==>
      var init := events[..|events| - 1];
      AlwaysHarmless(target, init) && Harmless(After(target, init).value, events[|events| - 1])
  }

  /** The pending entries have exactly one side set throughout a run exactly when each of its events is harmless. */
  lemma {:induction false} OneSidedThroughoutIff(target: nat, events: seq<Event>)
    requires target > 0 && After(target, events).Some?
    ensures AlwaysOneSided(target, events) <==> AlwaysHarmless(target, events)
  {
    if |events| == 0 {
    } else {
      var init := events[..|events| - 1];
      OneSidedThroughoutIff(target, init);
      BooksBalance(target, init);
      BooksBalance(target, events);
      hide Books, Next, Harmless;
      if AlwaysOneSided(target, init) {
        NextKeepsInvIff(After(target, init).value, target, events[|events| - 1]);
      }
    }
  }

  /** A sender that uses no time of 0 sends nothing but harmless events. */
  lemma {:induction false} NonZeroIsHarmless(target: nat, events: seq<Event>)
    requires After(target, events).Some? && forall e :: e in events ==> NonZero(e)
    ensures AlwaysHarmless(target, events)
  {
    if |events| == 0 {
    } else {
      var init := events[..|events| - 1];
      assert forall e :: e in init ==> e in events;
      NonZeroIsHarmless(target, init);
      assert events[|events| - 1] in events;
    }
  }

  /** A repeated delivery with time 0 leaves an entry with neither side set, though its first arrival was in order. */
  lemma RepeatAtZeroLosesTheSide(target: nat)
    requires target > 0
    ensures var events := [Grpc(5, 7, 1, 1, 0), Grpc(5, 0, 2, 3, 4)];
            && After(target, events).Some?
            && After(target, events).value.pending == map[5 := Entry(0, 0, 0, 2, 3)]
            && !AlwaysOneSided(target, events)
  {
    var events := [Grpc(5, 7, 1, 1, 0), Grpc(5, 0, 2, 3, 4)];
    assert events[..1][..0] == [] && events[..1][0] == events[0];
    assert After(target, events[..1]) == Some(Next(INIT, target, events[0]));
    assert After(target, events).value.pending[5] == Entry(0, 0, 0, 2, 3);
  }

  /**
    A delivery, repeated or not, replaces what its own source said of the block and leaves what
    the other source said: in the entry that stays pending, or in the line that is emitted.
   */
  lemma DeliveryReplacesItsSide(s: State, target: nat, e: Event)
    requires s.status.Running? && (e.Grpc? || e.Rpc?)
    ensures var t, b := Next(s, target, e), e.block;
            var known := b in s.pending;
            var matches := known && if e.Grpc? then s.pending[b].rpcMs != 0 else s.pending[b].grpcMs != 0;
            && (b in t.pending <==> !matches)
            && |t.emitted| == |s.emitted| + (if matches then 1 else 0)
            && (e.Grpc? && !matches ==>
                  && t.pending[b].grpcMs == e.ms && t.pending[b].rpcMs == 0
                  && t.pending[b].txCount == e.txCount && t.pending[b].gasUsed == e.gasUsed)
            && (e.Rpc? && !matches ==>
                  && t.pending[b].rpcMs == e.ms && t.pending[b].grpcMs == 0
                  && (known ==> t.pending[b].txCount == s.pending[b].txCount)
                  && (known ==> t.pending[b].gasUsed == s.pending[b].gasUsed))
            && (e.Grpc? && matches ==>
                  var x := t.emitted[|s.emitted|];
                  x.block == b && x.grpcMs == e.ms && x.rpcMs == s.pending[b].rpcMs
                  && x.txCount == e.txCount && x.gasUsed == e.gasUsed)
            && (e.Rpc? && matches ==>
                  var x := t.emitted[|s.emitted|];
                  x.block == b && x.rpcMs == e.ms && x.grpcMs == s.pending[b].grpcMs
                  && x.txCount == s.pending[b].txCount && x.gasUsed == s.pending[b].gasUsed)
  {
  }

  /** A second side that arrives at time 0 is harmless: it matches at once. */
  lemma PartnerAtZeroMatches(target: nat)
    requires target > 0
    ensures var events := [Grpc(5, 7, 1, 1, 0), Event.Rpc(5, 0, 0)];
            && After(target, events).Some?
            && After(target, events).value.emitted == [Emitted(5, 1, 1, 7, 0, 7)]
            && AlwaysOneSided(target, events)
  {
    var events := [Grpc(5, 7, 1, 1, 0), Event.Rpc(5, 0, 0)];
    assert events[..1][..0] == [] && events[..1][0] == events[0];
    assert After(target, events[..1]) == Some(Next(INIT, target, events[0]));
  }

  /** A first arrival dates its entry, and leaves exactly one side set if and only if its time is not zero. */
  lemma OneSidedIffNonZero(s: State, target: nat, e: Event)
    requires s.status.Running? && (e.Grpc? || e.Rpc?) && e.block !in s.pending
    ensures e.block in Next(s, target, e).pending
    ensures OneSided(Next(s, target, e).pending[e.block]) <==> e.ms != 0
    ensures Next(s, target, e).pending[e.block].since == e.now
  {
  }

  /** How the last event leaves the loop: it ends for its own reason, or when the target is met. */
  lemma StatusFollowsEvents(target: nat, events: seq<Event>)
    requires target > 0 && After(target, events).Some?
    ensures var s := After(target, events).value;
            && (s.status.Failed? <==> |events| > 0 && events[|events| - 1].Failure?)
            && (s.status.Interrupted? <==> |events| > 0 && events[|events| - 1].Interrupt?)
            && (s.status.Reached? ==> s.matched == target)
            && (s.status.Running? ==> s.matched < target)
  {
    BooksBalance(target, events);
  }

  // ---- timeouts

  /** The time of first arrival of a pending block is never refreshed. */
  lemma SinceIsKept(s: State, target: nat, e: Event, b: U64)
    requires s.status.Running? && b in s.pending && b in Next(s, target, e).pending
    ensures Next(s, target, e).pending[b].since == s.pending[b].since
  {
  }

  /** A tick removes exactly the blocks that have waited too long, and touches no other. */
  lemma TickRemovesExactlyExpired(s: State, target: nat, now: int)
    requires s.status.Running?
    ensures var t := Next(s, target, Tick(now));
            && (forall b :: b in t.pending <==> b in s.pending && now - s.pending[b].since <= 10_000_000_000)
            && (forall b :: b in t.pending ==> t.pending[b] == s.pending[b])
            && t.matched == s.matched && t.emitted == s.emitted
            && t.unmatched == s.unmatched + |s.pending.Keys - t.pending.Keys|
  {
    var t := Next(s, target, Tick(now));
    assert s.pending.Keys - t.pending.Keys == ExpiredBlocks(s, now);
  }

  // ---- the join

  /** The gRPC arrival of a block among the events: its time and payload. */
  function GrpcOf(events: seq<Event>, b: U64): Option<Event> {
    if |events| == 0 then None
    else
      var last := events[|events| - 1];
      if last.Grpc? && last.block == b then Some(last) else GrpcOf(events[..|events| - 1], b)
  }

  function RpcOf(events: seq<Event>, b: U64): Option<Event> {
    if |events| == 0 then None
    else
      var last := events[|events| - 1];
      if last.Rpc? && last.block == b then Some(last) else RpcOf(events[..|events| - 1], b)
  }

  lemma {:induction false} GrpcOfIsThere(events: seq<Event>, b: U64)
    ensures GrpcOf(events, b).Some? <==> exists e :: e in events && e.Grpc? && e.block == b
    ensures GrpcOf(events, b).Some? ==> GrpcOf(events, b).value in events
    ensures GrpcOf(events, b).Some? ==> GrpcOf(events, b).value.Grpc? && GrpcOf(events, b).value.block == b
  {
    if |events| == 0 {
    } else {
      GrpcOfIsThere(events[..|events| - 1], b);
      assert events == events[..|events| - 1] + [events[|events| - 1]];
    }
  }

  lemma {:induction false} RpcOfIsThere(events: seq<Event>, b: U64)
    ensures RpcOf(events, b).Some? <==> exists e :: e in events && e.Rpc? && e.block == b
    ensures RpcOf(events, b).Some? ==> RpcOf(events, b).value in events
    ensures RpcOf(events, b).Some? ==> RpcOf(events, b).value.Rpc? && RpcOf(events, b).value.block == b
  {
    if |events| == 0 {
    } else {
      RpcOfIsThere(events[..|events| - 1], b);
      assert events == events[..|events| - 1] + [events[|events| - 1]];
    }
  }

  ghost predicate NonZero(e: Event) {
    (e.Grpc? || e.Rpc?) ==> e.ms != 0
  }

  /** Each source delivers each block at most once. */
  ghost predicate AtMostOnce(events: seq<Event>) {
    forall i, j :: 0 <= i < j < |events| ==>
      && !(events[i].Grpc? && events[j].Grpc? && events[i].block == events[j].block)
      && !(events[i].Rpc? && events[j].Rpc? && events[i].block == events[j].block)
  }

  /** The two are the deliveries of one block by the two sources. */
  predicate Partners(x: Event, y: Event) {
    (x.Grpc? && y.Rpc? && x.block == y.block) || (x.Rpc? && y.Grpc? && x.block == y.block)
  }

  /** The partner of the `i`-th event is among the first `j` events. */
  ghost predicate PartnerBefore(events: seq<Event>, i: nat, j: nat)
    requires i < |events| && j <= |events|
  {
    exists k :: 0 <= k < j && Partners(events[k], events[i])
  }

  /** The event is a delivery, more than the timeout before `now`. */
  predicate Overdue(e: Event, now: int) {
    (e.Grpc? || e.Rpc?) && now - e.now > MATCH_TIMEOUT
  }

  /** No tick comes more than the timeout after a delivery whose partner has not come by then. */
  ghost predicate Prompt(events: seq<Event>) {
    forall i, j :: 0 <= i < j < |events| && events[j].Tick? && Overdue(events[i], events[j].now) ==>
                     PartnerBefore(events, i, j)
  }

  /** No tick of the run finds a block that has waited too long. */
  ghost predicate NoTimeouts(target: nat, events: seq<Event>) {
    |events| > 0 ==>
      var init, last := events[..|events| - 1], events[|events| - 1];
      && NoTimeouts(target, init)
      && (last.Tick? && After(target, init).Some? ==> ExpiredBlocks(After(target, init).value, last.now) == {})
  }

  /** The line printed for a block that both sources have delivered: gRPC time minus RPC time, gRPC payload. */
  function Join(g: Event, r: Event): Emitted
    requires g.Grpc? && r.Rpc?
  {
    Emitted(g.block, g.txCount, g.gasUsed, g.ms, r.ms, Wrap(g.ms - r.ms))
  }

  ghost predicate EmittedOnce(s: State, b: U64) {
    forall i, j :: 0 <= i < j < |s.emitted| ==> !(s.emitted[i].block == b && s.emitted[j].block == b)
  }

  ghost predicate Lists(s: State, e: Emitted) {
    exists i :: 0 <= i < |s.emitted| && s.emitted[i] == e
  }

  ghost predicate Mentions(s: State, b: U64) {
    exists i :: 0 <= i < |s.emitted| && s.emitted[i].block == b
  }

  /** What the state must say about a block, given which sources have delivered it. */
  ghost predicate JoinedAt(s: State, g: Option<Event>, r: Option<Event>, b: U64)
    requires g.Some? ==> g.value.Grpc?
    requires r.Some? ==> r.value.Rpc?
  {
    && EmittedOnce(s, b)
    && (g.None? && r.None? ==> b !in s.pending && !Mentions(s, b))
    && (g.Some? && r.None? ==>
          && !Mentions(s, b) && b in s.pending
          && s.pending[b].grpcMs == g.value.ms && s.pending[b].rpcMs == 0
          && s.pending[b].since == g.value.now
          && s.pending[b].txCount == g.value.txCount && s.pending[b].gasUsed == g.value.gasUsed)
    && (g.None? && r.Some? ==>
          && !Mentions(s, b) && b in s.pending
          && s.pending[b].grpcMs == 0 && s.pending[b].rpcMs == r.value.ms
          && s.pending[b].since == r.value.now)
    && (g.Some? && r.Some? ==> b !in s.pending && Lists(s, Join(g.value, r.value)) && Mentions(s, b))
  }

  lemma EmitAppends(s: State, t: State, e: Emitted, b: U64)
    requires t.emitted == s.emitted + [e]
    ensures Mentions(t, b) <==> Mentions(s, b) || e.block == b
    ensures forall x :: Lists(t, x) <==> Lists(s, x) || x == e
    ensures EmittedOnce(s, b) && !(Mentions(s, b) && e.block == b) ==> EmittedOnce(t, b)
  {
    if i :| 0 <= i < |s.emitted| && s.emitted[i].block == b {
      assert t.emitted[i].block == b;
    }
    if e.block == b {
      assert t.emitted[|s.emitted|].block == b;
    }
    forall x
      ensures Lists(t, x) <==> Lists(s, x) || x == e
    {
      if i :| 0 <= i < |s.emitted| && s.emitted[i] == x {
        assert t.emitted[i] == x;
      }
      if x == e {
        assert t.emitted[|s.emitted|] == x;
      }
    }
  }

  lemma ArrivalJoins(s: State, target: nat, e: Event, g: Option<Event>, r: Option<Event>, b: U64)
    requires s.status.Running? && (e.Grpc? || e.Rpc?) && e.ms != 0
    requires g.Some? ==> g.value.Grpc? && g.value.block == b && g.value.ms != 0
    requires r.Some? ==> r.value.Rpc? && r.value.block == b && r.value.ms != 0
    requires JoinedAt(s, g, r, b)
    requires e.block == b ==> if e.Grpc? then g.None? else r.None?
    ensures JoinedAt(Next(s, target, e),
              if e.Grpc? && e.block == b then Some(e) else g,
              if e.Rpc? && e.block == b then Some(e) else r, b)
  {
    var t := Next(s, target, e);
    if t.emitted != s.emitted {
      EmitAppends(s, t, t.emitted[|s.emitted|], b);
    }
  }

  /** Events other than arrivals leave the join as it is, if no block has waited too long. */
  lemma OthersKeepJoin(s: State, target: nat, e: Event, g: Option<Event>, r: Option<Event>, b: U64)
    requires s.status.Running? && !e.Grpc? && !e.Rpc?
    requires e.Tick? ==> ExpiredBlocks(s, e.now) == {}
    requires g.Some? ==> g.value.Grpc?
    requires r.Some? ==> r.value.Rpc?
    requires JoinedAt(s, g, r, b)
    ensures JoinedAt(Next(s, target, e), g, r, b)
  {
    var t := Next(s, target, e);
    assert t.pending == s.pending;
  }

  lemma FirstDelivery(events: seq<Event>, b: U64)
    requires |events| > 0 && AtMostOnce(events)
    ensures var init, last := events[..|events| - 1], events[|events| - 1];
            && AtMostOnce(init)
            && (last.Grpc? ==> GrpcOf(init, last.block).None?)
            && (last.Rpc? ==> RpcOf(init, last.block).None?)
  {
    var init, last := events[..|events| - 1], events[|events| - 1];
    if last.Grpc? {
      GrpcOfIsThere(init, last.block);
    }
    if last.Rpc? {
      RpcOfIsThere(init, last.block);
    }
  }

  /** What the sources promise: non-zero times, and each block at most once. */
  ghost predicate Clean(events: seq<Event>) {
    (forall e :: e in events ==> NonZero(e)) && AtMostOnce(events)
  }

  /** After every clean run that has not been cut short, each block is where the deliveries say. */
  lemma {:induction false} RunJoins(target: nat, events: seq<Event>, b: U64)
    requires Clean(events) && NoTimeouts(target, events) && After(target, events).Some?
    ensures GrpcOf(events, b).Some? ==> GrpcOf(events, b).value.Grpc?
    ensures RpcOf(events, b).Some? ==> RpcOf(events, b).value.Rpc?
    ensures JoinedAt(After(target, events).value, GrpcOf(events, b), RpcOf(events, b), b)
  {
    if |events| == 0 {
    } else {
      var init, last := events[..|events| - 1], events[|events| - 1];
      assert forall e :: e in init ==> e in events;
      FirstDelivery(events, b);
      RunJoins(target, init, b);
      GrpcOfIsThere(init, b);
      RpcOfIsThere(init, b);
      var s := After(target, init).value;
      assert last in events;
      hide JoinedAt, Next;
      if last.Grpc? || last.Rpc? {
        ArrivalJoins(s, target, last, GrpcOf(init, b), RpcOf(init, b), b);
      } else {
        OthersKeepJoin(s, target, last, GrpcOf(init, b), RpcOf(init, b), b);
      }
    }
  }

  /** A run without timeouts can be told from its events alone. */
  lemma {:induction false} NoTimeoutsIffPrompt(target: nat, events: seq<Event>)
    requires Clean(events) && After(target, events).Some?
    ensures NoTimeouts(target, events) <==> Prompt(events)
  {
    if |events| == 0 {
    } else {
      var init, last := events[..|events| - 1], events[|events| - 1];
      assert forall e :: e in init ==> e in events;
      NoTimeoutsIffPrompt(target, init);
      PromptSnoc(events);
      if NoTimeouts(target, init) && last.Tick? {
        NothingExpiredIff(target, init, last.now);
      }
    }
  }

  /** At a tick at `now`, after these events, no delivery is overdue without its partner. */
  ghost predicate NoneOverdue(events: seq<Event>, now: int) {
    forall i :: 0 <= i < |events| && Overdue(events[i], now) ==> PartnerBefore(events, i, |events|)
  }

  lemma PromptSnoc(events: seq<Event>)
    requires |events| > 0
    ensures var init, last := events[..|events| - 1], events[|events| - 1];
            Prompt(events) <==> Prompt(init) && (last.Tick? ==> NoneOverdue(init, last.now))
  {
    var init, last := events[..|events| - 1], events[|events| - 1];
    forall i: nat, j: nat | i < |init| && j <= |init|
      ensures PartnerBefore(events, i, j) <==> PartnerBefore(init, i, j)
    {
      if k :| 0 <= k < j && Partners(events[k], events[i]) {
        assert Partners(init[k], init[i]);
      }
      if k :| 0 <= k < j && Partners(init[k], init[i]) {
        assert Partners(events[k], events[i]);
      }
    }
    if Prompt(events) {
      forall i, j | 0 <= i < j < |init| && init[j].Tick? && Overdue(init[i], init[j].now)
        ensures PartnerBefore(init, i, j)
      {
        assert PartnerBefore(events, i, j);
      }
      if last.Tick? {
        forall i | 0 <= i < |init| && Overdue(init[i], last.now)
          ensures PartnerBefore(init, i, |init|)
        {
          assert PartnerBefore(events, i, |init|);
        }
      }
    }
    if Prompt(init) && (last.Tick? ==> NoneOverdue(init, last.now)) {
      forall i, j | 0 <= i < j < |events| && events[j].Tick? && Overdue(events[i], events[j].now)
        ensures PartnerBefore(events, i, j)
      {
        assert PartnerBefore(init, i, j);
      }
    }
  }

  /** What is pending and has waited too long are the overdue deliveries without a partner. */
  lemma NothingExpiredIff(target: nat, events: seq<Event>, now: int)
    requires Clean(events) && NoTimeouts(target, events) && After(target, events).Some?
    ensures ExpiredBlocks(After(target, events).value, now) == {} <==> NoneOverdue(events, now)
  {
    var s := After(target, events).value;
    if i :| 0 <= i < |events| && Overdue(events[i], now) && !PartnerBefore(events, i, |events|) {
      LonelyIsPending(target, events, i);
      assert events[i].block in ExpiredBlocks(s, now);
    }
    if ExpiredBlocks(s, now) != {} {
      var b :| b in ExpiredBlocks(s, now);
      var i := PendingIsLonely(target, events, b);
      assert !PartnerBefore(events, i, |events|);
    }
  }

  lemma LonelyIsPending(target: nat, events: seq<Event>, i: nat)
    requires Clean(events) && NoTimeouts(target, events) && After(target, events).Some?
    requires i < |events| && (events[i].Grpc? || events[i].Rpc?) && !PartnerBefore(events, i, |events|)
    ensures var s, b := After(target, events).value, events[i].block;
            b in s.pending && s.pending[b].since == events[i].now
  {
    var b := events[i].block;
    RunJoins(target, events, b);
    GrpcOfIsThere(events, b);
    RpcOfIsThere(events, b);
    var g, r := GrpcOf(events, b), RpcOf(events, b);
    if events[i].Grpc? {
      SameDelivery(events, events[i], g.value);
    } else {
      SameDelivery(events, events[i], r.value);
    }
  }

  lemma PendingIsLonely(target: nat, events: seq<Event>, b: U64) returns (i: nat)
    requires Clean(events) && NoTimeouts(target, events) && After(target, events).Some?
    requires b in After(target, events).value.pending
    ensures i < |events| && (events[i].Grpc? || events[i].Rpc?) && !PartnerBefore(events, i, |events|)
    ensures After(target, events).value.pending[b].since == events[i].now
  {
    RunJoins(target, events, b);
    GrpcOfIsThere(events, b);
    RpcOfIsThere(events, b);
    var g, r := GrpcOf(events, b), RpcOf(events, b);
    if g.Some? {
      i :| 0 <= i < |events| && events[i] == g.value;
    } else {
      i :| 0 <= i < |events| && events[i] == r.value;
    }
  }

  /**
    The matcher computes the join of its two sources, in whatever order their deliveries
    interleave: it emits exactly the blocks that both have delivered, each once, with the gRPC
    payload and gRPC time minus RPC time; a block that one side has delivered is pending.
   */
  lemma MatcherIsJoin(target: nat, events: seq<Event>)
    requires Clean(events) && Prompt(events) && After(target, events).Some?
    ensures var s := After(target, events).value;
            && (forall i, j :: 0 <= i < j < |s.emitted| ==> s.emitted[i].block != s.emitted[j].block)
            && (forall x :: x in s.emitted <==>
                  exists g, r ::
                    && g in events && r in events && g.Grpc? && r.Rpc? && g.block == r.block
                    && x == Emitted(g.block, g.txCount, g.gasUsed, g.ms, r.ms, Wrap(g.ms - r.ms)))
            && (forall b :: b in s.pending <==>
                  (exists g :: g in events && g.Grpc? && g.block == b)
                  != (exists r :: r in events && r.Rpc? && r.block == b))
  {
    hide After, Clean, Prompt, NoTimeouts;
    NoTimeoutsIffPrompt(target, events);
    var s := After(target, events).value;
    forall b
      ensures EmittedOnce(s, b)
      ensures b in s.pending <==>
                (exists g :: g in events && g.Grpc? && g.block == b)
                != (exists r :: r in events && r.Rpc? && r.block == b)
    {
      PendingIffOneSide(target, events, b);
    }
    forall x
      ensures x in s.emitted <==>
                exists g, r ::
                  && g in events && r in events && g.Grpc? && r.Rpc? && g.block == r.block
                  && x == Emitted(g.block, g.txCount, g.gasUsed, g.ms, r.ms, Wrap(g.ms - r.ms))
    {
      EmittedIffJoined(target, events, x);
    }
    forall i, j | 0 <= i < j < |s.emitted|
      ensures s.emitted[i].block != s.emitted[j].block
    {
      assert EmittedOnce(s, s.emitted[i].block);
    }
  }

  lemma PendingIffOneSide(target: nat, events: seq<Event>, b: U64)
    requires Clean(events) && NoTimeouts(target, events) && After(target, events).Some?
    ensures var s := After(target, events).value;
            && EmittedOnce(s, b)
            && (b in s.pending <==>
                (exists g :: g in events && g.Grpc? && g.block == b)
                != (exists r :: r in events && r.Rpc? && r.block == b))
  {
    RunJoins(target, events, b);
    GrpcOfIsThere(events, b);
    RpcOfIsThere(events, b);
  }

  lemma EmittedIffJoined(target: nat, events: seq<Event>, x: Emitted)
    requires Clean(events) && NoTimeouts(target, events) && After(target, events).Some?
    ensures x in After(target, events).value.emitted <==>
              exists g, r ::
                && g in events && r in events && g.Grpc? && r.Rpc? && g.block == r.block
                && x == Emitted(g.block, g.txCount, g.gasUsed, g.ms, r.ms, Wrap(g.ms - r.ms))
  {
    hide Wrap, After, NoTimeouts, GrpcOf, RpcOf;
    var s, b := After(target, events).value, x.block;
    var g, r := GrpcOf(events, b), RpcOf(events, b);
    RunJoins(target, events, b);
    GrpcOfIsThere(events, b);
    RpcOfIsThere(events, b);
    if i :| 0 <= i < |s.emitted| && s.emitted[i] == x {
      assert Mentions(s, b);
      var j :| 0 <= j < |s.emitted| && s.emitted[j] == Join(g.value, r.value);
      assert i == j;
    }
    if g0, r0 :| g0 in events && r0 in events && g0.Grpc? && r0.Rpc? && g0.block == r0.block && x == Join(g0, r0) {
      SameDelivery(events, g0, g.value);
      SameDelivery(events, r0, r.value);
      assert Lists(s, x);
    }
  }

  lemma SameDelivery(events: seq<Event>, x: Event, y: Event)
    requires AtMostOnce(events) && x in events && y in events
    requires (x.Grpc? && y.Grpc?) || (x.Rpc? && y.Rpc?)
    requires x.block == y.block
    ensures x == y
  {
    var i :| 0 <= i < |events| && events[i] == x;
    var j :| 0 <= j < |events| && events[j] == y;
  }
}
