/**
  The matcher of examples/go-internal-txs-bench/main.go as it runs: a mutable map from block
  numbers to partial arrivals that are updated in place, the counters, and the select loop.
  Every event is proved to do what module Matching says of it.
 */
module MatchLoop {
  import opened Basics
  import opened Matching
  import Stats

  /** An arrival in progress for one block number. */
  class PartialArrival {
    var grpcMs: int
    var rpcMs: int
    var since: int
    var txCount: U64
    var gasUsed: U64

    constructor (since: int)
      ensures Value() == Entry(0, 0, since, 0, 0)
    {
      this.grpcMs, this.rpcMs, this.since, this.txCount, this.gasUsed := 0, 0, since, 0, 0;
    }

    ghost function Value(): Entry
      reads this
    {
      Entry(grpcMs, rpcMs, since, txCount, gasUsed)
    }
  }

  /** An entry made and then updated in place: the map as if it had been stored in its final form. */
  lemma Recorded(s: State, p: Entry, target: nat, block: U64, q: Entry)
    ensures var t := Kept(s, block, p);
            && t.(pending := t.pending[block := q]) == Kept(s, block, q)
            && Matched(Kept(s, block, q), target, block, q) == Matched(s, target, block, q)
  {
    var t := Kept(s, block, q);
    assert Kept(s, block, p).pending[block := q] == t.pending;
    assert t.pending - {block} == s.pending - {block};
  }

  /** The scan of a tick with the blocks `todo` still to be looked at. */
  ghost function Scanned(s: State, now: int, todo: set<U64>): State {
    TimedOut(s, ExpiredBlocks(s, now) - todo)
  }

  lemma ScanEnds(s: State, now: int)
    ensures Scanned(s, now, s.pending.Keys) == s
    ensures Scanned(s, now, {}) == TimedOut(s, ExpiredBlocks(s, now))
  {
    assert ExpiredBlocks(s, now) - s.pending.Keys == {};
    assert ExpiredBlocks(s, now) - {} == ExpiredBlocks(s, now);
    assert s.pending - {} == s.pending;
  }

  lemma ScanOne(s: State, now: int, todo: set<U64>, b: U64)
    requires b in todo && todo <= s.pending.Keys
    ensures var t := Scanned(s, now, todo);
            && b in t.pending
            && Scanned(s, now, todo - {b}) == if Expired(t.pending[b], now) then TimedOut(t, {b}) else t
  {
    var gone := ExpiredBlocks(s, now) - todo;
    if Expired(s.pending[b], now) {
      assert ExpiredBlocks(s, now) - (todo - {b}) == gone + {b};
      assert s.pending - gone - {b} == s.pending - (gone + {b});
    } else {
      assert ExpiredBlocks(s, now) - (todo - {b}) == gone;
    }
  }

  class Matcher {
    const target: nat
    var pending: map<U64, PartialArrival>
    var matched: nat
    var unmatched: nat
    var deltas: seq<int>
    var printed: seq<Emitted>
    var status: Status
    ghost var created: nat

    /** The entries of the map are distinct objects. */
    ghost predicate Valid()
      reads this
    {
      forall a, b :: a in pending && b in pending && a != b ==> pending[a] != pending[b]
    }

    ghost function Entries(): set<PartialArrival>
      reads this
    {
      set b | b in pending :: pending[b]
    }

    ghost function View(): State
      reads this, Entries()
    {
      State(map b | b in pending :: pending[b].Value(), matched, unmatched, deltas, printed, created, status)
    }

    constructor (target: nat)
      ensures Valid() && View() == INIT && this.target == target && Entries() == {}
    {
      this.target := target;
      pending, matched, unmatched, deltas, printed, status, created := map[], 0, 0, [], [], Running, 0;
      new;
      assert View().pending == map[];
    }

    method GetOrCreate(block: U64, now: int) returns (p: PartialArrival)
      requires Valid()
      modifies this`pending, this`created
      ensures Valid() && block in pending && pending[block] == p && (p in old(Entries()) || fresh(p))
      ensures Entries() <= old(Entries()) + {p}
      ensures p.Value() == old(EntryFor(View(), block, now))
      ensures View() == old(Kept(View(), block, EntryFor(View(), block, now)))
    {
      if block !in pending {
        p := new PartialArrival(now);
        pending := pending[block := p];
        created := created + 1;
      } else {
        p := pending[block];
      }
      assert View().pending == old(View().pending[block := EntryFor(View(), block, now)]);
    }

    /** emit, and the deletion and target check that follow it at both call sites. */
    method EmitAndForget(block: U64, p: PartialArrival)
      requires Valid() && status.Running? && block in pending && pending[block] == p
      modifies this`matched, this`deltas, this`printed, this`pending, this`status
      ensures Valid() && Entries() <= old(Entries())
      ensures View() == old(Matched(View(), target, block, p.Value()))
    {
      var deltaMs := Stats.Wrap(p.grpcMs - p.rpcMs);
      printed := printed + [Emitted(block, p.txCount, p.gasUsed, p.grpcMs, p.rpcMs, deltaMs)];
      matched, deltas := matched + 1, deltas + [deltaMs];
      pending := pending - {block};
      if matched == target {
        status := Reached;
      }
      assert View().pending == old(View().pending) - {block};
    }

    method SetGrpc(block: U64, p: PartialArrival, ms: int, txCount: U64, gasUsed: U64)
      requires Valid() && block in pending && pending[block] == p
      modifies p
      ensures p.Value() == old(p.Value()).(grpcMs := ms, txCount := txCount, gasUsed := gasUsed)
      ensures View() == old(View()).(pending := old(View()).pending[block := p.Value()])
    {
      p.grpcMs := ms;
      p.txCount := txCount;
      p.gasUsed := gasUsed;
      assert View().pending == old(View()).pending[block := p.Value()];
    }

    method SetRpc(block: U64, p: PartialArrival, ms: int)
      requires Valid() && block in pending && pending[block] == p
      modifies p
      ensures p.Value() == old(p.Value()).(rpcMs := ms)
      ensures View() == old(View()).(pending := old(View()).pending[block := p.Value()])
    {
      p.rpcMs := ms;
      assert View().pending == old(View()).pending[block := p.Value()];
    }

    method OnGrpc(block: U64, ms: int, txCount: U64, gasUsed: U64, now: int)
      requires Valid() && status.Running?
      modifies this, Entries()
      ensures Valid() && fresh(Entries() - old(Entries()))
      ensures View() == old(Next(View(), target, Grpc(block, ms, txCount, gasUsed, now)))
    {
      hide Matched;
      ghost var s, first := View(), EntryFor(View(), block, now);
      var p := GetOrCreate(block, now);
      SetGrpc(block, p, ms, txCount, gasUsed);
      Recorded(s, first, target, block, p.Value());
      if p.rpcMs != 0 {
        EmitAndForget(block, p);
      }
    }

    method OnRpc(block: U64, ms: int, now: int)
      requires Valid() && status.Running?
      modifies this, Entries()
      ensures Valid() && fresh(Entries() - old(Entries()))
      ensures View() == old(Next(View(), target, Matching.Event.Rpc(block, ms, now)))
    {
      hide Matched;
      ghost var s, first := View(), EntryFor(View(), block, now);
      var p := GetOrCreate(block, now);
      SetRpc(block, p, ms);
      Recorded(s, first, target, block, p.Value());
      if p.grpcMs != 0 {
        EmitAndForget(block, p);
      }
    }

    /** One turn of the ticker's scan. */
    method Visit(block: U64, now: int)
      requires Valid() && block in pending
      modifies this`pending, this`unmatched
      ensures Valid() && Entries() <= old(Entries())
      ensures View() == old(if Expired(View().pending[block], now) then TimedOut(View(), {block}) else View())
    {
      if now - pending[block].since > MATCH_TIMEOUT {
        unmatched := unmatched + 1;
        pending := pending - {block};
        assert View().pending == old(View().pending) - {block};
      }
    }

    /** The scan of the ticker: the map is walked in an unspecified order while entries are deleted. */
    method OnTick(now: int)
      requires Valid() && status.Running?
      modifies this`pending, this`unmatched
      ensures Valid() && Entries() <= old(Entries())
      ensures View() == old(Next(View(), target, Tick(now)))
    {
      ghost var was := View();
      var todo := pending.Keys;
      ScanEnds(was, now);
      assert todo == was.pending.Keys;
      while todo != {}
        invariant Valid() && Entries() <= old(Entries())
        invariant todo <= was.pending.Keys
        invariant View() == Scanned(was, now, todo)
        decreases |todo|
      {
        hide Scanned, TimedOut, Matcher.Valid, Matcher.Entries;
        var b :| b in todo;
        ScanOne(was, now, todo, b);
        assert b in View().pending;
        Visit(b, now);
        todo := todo - {b};
      }
    }

    /** One turn of the select loop. */
    method Handle(e: Event)
      requires Valid() && status.Running?
      modifies this, Entries()
      ensures Valid() && fresh(Entries() - old(Entries()))
      ensures View() == old(Next(View(), target, e))
    {
      match e
      case Grpc(block, ms, txCount, gasUsed, now) => OnGrpc(block, ms, txCount, gasUsed, now);
      case Rpc(block, ms, now) => OnRpc(block, ms, now);
      case Tick(now) => OnTick(now);
      case Failure => status := Failed;
      case Interrupt => status := Interrupted;
    }
  }

  /** How the process ends; Waiting if the events seen so far do not end it. */
  datatype Outcome = Refused | Report(matched: nat, unmatched: nat, summary: Stats.Summary) | Error | Waiting

  /** main, fed with events until it exits or there are no more; `used` says how many were looked at. */
  method Run(blocks: int, events: seq<Event>) returns (outcome: Outcome, ghost used: nat)
    ensures used <= |events|
    ensures blocks < 0 ==> outcome == Refused
    ensures blocks == 0 ==> outcome == Report(0, 0, Stats.NoData)
    ensures blocks > 0 ==> After(blocks, events[..used]).Some?
    ensures blocks > 0 ==>
              match After(blocks, events[..used]).value.status
              case Running => outcome == Waiting && used == |events|
              case Failed => outcome == Error
              case _ =>
                && outcome.Report?
                && outcome.matched == After(blocks, events[..used]).value.matched
                && outcome.unmatched == After(blocks, events[..used]).value.unmatched
                && Stats.Summarises(outcome.summary, After(blocks, events[..used]).value.deltas)
    ensures blocks > 0 ==> (outcome.Error? <==> used > 0 && events[used - 1].Failure?)
    ensures blocks > 0 && outcome.Report? ==>
              (used > 0 && events[used - 1].Interrupt?) || outcome.matched == blocks
  {
    used := 0;
    if blocks < 0 {
      return Refused, 0;
    }
    if blocks == 0 {
      var nothing := Stats.PrintStats([]);
      return Report(0, 0, nothing), 0;
    }
    var m := new Matcher(blocks);
    var i := 0;
    while i < |events| && m.status.Running?
      invariant i <= |events| && fresh(m) && fresh(m.Entries()) && m.Valid() && m.target == blocks
      invariant After(blocks, events[..i]) == Some(m.View())
    {
      m.Handle(events[i]);
      i := i + 1;
      assert events[..i][..i - 1] == events[..i - 1];
    }
    used := i;
    StatusFollowsEvents(blocks, events[..i]);
    match m.status {
      case Running => outcome := Waiting;
      case Failed => outcome := Error;
      case _ =>
        var summary := Stats.PrintStats(m.deltas);
        outcome := Report(m.matched, m.unmatched, summary);
    }
  }
}
