/**
  From the node's canonical stream to the client of src/exex.rs: what a client reads, read back, are
  notifications of the stream, in order, with each chain in its role and with exactly the parts
  that the client asked for.
 */
module Delivery {
  import opened Basics
  import opened ConvertChain
  import opened FanOut
  import opened ReadBack
  import Server

  /** What a client with these flags is to learn from a notification of the stream. */
  function ToLearn(n: CanonNotification, flags: SubscribeFlags): NotificationView {
    match n
    case Commit(new_) => Committed(ViewChain(new_, flags))
    case Reorg(old_, new_) => Reorged(ViewChain(old_, flags), ViewChain(new_, flags))
  }

  /** The i-th message read is that of the notification at its position in the stream, after all earlier ones. */
  lemma ClientReadsTheStream(run: seq<Server.Step>, id: nat, i: nat)
    requires Server.IsRun(run) && id in Server.After(run).value.clients
    requires i < |Server.After(run).value.clients[id].read|
    ensures var c, ns := Server.After(run).value.clients[id], Server.Produced(run);
            && i < |c.sent|
            && c.start <= c.sent[i] < |ns|
            && (forall j :: 0 <= j < i ==> c.sent[j] < c.sent[i])
            && ReadNotification(c.read[i]) == Some(ToLearn(ns[c.sent[i]], c.flags))
  {
    hide ViewChain, ReadNotification, NotificationToProto, LostBefore, ClientInv, Server.After, Server.Produced, ToExEx;
    var s, ns := Server.After(run).value, Server.Produced(run);
    var c := s.clients[id];
    Server.RunKeepsInv(run);
    ExactAccount(s.history, c);
    Server.HistoryIsTheStream(run);
    var x := s.history[c.sent[i]];
    NotificationRoundTrip(x, c.flags);
    assert Announces(x, ns[c.sent[i]]);
    forall j | 0 <= j < i
      ensures c.sent[j] < c.sent[i]
    {
      Increasing(c.sent, j, i);
    }
  }

  lemma {:induction false} Increasing(s: seq<nat>, j: nat, i: nat)
    requires j < i < |s| && forall m :: 0 <= m < |s| - 1 ==> s[m] < s[m + 1]
    ensures s[j] < s[i]
  {
    if j == i - 1 {
      assert s[j] < s[j + 1];
    } else {
      Increasing(s, j, i - 1);
      assert s[i - 1] < s[i - 1 + 1];
    }
  }
}
