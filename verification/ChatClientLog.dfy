/** From the broadcast log of a11 server.c to the log file of client.c: what the receiver of
    a client that stayed to the end writes down is the log itself, message by message. */
module ChatClientLog {
  import Bytes
  import opened ChatModel
  import ChatDelivery
  import ChatTermination
  import ChatRuns
  import opened ChatWire

  /** The bytes of the broadcast messages; `peer` is the address of each connection. */
  function WireOf(ms: seq<Msg>, peer: nat -> Peer): seq<Bytes.Byte> {
    if ms == [] then []
    else
      var first := match ms[0]
                   case Chat(sender, text) => Frame(text + [NEWLINE], peer(sender))
                   case Terminate => FAREWELL;
      first + WireOf(ms[1..], peer)
  }

  /** The chat messages of `ms` as lines of a client's log. */
  function Lines(ms: seq<Msg>, peer: nat -> Peer): (r: seq<Entry>)
    requires forall k :: 0 <= k < |ms| ==> ms[k].Chat?
    ensures |r| == |ms| && forall k :: 0 <= k < |ms| ==> r[k] == Entry(peer(ms[k].sender), ms[k].text)
  {
    if ms == [] then [] else [Entry(peer(ms[0].sender), ms[0].text)] + Lines(ms[1..], peer)
  }

  predicate AllSendable(ms: seq<Msg>) { forall k :: 0 <= k < |ms| && ms[k].Chat? ==> Sendable(ms[k].text) }

  /** Parsing chat messages followed by the terminate message. */
  lemma {:induction false} ParsesToEnd(ms: seq<Msg>, peer: nat -> Peer)
    requires AllSendable(ms) && (forall k :: 0 <= k < |ms| ==> ms[k].Chat?)
    ensures Received(WireOf(ms + [Terminate], peer)) == (Lines(ms, peer), SawTerminate)
    decreases |ms|
  {
    var all := ms + [Terminate];
    if ms == [] {
      assert all[1..] == [];
      assert WireOf(all, peer) == FAREWELL;
    } else {
      assert all[1..] == ms[1..] + [Terminate];
      ParsesToEnd(ms[1..], peer);
      ParseOne(Entry(peer(ms[0].sender), ms[0].text), WireOf(all[1..], peer));
    }
  }

  /** A client that asked to stop, and joined before the terminate message went out, logs
      exactly the chat messages broadcast since it joined, in the order of the broadcast log,
      and then stops because of the terminate message. */
  lemma ClientLogsEverything(s: State, h: nat, peer: nat -> Peer)
    requires Reachable(s) && h < |s.hs| && s.hs[h].sentTerm && s.fl.termSent && AllSendable(s.fl.log)
    requires h < |s.ar.conns| && s.ar.conns[h].join < |s.fl.log|
    ensures var (join, end) := (s.ar.conns[h].join, |s.fl.log| - 1);
            && (forall k :: join <= k < end ==> s.fl.log[k].Chat?) && s.fl.log[end] == Terminate
            && Received(WireOf(s.ar.conns[h].delivered, peer)) == (Lines(s.fl.log[join..end], peer), SawTerminate)
  {
    ChatRuns.WholeStream(s, h);
    OnlyLast(s);
    WindowParses(s.fl.log, s.ar.conns[h].join, peer);
  }

  lemma WindowParses(log: seq<Msg>, join: nat, peer: nat -> Peer)
    requires join < |log| && AllSendable(log) && log[|log| - 1] == Terminate
    requires forall k :: 0 <= k < |log| - 1 ==> log[k].Chat?
    ensures Received(WireOf(log[join..], peer)) == (Lines(log[join..|log| - 1], peer), SawTerminate)
  {
    assert log[join..] == log[join..|log| - 1] + [Terminate];
    ParsesToEnd(log[join..|log| - 1], peer);
  }

  lemma OnlyLast(s: State)
    requires Reachable(s) && s.fl.log != [] && s.fl.log[|s.fl.log| - 1] == Terminate
    ensures forall k :: 0 <= k < |s.fl.log| - 1 ==> s.fl.log[k].Chat?
  {
    ChatRuns.ReachableInv(s);
    ChatRuns.OneTerminate(s);
    var rest := ChatDelivery.Inflight(s.b) + s.fl.queue;
    assert s.fl.queued == s.fl.log + rest;
    ChatTermination.EndsConcat(s.fl.log, rest);
    forall k | 0 <= k < |s.fl.log| - 1
      ensures s.fl.log[k].Chat?
    {
      ChatRuns.EndsPositions(s.fl.log, k);
    }
  }
}
