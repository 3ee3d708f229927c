/** What holds in every state that a11 server.c can reach, under every interleaving of its
    threads, every behaviour of its clients and every choice of descriptors. */
module ChatRuns {
  import opened ChatModel
  import ChatLocks
  import opened ChatRegistry
  import opened ChatDelivery
  import opened ChatTermination
  import ChatProgress

  predicate Inv(s: State) {
    ChatLocks.LockInv(s) && RegInv(s) && WindowInv(s) && FlowInv(s) && CountInv(s) && LastInv(s) && EndInv(s) &&
      ChatProgress.WakeInv(s)
  }

  lemma InitialInv(s: State)
    requires Initial(s)
    ensures Inv(s)
  {
  }

  lemma KeepsInv(s: State, x: Action)
    requires Inv(s) && Enabled(s, x)
    ensures Inv(Next(s, x))
  {
    ChatLocks.KeepsLocks(s, x);
    KeepsReg(s, x);
    KeepsWindow(s, x);
    KeepsFlow(s, x);
    KeepsCount(s, x);
    KeepsLast(s, x);
    KeepsEnd(s, x);
    ChatProgress.KeepsWake(s, x);
  }

  lemma {:induction false} RunKeepsInv(s: State, xs: seq<Action>, t: State)
    requires Inv(s) && Leads(s, xs, t)
    ensures Inv(t)
    decreases |xs|
  {
    if xs != [] {
      KeepsInv(s, xs[0]);
      RunKeepsInv(Next(s, xs[0]), xs[1..], t);
    }
  }

  lemma ReachableInv(s: State)
    requires Reachable(s)
    ensures Inv(s)
  {
    var s0, xs :| Initial(s0) && Leads(s0, xs, s);
    InitialInv(s0);
    RunKeepsInv(s0, xs, s);
  }

  // ---------------------------------------------------------------- total order broadcast

  /** Any two clients received windows of one log: where the windows overlap they saw the
      same messages in the same order. */
  lemma TotalOrder(s: State, c: nat, d: nat) returns (upC: nat, upD: nat)
    requires Reachable(s) && c < |s.ar.conns| && d < |s.ar.conns|
    requires s.ar.conns[c].delivered != [] && s.ar.conns[d].delivered != []
    ensures s.ar.conns[c].join <= upC <= |s.fl.log| && s.ar.conns[c].delivered == s.fl.log[s.ar.conns[c].join..upC]
    ensures s.ar.conns[d].join <= upD <= |s.fl.log| && s.ar.conns[d].delivered == s.fl.log[s.ar.conns[d].join..upD]
    ensures var (x, y) := (s.ar.conns[c], s.ar.conns[d]);
            forall i, j :: 0 <= i < |x.delivered| && 0 <= j < |y.delivered| && x.join + i == y.join + j ==>
              x.delivered[i] == y.delivered[j]
  {
    ReachableInv(s);
    upC := DeliveredIsWindow(s, c);
    upD := DeliveredIsWindow(s, d);
  }

  /** What a client has received from sender `h` is a contiguous part of what `h` has sent. */
  lemma SenderOrder(s: State, c: nat, h: nat) returns (from: nat, to: nat)
    requires Reachable(s) && c < |s.ar.conns| && h < |s.hs|
    ensures from <= to <= |s.hs[h].sent| && From(s.ar.conns[c].delivered, h) == s.hs[h].sent[from..to]
  {
    ReachableInv(s);
    var up := DeliveredIsWindow(s, c);
    assert SenderOk(s, h);
    if s.ar.conns[c].delivered == [] {
      from, to := 0, 0;
    } else {
      from, to := FromWindow(s.fl.log, Inflight(s.b) + s.fl.queue, s.ar.conns[c].join, up, h);
      QueuedFromSender(s, h);
    }
  }

  lemma QueuedFromSender(s: State, h: nat)
    requires FlowInv(s) && h < |s.hs|
    ensures From(s.fl.log + (Inflight(s.b) + s.fl.queue), h) <= s.hs[h].sent
  {
    assert SenderOk(s, h);
    assert s.fl.log + (Inflight(s.b) + s.fl.queue) == s.fl.queued;
  }

  lemma FromWindow(log: seq<Msg>, rest: seq<Msg>, join: nat, up: nat, h: nat) returns (from: nat, to: nat)
    requires join <= up <= |log|
    ensures from <= to <= |From(log + rest, h)| && From(log[join..up], h) == From(log + rest, h)[from..to]
  {
    var x, y := log[..join], log[join..up];
    assert log + rest == (x + y) + (log[up..] + rest);
    FromConcat(x + y, log[up..] + rest, h);
    FromConcat(x, y, h);
    from := |From(x, h)|;
    to := from + |From(y, h)|;
  }

  // ---------------------------------------------------------------- the client array

  /** Every handler serves the connection accepted for it, and outside a removal the array
      holds pairwise distinct open descriptors, each of its own connection. */
  lemma RightClients(s: State)
    requires Reachable(s)
    ensures forall h: nat :: h < |s.hs| ==> h < |s.ar.conns| && s.hs[h].client == Slot(s.ar.conns[h].fd, h)
    ensures s.ar.count <= MAX_CLIENTS
    ensures Gap(s) == (0, 0) ==>
              forall x, y :: 0 <= x < y < s.ar.count <= |s.ar.slots| ==> s.ar.slots[x].fd != s.ar.slots[y].fd
  {
    ReachableInv(s);
    forall h: nat | h < |s.hs|
      ensures h < |s.ar.conns| && s.hs[h].client == Slot(s.ar.conns[h].fd, h)
    {
      assert HandlerOk(s, h);
    }
    if Gap(s) == (0, 0) {
      forall x: nat, y: nat | x < y < s.ar.count <= |s.ar.slots|
        ensures s.ar.slots[x].fd != s.ar.slots[y].fd
      {
        assert SlotOk(s.ar, Gap(s), x) && SlotOk(s.ar, Gap(s), y);
      }
    }
  }

  // ---------------------------------------------------------------- termination

  /** The count is the number of handlers that stopped reading; at most one terminate message
      is ever queued, and only once the count has reached what was expected. */
  lemma OneTerminate(s: State)
    requires Reachable(s)
    ensures s.fl.termCount == CountOf(s.hs)
    ensures Ends(s.fl.queued) <= 1
    ensures Terminate in s.fl.queued ==> 1 <= s.expected <= CountOf(s.hs)
  {
    ReachableInv(s);
    AtMostOneTerminate(s);
  }

  /** Every handler that has finished was counted, whether its client asked to stop or just
      disconnected, and none that still reads was: when all handlers do the one or the other,
      the count is the number of those that have finished. */
  lemma FinishedAreCounted(s: State)
    requires Reachable(s)
    ensures Finished(s.hs) <= s.fl.termCount <= |s.hs| - Reading(s.hs)
  {
    ReachableInv(s);
    CountBounds(s.hs);
  }

  lemma {:induction false} EndsPositions(ms: seq<Msg>, p: nat)
    requires Ends(ms) <= 1 && p + 1 < |ms| && ms[|ms| - 1] == Terminate
    ensures ms[p] != Terminate
  {
    var init := ms[..|ms| - 1];
    EndsMember(init);
    assert init[p] == ms[p];
  }

  /** When no more clients connect than expected, terminate is the last message ever queued,
      and everything queued before it has been broadcast before it is. */
  lemma TerminateIsLast(s: State)
    requires Reachable(s) && |s.ar.conns| <= s.expected && Terminate in s.fl.queued
    ensures s.fl.queued[|s.fl.queued| - 1] == Terminate
    ensures forall p :: 0 <= p < |s.fl.queued| - 1 ==> s.fl.queued[p].Chat?
    ensures Terminate in s.fl.log ==> s.fl.log == s.fl.queued && s.fl.queue == []
  {
    ReachableInv(s);
    AtMostOneTerminate(s);
    forall p | 0 <= p < |s.fl.queued| - 1
      ensures s.fl.queued[p].Chat?
    {
      EndsPositions(s.fl.queued, p);
    }
    if Terminate in s.fl.log {
      var p :| 0 <= p < |s.fl.log| && s.fl.log[p] == Terminate;
      assert s.fl.queued[p] == Terminate;
    }
  }

  /** A client that asked to stop stays registered until terminate has been broadcast. */
  lemma StaysRegistered(s: State, h: nat)
    requires Reachable(s) && h < |s.hs| && s.hs[h].sentTerm
    ensures h < |s.ar.conns|
    ensures !s.fl.termSent ==> h in s.ar.reg
  {
    ReachableInv(s);
    assert HandlerOk(s, h) && StayOk(s, h) && MemberOk(s, h);
  }

  lemma MemberHasAll(s: State, h: nat)
    requires WindowInv(s) && h in s.ar.reg && !s.b.BSend?
    ensures h < |s.ar.conns| && IsWindow(s.fl.log, s.ar.conns[h], |s.fl.log|)
  {
    var k: nat :| k < |s.ar.reg| && s.ar.reg[k] == h;
    assert MemberWindow(s, k);
  }

  lemma GoneHasAll(s: State, h: nat)
    requires h < |s.hs| && h < |s.ar.conns| && s.hs[h].sentTerm && h !in s.ar.reg
    requires MemberOk(s, h) && StayOk(s, h) && OutsideWindow(s, h)
    ensures IsWindow(s.fl.log, s.ar.conns[h], |s.fl.log|)
  {
  }

  lemma EndedInTerminate(s: State)
    requires EndInv(s) && s.fl.termSent
    ensures s.fl.log != [] && s.fl.log[|s.fl.log| - 1] == Terminate && !s.b.BSend?
  {
  }

  /** Afterwards it has received the whole log from its join on, and the log ends there. */
  lemma WholeStream(s: State, h: nat)
    requires Reachable(s) && h < |s.hs| && s.hs[h].sentTerm && s.fl.termSent
    ensures h < |s.ar.conns| && s.ar.conns[h].join <= |s.fl.log|
    ensures s.ar.conns[h].delivered == s.fl.log[s.ar.conns[h].join..]
    ensures s.fl.log != [] && s.fl.log[|s.fl.log| - 1] == Terminate
  {
    ReachableInv(s);
    IsWholeWindow(s, h);
    EndedInTerminate(s);
  }

  lemma IsWholeWindow(s: State, h: nat)
    requires RegInv(s) && WindowInv(s) && EndInv(s) && h < |s.hs| && s.hs[h].sentTerm && s.fl.termSent
    ensures h < |s.ar.conns| && IsWindow(s.fl.log, s.ar.conns[h], |s.fl.log|)
  {
    EndedInTerminate(s);
    assert HandlerOk(s, h);
    if h in s.ar.reg {
      MemberHasAll(s, h);
    } else {
      assert MemberOk(s, h) && StayOk(s, h) && OutsideWindow(s, h);
      GoneHasAll(s, h);
    }
  }

  // ---------------------------------------------------------------- progress

  /** Every reachable state with a message waiting and the broadcaster alive has a run of the
      server's own threads that takes that message. */
  lemma QueueMoves(s: State) returns (xs: seq<Action>, t: State)
    requires Reachable(s) && s.fl.queue != [] && ChatProgress.Alive(s.b)
    ensures ChatProgress.OwnLeads(s, xs, t) && t.b == BUnlock(s.fl.queue[0]) && |xs| <= ChatProgress.Rank(s) <= 1000
  {
    ReachableInv(s);
    RankIsSmall(s);
    xs, t := ChatProgress.HeadIsTaken(s);
  }

  lemma RankIsSmall(s: State)
    ensures ChatProgress.Rank(s) <= 1000
  {
    assert ChatProgress.CRank(s) <= 400;
  }
}
