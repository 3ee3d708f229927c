/** Once the expected number of clients have stopped, the threads of a11 server.c can always
    bring the chat to its end: the terminate message gets queued, every message before it is
    broadcast, and the broadcaster finishes. No client has to cooperate. */
module ChatEnding {
  import opened ChatModel
  import ChatLocks
  import ChatRegistry
  import ChatDelivery
  import opened ChatTermination
  import opened ChatProgress
  import opened ChatRuns

  // ---------------------------------------------------------------- the broadcaster holds terminate

  /** The broadcaster has taken the terminate message. */
  predicate Closing(b: BPc) { Ending(b) || b == BUnlock(Terminate) || b == BClients(Terminate) }

  /** Bound on the steps until the broadcaster is done. */
  function CloseRank(s: State): nat {
    match s.b
    case BUnlock(_) => 202 + CRank(s)
    case BClients(_) => 201 + CRank(s)
    case BSend(_, i) => 50 + Down(101, i)
    case BTerm => if s.lk.term == Nobody then 4 else 5
    case BTSet => 3
    case BTCast => 2
    case BTUnlock => 1
    case _ => 0
  }

  function CloseMove(s: State): Action {
    match s.b
    case BClients(_) => Toward(s)
    case BTerm => if s.lk.term.Worker? then H(s.lk.term.h, Closed) else B
    case _ => B
  }

  lemma CloseMoves(s: State)
    requires ChatLocks.LockInv(s) && ChatRegistry.RegInv(s) && EndInv(s) && Closing(s.b) && s.b != BDone
    ensures Enabled(s, CloseMove(s)) && Own(s, CloseMove(s))
    ensures Closing(Next(s, CloseMove(s)).b) && CloseRank(Next(s, CloseMove(s))) < CloseRank(s)
  {
    if s.b.BClients? {
      ClientMutexMoves(s);
      ClientMoveIsOwn(s);
    } else if s.b == BTerm && s.lk.term.Worker? {
      assert ChatLocks.HandlerLocks(s, s.lk.term.h);
    }
  }

  /** Once it holds the terminate message, the broadcaster can finish. */
  lemma {:induction false} Finish(s: State) returns (xs: seq<Action>, t: State)
    requires Inv(s) && Closing(s.b)
    ensures OwnLeads(s, xs, t) && t.b == BDone
    decreases CloseRank(s)
  {
    if s.b == BDone {
      xs, t := [], s;
    } else {
      CloseMoves(s);
      KeepsInv(s, CloseMove(s));
      var rest;
      rest, t := Finish(Next(s, CloseMove(s)));
      xs := [CloseMove(s)] + rest;
      OwnCons(s, CloseMove(s), rest, t);
    }
  }

  // ---------------------------------------------------------------- terminate is in the queue

  /** The position of the first terminate message. */
  function FirstEnd(ms: seq<Msg>): nat
    requires Terminate in ms
  {
    if ms[0] == Terminate then 0 else 1 + FirstEnd(ms[1..])
  }

  lemma {:induction false} FirstEndPrefix(x: seq<Msg>, y: seq<Msg>)
    requires Terminate in x && x <= y
    ensures Terminate in y && FirstEnd(y) == FirstEnd(x)
  {
    if x[0] != Terminate { FirstEndPrefix(x[1..], y[1..]); }
  }

  lemma {:induction false} Drain(s: State) returns (xs: seq<Action>, t: State)
    requires Inv(s) && Alive(s.b) && Terminate in s.fl.queue
    ensures OwnLeads(s, xs, t) && t.b == BDone
    decreases FirstEnd(s.fl.queue)
  {
    var ys, u := HeadIsTaken(s);
    RunKeepsInv(s, ys, u);
    var rest;
    if s.fl.queue[0] == Terminate {
      rest, t := Finish(u);
    } else {
      FirstEndPrefix(s.fl.queue[1..], u.fl.queue);
      rest, t := Drain(u);
    }
    xs := ys + rest;
    OwnConcat(s, ys, u, rest, t);
  }

  // ---------------------------------------------------------------- terminate is about to be queued

  /** Bound on the steps until the deciding handler has linked the terminate message. */
  function LinkRank(s: State): nat {
    var o := s.lk.clients;
    if o.Worker? && o.h < |s.hs| && s.hs[o.h].pc.Queueing? && s.hs[o.h].pc.st == QPush then 0
    else 1 + QRank(s) + (if s.b.BCheck? then 2 else if s.b.BUnlock? then 1 else 0)
  }

  function LinkMove(s: State): Action {
    match s.lk.queue
    case Worker(h) => H(h, Closed)
    case Broadcaster => B
    case _ => H(if s.lk.clients.Worker? then s.lk.clients.h else 0, Closed)
  }

  /** Nothing has been closed yet while the terminate message is only about to be queued. */
  lemma AliveOrClosing(s: State)
    requires ChatDelivery.FlowInv(s) && CountInv(s) && EndInv(s)
    ensures Pending(s) == 1 ==> Alive(s.b) && Terminate !in s.fl.queue
    ensures Alive(s.b) <==> !Closing(s.b)
    ensures Decided(s) == 1 && Pending(s) == 0 && Alive(s.b) ==> Terminate in s.fl.queue
  {
    EndsMember(s.fl.queued);
    assert s.fl.queued == s.fl.log + ChatDelivery.Inflight(s.b) + s.fl.queue;
  }

  lemma LinkMoves(s: State)
    requires ChatLocks.LockInv(s) && Alive(s.b) && Pending(s) == 1 && Terminate !in s.fl.queue
    ensures Enabled(s, LinkMove(s)) && Own(s, LinkMove(s))
    ensures var t := Next(s, LinkMove(s));
            Alive(t.b) && (Terminate in t.fl.queue || (Pending(t) == 1 && LinkRank(t) < LinkRank(s)))
  {
    var w := s.lk.clients.h;
    assert ChatLocks.HandlerLocks(s, w);
    if s.lk.queue.Worker? {
      assert ChatLocks.HandlerLocks(s, s.lk.queue.h);
      QueueHolderMoves(s, s.lk.queue.h);
      if s.lk.queue.h == w { assert s.hs[w].pc.st == QPush; }
    }
  }

  lemma {:induction false} Link(s: State) returns (xs: seq<Action>, t: State)
    requires Inv(s) && Pending(s) == 1
    ensures OwnLeads(s, xs, t) && Inv(t) && Alive(t.b) && Terminate in t.fl.queue
    decreases LinkRank(s)
  {
    AliveOrClosing(s);
    LinkMoves(s);
    var x := LinkMove(s);
    var n := Next(s, x);
    KeepsInv(s, x);
    var rest := [];
    t := n;
    if Terminate !in n.fl.queue { rest, t := Link(n); }
    xs := [x] + rest;
    OwnCons(s, x, rest, t);
  }

  /** From every reachable state in which the expected number of clients have stopped, the
      server's own threads have a run to the end of the broadcaster; all is then announced. */
  lemma ChatCanEnd(s: State) returns (xs: seq<Action>, t: State)
    requires Reachable(s) && 1 <= s.expected <= s.fl.termCount
    ensures OwnLeads(s, xs, t) && t.b == BDone && t.fl.termSent
    ensures t.fl.log != [] && t.fl.log[|t.fl.log| - 1] == Terminate
  {
    ReachableInv(s);
    AliveOrClosing(s);
    if Pending(s) == 1 {
      var ys, u := Link(s);
      var rest;
      rest, t := Drain(u);
      xs := ys + rest;
      OwnConcat(s, ys, u, rest, t);
    } else if Closing(s.b) {
      xs, t := Finish(s);
    } else {
      xs, t := Drain(s);
    }
    RunKeepsInv(s, xs, t);
  }

  // ---------------------------------------------------------------- one client too many

  lemma Extend(s0: State, xs: seq<Action>, s: State, x: Action) returns (ys: seq<Action>, t: State)
    requires Leads(s0, xs, s) && Enabled(s, x)
    ensures Leads(s0, ys, t) && t == Next(s, x)
  {
    LeadsAppend(s0, xs, s, x);
    ys, t := xs + [x], Next(s, x);
  }

  lemma EnterRun(s0: State, xs: seq<Action>, s: State, fd: nat) returns (ys: seq<Action>, t: State)
    requires Leads(s0, xs, s) && s.a == AAccept && s.lk.clients == Nobody && fd !in s.ar.fds
    requires s.ar.count < MAX_CLIENTS == |s.ar.slots| && |s.ar.conns| == |s.hs|
    ensures Leads(s0, ys, t) && t == s.(ar := t.ar, lk := t.lk, a := AUnlock) && t.lk == s.lk.(clients := Acceptor)
    ensures |t.ar.conns| == |s.hs| + 1 && t.ar.count == s.ar.count + 1 && |t.ar.slots| == MAX_CLIENTS
    ensures t.ar.slots[s.ar.count] == Slot(fd, |s.hs|) && t.ar.fds == s.ar.fds[fd := |s.hs|]
  {
    ys, t := Extend(s0, xs, s, A(fd));
    ys, t := Extend(s0, ys, t, A(fd));
    ys, t := Extend(s0, ys, t, A(fd));
    ys, t := Extend(s0, ys, t, A(fd));
  }

  /** The accept loop takes one more client in eight uninterrupted steps. */
  lemma AcceptRun(s0: State, xs: seq<Action>, s: State, fd: nat) returns (ys: seq<Action>, t: State)
    requires Leads(s0, xs, s) && s.a == AAccept && s.lk.clients == Nobody && fd !in s.ar.fds
    requires s.ar.count < MAX_CLIENTS == |s.ar.slots| && |s.ar.conns| == |s.hs|
    ensures Leads(s0, ys, t) && t.lk == s.lk && t.fl == s.fl && t.b == s.b && t.a == AAccept && t.expected == s.expected
    ensures t.hs == s.hs + [Handler(Slot(fd, |s.hs|), HRecv, false, [])] && |t.ar.conns| == |t.hs|
    ensures t.ar.count == s.ar.count + 1 && |t.ar.slots| == MAX_CLIENTS && t.ar.fds == s.ar.fds[fd := |s.hs|]
    ensures t.ar.slots[s.ar.count] == Slot(fd, |s.hs|)
  {
    ys, t := EnterRun(s0, xs, s, fd);
    ys, t := Extend(s0, ys, t, A(fd));
    ys, t := Extend(s0, ys, t, A(fd));
    ys, t := Extend(s0, ys, t, A(fd));
    ys, t := Extend(s0, ys, t, A(fd));
  }

  /** `queue_message` runs to its end undisturbed while the broadcaster is not yet waiting. */
  lemma QueueRun(s0: State, xs: seq<Action>, s: State, h: nat) returns (ys: seq<Action>, t: State)
    requires Leads(s0, xs, s) && h < |s.hs| && s.hs[h].pc.Queueing? && s.hs[h].pc.st == QLock
    requires s.lk.queue == Nobody && s.b == BLock
    ensures Leads(s0, ys, t) && t.lk == s.lk && t.ar == s.ar && t.b == BLock && t.expected == s.expected
    ensures t.fl == s.fl.(queue := s.fl.queue + [s.hs[h].pc.msg], queued := s.fl.queued + [s.hs[h].pc.msg])
    ensures t.hs == s.hs[h := s.hs[h].(pc := Return(s.hs[h].pc.ret))]
  {
    ys, t := Extend(s0, xs, s, H(h, Closed));
    ys, t := Extend(s0, ys, t, H(h, Closed));
    ys, t := Extend(s0, ys, t, H(h, Closed));
    ys, t := Extend(s0, ys, t, H(h, Closed));
  }

  lemma StopRun(s0: State, xs: seq<Action>, s: State, h: nat) returns (ys: seq<Action>, t: State)
    requires Leads(s0, xs, s) && h < |s.hs| && s.hs[h].pc == HRecv && s.b == BLock && s.expected == s.fl.termCount + 1
    requires s.lk.clients == Nobody && s.lk.queue == Nobody
    ensures Leads(s0, ys, t) && t.lk.queue == Nobody && t.b == BLock && t.ar == s.ar && t.expected == s.expected
    ensures |t.hs| == |s.hs| && (forall k: nat :: k < |s.hs| && k != h ==> t.hs[k] == s.hs[k])
    ensures t.fl.queued == s.fl.queued + [Terminate]
  {
    ys, t := Extend(s0, xs, s, H(h, GotTerminate));
    ys, t := Extend(s0, ys, t, H(h, Closed));
    ys, t := Extend(s0, ys, t, H(h, Closed));
    ys, t := QueueRun(s0, ys, t, h);
  }

  lemma TalkRun(s0: State, xs: seq<Action>, s: State, h: nat) returns (ys: seq<Action>, t: State)
    requires Leads(s0, xs, s) && h < |s.hs| && s.hs[h].pc == HRecv && s.b == BLock && s.lk.queue == Nobody
    ensures Leads(s0, ys, t) && t.ar == s.ar && t.expected == s.expected
    ensures t.fl.queued == s.fl.queued + [Chat(s.hs[h].client.conn, [])]
  {
    ys, t := Extend(s0, xs, s, H(h, GotChat));
    ys, t := Extend(s0, ys, t, H(h, GotBody([])));
    ys, t := QueueRun(s0, ys, t, h);
  }

  /** `v` clients have come and gone, each counted once, and nothing was ever queued. */
  predicate Lobby(s: State, v: nat) {
    && s.lk == Locks(Nobody, Nobody, Nobody) && s.a == AAccept && s.b == BLock
    && |s.hs| == |s.ar.conns| == v && s.ar.count == 0 && |s.ar.slots| == MAX_CLIENTS && s.ar.fds == map[]
    && s.fl == Flow([], v, false, [], [])
  }

  /** The handler of the only client finds its connection closed and takes it out. */
  lemma LeaveRun(s0: State, xs: seq<Action>, s: State, h: nat) returns (ys: seq<Action>, t: State)
    requires Leads(s0, xs, s) && h < |s.hs| && s.hs[h].pc == HRecv && !s.hs[h].sentTerm
    requires s.lk == Locks(Nobody, Nobody, Nobody) && s.fl.termCount + 1 != s.expected
    requires s.ar.count == 1 && |s.ar.slots| == MAX_CLIENTS && s.ar.slots[0] == s.hs[h].client
    ensures Leads(s0, ys, t) && t.lk == s.lk && t.a == s.a && t.b == s.b && t.expected == s.expected
    ensures |t.hs| == |s.hs| && |t.ar.conns| == |s.ar.conns| && t.ar.count == 0 && |t.ar.slots| == MAX_CLIENTS
    ensures t.ar.fds == s.ar.fds - {s.hs[h].client.fd} && t.fl == s.fl.(termCount := s.fl.termCount + 1)
  {
    ys, t := CountedOut(s0, xs, s, h);
    ys, t := Extend(s0, ys, t, H(h, Closed));
    ys, t := Extend(s0, ys, t, H(h, Closed));
    ys, t := Extend(s0, ys, t, H(h, Closed));
  }

  lemma CountedOut(s0: State, xs: seq<Action>, s: State, h: nat) returns (ys: seq<Action>, t: State)
    requires Leads(s0, xs, s) && h < |s.hs| && s.hs[h].pc == HRecv && !s.hs[h].sentTerm
    requires s.lk == Locks(Nobody, Nobody, Nobody) && s.fl.termCount + 1 != s.expected
    ensures Leads(s0, ys, t) && h < |t.hs|
    ensures t == s.(hs := s.hs[h := t.hs[h]], lk := s.lk.(clients := Worker(h)),
        fl := s.fl.(termCount := s.fl.termCount + 1))
    ensures t.hs[h] == s.hs[h].(pc := DFind(0))
  {
    ys, t := Extend(s0, xs, s, H(h, Closed));
    ys, t := Extend(s0, ys, t, H(h, Closed));
    ys, t := Extend(s0, ys, t, H(h, Closed));
  }

  /** Fewer clients than expected come and go. */
  lemma {:induction false} VisitRun(s0: State, v: nat) returns (xs: seq<Action>, s: State)
    requires Lobby(s0, 0) && v < s0.expected
    ensures Leads(s0, xs, s) && Lobby(s, v) && s.expected == s0.expected
  {
    if v == 0 {
      xs, s := [], s0;
    } else {
      xs, s := VisitRun(s0, v - 1);
      xs, s := AcceptRun(s0, xs, s, 3);
      xs, s := LeaveRun(s0, xs, s, v - 1);
    }
  }

  lemma AnyStart(e: int) returns (s: State)
    ensures Initial(s) && Lobby(s, 0) && s.expected == e
  {
    var slots := seq(MAX_CLIENTS, (i: nat) => Slot(0, 0));
    s := State(e, Locks(Nobody, Nobody, Nobody), Registry(slots, 0, map[], [], [], 0),
      Flow([], 0, false, [], []), BLock, AAccept, []);
  }

  /** The bound on the number of clients is needed, whatever number is expected: with one
      client more, a chat message can be queued after the terminate message. */
  lemma OneClientTooMany(e: nat) returns (s: State)
    requires e >= 1
    ensures Reachable(s) && s.expected == e && |s.ar.conns| == e + 1
    ensures s.fl.queued == [Terminate, Chat(e, [])]
  {
    var s0 := AnyStart(e);
    var xs, t := VisitRun(s0, e - 1);
    xs, t := AcceptRun(s0, xs, t, 3);
    xs, t := AcceptRun(s0, xs, t, 4);
    xs, t := StopRun(s0, xs, t, e - 1);
    xs, s := TalkRun(s0, xs, t, e);
  }

  /** Nothing follows a terminate message. */
  predicate EndsIn(queued: seq<Msg>) { forall k :: 0 <= k < |queued| - 1 ==> queued[k].Chat? }

  /** With `e` clients expected, no run in which at most `n` connect queues anything after the
      terminate message. */
  ghost predicate AlwaysLast(e: int, n: nat) {
    forall s: State :: Reachable(s) && s.expected == e && |s.ar.conns| <= n ==> EndsIn(s.fl.queued)
  }

  /** Exactly when terminate is always last: when no more clients can connect than are
      expected, or when none are expected and it is therefore never queued. */
  lemma LastExactlyWithin(e: int, n: nat)
    ensures AlwaysLast(e, n) <==> e < 1 || n <= e
  {
    if e < 1 || n <= e {
      forall s: State | Reachable(s) && s.expected == e && |s.ar.conns| <= n
        ensures EndsIn(s.fl.queued)
      {
        OneTerminate(s);
        if Terminate in s.fl.queued { TerminateIsLast(s); }
      }
    } else {
      var s := OneClientTooMany(e);
      assert !EndsIn(s.fl.queued) by { assert s.fl.queued[0] == Terminate; }
    }
  }
}
