/** No wake-up is lost in a11 server.c, and while the queue is not empty and the broadcaster
    is alive, the server's own threads can always bring the next message off the queue. */
module ChatProgress {
  import opened ChatModel
  import opened ChatLocks
  import opened ChatRegistry
  import ChatDelivery
  import Sequences

  // ---------------------------------------------------------------- no wake-up is lost

  /** The handler has pushed and still has to signal. */
  predicate ToSignal(s: State) {
    s.lk.queue.Worker? && s.lk.queue.h < |s.hs| && s.hs[s.lk.queue.h].pc.Queueing? &&
      s.hs[s.lk.queue.h].pc.st == QSignal
  }

  /** Nobody sleeps on a condition that has come true, unless the thread that made it true
      is about to wake it. */
  predicate WakeInv(s: State) {
    && (s.b == BWait ==> s.fl.queue == [] || ToSignal(s))
    && (forall h :: 0 <= h < |s.hs| && s.hs[h].pc == WWait ==> !s.fl.termSent || s.b == BTCast)
    && (s.fl.termSent ==> s.b == BTCast || s.b == BTUnlock || s.b == BDone)
  }

  lemma BKeepsWake(s: State)
    requires LockInv(s) && WakeInv(s) && BEnabled(s)
    ensures WakeInv(BStep(s))
  {
    BFrame(s);
  }

  lemma AKeepsWake(s: State, fd: nat)
    requires LockInv(s) && WakeInv(s) && AEnabled(s, fd)
    ensures WakeInv(AStep(s, fd))
  {
    AFrame(s, fd);
    ChatDelivery.AFlow(s, fd);
  }

  /** What a handler's step does to the queue, the broadcaster and the termination flag. */
  lemma HWakeFrame(s: State, w: nat, input: Input)
    requires HEnabled(s, w) && HandlerLocks(s, w)
    ensures var t := HStep(s, w, input);
            && t.fl.termSent == s.fl.termSent && (t.b == s.b || (s.b == BWait && t.b == BLock))
            && (var touched := t.fl.queue != s.fl.queue || s.lk.queue == Worker(w);
                t.b == BWait && touched && t.fl.queue != [] && (s.fl.queue == [] || ToSignal(s)) ==> ToSignal(t))
            && w < |t.hs| && (t.hs[w].pc == WWait ==> !s.fl.termSent)
  {
  }

  lemma HKeepsWake(s: State, w: nat, input: Input)
    requires LockInv(s) && WakeInv(s) && HEnabled(s, w)
    ensures WakeInv(HStep(s, w, input))
  {
    var t := HStep(s, w, input);
    assert HandlerLocks(s, w);
    HandlerFrame(s, w, input);
    HandlerPasses(s, w, input);
    HWakeFrame(s, w, input);
  }

  lemma KeepsWake(s: State, x: Action)
    requires LockInv(s) && WakeInv(s) && Enabled(s, x)
    ensures WakeInv(Next(s, x))
  {
    match x {
      case B => BKeepsWake(s);
      case A(fd) => AKeepsWake(s, fd);
      case H(h, input) => HKeepsWake(s, h, input);
      case BSpurious =>
      case HSpurious(w) => assert HandlerLocks(s, w);
    }
  }

  // ---------------------------------------------------------------- the server's own steps

  /** A step that a server thread takes by itself: it waits for no client to connect or to
      send, and is no spurious wake-up. */
  predicate Own(s: State, x: Action) {
    match x
    case B => true
    case BSpurious => false
    case A(_) => s.a != AAccept
    case H(h, _) => h < |s.hs| && s.hs[h].pc != HRecv && s.hs[h].pc != HBody
    case HSpurious(_) => false
  }

  /** What a client might send or which descriptor the system might choose plays no part. */
  lemma OwnNeedsNothing(s: State, x: Action, input: Input, fd: nat)
    requires Enabled(s, x) && Own(s, x)
    ensures x.A? ==> Enabled(s, A(fd)) && Next(s, A(fd)) == Next(s, x)
    ensures x.H? ==> Enabled(s, H(x.h, input)) && Next(s, H(x.h, input)) == Next(s, x)
  {
  }

  /** `xs` leads from `s` to `t` by steps of the server's own threads alone. */
  predicate OwnLeads(s: State, xs: seq<Action>, t: State): (r: bool)
    ensures r ==> Leads(s, xs, t)
    decreases |xs|
  {
    if xs == [] then s == t else Enabled(s, xs[0]) && Own(s, xs[0]) && OwnLeads(Next(s, xs[0]), xs[1..], t)
  }

  lemma OwnCons(s: State, x: Action, xs: seq<Action>, t: State)
    requires Enabled(s, x) && Own(s, x) && OwnLeads(Next(s, x), xs, t)
    ensures OwnLeads(s, [x] + xs, t)
  {
    assert ([x] + xs)[1..] == xs;
  }

  lemma {:induction false} OwnConcat(s: State, xs: seq<Action>, t: State, ys: seq<Action>, u: State)
    requires OwnLeads(s, xs, t) && OwnLeads(t, ys, u)
    ensures OwnLeads(s, xs + ys, u)
    decreases |xs|
  {
    if xs == [] {
      Sequences.NothingAppend(ys);
    } else {
      OwnConcat(Next(s, xs[0]), xs[1..], t, ys, u);
      OwnCons(s, xs[0], xs[1..] + ys, u);
      Sequences.ConsAppend(xs, ys);
    }
  }

  // ---------------------------------------------------------------- towards the next message

  /** The broadcaster has not taken the terminate message. */
  predicate Alive(b: BPc) {
    match b
    case BLock => true
    case BCheck => true
    case BWait => true
    case BUnlock(m) => m != Terminate
    case BClients(m) => m != Terminate
    case BSend(m, _) => m != Terminate
    case _ => false
  }

  function StepsLeft(st: QStep): nat {
    match st
    case QLock => 4
    case QPush => 3
    case QSignal => 2
    case QUnlock => 1
  }

  function QRank(s: State): nat {
    var o := s.lk.queue;
    if o.Worker? && o.h < |s.hs| && s.hs[o.h].pc.Queueing? then StepsLeft(s.hs[o.h].pc.st) else 0
  }

  function Down(bound: nat, i: nat): nat { if i < bound then bound - i else 0 }

  /** Bound on the steps until the holder of the client mutex lets go. */
  function CRank(s: State): nat {
    match s.lk.clients
    case Nobody => 0
    case Broadcaster => 0
    case Acceptor => if s.a.AWrite? then 3 else if s.a.AIncr? then 2 else 1
    case Worker(h) =>
      if h >= |s.hs| then 0
      else match s.hs[h].pc
        case DFind(i) => 103 + Down(101, i)
        case DShift(_, j) => 2 + Down(100, j)
        case Queueing(_, st, _) => 300 + StepsLeft(st) + (if st == QLock then QRank(s) else 0)
        case TCount => 400
        case DCount => 400
        case _ => 1
  }

  /** Bound on the steps until the head of the queue is taken. */
  function Rank(s: State): nat {
    match s.b
    case BLock => 2 + QRank(s)
    case BCheck => 1
    case BWait => 4
    case BUnlock(_) => 109 + CRank(s)
    case BClients(_) => 108 + CRank(s)
    case BSend(_, i) => 6 + Down(101, i)
    case _ => 0
  }

  /** Which thread moves next. No input from a client is needed. */
  function Toward(s: State): Action {
    match s.b
    case BLock => if s.lk.queue.Worker? then H(s.lk.queue.h, Closed) else B
    case BWait => if s.lk.queue.Worker? then H(s.lk.queue.h, Closed) else BSpurious
    case BClients(_) =>
      if s.lk.clients == Acceptor then A(0)
      else if s.lk.clients.Worker? then
        var h := s.lk.clients.h;
        var blocked := h < |s.hs| && s.hs[h].pc.Queueing? && s.hs[h].pc.st == QLock && s.lk.queue.Worker?;
        H(if blocked then s.lk.queue.h else h, Closed)
      else B
    case _ => B
  }

  predicate Waiting(s: State) { LockInv(s) && RegInv(s) && WakeInv(s) && s.fl.queue != [] && Alive(s.b) }

  /** A step nearer, with the same message at the head of the queue. */
  predicate Nearer(s: State, t: State) {
    Rank(t) < Rank(s) && s.fl.queue <= t.fl.queue && Alive(t.b)
  }

  lemma QueueHolderMoves(s: State, w: nat)
    requires w < |s.hs| && HandlerLocks(s, w) && s.lk.queue == Worker(w)
    ensures HEnabled(s, w)
    ensures var t := HStep(s, w, Closed);
            && QRank(t) < QRank(s) && s.fl.queue <= t.fl.queue
            && (t.b == s.b || (s.b == BWait && t.b == BLock)) &&
                (ToSignal(s) && s.b == BWait ==> t.b == BLock && QRank(t) <= 1)
            && t.ar == s.ar && t.a == s.a && t.lk.clients == s.lk.clients
            && |t.hs| == |s.hs| && forall h: nat :: h < |s.hs| && h != w ==> t.hs[h] == s.hs[h]
  {
  }

  lemma ClientHolderMoves(s: State, w: nat)
    requires LockInv(s) && RegInv(s) && w < |s.hs| && s.lk.clients == Worker(w)
    requires HEnabled(s, w) && s.b.BClients?
    ensures var t := HStep(s, w, Closed); CRank(t) < CRank(s) && s.fl.queue <= t.fl.queue && t.b == s.b
  {
    assert HandlerLocks(s, w) && HandlerOk(s, w);
    var pc := s.hs[w].pc;
    if pc.DFind? {
      FindIsSettled(s, w, pc.i);
    } else if pc.Queueing? {
      ClientHolderQueues(s, w);
    } else if pc == TCount || pc == DCount {
      ClientHolderCounts(s, w);
    } else {
      HandlerFrame(s, w, Closed);
    }
  }

  lemma ClientHolderQueues(s: State, w: nat)
    requires w < |s.hs| && HandlerLocks(s, w) && s.lk.clients == Worker(w)
    requires HEnabled(s, w) && s.b.BClients? && s.hs[w].pc.Queueing?
    ensures var t := HStep(s, w, Closed); CRank(t) < CRank(s) && s.fl.queue <= t.fl.queue && t.b == s.b
  {
  }

  lemma ClientHolderCounts(s: State, w: nat)
    requires w < |s.hs| && HandlerLocks(s, w) && s.lk.clients == Worker(w)
    requires HEnabled(s, w) && s.b.BClients? && (s.hs[w].pc == TCount || s.hs[w].pc == DCount)
    ensures var t := HStep(s, w, Closed); CRank(t) < CRank(s) && s.fl.queue <= t.fl.queue && t.b == s.b
  {
    assert QRank(HStep(s, w, Closed)) <= 4;
  }

  lemma AcceptorMoves(s: State)
    requires LockInv(s) && s.lk.clients == Acceptor && s.b.BClients?
    ensures AEnabled(s, 0)
    ensures var t := AStep(s, 0); CRank(t) < CRank(s) && s.fl.queue <= t.fl.queue && t.b == s.b
  {
    ChatDelivery.AFlow(s, 0);
  }

  lemma SendMoves(s: State)
    requires LockInv(s) && RegInv(s) && s.b.BSend? && s.fl.queue != [] && Alive(s.b)
    ensures Nearer(s, BStep(s))
  {
    if s.lk.queue.Worker? { assert HandlerLocks(s, s.lk.queue.h); }
    assert QRank(BStep(s)) == QRank(s) <= 3;
  }

  lemma LockMoves(s: State)
    requires LockInv(s) && s.b == BLock && s.fl.queue != []
    ensures Enabled(s, Toward(s)) && Nearer(s, Next(s, Toward(s)))
  {
    if s.lk.queue.Worker? {
      assert HandlerLocks(s, s.lk.queue.h);
      QueueHolderMoves(s, s.lk.queue.h);
    }
  }

  lemma WaitMoves(s: State)
    requires LockInv(s) && WakeInv(s) && s.b == BWait && s.fl.queue != []
    ensures Enabled(s, Toward(s)) && Nearer(s, Next(s, Toward(s)))
  {
    assert HandlerLocks(s, s.lk.queue.h);
    QueueHolderMoves(s, s.lk.queue.h);
  }

  /** While the broadcaster waits for the client mutex, its holder, or the holder of the
      queue mutex that the former waits for, comes nearer to letting go. */
  lemma ClientMutexMoves(s: State)
    requires LockInv(s) && RegInv(s) && s.b.BClients?
    ensures Enabled(s, Toward(s))
    ensures var t := Next(s, Toward(s));
            s.fl.queue <= t.fl.queue && ((t.b == s.b && CRank(t) < CRank(s)) || t.b == BSend(s.b.msg, 0))
  {
    if s.lk.clients == Acceptor {
      AcceptorMoves(s);
    } else if s.lk.clients.Worker? {
      var h := s.lk.clients.h;
      assert HandlerLocks(s, h);
      if s.hs[h].pc.Queueing? && s.hs[h].pc.st == QLock && s.lk.queue.Worker? {
        assert HandlerLocks(s, s.lk.queue.h);
        QueueHolderMoves(s, s.lk.queue.h);
      } else {
        ClientHolderMoves(s, h);
      }
    }
  }

  lemma TowardIsOwn(s: State)
    requires Waiting(s)
    ensures Own(s, Toward(s))
  {
    if s.b == BLock || s.b == BWait {
      if s.lk.queue.Worker? { assert HandlerLocks(s, s.lk.queue.h); }
    } else if s.b.BClients? {
      ClientMoveIsOwn(s);
    }
  }

  lemma ClientMoveIsOwn(s: State)
    requires LockInv(s) && s.b.BClients?
    ensures Own(s, Toward(s))
  {
    if s.lk.queue.Worker? { assert HandlerLocks(s, s.lk.queue.h); }
    if s.lk.clients.Worker? { assert HandlerLocks(s, s.lk.clients.h); }
  }

  /** Some server thread can step by itself, and the step takes the head or comes nearer to it. */
  lemma TowardMoves(s: State)
    requires Waiting(s)
    ensures Enabled(s, Toward(s)) && Own(s, Toward(s))
    ensures if s.b == BCheck then Next(s, Toward(s)).b == BUnlock(s.fl.queue[0]) else Nearer(s, Next(s, Toward(s)))
  {
    TowardIsOwn(s);
    if s.b == BLock { LockMoves(s); }
    else if s.b == BWait { WaitMoves(s); }
    else if s.b.BClients? { ClientMutexMoves(s); }
    else if s.b.BSend? { SendMoves(s); }
  }

  /** From every such state the server's own threads have a run of at most `Rank` steps that
      takes the head of the queue, whatever the clients do. */
  lemma {:induction false} HeadIsTaken(s: State) returns (xs: seq<Action>, t: State)
    requires Waiting(s)
    ensures OwnLeads(s, xs, t) && t.b == BUnlock(s.fl.queue[0]) && |xs| <= Rank(s)
    ensures s.fl.queue[1..] <= t.fl.queue
    decreases Rank(s)
  {
    TowardMoves(s);
    var x := Toward(s);
    var n := Next(s, x);
    if s.b == BCheck {
      t := n;
      xs := [x];
      assert xs[1..] == [];
    } else {
      KeepsLocks(s, x);
      KeepsReg(s, x);
      KeepsWake(s, x);
      var rest;
      rest, t := HeadIsTaken(n);
      xs := [x] + rest;
      OwnCons(s, x, rest, t);
    }
  }
}
