/** Who holds which mutex of a11 server.c, and why no thread waits for ever for one. */
module ChatLocks {
  import opened ChatModel

  predicate InClients(pc: HPc) {
    match pc
    case Queueing(_, _, ret) => ret != ToRecv
    case TCount => true
    case TUnlock => true
    case DCount => true
    case DFind(_) => true
    case DShift(_, _) => true
    case DUnlock => true
    case _ => false
  }

  predicate InQueue(pc: HPc) { pc.Queueing? && pc.st != QLock }

  predicate InTerm(pc: HPc) { pc == WCheck || pc == WUnlock }

  predicate HandlerLocks(s: State, h: nat)
    requires h < |s.hs|
  {
    && (InClients(s.hs[h].pc) <==> s.lk.clients == Worker(h))
    && (InQueue(s.hs[h].pc) <==> s.lk.queue == Worker(h))
    && (InTerm(s.hs[h].pc) <==> s.lk.term == Worker(h))
  }

  /** Each mutex is held by exactly the thread whose program counter is inside its section. */
  predicate LockInv(s: State) {
    && (s.b.BSend? <==> s.lk.clients == Broadcaster)
    && ((s.b.BCheck? || s.b.BUnlock?) <==> s.lk.queue == Broadcaster)
    && ((s.b.BTSet? || s.b.BTCast? || s.b.BTUnlock?) <==> s.lk.term == Broadcaster)
    && ((s.a.AWrite? || s.a.AIncr? || s.a.AUnlock?) <==> s.lk.clients == Acceptor)
    && s.lk.queue != Acceptor && s.lk.term != Acceptor
    && (s.lk.clients.Worker? ==> s.lk.clients.h < |s.hs|)
    && (s.lk.queue.Worker? ==> s.lk.queue.h < |s.hs|)
    && (s.lk.term.Worker? ==> s.lk.term.h < |s.hs|)
    && forall h: nat :: h < |s.hs| ==> HandlerLocks(s, h)
  }

  /** The broadcaster moves no handler across a section border. */
  lemma BFrame(s: State)
    requires BEnabled(s)
    ensures var t := BStep(s);
            && |t.hs| == |s.hs| && t.a == s.a
            && (forall h: nat :: h < |s.hs| ==>
                t.hs[h] == s.hs[h] || (s.hs[h].pc == WWait && t.hs[h] == s.hs[h].(pc := WLock)))
  {
  }

  lemma BKeepsLocks(s: State)
    requires LockInv(s) && BEnabled(s)
    ensures LockInv(BStep(s))
  {
    var t := BStep(s);
    BFrame(s);
    BPasses(s);
    forall h: nat | h < |t.hs|
      ensures HandlerLocks(t, h)
    {
      assert HandlerLocks(s, h);
    }
  }

  /** The broadcaster takes a mutex that nobody holds and gives back its own. */
  lemma BPasses(s: State)
    requires LockInv(s) && BEnabled(s)
    ensures var t := BStep(s);
            && (t.lk.clients == s.lk.clients || (!t.lk.clients.Worker? && !s.lk.clients.Worker?))
            && (t.lk.queue == s.lk.queue || (!t.lk.queue.Worker? && !s.lk.queue.Worker?))
            && (t.lk.term == s.lk.term || (!t.lk.term.Worker? && !s.lk.term.Worker?))
  {
  }

  lemma AFrame(s: State, fd: nat)
    requires AEnabled(s, fd)
    ensures var t := AStep(s, fd);
            && s.hs <= t.hs && t.b == s.b && t.lk.queue == s.lk.queue && t.lk.term == s.lk.term
            && (|t.hs| > |s.hs| ==> s.a.ASpawn? && t.hs == s.hs + [Handler(s.a.info, HRecv, false, [])])
  {
  }

  lemma AKeepsLocks(s: State, fd: nat)
    requires LockInv(s) && AEnabled(s, fd)
    ensures LockInv(AStep(s, fd))
  {
    var t := AStep(s, fd);
    AFrame(s, fd);
    forall h: nat | h < |t.hs|
      ensures HandlerLocks(t, h)
    {
      if h < |s.hs| { assert HandlerLocks(s, h) && t.hs[h] == s.hs[h]; }
    }
  }

  /** A mutex passes only between a handler and nobody. */
  predicate Passes(o: Owner, o': Owner, w: nat) {
    o' == o || (o == Nobody && o' == Worker(w)) || (o == Worker(w) && o' == Nobody)
  }

  lemma HandlerFrame(s: State, w: nat, input: Input)
    requires HEnabled(s, w)
    ensures var t := HStep(s, w, input);
            && |t.hs| == |s.hs| && (forall h: nat :: h < |s.hs| && h != w ==> t.hs[h] == s.hs[h])
            && t.a == s.a && (t.b == s.b || (s.b == BWait && t.b == BLock)) && t.hs[w].client == s.hs[w].client
  {
  }

  lemma HandlerPasses(s: State, w: nat, input: Input)
    requires HEnabled(s, w) && HandlerLocks(s, w)
    ensures var t := HStep(s, w, input);
            && Passes(s.lk.clients, t.lk.clients, w) && Passes(s.lk.queue, t.lk.queue, w) &&
               Passes(s.lk.term, t.lk.term, w)
  {
  }

  lemma OwnQueueLocks(s: State, w: nat, input: Input)
    requires HEnabled(s, w) && HandlerLocks(s, w) && s.hs[w].pc.Queueing?
    ensures w < |HStep(s, w, input).hs| && HandlerLocks(HStep(s, w, input), w)
  {
  }

  lemma OwnOtherLocks(s: State, w: nat, input: Input)
    requires HEnabled(s, w) && HandlerLocks(s, w) && !s.hs[w].pc.Queueing?
    ensures w < |HStep(s, w, input).hs| && HandlerLocks(HStep(s, w, input), w)
  {
  }

  lemma OwnLocks(s: State, w: nat, input: Input)
    requires HEnabled(s, w) && HandlerLocks(s, w)
    ensures w < |HStep(s, w, input).hs| && HandlerLocks(HStep(s, w, input), w)
  {
    if s.hs[w].pc.Queueing? { OwnQueueLocks(s, w, input); } else { OwnOtherLocks(s, w, input); }
  }

  lemma HKeepsLocks(s: State, w: nat, input: Input)
    requires LockInv(s) && HEnabled(s, w)
    ensures LockInv(HStep(s, w, input))
  {
    var t := HStep(s, w, input);
    assert HandlerLocks(s, w);
    HandlerFrame(s, w, input);
    HandlerPasses(s, w, input);
    OwnLocks(s, w, input);
    forall h: nat | h < |t.hs|
      ensures HandlerLocks(t, h)
    {
      assert HandlerLocks(s, h);
    }
  }

  lemma KeepsLocks(s: State, x: Action)
    requires LockInv(s) && Enabled(s, x)
    ensures LockInv(Next(s, x))
  {
    match x {
      case B => BKeepsLocks(s);
      case A(fd) => AKeepsLocks(s, fd);
      case H(h, input) => HKeepsLocks(s, h, input);
      case BSpurious =>
        var t := Next(s, x);
        forall h: nat | h < |t.hs| ensures HandlerLocks(t, h) { assert HandlerLocks(s, h); }
      case HSpurious(w) =>
        var t := Next(s, x);
        forall h: nat | h < |t.hs| ensures HandlerLocks(t, h) { assert HandlerLocks(s, h); }
    }
  }

  /** Some step of the thread holding the mutex is possible. */
  predicate OwnerCanMove(s: State, o: Owner) {
    match o
    case Nobody => true
    case Acceptor => AEnabled(s, 0)
    case Broadcaster => BEnabled(s)
    case Worker(h) => HEnabled(s, h)
  }

  /** No deadlock on mutexes: whoever holds the queue or the termination mutex can move at
      once; whoever holds the client mutex can move, or waits for the queue mutex only. */
  lemma NoMutexDeadlock(s: State)
    requires LockInv(s)
    ensures OwnerCanMove(s, s.lk.queue) && OwnerCanMove(s, s.lk.term)
    ensures OwnerCanMove(s, s.lk.clients)
         || (s.lk.clients.Worker? && s.lk.clients != s.lk.queue && s.lk.queue != Nobody &&
             s.hs[s.lk.clients.h].pc.Queueing?)
  {
    if s.lk.queue.Worker? { assert HandlerLocks(s, s.lk.queue.h); }
    if s.lk.term.Worker? { assert HandlerLocks(s, s.lk.term.h); }
    if s.lk.clients.Worker? { assert HandlerLocks(s, s.lk.clients.h); }
  }
}
