/** The counting termination protocol of a11 server.c: the count is the number of handlers
    that have stopped reading, at most one terminate message is ever queued, and a client
    that asked to stop stays registered until that message has been broadcast. */
module ChatTermination {
  import opened ChatModel
  import opened ChatLocks
  import opened ChatRegistry
  import ChatDelivery

  // ---------------------------------------------------------------- counting handlers

  /** The handler will read no more messages and has added itself to the count. */
  predicate Counted(x: Handler) {
    match x.pc
    case HRecv => false
    case HBody => false
    case Queueing(_, _, ret) => ret != ToRecv
    case TLock => false
    case TCount => false
    case DCount => false
    case DLock => x.sentTerm
    case _ => true
  }

  function CountOf(hs: seq<Handler>): (n: nat)
    ensures n <= |hs|
  {
    if hs == [] then 0 else CountOf(hs[..|hs| - 1]) + (if Counted(hs[|hs| - 1]) then 1 else 0)
  }

  lemma {:induction false} CountUpdate(hs: seq<Handler>, w: nat, x: Handler)
    requires w < |hs|
    ensures CountOf(hs[w := x]) == CountOf(hs) - (if Counted(hs[w]) then 1 else 0) + (if Counted(x) then 1 else 0)
  {
    var n := |hs| - 1;
    if w == n {
      assert hs[w := x][..n] == hs[..n];
    } else {
      assert hs[w := x][..n] == hs[..n][w := x];
      CountUpdate(hs[..n], w, x);
    }
  }

  lemma {:induction false} CountPointwise(hs: seq<Handler>, hs': seq<Handler>)
    requires |hs'| == |hs| && forall h :: 0 <= h < |hs| ==> Counted(hs[h]) == Counted(hs'[h])
    ensures CountOf(hs') == CountOf(hs)
  {
    if hs != [] { CountPointwise(hs[..|hs| - 1], hs'[..|hs| - 1]); }
  }

  lemma {:induction false} AllCounted(hs: seq<Handler>, h: nat)
    requires CountOf(hs) == |hs| && h < |hs|
    ensures Counted(hs[h])
  {
    if h < |hs| - 1 { AllCounted(hs[..|hs| - 1], h); }
  }

  /** How many handlers have finished, whatever made them stop. */
  function Finished(hs: seq<Handler>): nat {
    if hs == [] then 0 else Finished(hs[..|hs| - 1]) + (if hs[|hs| - 1].pc == HDone then 1 else 0)
  }

  /** How many handlers wait for a type byte or for a content. */
  function Reading(hs: seq<Handler>): nat {
    if hs == [] then 0
    else Reading(hs[..|hs| - 1]) + (if hs[|hs| - 1].pc == HRecv || hs[|hs| - 1].pc == HBody then 1 else 0)
  }

  lemma {:induction false} CountBounds(hs: seq<Handler>)
    ensures Finished(hs) <= CountOf(hs) <= |hs| - Reading(hs)
  {
    if hs != [] { CountBounds(hs[..|hs| - 1]); }
  }

  /** How many terminate messages are in `ms`. */
  function Ends(ms: seq<Msg>): nat {
    if ms == [] then 0 else Ends(ms[..|ms| - 1]) + (if ms[|ms| - 1] == Terminate then 1 else 0)
  }

  lemma EndsAppend(ms: seq<Msg>, m: Msg)
    ensures Ends(ms + [m]) == Ends(ms) + (if m == Terminate then 1 else 0)
  {
    assert (ms + [m])[..|ms|] == ms;
  }

  lemma {:induction false} EndsConcat(x: seq<Msg>, y: seq<Msg>)
    ensures Ends(x + y) == Ends(x) + Ends(y)
  {
    if y == [] {
      assert x + y == x;
    } else {
      assert (x + y)[..|x + y| - 1] == x + y[..|y| - 1];
      EndsConcat(x, y[..|y| - 1]);
    }
  }

  lemma {:induction false} EndsMember(ms: seq<Msg>)
    ensures Terminate in ms <==> Ends(ms) > 0
  {
    if ms != [] {
      assert ms == ms[..|ms| - 1] + [ms[|ms| - 1]];
      EndsMember(ms[..|ms| - 1]);
    }
  }

  // ---------------------------------------------------------------- the count

  /** The local flag agrees with the program counter, and what is being queued with where
      `queue_message` returns to. */
  predicate PhaseOk(x: Handler) {
    match x.pc
    case HRecv => !x.sentTerm
    case HBody => !x.sentTerm
    case Queueing(m, _, ret) => (m == Terminate <==> ret != ToRecv) && (x.sentTerm <==> ret == ToTUnlock)
    case DCount => !x.sentTerm
    case DLock => true
    case DFind(_) => true
    case DShift(_, _) => true
    case DUnlock => true
    case HDone => true
    case _ => x.sentTerm
  }

  predicate TerminateAhead(pc: HPc) { pc.Queueing? && pc.msg == Terminate && (pc.st == QLock || pc.st == QPush) }

  /** One if some handler has decided to queue the terminate message but not linked it yet. */
  function Pending(s: State): nat {
    if s.lk.clients.Worker? && s.lk.clients.h < |s.hs| && TerminateAhead(s.hs[s.lk.clients.h].pc) then 1 else 0
  }

  /** Whether the protocol has decided to end the chat. */
  function Decided(s: State): nat { if 1 <= s.expected <= s.fl.termCount then 1 else 0 }

  predicate CountInv(s: State) {
    && s.fl.termCount == CountOf(s.hs)
    && Ends(s.fl.queued) + Pending(s) == Decided(s)
    && forall h :: 0 <= h < |s.hs| ==> PhaseOk(s.hs[h])
  }

  lemma BTermFrame(s: State)
    requires BEnabled(s)
    ensures var t := BStep(s);
        t.fl.termCount == s.fl.termCount && t.fl.queued == s.fl.queued && t.expected == s.expected
  {
  }

  lemma BPending(s: State)
    requires LockInv(s) && BEnabled(s)
    ensures Pending(BStep(s)) == Pending(s)
  {
    BFrame(s);
  }

  lemma BPhases(s: State)
    requires BEnabled(s) && forall h :: 0 <= h < |s.hs| ==> PhaseOk(s.hs[h])
    ensures CountOf(BStep(s).hs) == CountOf(s.hs) && forall h :: 0 <= h < |s.hs| ==>
        h < |BStep(s).hs| && PhaseOk(BStep(s).hs[h])
  {
    BFrame(s);
    CountPointwise(s.hs, BStep(s).hs);
  }

  lemma BKeepsCount(s: State)
    requires LockInv(s) && CountInv(s) && BEnabled(s)
    ensures CountInv(BStep(s))
  {
    var t := BStep(s);
    BFrame(s);
    BTermFrame(s);
    BPending(s);
    BPhases(s);
  }

  lemma AKeepsCount(s: State, fd: nat)
    requires LockInv(s) && CountInv(s) && AEnabled(s, fd)
    ensures CountInv(AStep(s, fd))
  {
    var t := AStep(s, fd);
    AFrame(s, fd);
    ChatDelivery.AFlow(s, fd);
    assert Pending(t) == Pending(s);
    if |t.hs| > |s.hs| { assert t.hs[..|t.hs| - 1] == s.hs; }
  }

  /** The handler's own part of a step: its count, its flag and the terminate messages. */
  predicate StepCounts(s: State, t: State, w: nat)
    requires w < |s.hs| && w < |t.hs|
  {
    && t.expected == s.expected && PhaseOk(t.hs[w])
    && t.fl.termCount == s.fl.termCount - (if Counted(s.hs[w]) then 1 else 0) + (if Counted(t.hs[w]) then 1 else 0)
    && Ends(t.fl.queued) + Pending(t) - Decided(t) == Ends(s.fl.queued) + Pending(s) - Decided(s)
  }

  lemma CountingCounts(s: State, w: nat, ret: Ret)
    requires w < |s.hs| && HandlerLocks(s, w) && PhaseOk(s.hs[w])
    requires (s.hs[w].pc == TCount && ret == ToTUnlock) || (s.hs[w].pc == DCount && ret == ToFind)
    ensures StepCounts(s, Count(s, w, ret), w)
  {
  }

  lemma PushFrame(s: State, w: nat, m: Msg, ret: Ret)
    requires w < |s.hs| && s.hs[w].pc == Queueing(m, QPush, ret)
    ensures var t := QueueStep(s, w, m, QPush, ret);
            && t.expected == s.expected && t.fl.termCount == s.fl.termCount && t.lk == s.lk
            && t.fl.queued == s.fl.queued + [m] && t.hs == s.hs[w := s.hs[w].(pc := Queueing(m, QSignal, ret))]
  {
  }

  lemma PushPending(s: State, t: State, w: nat, m: Msg, ret: Ret)
    requires w < |s.hs| && HandlerLocks(s, w) && PhaseOk(s.hs[w]) && s.hs[w].pc == Queueing(m, QPush, ret)
    requires t.lk == s.lk && t.hs == s.hs[w := s.hs[w].(pc := Queueing(m, QSignal, ret))]
    ensures Pending(s) == Pending(t) + (if m == Terminate then 1 else 0)
  {
  }

  lemma PushCounts(s: State, w: nat, m: Msg, ret: Ret)
    requires w < |s.hs| && HandlerLocks(s, w) && PhaseOk(s.hs[w]) && s.hs[w].pc == Queueing(m, QPush, ret)
    ensures StepCounts(s, QueueStep(s, w, m, QPush, ret), w)
  {
    PushFrame(s, w, m, ret);
    PushPending(s, QueueStep(s, w, m, QPush, ret), w, m, ret);
    EndsAppend(s.fl.queued, m);
  }

  lemma QueueCounts(s: State, w: nat, m: Msg, st: QStep, ret: Ret)
    requires w < |s.hs| && HandlerLocks(s, w) && PhaseOk(s.hs[w]) && s.hs[w].pc == Queueing(m, st, ret) && st != QPush
    ensures StepCounts(s, QueueStep(s, w, m, st, ret), w)
  {
  }

  lemma ReadCounts(s: State, w: nat, input: Input)
    requires HEnabled(s, w) && HandlerLocks(s, w) && PhaseOk(s.hs[w]) && (s.hs[w].pc == HRecv || s.hs[w].pc == HBody)
    ensures w < |HStep(s, w, input).hs| && StepCounts(s, HStep(s, w, input), w)
  {
  }

  lemma OtherCounts(s: State, w: nat, input: Input)
    requires HEnabled(s, w) && HandlerLocks(s, w) && PhaseOk(s.hs[w])
    requires !s.hs[w].pc.Queueing? && s.hs[w].pc != TCount && s.hs[w].pc != DCount
    ensures w < |HStep(s, w, input).hs| && StepCounts(s, HStep(s, w, input), w)
  {
    if s.hs[w].pc == HRecv || s.hs[w].pc == HBody { ReadCounts(s, w, input); }
    else if Removing(s.hs[w].pc) { RemovalCounts(s, w, input); }
  }

  lemma RemovalCounts(s: State, w: nat, input: Input)
    requires HEnabled(s, w) && HandlerLocks(s, w) && PhaseOk(s.hs[w]) && Removing(s.hs[w].pc)
    ensures w < |HStep(s, w, input).hs| && StepCounts(s, HStep(s, w, input), w)
  {
  }

  lemma HKeepsCount(s: State, w: nat, input: Input)
    requires LockInv(s) && CountInv(s) && HEnabled(s, w)
    ensures CountInv(HStep(s, w, input))
  {
    assert HandlerLocks(s, w);
    var t := HStep(s, w, input);
    var pc := s.hs[w].pc;
    HandlerFrame(s, w, input);
    if pc == TCount { CountingCounts(s, w, ToTUnlock); }
    else if pc == DCount { CountingCounts(s, w, ToFind); }
    else if pc.Queueing? && pc.st == QPush { PushCounts(s, w, pc.msg, pc.ret); }
    else if pc.Queueing? { QueueCounts(s, w, pc.msg, pc.st, pc.ret); }
    else { OtherCounts(s, w, input); }
    assert t.hs == s.hs[w := t.hs[w]];
    CountUpdate(s.hs, w, t.hs[w]);
  }

  lemma KeepsCount(s: State, x: Action)
    requires LockInv(s) && CountInv(s) && Enabled(s, x)
    ensures CountInv(Next(s, x))
  {
    match x {
      case B => BKeepsCount(s);
      case A(fd) => AKeepsCount(s, fd);
      case H(h, input) => HKeepsCount(s, h, input);
      case BSpurious =>
      case HSpurious(w) => CountPointwise(s.hs, Next(s, x).hs);
    }
  }

  /** Never more than one terminate message, queued only when the count has been reached. */
  lemma AtMostOneTerminate(s: State)
    requires CountInv(s)
    ensures Ends(s.fl.queued) <= 1
    ensures Terminate in s.fl.queued ==> 1 <= s.expected <= CountOf(s.hs)
  {
    EndsMember(s.fl.queued);
  }

  // ---------------------------------------------------------------- terminate comes last

  /** When no more clients connect than expected, nothing is queued after terminate. */
  predicate LastInv(s: State) {
    |s.ar.conns| <= s.expected && Terminate in s.fl.queued ==> s.fl.queued[|s.fl.queued| - 1] == Terminate
  }

  lemma ConnsGrow(s: State, x: Action)
    requires Enabled(s, x)
    ensures |Next(s, x).ar.conns| >= |s.ar.conns| && Next(s, x).expected == s.expected
  {
  }

  /** Only a handler that is still counted as reading can be about to queue a chat message,
      and once terminate is queued every expected handler has been counted. */
  lemma PushIsFirst(s: State, w: nat)
    requires LockInv(s) && RegInv(s) && CountInv(s) && |s.ar.conns| <= s.expected
    requires w < |s.hs| && s.hs[w].pc.Queueing? && s.hs[w].pc.st == QPush
    ensures Terminate !in s.fl.queued
  {
    EndsMember(s.fl.queued);
    assert HandlerLocks(s, w) && PhaseOk(s.hs[w]);
    if Terminate in s.fl.queued {
      AllCounted(s.hs, w);
      assert false;
    }
  }

  lemma QueuedFrame(s: State, x: Action)
    requires Enabled(s, x)
    ensures Next(s, x).fl.queued == s.fl.queued
         || (x.H? && s.hs[x.h].pc.Queueing? && s.hs[x.h].pc.st == QPush &&
             Next(s, x).fl.queued == s.fl.queued + [s.hs[x.h].pc.msg])
  {
  }

  lemma KeepsLast(s: State, x: Action)
    requires LockInv(s) && RegInv(s) && CountInv(s) && LastInv(s) && Enabled(s, x)
    ensures LastInv(Next(s, x))
  {
    ConnsGrow(s, x);
    QueuedFrame(s, x);
    if Next(s, x).fl.queued != s.fl.queued && |s.ar.conns| <= s.expected { PushIsFirst(s, x.h); }
  }

  // ---------------------------------------------------------------- the broadcaster's end

  /** The broadcaster has begun to broadcast the terminate message. */
  predicate Ending(b: BPc) {
    match b
    case BSend(m, _) => m == Terminate
    case BTerm => true
    case BTSet => true
    case BTCast => true
    case BTUnlock => true
    case BDone => true
    case _ => false
  }

  predicate Announced(b: BPc) { b == BTCast || b == BTUnlock || b == BDone }

  /** The handler has seen that the terminate message was sent. */
  predicate Released(x: Handler) {
    x.pc == WUnlock || (x.sentTerm && (x.pc == DLock || x.pc.DFind? || x.pc.DShift? || Gone(x.pc)))
  }

  predicate StayOk(s: State, h: nat)
    requires h < |s.hs|
  {
    && (Released(s.hs[h]) ==> s.fl.termSent)
    && (s.hs[h].sentTerm && Gone(s.hs[h].pc) ==> h < |s.ar.conns| && s.ar.conns[h].leave == |s.fl.log|)
  }

  predicate EndInv(s: State) {
    && (s.fl.termSent <==> Announced(s.b))
    && (if Ending(s.b) then s.fl.log != [] && s.fl.log[|s.fl.log| - 1] == Terminate else Terminate !in s.fl.log)
    && forall h: nat :: h < |s.hs| ==> StayOk(s, h)
  }

  lemma BLeaves(s: State)
    requires BEnabled(s)
    ensures var t := BStep(s);
            && |t.ar.conns| == |s.ar.conns| &&
               (forall c :: 0 <= c < |s.ar.conns| ==> t.ar.conns[c].leave == s.ar.conns[c].leave)
            && (t.fl.log == s.fl.log || !Announced(s.b)) && (s.fl.termSent ==> t.fl.termSent)
  {
  }

  lemma BEnds(s: State)
    requires BEnabled(s) && (s.fl.termSent <==> Announced(s.b))
    requires if Ending(s.b) then s.fl.log != [] && s.fl.log[|s.fl.log| - 1] == Terminate else Terminate !in s.fl.log
    ensures var t := BStep(s);
            && (t.fl.termSent <==> Announced(t.b))
            && (if Ending(t.b) then t.fl.log != [] && t.fl.log[|t.fl.log| - 1] == Terminate else Terminate !in t.fl.log)
  {
  }

  lemma BKeepsEnd(s: State)
    requires EndInv(s) && BEnabled(s)
    ensures EndInv(BStep(s))
  {
    var t := BStep(s);
    BFrame(s);
    BLeaves(s);
    BEnds(s);
    forall h: nat | h < |t.hs| ensures StayOk(t, h) { assert StayOk(s, h); }
  }

  lemma ALeaves(s: State, fd: nat)
    requires AEnabled(s, fd) && RegInv(s)
    ensures var t := AStep(s, fd);
            |t.ar.conns| >= |s.ar.conns| && forall c :: 0 <= c < |s.ar.conns| ==>
              t.ar.conns[c].leave == s.ar.conns[c].leave
  {
  }

  lemma AKeepsEnd(s: State, fd: nat)
    requires RegInv(s) && EndInv(s) && AEnabled(s, fd)
    ensures EndInv(AStep(s, fd))
  {
    var t := AStep(s, fd);
    AFrame(s, fd);
    ChatDelivery.AFlow(s, fd);
    ALeaves(s, fd);
    forall h: nat | h < |t.hs| ensures StayOk(t, h) { if h < |s.hs| { assert StayOk(s, h); } }
  }

  lemma HEndFrame(s: State, w: nat, input: Input)
    requires HEnabled(s, w)
    ensures HStep(s, w, input).fl.termSent == s.fl.termSent && HStep(s, w, input).fl.log == s.fl.log
    ensures Announced(HStep(s, w, input).b) == Announced(s.b) && Ending(HStep(s, w, input).b) == Ending(s.b)
  {
  }

  lemma HLeaves(s: State, w: nat, input: Input)
    requires HEnabled(s, w) && RegInv(s)
    ensures var t := HStep(s, w, input);
            |t.ar.conns| == |s.ar.conns| && forall c :: 0 <= c < |s.ar.conns| && c != w ==>
              t.ar.conns[c].leave == s.ar.conns[c].leave
  {
    assert HandlerOk(s, w);
    if !Removing(s.hs[w].pc) { QuietPlace(s, w, input); }
  }

  lemma RemovalStays(s: State, w: nat, input: Input)
    requires RegInv(s) && HEnabled(s, w) && StayOk(s, w) && Removing(s.hs[w].pc)
    requires LockInv(s)
    ensures w < |HStep(s, w, input).hs| && StayOk(HStep(s, w, input), w)
  {
    assert HandlerOk(s, w);
    var pc := s.hs[w].pc;
    if pc.DFind? { FindIsSettled(s, w, pc.i); }
  }

  lemma OtherStays(s: State, w: nat, input: Input)
    requires HEnabled(s, w) && StayOk(s, w) && PhaseOk(s.hs[w]) && !Removing(s.hs[w].pc)
    ensures w < |HStep(s, w, input).hs| && StayOk(HStep(s, w, input), w)
  {
    QuietPlace(s, w, input);
  }

  lemma HKeepsEnd(s: State, w: nat, input: Input)
    requires LockInv(s) && RegInv(s) && CountInv(s) && EndInv(s) && HEnabled(s, w)
    ensures EndInv(HStep(s, w, input))
  {
    var t := HStep(s, w, input);
    assert StayOk(s, w);
    HandlerFrame(s, w, input);
    HEndFrame(s, w, input);
    HLeaves(s, w, input);
    if Removing(s.hs[w].pc) { RemovalStays(s, w, input); } else { OtherStays(s, w, input); }
    forall h: nat | h < |t.hs|
      ensures StayOk(t, h)
    {
      assert StayOk(s, h);
    }
  }

  lemma KeepsEnd(s: State, x: Action)
    requires LockInv(s) && RegInv(s) && CountInv(s) && EndInv(s) && Enabled(s, x)
    ensures EndInv(Next(s, x))
  {
    match x {
      case B => BKeepsEnd(s);
      case A(fd) => AKeepsEnd(s, fd);
      case H(h, input) => HKeepsEnd(s, h, input);
      case BSpurious =>
        forall h: nat | h < |s.hs| ensures StayOk(Next(s, x), h) { assert StayOk(s, h); }
      case HSpurious(w) =>
        forall h: nat | h < |s.hs| ensures StayOk(Next(s, x), h) { assert StayOk(s, h); }
    }
  }
}
