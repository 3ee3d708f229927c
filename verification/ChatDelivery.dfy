/** Total order broadcast in a11 server.c: every connection receives one contiguous window of
    a single global log, and the log keeps every sender's order. */
module ChatDelivery {
  import opened ChatModel
  import opened ChatLocks
  import opened ChatRegistry

  // ---------------------------------------------------------------- windows

  /** How much of the log the client at position `k` of the array has been sent. */
  function Upto(s: State, k: nat): int {
    if s.b.BSend? && k >= s.b.i then |s.fl.log| - 1 else |s.fl.log|
  }

  predicate IsWindow(log: seq<Msg>, c: Conn, to: int) {
    c.join <= to <= |log| && c.delivered == log[c.join..to]
  }

  predicate MemberWindow(s: State, k: nat)
    requires k < |s.ar.reg|
  {
    s.ar.reg[k] < |s.ar.conns| && IsWindow(s.fl.log, s.ar.conns[s.ar.reg[k]], Upto(s, k))
  }

  /** Connections that are not in the array: those gone keep the window they left with, the
      one not yet entered has received nothing. */
  predicate OutsideWindow(s: State, c: nat)
    requires c < |s.ar.conns|
  {
    && (c < |s.hs| && Gone(s.hs[c].pc) ==> IsWindow(s.fl.log, s.ar.conns[c], s.ar.conns[c].leave))
    && (c == |s.hs| && (s.a.ALock? || s.a.AWrite? || s.a.AIncr?) ==> s.ar.conns[c].delivered == [])
  }

  predicate WindowInv(s: State) {
    && (s.b.BSend? ==> s.fl.log != [] && s.fl.log[|s.fl.log| - 1] == s.b.msg && s.b.i <= s.ar.count)
    && (forall k: nat :: k < |s.ar.reg| ==> MemberWindow(s, k))
    && (forall c: nat :: c < |s.ar.conns| ==> OutsideWindow(s, c))
  }

  predicate SamePhase(a: APc, a': APc) {
    a == a' || ((a.ALock? || a.AWrite? || a.AIncr?) && (a'.ALock? || a'.AWrite? || a'.AIncr?))
            || (!(a.ALock? || a.AWrite? || a.AIncr?) && !(a'.ALock? || a'.AWrite? || a'.AIncr?))
  }

  lemma QuietWindow(s: State, t: State)
    requires WindowInv(s) && t.ar == s.ar && t.fl.log == s.fl.log && SamePhase(s.a, t.a)
    requires t.b == s.b || (!s.b.BSend? && !t.b.BSend?)
    requires |t.hs| == |s.hs| && forall h: nat :: h < |s.hs| ==> (Gone(s.hs[h].pc) <==> Gone(t.hs[h].pc))
    ensures WindowInv(t)
  {
    forall k: nat | k < |t.ar.reg| ensures MemberWindow(t, k) { assert MemberWindow(s, k); }
    forall c: nat | c < |t.ar.conns| ensures OutsideWindow(t, c) { assert OutsideWindow(s, c); }
  }

  // ---------------------------------------------------------------- broadcaster

  /** `send` to the `i`-th entry reaches the `i`-th registered connection. */
  lemma SendReaches(s: State)
    requires LockInv(s) && RegInv(s) && s.b.BSend? && s.b.i < s.ar.count
    ensures s.b.i < |s.ar.slots| && s.b.i < |s.ar.reg| && s.ar.reg[s.b.i] < |s.ar.conns|
    ensures var c := s.ar.reg[s.b.i];
            Deliver(s.ar.conns, s.ar.fds, s.ar.slots[s.b.i].fd, s.b.msg) ==
              s.ar.conns[c := s.ar.conns[c].(delivered := s.ar.conns[c].delivered + [s.b.msg])]
  {
    NoRemoval(s);
    assert SlotOk(s.ar, Gap(s), s.b.i);
    var c := s.ar.reg[s.b.i];
    assert MemberOk(s, c);
    assert FdOk(s, c);
  }

  lemma SendKeepsWindow(s: State)
    requires LockInv(s) && RegInv(s) && WindowInv(s) && s.b.BSend? && s.b.i < s.ar.count
    ensures WindowInv(BStep(s))
  {
    var t := BStep(s);
    SendReaches(s);
    var c := s.ar.reg[s.b.i];
    assert t.ar == s.ar.(conns := s.ar.conns[c := s.ar.conns[c].(delivered := s.ar.conns[c].delivered + [s.b.msg])]);
    forall k: nat | k < |t.ar.reg|
      ensures MemberWindow(t, k)
    {
      assert MemberWindow(s, k);
      if k == s.b.i {
        var from, n := s.ar.conns[c].join, |s.fl.log|;
        assert s.fl.log[from..n - 1] + [s.fl.log[n - 1]] == s.fl.log[from..n];
      }
    }
    assert MemberOk(s, c);
    forall d: nat | d < |t.ar.conns| ensures OutsideWindow(t, d) { assert OutsideWindow(s, d); }
  }

  lemma BeginKeepsWindow(s: State)
    requires LockInv(s) && RegInv(s) && WindowInv(s) && BEnabled(s) && s.b.BClients?
    ensures WindowInv(BStep(s))
  {
    var t := BStep(s);
    assert t.ar == s.ar && t.fl.log == s.fl.log + [s.b.msg];
    forall k: nat | k < |t.ar.reg| ensures MemberWindow(t, k) { assert MemberWindow(s, k); }
    forall c: nat | c < |t.ar.conns| ensures OutsideWindow(t, c) { assert OutsideWindow(s, c); }
  }

  lemma EndKeepsWindow(s: State)
    requires LockInv(s) && RegInv(s) && WindowInv(s) && s.b.BSend? && s.b.i >= s.ar.count
    ensures WindowInv(BStep(s))
  {
    var t := BStep(s);
    assert t.ar == s.ar && t.fl == s.fl;
    forall k: nat | k < |t.ar.reg| ensures MemberWindow(t, k) { assert MemberWindow(s, k); }
    forall c: nat | c < |t.ar.conns| ensures OutsideWindow(t, c) { assert OutsideWindow(s, c); }
  }

  lemma BKeepsWindow(s: State)
    requires LockInv(s) && RegInv(s) && WindowInv(s) && BEnabled(s)
    ensures WindowInv(BStep(s))
  {
    BFrame(s);
    if s.b.BSend? {
      if s.b.i < s.ar.count { SendKeepsWindow(s); } else { EndKeepsWindow(s); }
    } else if s.b.BClients? {
      BeginKeepsWindow(s);
    } else {
      QuietWindow(s, BStep(s));
    }
  }

  // ---------------------------------------------------------------- joins and leaves

  lemma AcceptKeepsWindow(s: State, fd: nat)
    requires LockInv(s) && RegInv(s) && WindowInv(s) && AEnabled(s, fd) && s.a.AAccept?
    ensures WindowInv(AStep(s, fd))
  {
    var t := AStep(s, fd);
    forall k: nat | k < |t.ar.reg| ensures MemberWindow(t, k) { assert MemberWindow(s, k); }
    forall c: nat | c < |t.ar.conns| ensures OutsideWindow(t, c) { if c < |s.ar.conns| { assert OutsideWindow(s, c); } }
  }

  lemma WriteKeepsWindow(s: State, fd: nat)
    requires LockInv(s) && RegInv(s) && WindowInv(s) && AEnabled(s, fd) && s.a.AWrite?
    ensures WindowInv(AStep(s, fd))
  {
    var t := AStep(s, fd);
    forall k: nat | k < |t.ar.reg| ensures MemberWindow(t, k) { assert MemberWindow(s, k); }
    forall c: nat | c < |t.ar.conns| ensures OutsideWindow(t, c) { assert OutsideWindow(s, c); }
  }

  lemma JoinKeepsWindow(s: State, fd: nat)
    requires LockInv(s) && RegInv(s) && WindowInv(s) && AEnabled(s, fd) && s.a.AIncr?
    ensures WindowInv(AStep(s, fd))
  {
    var t, n := AStep(s, fd), |s.hs|;
    assert OutsideWindow(s, n) && MemberOk(s, n);
    assert t.ar.reg == s.ar.reg + [n];
    forall k: nat | k < |t.ar.reg|
      ensures MemberWindow(t, k)
    {
      if k < |s.ar.reg| { assert MemberWindow(s, k); assert s.ar.reg[k] in s.ar.reg; }
    }
    forall c: nat | c < |t.ar.conns| ensures OutsideWindow(t, c) { assert OutsideWindow(s, c); }
  }

  lemma SpawnKeepsWindow(s: State, fd: nat)
    requires LockInv(s) && RegInv(s) && WindowInv(s) && AEnabled(s, fd) && s.a.ASpawn?
    ensures WindowInv(AStep(s, fd))
  {
    var t := AStep(s, fd);
    forall k: nat | k < |t.ar.reg| ensures MemberWindow(t, k) { assert MemberWindow(s, k); }
    forall c: nat | c < |t.ar.conns| ensures OutsideWindow(t, c) { assert OutsideWindow(s, c); }
  }

  lemma AKeepsWindow(s: State, fd: nat)
    requires LockInv(s) && RegInv(s) && WindowInv(s) && AEnabled(s, fd)
    ensures WindowInv(AStep(s, fd))
  {
    if s.a.AAccept? { AcceptKeepsWindow(s, fd); }
    else if s.a.AWrite? { WriteKeepsWindow(s, fd); }
    else if s.a.AIncr? { JoinKeepsWindow(s, fd); }
    else if s.a.ASpawn? { SpawnKeepsWindow(s, fd); }
    else { QuietWindow(s, AStep(s, fd)); }
  }

  lemma LeaveKeepsWindow(s: State, w: nat, i: nat, j: nat)
    requires LockInv(s) && RegInv(s) && WindowInv(s) && w < |s.hs| && s.hs[w].pc == DShift(i, j) && j + 1 >= s.ar.count
    ensures WindowInv(ShiftStep(s, w, i, j))
  {
    var t := ShiftStep(s, w, i, j);
    assert HandlerLocks(s, w) && HandlerOk(s, w);
    RemoveAtRegOk(s.ar, i);
    assert t.ar == Leave(s.ar, w, i, |s.fl.log|) && t.fl == s.fl && t.hs == s.hs[w := s.hs[w].(pc := DUnlock)];
    assert MemberWindow(s, i);
    forall k: nat | k < |t.ar.reg|
      ensures MemberWindow(t, k)
    {
      var from := if k < i then k else k + 1;
      assert MemberWindow(s, from);
      assert t.ar.reg[k] == s.ar.reg[from] != w;
    }
    forall c: nat | c < |t.ar.conns| ensures OutsideWindow(t, c) { assert OutsideWindow(s, c); }
  }

  lemma FindKeepsWindow(s: State, w: nat, i: nat)
    requires LockInv(s) && RegInv(s) && WindowInv(s) && w < |s.hs| && s.hs[w].pc == DFind(i)
    ensures WindowInv(FindStep(s, w, i))
  {
    FindIsSettled(s, w, i);
    var t := FindStep(s, w, i);
    forall k: nat | k < |t.ar.reg| ensures MemberWindow(t, k) { assert MemberWindow(s, k); }
    forall c: nat | c < |t.ar.conns| ensures OutsideWindow(t, c) { assert OutsideWindow(s, c); }
  }

  lemma ShiftKeepsWindow(s: State, w: nat, i: nat, j: nat)
    requires LockInv(s) && RegInv(s) && WindowInv(s) && w < |s.hs| && s.hs[w].pc == DShift(i, j) && j + 1 < s.ar.count
    ensures WindowInv(ShiftStep(s, w, i, j))
  {
    var t := ShiftStep(s, w, i, j);
    forall k: nat | k < |t.ar.reg| ensures MemberWindow(t, k) { assert MemberWindow(s, k); }
    forall c: nat | c < |t.ar.conns| ensures OutsideWindow(t, c) { assert OutsideWindow(s, c); }
  }

  lemma HLog(s: State, w: nat, input: Input)
    requires HEnabled(s, w)
    ensures HStep(s, w, input).fl.log == s.fl.log
  {
  }

  lemma HKeepsWindow(s: State, w: nat, input: Input)
    requires LockInv(s) && RegInv(s) && WindowInv(s) && HEnabled(s, w)
    ensures WindowInv(HStep(s, w, input))
  {
    var pc := s.hs[w].pc;
    if pc.DFind? {
      FindKeepsWindow(s, w, pc.i);
    } else if pc.DShift? {
      if pc.j + 1 < s.ar.count { ShiftKeepsWindow(s, w, pc.i, pc.j); } else { LeaveKeepsWindow(s, w, pc.i, pc.j); }
    } else {
      HQuiet(s, w, input);
      HandlerFrame(s, w, input);
      HLog(s, w, input);
      QuietWindow(s, HStep(s, w, input));
    }
  }

  lemma KeepsWindow(s: State, x: Action)
    requires LockInv(s) && RegInv(s) && WindowInv(s) && Enabled(s, x)
    ensures WindowInv(Next(s, x))
  {
    match x {
      case B => BKeepsWindow(s);
      case A(fd) => AKeepsWindow(s, fd);
      case H(h, input) => HKeepsWindow(s, h, input);
      case BSpurious => QuietWindow(s, Next(s, x));
      case HSpurious(h) => QuietWindow(s, Next(s, x));
    }
  }

  /** Whatever a connection has received is one contiguous window of the log. */
  lemma DeliveredIsWindow(s: State, c: nat) returns (to: nat)
    requires RegInv(s) && WindowInv(s) && c < |s.ar.conns|
    ensures to <= |s.fl.log|
    ensures s.ar.conns[c].delivered == [] ||
        (s.ar.conns[c].join <= to && s.ar.conns[c].delivered == s.fl.log[s.ar.conns[c].join..to])
  {
    assert MemberOk(s, c) && OutsideWindow(s, c);
    if c in s.ar.reg {
      var k: nat :| k < |s.ar.reg| && s.ar.reg[k] == c;
      assert MemberWindow(s, k);
      to := Upto(s, k);
    } else if c < |s.hs| {
      to := s.ar.conns[c].leave;
    } else {
      to := 0;
    }
  }

  // ---------------------------------------------------------------- nothing is lost or reordered

  /** The message the broadcaster has taken off the queue but not yet begun to send. */
  function Inflight(b: BPc): seq<Msg> { if b.BUnlock? || b.BClients? then [b.msg] else [] }

  /** The message a handler has read but not yet linked into the queue. */
  function Unqueued(pc: HPc): seq<Msg> {
    if pc.Queueing? && (pc.st == QLock || pc.st == QPush) && pc.msg.Chat? then [pc.msg] else []
  }

  /** The chat messages of sender `h` in `ms`, in order. */
  function From(ms: seq<Msg>, h: nat): seq<Msg> {
    if ms == [] then []
    else
      var m := ms[|ms| - 1];
      From(ms[..|ms| - 1], h) + (if m.Chat? && m.sender == h then [m] else [])
  }

  lemma FromAppend(ms: seq<Msg>, m: Msg, h: nat)
    ensures From(ms + [m], h) == From(ms, h) + (if m.Chat? && m.sender == h then [m] else [])
  {
    assert (ms + [m])[..|ms|] == ms;
  }

  lemma {:induction false} FromConcat(a: seq<Msg>, b: seq<Msg>, h: nat)
    ensures From(a + b, h) == From(a, h) + From(b, h)
  {
    if b == [] {
      assert a + b == a;
    } else {
      assert (a + b)[..|a + b| - 1] == a + b[..|b| - 1];
      FromConcat(a, b[..|b| - 1], h);
    }
  }

  lemma {:induction false} FromNobody(ms: seq<Msg>, h: nat)
    requires forall k :: 0 <= k < |ms| && ms[k].Chat? ==> ms[k].sender != h
    ensures From(ms, h) == []
  {
    if ms != [] { FromNobody(ms[..|ms| - 1], h); }
  }

  predicate SenderOk(s: State, h: nat)
    requires h < |s.hs|
  {
    var pc := s.hs[h].pc;
    && From(s.fl.queued, h) + Unqueued(pc) == s.hs[h].sent
    && (pc.Queueing? && pc.msg.Chat? ==> pc.msg.sender == h && pc.ret == ToRecv)
    && (pc.Queueing? && pc.msg == Terminate ==> pc.ret != ToRecv)
  }

  predicate FlowInv(s: State) {
    && s.fl.queued == s.fl.log + Inflight(s.b) + s.fl.queue
    && (forall k :: 0 <= k < |s.fl.queued| && s.fl.queued[k].Chat? ==> s.fl.queued[k].sender < |s.hs|)
    && (forall h: nat :: h < |s.hs| ==> SenderOk(s, h))
  }

  lemma BFlow(s: State)
    requires BEnabled(s) && FlowInv(s)
    ensures var t := BStep(s); t.fl.queued == s.fl.queued && t.fl.queued == t.fl.log + Inflight(t.b) + t.fl.queue
  {
    if s.b.BCheck? && s.fl.queue != [] {
      assert s.fl.queue == [s.fl.queue[0]] + s.fl.queue[1..];
    }
  }

  lemma BKeepsFlow(s: State)
    requires LockInv(s) && FlowInv(s) && BEnabled(s)
    ensures FlowInv(BStep(s))
  {
    var t := BStep(s);
    BFrame(s);
    BFlow(s);
    forall h: nat | h < |t.hs| ensures SenderOk(t, h) { assert SenderOk(s, h); }
  }

  lemma AFlow(s: State, fd: nat)
    requires AEnabled(s, fd)
    ensures AStep(s, fd).fl == s.fl
  {
  }

  lemma AKeepsFlow(s: State, fd: nat)
    requires FlowInv(s) && AEnabled(s, fd)
    ensures FlowInv(AStep(s, fd))
  {
    var t := AStep(s, fd);
    AFrame(s, fd);
    AFlow(s, fd);
    forall h: nat | h < |t.hs|
      ensures SenderOk(t, h)
    {
      if h < |s.hs| { assert SenderOk(s, h); } else { FromNobody(s.fl.queued, h); }
    }
  }

  lemma PushKeepsFlow(s: State, w: nat)
    requires RegInv(s) && FlowInv(s) && w < |s.hs| && s.hs[w].pc.Queueing? && s.hs[w].pc.st == QPush
    ensures FlowInv(QueueStep(s, w, s.hs[w].pc.msg, QPush, s.hs[w].pc.ret))
  {
    var m := s.hs[w].pc.msg;
    var t := QueueStep(s, w, m, QPush, s.hs[w].pc.ret);
    assert SenderOk(s, w);
    assert t.fl.queued == s.fl.log + Inflight(s.b) + (s.fl.queue + [m]);
    forall h: nat | h < |t.hs|
      ensures SenderOk(t, h)
    {
      assert SenderOk(s, h);
      FromAppend(s.fl.queued, m, h);
    }
  }

  lemma HFlow(s: State, w: nat, input: Input)
    requires HEnabled(s, w) && !(s.hs[w].pc.Queueing? && s.hs[w].pc.st == QPush)
    ensures var t := HStep(s, w, input);
            t.fl.queued == s.fl.queued && t.fl.queue == s.fl.queue && t.fl.log == s.fl.log &&
              Inflight(t.b) == Inflight(s.b)
  {
  }

  lemma OwnFlow(s: State, w: nat, input: Input)
    requires HEnabled(s, w) && SenderOk(s, w) && !(s.hs[w].pc.Queueing? && s.hs[w].pc.st == QPush)
    requires s.hs[w].client.conn == w
    ensures w < |HStep(s, w, input).hs| && SenderOk(HStep(s, w, input), w)
  {
    HFlow(s, w, input);
    if s.hs[w].pc.Queueing? { OwnQueueFlow(s, w, input); } else { OwnOtherFlow(s, w, input); }
  }

  lemma OwnQueueFlow(s: State, w: nat, input: Input)
    requires HEnabled(s, w) && SenderOk(s, w) && s.hs[w].pc.Queueing? && s.hs[w].pc.st != QPush
    ensures w < |HStep(s, w, input).hs| && SenderOk(HStep(s, w, input), w)
  {
  }

  lemma OwnOtherFlow(s: State, w: nat, input: Input)
    requires HEnabled(s, w) && SenderOk(s, w) && !s.hs[w].pc.Queueing? && s.hs[w].client.conn == w
    requires HStep(s, w, input).fl.queued == s.fl.queued
    ensures w < |HStep(s, w, input).hs| && SenderOk(HStep(s, w, input), w)
  {
  }

  lemma HKeepsFlow(s: State, w: nat, input: Input)
    requires RegInv(s) && FlowInv(s) && HEnabled(s, w)
    ensures FlowInv(HStep(s, w, input))
  {
    if s.hs[w].pc.Queueing? && s.hs[w].pc.st == QPush {
      PushKeepsFlow(s, w);
    } else {
      var t := HStep(s, w, input);
      HandlerFrame(s, w, input);
      HFlow(s, w, input);
      assert SenderOk(s, w) && HandlerOk(s, w);
      OwnFlow(s, w, input);
      forall h: nat | h < |t.hs| ensures SenderOk(t, h) { assert SenderOk(s, h); }
    }
  }

  lemma KeepsFlow(s: State, x: Action)
    requires LockInv(s) && RegInv(s) && FlowInv(s) && Enabled(s, x)
    ensures FlowInv(Next(s, x))
  {
    match x {
      case B => BKeepsFlow(s);
      case A(fd) => AKeepsFlow(s, fd);
      case H(h, input) => HKeepsFlow(s, h, input);
      case BSpurious =>
        forall h: nat | h < |s.hs| ensures SenderOk(Next(s, x), h) { assert SenderOk(s, h); }
      case HSpurious(w) =>
        forall h: nat | h < |s.hs| ensures SenderOk(Next(s, x), h) { assert SenderOk(s, h); }
    }
  }
}
