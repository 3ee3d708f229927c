/** The client array of a11 server.c under all interleavings: elementwise shifting, the read
    of the newest entry outside the lock, and descriptors that the system reuses. */
module ChatRegistry {
  import opened ChatModel
  import opened ChatLocks

  predicate IsSlotOf(ar: Registry, sl: Slot, c: nat) { c < |ar.conns| && sl == Slot(ar.conns[c].fd, c) }

  /** The handler has taken its client out of the array. */
  predicate Gone(pc: HPc) { pc == DUnlock || pc == HDone }

  predicate Registered(s: State, c: nat) {
    if c < |s.hs| then !Gone(s.hs[c].pc)
    else c == |s.hs| && (s.a.AUnlock? || s.a.AReadCount? || s.a.AReadSlot? || s.a.ASpawn?)
  }

  /** The connection's descriptor has not been closed. */
  predicate Open(s: State, c: nat) {
    c < |s.ar.conns| && (c < |s.hs| ==> !Gone(s.hs[c].pc) && !s.hs[c].pc.DShift?)
  }

  /** The entries from `lo` up to `hi` have already moved down by one; `lo == hi` when no
      removal is under way. */
  function Gap(s: State): (nat, nat) {
    if s.lk.clients.Worker? && s.lk.clients.h < |s.hs| && s.hs[s.lk.clients.h].pc.DShift? then
      (s.hs[s.lk.clients.h].pc.i, s.hs[s.lk.clients.h].pc.j)
    else (0, 0)
  }

  function Source(gap: (nat, nat), k: nat): nat { if gap.0 <= k < gap.1 then k + 1 else k }

  predicate SlotOk(ar: Registry, gap: (nat, nat), k: nat) {
    k < |ar.slots| && Source(gap, k) < |ar.reg| && IsSlotOf(ar, ar.slots[k], ar.reg[Source(gap, k)])
  }

  /** The array holds the registered connections in order. */
  predicate ArrayOk(ar: Registry, gap: (nat, nat)) {
    && |ar.slots| == MAX_CLIENTS && ar.count == |ar.reg| <= MAX_CLIENTS
    && forall k: nat :: k < ar.count ==> SlotOk(ar, gap, k)
  }

  predicate RegOk(ar: Registry) {
    && (forall x, y :: 0 <= x < y < |ar.reg| ==> ar.reg[x] != ar.reg[y])
    && (forall x :: 0 <= x < |ar.reg| ==> ar.reg[x] < |ar.conns|)
    && (forall x, y :: 0 <= x < y < |ar.reg| ==> ar.conns[ar.reg[x]].fd != ar.conns[ar.reg[y]].fd)
  }

  predicate FdOk(s: State, c: nat) {
    Open(s, c) ==> s.ar.conns[c].fd in s.ar.fds && s.ar.fds[s.ar.conns[c].fd] == c
  }

  /** What the accept loop knows about the connection it is handling, number `|s.hs|`. */
  predicate PendingOk(s: State) {
    match s.a
    case AAccept => |s.ar.conns| == |s.hs|
    case ALock(sl) => |s.ar.conns| == |s.hs| + 1 && IsSlotOf(s.ar, sl, |s.hs|) && s.ar.count < MAX_CLIENTS
    case AWrite(sl) => |s.ar.conns| == |s.hs| + 1 && IsSlotOf(s.ar, sl, |s.hs|) && s.ar.count < MAX_CLIENTS
    case AIncr(sl) =>
      && |s.ar.conns| == |s.hs| + 1 && IsSlotOf(s.ar, sl, |s.hs|)
      && s.ar.count < |s.ar.slots| && s.ar.slots[s.ar.count] == sl && s.ar.count < MAX_CLIENTS
    case AUnlock => |s.ar.conns| == |s.hs| + 1 && NewestOk(s)
    case AReadCount => |s.ar.conns| == |s.hs| + 1 && NewestOk(s)
    case AReadSlot(v) => |s.ar.conns| == |s.hs| + 1 && NewestOk(s) && s.ar.count <= v <= s.ar.top + 1
    case ASpawn(info) => |s.ar.conns| == |s.hs| + 1 && IsSlotOf(s.ar, info, |s.hs|)
  }

  /** Every slot from the last counted one up to the place where it was written holds the
      newest connection: removals only copy it further down. */
  predicate NewestOk(s: State) {
    && s.ar.reg != [] && s.ar.reg[|s.ar.reg| - 1] == |s.hs|
    && |s.ar.reg| - 1 <= s.ar.top < MAX_CLIENTS && |s.ar.slots| == MAX_CLIENTS
    && forall k: nat :: |s.ar.reg| - 1 <= k <= s.ar.top ==> IsSlotOf(s.ar, s.ar.slots[k], |s.hs|)
  }

  predicate HandlerOk(s: State, h: nat)
    requires h < |s.hs|
  {
    && IsSlotOf(s.ar, s.hs[h].client, h)
    && match s.hs[h].pc
       case DFind(i) => i <= s.ar.count && i <= |s.ar.reg| && forall k :: 0 <= k < i ==> s.ar.reg[k] != h
       case DShift(i, j) => i <= j < s.ar.count && i < |s.ar.reg| && s.ar.reg[i] == h
       case _ => true
  }

  predicate MemberOk(s: State, c: nat) { c in s.ar.reg <==> Registered(s, c) }

  predicate RegInv(s: State) {
    && ArrayOk(s.ar, Gap(s)) && RegOk(s.ar) && PendingOk(s)
    && (forall h: nat :: h < |s.hs| ==> HandlerOk(s, h))
    && (forall c: nat :: c < |s.ar.conns| ==> MemberOk(s, c))
    && (forall c: nat :: c < |s.ar.conns| ==> FdOk(s, c))
  }

  // ---------------------------------------------------------------- steps that leave the array alone

  /** Same array, same descriptors; only delivery and join/leave records may differ. */
  predicate SameArray(x: Registry, y: Registry) {
    && y.slots == x.slots && y.count == x.count && y.fds == x.fds && y.reg == x.reg && y.top == x.top
    && |y.conns| == |x.conns| && forall c :: 0 <= c < |x.conns| ==> y.conns[c].fd == x.conns[c].fd
  }

  /** A program counter move that does not matter to the array. */
  predicate SamePlace(x: HPc, y: HPc) {
    && (Gone(x) <==> Gone(y)) && (x.DShift? || y.DShift? ==> x == y) && (y.DFind? ==> y == x || y.i == 0)
  }

  predicate SameHandlers(s: State, t: State) {
    && |t.hs| == |s.hs|
    && forall h: nat :: h < |s.hs| ==> t.hs[h].client == s.hs[h].client && SamePlace(s.hs[h].pc, t.hs[h].pc)
  }

  lemma QuietStep(s: State, t: State)
    requires RegInv(s) && SameArray(s.ar, t.ar) && SameHandlers(s, t) && Gap(t) == Gap(s)
    requires t.a == s.a
    ensures RegInv(t)
  {
    forall k: nat | k < t.ar.count ensures SlotOk(t.ar, Gap(t), k) { assert SlotOk(s.ar, Gap(s), k); }
    forall h: nat | h < |t.hs| ensures HandlerOk(t, h) { assert HandlerOk(s, h); }
    forall c: nat | c < |t.ar.conns| ensures MemberOk(t, c) { assert MemberOk(s, c); }
    forall c: nat | c < |t.ar.conns| ensures FdOk(t, c) { assert FdOk(s, c); }
  }

  lemma DeliverKeepsFds(conns: seq<Conn>, fds: map<nat, nat>, fd: nat, m: Msg)
    ensures |Deliver(conns, fds, fd, m)| == |conns|
    ensures forall c :: 0 <= c < |conns| ==> Deliver(conns, fds, fd, m)[c].fd == conns[c].fd
  {
  }

  lemma BGap(s: State)
    requires LockInv(s) && BEnabled(s)
    ensures Gap(BStep(s)) == Gap(s) && SameHandlers(s, BStep(s)) && SameArray(s.ar, BStep(s).ar)
  {
    BFrame(s);
    if s.b.BSend? && s.b.i < |s.ar.slots| { DeliverKeepsFds(s.ar.conns, s.ar.fds, s.ar.slots[s.b.i].fd, s.b.msg); }
  }

  lemma BKeepsReg(s: State)
    requires LockInv(s) && RegInv(s) && BEnabled(s)
    ensures RegInv(BStep(s))
  {
    BFrame(s);
    BGap(s);
    QuietStep(s, BStep(s));
  }

  // ---------------------------------------------------------------- the accept loop

  /** While another thread holds the client mutex, no handler is in the middle of a removal. */
  lemma NoRemoval(s: State)
    requires LockInv(s) && !s.lk.clients.Worker?
    ensures Gap(s) == (0, 0)
    ensures forall h: nat :: h < |s.hs| ==> !s.hs[h].pc.DFind? && !s.hs[h].pc.DShift?
  {
    forall h: nat | h < |s.hs|
      ensures !s.hs[h].pc.DFind? && !s.hs[h].pc.DShift?
    {
      assert HandlerLocks(s, h);
    }
  }

  lemma AcceptKeepsReg(s: State, fd: nat)
    requires LockInv(s) && RegInv(s) && AEnabled(s, fd) && s.a.AAccept?
    ensures RegInv(AStep(s, fd))
  {
    var t := AStep(s, fd);
    assert Gap(t) == Gap(s);
    forall k: nat | k < t.ar.count ensures SlotOk(t.ar, Gap(t), k) { assert SlotOk(s.ar, Gap(s), k); }
    forall h: nat | h < |t.hs| ensures HandlerOk(t, h) { assert HandlerOk(s, h); }
    forall c: nat | c < |t.ar.conns| ensures MemberOk(t, c) { if c < |s.ar.conns| { assert MemberOk(s, c); } }
    forall c: nat | c < |t.ar.conns| ensures FdOk(t, c) { if c < |s.ar.conns| { assert FdOk(s, c); } }
  }

  lemma WriteKeepsReg(s: State, fd: nat)
    requires LockInv(s) && RegInv(s) && AEnabled(s, fd) && s.a.AWrite?
    ensures RegInv(AStep(s, fd))
  {
    NoRemoval(s);
    var t := AStep(s, fd);
    assert Gap(t) == Gap(s);
    forall k: nat | k < t.ar.count ensures SlotOk(t.ar, Gap(t), k) { assert SlotOk(s.ar, Gap(s), k); }
    forall h: nat | h < |t.hs| ensures HandlerOk(t, h) { assert HandlerOk(s, h); }
    forall c: nat | c < |t.ar.conns| ensures MemberOk(t, c) { assert MemberOk(s, c); }
    forall c: nat | c < |t.ar.conns| ensures FdOk(t, c) { assert FdOk(s, c); }
  }

  /** The newcomer's descriptor differs from every registered one. */
  lemma NewcomerIsDistinct(s: State, x: nat)
    requires LockInv(s) && RegInv(s) && s.a.AIncr? && x < |s.ar.reg|
    ensures s.ar.reg[x] < |s.hs| && s.ar.conns[s.ar.reg[x]].fd != s.ar.conns[|s.hs|].fd
  {
    NoRemoval(s);
    var c := s.ar.reg[x];
    assert MemberOk(s, c);
    assert FdOk(s, c);
    assert FdOk(s, |s.hs|);
  }

  lemma IncrKeepsReg(s: State, fd: nat)
    requires LockInv(s) && RegInv(s) && AEnabled(s, fd) && s.a.AIncr?
    ensures RegInv(AStep(s, fd))
  {
    NoRemoval(s);
    var t, n := AStep(s, fd), |s.hs|;
    assert Gap(t) == (0, 0);
    assert t.ar.reg == s.ar.reg + [n];
    forall x | 0 <= x < |s.ar.reg|
      ensures s.ar.reg[x] < n && s.ar.conns[s.ar.reg[x]].fd != s.ar.conns[n].fd
    {
      NewcomerIsDistinct(s, x);
    }
    forall k: nat | k < t.ar.count
      ensures SlotOk(t.ar, Gap(t), k)
    {
      if k < s.ar.count { assert SlotOk(s.ar, Gap(s), k); }
    }
    forall h: nat | h < |t.hs| ensures HandlerOk(t, h) { assert HandlerOk(s, h); }
    forall c: nat | c < |t.ar.conns| ensures MemberOk(t, c) { assert MemberOk(s, c); }
    forall c: nat | c < |t.ar.conns| ensures FdOk(t, c) { assert FdOk(s, c); }
  }

  lemma SpawnKeepsReg(s: State, fd: nat)
    requires LockInv(s) && RegInv(s) && AEnabled(s, fd) && s.a.ASpawn?
    ensures RegInv(AStep(s, fd))
  {
    var t := AStep(s, fd);
    assert Gap(t) == Gap(s) by { if s.lk.clients.Worker? { assert t.hs[s.lk.clients.h] == s.hs[s.lk.clients.h]; } }
    forall k: nat | k < t.ar.count ensures SlotOk(t.ar, Gap(t), k) { assert SlotOk(s.ar, Gap(s), k); }
    forall h: nat | h < |t.hs| ensures HandlerOk(t, h) { if h < |s.hs| { assert HandlerOk(s, h); } }
    forall c: nat | c < |t.ar.conns| ensures MemberOk(t, c) { assert MemberOk(s, c); }
    forall c: nat | c < |t.ar.conns| ensures FdOk(t, c) { assert FdOk(s, c); }
  }

  /** Locking, unlocking and the two reads outside the lock. The second read finds the
      newest connection whatever removals happened since the first. */
  lemma ReadKeepsReg(s: State, fd: nat)
    requires LockInv(s) && RegInv(s) && AEnabled(s, fd)
    requires s.a.ALock? || s.a.AUnlock? || s.a.AReadCount? || s.a.AReadSlot?
    ensures RegInv(AStep(s, fd))
  {
    var t := AStep(s, fd);
    assert Gap(t) == Gap(s) by { if !s.a.AReadCount? && !s.a.AReadSlot? { NoRemoval(s); } }
    forall k: nat | k < t.ar.count ensures SlotOk(t.ar, Gap(t), k) { assert SlotOk(s.ar, Gap(s), k); }
    forall h: nat | h < |t.hs| ensures HandlerOk(t, h) { assert HandlerOk(s, h); }
    forall c: nat | c < |t.ar.conns| ensures MemberOk(t, c) { assert MemberOk(s, c); }
    forall c: nat | c < |t.ar.conns| ensures FdOk(t, c) { assert FdOk(s, c); }
    if s.a.AReadSlot? {
      var k: nat := s.a.seen - 1;
      assert IsSlotOf(s.ar, s.ar.slots[k], |s.hs|);
    }
  }

  lemma AKeepsReg(s: State, fd: nat)
    requires LockInv(s) && RegInv(s) && AEnabled(s, fd)
    ensures RegInv(AStep(s, fd))
  {
    match s.a {
      case AAccept => AcceptKeepsReg(s, fd);
      case AWrite(_) => WriteKeepsReg(s, fd);
      case AIncr(_) => IncrKeepsReg(s, fd);
      case ASpawn(_) => SpawnKeepsReg(s, fd);
      case _ => ReadKeepsReg(s, fd);
    }
  }

  // ---------------------------------------------------------------- handlers

  predicate Removing(pc: HPc) { pc.DFind? || pc.DShift? }

  lemma QuietPlace(s: State, w: nat, input: Input)
    requires HEnabled(s, w) && !Removing(s.hs[w].pc)
    ensures HStep(s, w, input).ar == s.ar && w < |HStep(s, w, input).hs|
    ensures SamePlace(s.hs[w].pc, HStep(s, w, input).hs[w].pc)
  {
  }

  lemma HQuiet(s: State, w: nat, input: Input)
    requires LockInv(s) && HEnabled(s, w) && !Removing(s.hs[w].pc)
    ensures SameHandlers(s, HStep(s, w, input)) && HStep(s, w, input).ar == s.ar
    ensures Gap(HStep(s, w, input)) == Gap(s)
  {
    assert HandlerLocks(s, w);
    HandlerFrame(s, w, input);
    HandlerPasses(s, w, input);
    QuietPlace(s, w, input);
  }

  /** A handler that holds the client mutex sees a settled array. */
  lemma FindIsSettled(s: State, w: nat, i: nat)
    requires LockInv(s) && RegInv(s) && w < |s.hs| && s.hs[w].pc == DFind(i)
    ensures s.lk.clients == Worker(w) && Gap(s) == (0, 0) && w in s.ar.reg
    ensures i < s.ar.count && i < |s.ar.slots| && IsSlotOf(s.ar, s.ar.slots[i], s.ar.reg[i])
    ensures s.ar.slots[i].fd == s.hs[w].client.fd <==> s.ar.reg[i] == w
  {
    assert HandlerLocks(s, w) && HandlerOk(s, w) && MemberOk(s, w);
    var y :| 0 <= y < |s.ar.reg| && s.ar.reg[y] == w;
    assert SlotOk(s.ar, Gap(s), i);
  }

  /** The descriptor is closed: no other connection was using it. */
  lemma FoundFds(s: State, w: nat, i: nat)
    requires LockInv(s) && RegInv(s) && w < |s.hs| && s.hs[w].pc == DFind(i) && i < |s.ar.reg| && s.ar.reg[i] == w
    ensures forall c: nat :: c < |s.ar.conns| ==> FdOk(FindStep(s, w, i), c)
  {
    FindIsSettled(s, w, i);
    assert HandlerOk(s, w) && FdOk(s, w);
    var t := FindStep(s, w, i);
    forall c: nat | c < |s.ar.conns| ensures FdOk(t, c) { assert FdOk(s, c); }
  }

  lemma FoundArray(s: State, w: nat, i: nat)
    requires w < |s.hs| && s.hs[w].pc == DFind(i) && s.lk.clients == Worker(w) && Gap(s) == (0, 0)
    requires ArrayOk(s.ar, Gap(s)) && i < s.ar.count && i < |s.ar.slots| && s.ar.slots[i].fd == s.hs[w].client.fd
    ensures ArrayOk(FindStep(s, w, i).ar, Gap(FindStep(s, w, i)))
  {
    var t := FindStep(s, w, i);
    assert Gap(t) == (i, i);
    forall k: nat | k < t.ar.count ensures SlotOk(t.ar, Gap(t), k) { assert SlotOk(s.ar, Gap(s), k); }
  }

  lemma FoundHandlers(s: State, w: nat, i: nat)
    requires LockInv(s) && RegInv(s) && w < |s.hs| && s.hs[w].pc == DFind(i) && i < |s.ar.reg| && s.ar.reg[i] == w
    ensures forall h: nat :: h < |s.hs| ==> h < |FindStep(s, w, i).hs| && HandlerOk(FindStep(s, w, i), h)
    ensures forall c: nat :: c < |s.ar.conns| ==> MemberOk(FindStep(s, w, i), c)
  {
    FindIsSettled(s, w, i);
    var t := FindStep(s, w, i);
    forall h: nat | h < |t.hs| ensures HandlerOk(t, h) { assert HandlerOk(s, h); }
    forall c: nat | c < |t.ar.conns| ensures MemberOk(t, c) { assert MemberOk(s, c); }
  }

  lemma FoundKeepsReg(s: State, w: nat, i: nat)
    requires LockInv(s) && RegInv(s) && w < |s.hs| && s.hs[w].pc == DFind(i) && i < |s.ar.reg| && s.ar.reg[i] == w
    ensures RegInv(FindStep(s, w, i))
  {
    FindIsSettled(s, w, i);
    FoundArray(s, w, i);
    FoundHandlers(s, w, i);
    FoundFds(s, w, i);
    var t := FindStep(s, w, i);
    assert t.ar == s.ar.(fds := t.ar.fds) && t.hs == s.hs[w := s.hs[w].(pc := DShift(i, i))];
  }

  lemma NotFoundKeepsReg(s: State, w: nat, i: nat)
    requires LockInv(s) && RegInv(s) && w < |s.hs| && s.hs[w].pc == DFind(i) && i < |s.ar.reg| && s.ar.reg[i] != w
    ensures RegInv(FindStep(s, w, i))
  {
    FindIsSettled(s, w, i);
    assert HandlerOk(s, w);
    var t := FindStep(s, w, i);
    assert t.ar == s.ar && t.hs == s.hs[w := s.hs[w].(pc := DFind(i + 1))];
    assert Gap(t) == (0, 0);
    forall k: nat | k < t.ar.count ensures SlotOk(t.ar, Gap(t), k) { assert SlotOk(s.ar, Gap(s), k); }
    forall h: nat | h < |t.hs| ensures HandlerOk(t, h) { assert HandlerOk(s, h); }
    forall c: nat | c < |t.ar.conns| ensures MemberOk(t, c) { assert MemberOk(s, c); }
    forall c: nat | c < |t.ar.conns| ensures FdOk(t, c) { assert FdOk(s, c); }
  }

  lemma ShiftOneKeepsReg(s: State, w: nat, i: nat, j: nat)
    requires LockInv(s) && RegInv(s) && w < |s.hs| && s.hs[w].pc == DShift(i, j) && j + 1 < s.ar.count
    ensures RegInv(ShiftStep(s, w, i, j))
  {
    assert HandlerLocks(s, w) && HandlerOk(s, w);
    var t := ShiftStep(s, w, i, j);
    assert j + 1 < |s.ar.slots|;
    assert t.ar == s.ar.(slots := s.ar.slots[j := s.ar.slots[j + 1]]) &&
        t.hs == s.hs[w := s.hs[w].(pc := DShift(i, j + 1))];
    ShiftOneSlots(s, w, i, j);
    forall h: nat | h < |t.hs| ensures HandlerOk(t, h) { assert HandlerOk(s, h) && HandlerLocks(s, h); }
    forall c: nat | c < |t.ar.conns| ensures MemberOk(t, c) { assert MemberOk(s, c); }
    forall c: nat | c < |t.ar.conns| ensures FdOk(t, c) { assert FdOk(s, c); }
  }

  lemma ShiftOneSlots(s: State, w: nat, i: nat, j: nat)
    requires w < |s.hs| && HandlerLocks(s, w) && ArrayOk(s.ar, Gap(s)) && s.hs[w].pc == DShift(i, j) && i <= j &&
        j + 1 < s.ar.count
    ensures ArrayOk(ShiftStep(s, w, i, j).ar, Gap(ShiftStep(s, w, i, j)))
  {
    var t := ShiftStep(s, w, i, j);
    var gap := Gap(t);
    assert Gap(s) == (i, j) && gap == (i, j + 1);
    forall k: nat | k < t.ar.count
      ensures SlotOk(t.ar, gap, k)
    {
      assert SlotOk(s.ar, (i, j), k);
      assert SlotOk(s.ar, (i, j), j + 1);
    }
  }

  lemma RemoveAtRegOk(ar: Registry, i: nat)
    requires RegOk(ar) && i < |ar.reg|
    ensures var r := RemoveAt(ar.reg, i);
            && |r| == |ar.reg| - 1 && (forall k :: 0 <= k < |r| ==> r[k] == ar.reg[if k < i then k else k + 1])
            && (forall c :: c in r <==> c in ar.reg && c != ar.reg[i])
  {
    var r := RemoveAt(ar.reg, i);
    forall c
      ensures c in r <==> c in ar.reg && c != ar.reg[i]
    {
      if c in ar.reg && c != ar.reg[i] {
        var x :| 0 <= x < |ar.reg| && ar.reg[x] == c;
        assert r[if x < i then x else x - 1] == c;
      }
    }
  }

  lemma LeaveArrayOk(s: State, w: nat, i: nat, j: nat)
    requires LockInv(s) && RegInv(s) && w < |s.hs| && s.hs[w].pc == DShift(i, j) && j + 1 >= s.ar.count
    ensures ArrayOk(ShiftStep(s, w, i, j).ar, (0, 0)) && RegOk(ShiftStep(s, w, i, j).ar)
    ensures Gap(ShiftStep(s, w, i, j)) == (0, 0) && Gap(s) == (i, j) && j + 1 == s.ar.count
  {
    assert HandlerLocks(s, w) && HandlerOk(s, w);
    var t := ShiftStep(s, w, i, j);
    RemoveAtRegOk(s.ar, i);
    forall k: nat | k < t.ar.count
      ensures SlotOk(t.ar, (0, 0), k)
    {
      assert SlotOk(s.ar, Gap(s), k);
    }
  }

  /** A removal leaves the newest connection where the accept loop may look for it. */
  lemma LeaveNewest(s: State, w: nat, i: nat, j: nat)
    requires w < |s.hs| && s.hs[w].pc == DShift(i, j) && j + 1 == s.ar.count && Gap(s) == (i, j)
    requires ArrayOk(s.ar, Gap(s)) && RegOk(s.ar) && NewestOk(s) && HandlerOk(s, w)
    ensures NewestOk(ShiftStep(s, w, i, j))
  {
    var t := ShiftStep(s, w, i, j);
    RemoveAtRegOk(s.ar, i);
    var last: nat := |s.ar.reg| - 1;
    assert i < last;
    assert SlotOk(s.ar, Gap(s), last - 1);
  }

  lemma LeavePending(s: State, w: nat, i: nat, j: nat)
    requires LockInv(s) && RegInv(s) && w < |s.hs| && s.hs[w].pc == DShift(i, j) && j + 1 >= s.ar.count
    ensures PendingOk(ShiftStep(s, w, i, j))
  {
    assert HandlerLocks(s, w) && HandlerOk(s, w);
    LeaveArrayOk(s, w, i, j);
    if NewestOk(s) { LeaveNewest(s, w, i, j); }
    var t := ShiftStep(s, w, i, j);
    assert t.a == s.a && |t.hs| == |s.hs| && |t.ar.conns| == |s.ar.conns| && t.ar.count + 1 == s.ar.count &&
        t.ar.top == s.ar.top;
  }

  lemma LeaveMembers(s: State, w: nat, i: nat, j: nat)
    requires LockInv(s) && RegInv(s) && w < |s.hs| && s.hs[w].pc == DShift(i, j) && j + 1 >= s.ar.count
    ensures var t := ShiftStep(s, w, i, j);
            && (forall c: nat :: c < |t.ar.conns| ==> MemberOk(t, c))
            && (forall c: nat :: c < |t.ar.conns| ==> FdOk(t, c))
  {
    assert HandlerOk(s, w);
    var t := ShiftStep(s, w, i, j);
    RemoveAtRegOk(s.ar, i);
    assert t.ar == Leave(s.ar, w, i, |s.fl.log|) && t.hs == s.hs[w := s.hs[w].(pc := DUnlock)];
    forall c: nat | c < |t.ar.conns| ensures MemberOk(t, c) { assert MemberOk(s, c); }
    forall c: nat | c < |t.ar.conns| ensures FdOk(t, c) { assert FdOk(s, c); }
  }

  lemma LeaveKeepsReg(s: State, w: nat, i: nat, j: nat)
    requires LockInv(s) && RegInv(s) && w < |s.hs| && s.hs[w].pc == DShift(i, j) && j + 1 >= s.ar.count
    ensures RegInv(ShiftStep(s, w, i, j))
  {
    assert HandlerLocks(s, w) && HandlerOk(s, w);
    var t := ShiftStep(s, w, i, j);
    assert t.ar == Leave(s.ar, w, i, |s.fl.log|) && t.hs == s.hs[w := s.hs[w].(pc := DUnlock)];
    LeaveArrayOk(s, w, i, j);
    LeavePending(s, w, i, j);
    LeaveMembers(s, w, i, j);
    forall h: nat | h < |t.hs|
      ensures HandlerOk(t, h)
    {
      assert HandlerOk(s, h) && HandlerLocks(s, h);
    }
  }

  lemma HKeepsReg(s: State, w: nat, input: Input)
    requires LockInv(s) && RegInv(s) && HEnabled(s, w)
    ensures RegInv(HStep(s, w, input))
  {
    var pc := s.hs[w].pc;
    if pc.DFind? {
      FindIsSettled(s, w, pc.i);
      if s.ar.reg[pc.i] == w { FoundKeepsReg(s, w, pc.i); } else { NotFoundKeepsReg(s, w, pc.i); }
    } else if pc.DShift? {
      if pc.j + 1 < s.ar.count { ShiftOneKeepsReg(s, w, pc.i, pc.j); } else { LeaveKeepsReg(s, w, pc.i, pc.j); }
    } else {
      HQuiet(s, w, input);
      HandlerFrame(s, w, input);
      QuietStep(s, HStep(s, w, input));
    }
  }

  lemma KeepsReg(s: State, x: Action)
    requires LockInv(s) && RegInv(s) && Enabled(s, x)
    ensures RegInv(Next(s, x))
  {
    match x {
      case B => BKeepsReg(s);
      case A(fd) => AKeepsReg(s, fd);
      case H(h, input) => HKeepsReg(s, h, input);
      case BSpurious => QuietStep(s, Next(s, x));
      case HSpurious(h) => QuietStep(s, Next(s, x));
    }
  }
}
