/** The group-chat server of a11 server.c as a labelled transition system. One step is one
    lock or unlock, one wait, signal or broadcast on a condition variable, one `recv` or
    `send`, or one access to memory that another thread may touch. `reg`, `log`, `queued`,
    `top` and the connection records only record history; no step's choice reads them. */
module ChatModel {
  import Bytes

  const MAX_CLIENTS: nat := 100

  datatype Msg = Chat(sender: nat, text: seq<Bytes.Byte>) | Terminate

  /** An entry of the client array: the descriptor and the address, which stands for the
      connection it belongs to. */
  datatype Slot = Slot(fd: nat, conn: nat)

  /** An accepted connection. `join` and `leave` are the lengths of the broadcast log when it
      entered and left the client array. */
  datatype Conn = Conn(fd: nat, delivered: seq<Msg>, join: nat, leave: nat)

  datatype Owner = Nobody | Acceptor | Broadcaster | Worker(h: nat)

  /** The broadcaster: server.c, lines 44 to 84. */
  datatype BPc =
    | BLock | BCheck | BWait | BUnlock(msg: Msg) | BClients(msg: Msg) | BSend(msg: Msg, i: nat)
    | BTerm | BTSet | BTCast | BTUnlock | BDone

  /** The accept loop: server.c, lines 274 to 309. */
  datatype APc =
    | AAccept | ALock(slot: Slot) | AWrite(slot: Slot) | AIncr(slot: Slot) | AUnlock
    | AReadCount | AReadSlot(seen: nat) | ASpawn(info: Slot)

  datatype QStep = QLock | QPush | QSignal | QUnlock

  /** Where `queue_message` was called from. */
  datatype Ret = ToRecv | ToTUnlock | ToFind

  /** A client handler: server.c, lines 107 to 225, with `queue_message` (lines 86 to 105) inlined. */
  datatype HPc =
    | HRecv | HBody | Queueing(msg: Msg, st: QStep, ret: Ret)
    | TLock | TCount | TUnlock | WLock | WCheck | WWait | WUnlock
    | DLock | DCount | DFind(i: nat) | DShift(i: nat, j: nat) | DUnlock | HDone

  /** `sent` is the history of chat messages received from the client. */
  datatype Handler = Handler(client: Slot, pc: HPc, sentTerm: bool, sent: seq<Msg>)

  /** What a `recv` yields: a type byte, a whole content, or an end or error. */
  datatype Input = GotChat | GotTerminate | GotOther | GotBody(text: seq<Bytes.Byte>) | Closed

  datatype Action = B | BSpurious | A(fd: nat) | H(h: nat, input: Input) | HSpurious(h: nat)

  /** The mutexes and who holds them. */
  datatype Locks = Locks(clients: Owner, queue: Owner, term: Owner)

  /** The client array and the open descriptors; `reg`, `top` and `conns` are history. */
  datatype Registry = Registry(
    slots: seq<Slot>, count: nat, fds: map<nat, nat>, conns: seq<Conn>, reg: seq<nat>, top: nat)

  /** The message queue and the termination protocol; `queued` and `log` are history. */
  datatype Flow = Flow(queue: seq<Msg>, termCount: nat, termSent: bool, queued: seq<Msg>, log: seq<Msg>)

  datatype State = State(expected: int, lk: Locks, ar: Registry, fl: Flow, b: BPc, a: APc, hs: seq<Handler>)

  predicate Initial(s: State) {
    && s.lk == Locks(Nobody, Nobody, Nobody)
    && |s.ar.slots| == MAX_CLIENTS && s.ar.count == 0 && s.ar.fds == map[] && s.ar.conns == [] && s.ar.reg == []
    && s.fl == Flow([], 0, false, [], [])
    && s.b == BLock && s.a == AAccept && s.hs == []
  }

  // ---------------------------------------------------------------- broadcaster

  predicate BEnabled(s: State) {
    match s.b
    case BLock => s.lk.queue == Nobody
    case BClients(_) => s.lk.clients == Nobody
    case BTerm => s.lk.term == Nobody
    case BWait => false
    case BDone => false
    case _ => true
  }

  /** `send` reaches the connection that the descriptor denotes now. */
  function Deliver(conns: seq<Conn>, fds: map<nat, nat>, fd: nat, m: Msg): seq<Conn> {
    if fd in fds && fds[fd] < |conns| then
      var c := conns[fds[fd]];
      conns[fds[fd] := c.(delivered := c.delivered + [m])]
    else conns
  }

  /** `pthread_cond_broadcast` makes every waiter compete for the mutex again. */
  function Wake(hs: seq<Handler>): (r: seq<Handler>)
    ensures |r| == |hs|
    ensures forall h :: 0 <= h < |hs| ==> r[h] == if hs[h].pc == WWait then hs[h].(pc := WLock) else hs[h]
  {
    if hs == [] then [] else [if hs[0].pc == WWait then hs[0].(pc := WLock) else hs[0]] + Wake(hs[1..])
  }

  function BStep(s: State): State
    requires BEnabled(s)
  {
    match s.b
    case BLock => s.(lk := s.lk.(queue := Broadcaster), b := BCheck)
    case BCheck =>
      if s.fl.queue == [] then s.(lk := s.lk.(queue := Nobody), b := BWait)
      else s.(fl := s.fl.(queue := s.fl.queue[1..]), b := BUnlock(s.fl.queue[0]))
    case BUnlock(m) => s.(lk := s.lk.(queue := Nobody), b := BClients(m))
    case BClients(m) => s.(lk := s.lk.(clients := Broadcaster), b := BSend(m, 0), fl := s.fl.(log := s.fl.log + [m]))
    case BSend(m, i) =>
      if i < s.ar.count && i < |s.ar.slots| then
        s.(ar := s.ar.(conns := Deliver(s.ar.conns, s.ar.fds, s.ar.slots[i].fd, m)), b := BSend(m, i + 1))
      else s.(lk := s.lk.(clients := Nobody), b := if m == Terminate then BTerm else BLock)
    case BTerm => s.(lk := s.lk.(term := Broadcaster), b := BTSet)
    case BTSet => s.(fl := s.fl.(termSent := true), b := BTCast)
    case BTCast => s.(hs := Wake(s.hs), b := BTUnlock)
    case BTUnlock => s.(lk := s.lk.(term := Nobody), b := BDone)
    case _ => s
  }

  // ---------------------------------------------------------------- acceptor

  /** `accept` returns a descriptor that is not in use. The array is assumed large enough:
      nobody connects while 100 clients are registered. */
  predicate AEnabled(s: State, fd: nat) {
    match s.a
    case AAccept => fd !in s.ar.fds && s.ar.count < MAX_CLIENTS
    case ALock(_) => s.lk.clients == Nobody
    case _ => true
  }

  /** The client array after the newest connection is counted in. */
  function Enter(ar: Registry, c: nat, now: nat): Registry {
    ar.(count := ar.count + 1, reg := ar.reg + [c], top := ar.count,
        conns := if c < |ar.conns| then ar.conns[c := ar.conns[c].(join := now)] else ar.conns)
  }

  function AStep(s: State, fd: nat): State
    requires AEnabled(s, fd)
  {
    match s.a
    case AAccept =>
      var n := |s.ar.conns|;
      s.(ar := s.ar.(conns := s.ar.conns + [Conn(fd, [], 0, 0)], fds := s.ar.fds[fd := n]), a := ALock(Slot(fd, n)))
    case ALock(sl) => s.(lk := s.lk.(clients := Acceptor), a := AWrite(sl))
    case AWrite(sl) =>
      var slots := if s.ar.count < |s.ar.slots| then s.ar.slots[s.ar.count := sl] else s.ar.slots;
      s.(ar := s.ar.(slots := slots), a := AIncr(sl))
    case AIncr(sl) => s.(ar := Enter(s.ar, sl.conn, |s.fl.log|), a := AUnlock)
    case AUnlock => s.(lk := s.lk.(clients := Nobody), a := AReadCount)
    case AReadCount => s.(a := AReadSlot(s.ar.count))
    case AReadSlot(v) => s.(a := ASpawn(if 1 <= v <= |s.ar.slots| then s.ar.slots[v - 1] else Slot(0, 0)))
    case ASpawn(info) => s.(hs := s.hs + [Handler(info, HRecv, false, [])], a := AAccept)
  }

  // ---------------------------------------------------------------- handlers

  predicate HEnabled(s: State, h: nat) {
    h < |s.hs| &&
    match s.hs[h].pc
    case Queueing(_, QLock, _) => s.lk.queue == Nobody
    case TLock => s.lk.clients == Nobody
    case DLock => s.lk.clients == Nobody
    case WLock => s.lk.term == Nobody
    case WWait => false
    case HDone => false
    case _ => true
  }

  function Goto(s: State, h: nat, pc: HPc): State
    requires h < |s.hs|
  {
    s.(hs := s.hs[h := s.hs[h].(pc := pc)])
  }

  function Return(r: Ret): HPc {
    match r
    case ToRecv => HRecv
    case ToTUnlock => TUnlock
    case ToFind => DFind(0)
  }

  /** Counting a client that stopped; the last expected one queues the terminate message. */
  function Count(s: State, h: nat, ret: Ret): State
    requires h < |s.hs|
  {
    var n := s.fl.termCount + 1;
    Goto(s.(fl := s.fl.(termCount := n)), h, if n == s.expected then Queueing(Terminate, QLock, ret) else Return(ret))
  }

  function QueueStep(s: State, h: nat, m: Msg, st: QStep, ret: Ret): State
    requires h < |s.hs|
  {
    match st
    case QLock => Goto(s.(lk := s.lk.(queue := Worker(h))), h, Queueing(m, QPush, ret))
    case QPush =>
      Goto(s.(fl := s.fl.(queue := s.fl.queue + [m], queued := s.fl.queued + [m])), h, Queueing(m, QSignal, ret))
    case QSignal => Goto(s.(b := if s.b == BWait then BLock else s.b), h, Queueing(m, QUnlock, ret))
    case QUnlock => Goto(s.(lk := s.lk.(queue := Nobody)), h, Return(ret))
  }

  function RecvStep(s: State, h: nat, input: Input): State
    requires h < |s.hs|
  {
    match input
    case GotChat => Goto(s, h, HBody)
    case GotTerminate => s.(hs := s.hs[h := s.hs[h].(pc := TLock, sentTerm := true)])
    case _ => Goto(s, h, DLock)
  }

  function BodyStep(s: State, h: nat, input: Input): State
    requires h < |s.hs|
  {
    if input.GotBody? then
      var me := s.hs[h];
      var m := Chat(me.client.conn, input.text);
      s.(hs := s.hs[h := me.(pc := Queueing(m, QLock, ToRecv), sent := me.sent + [m])])
    else Goto(s, h, DLock)
  }

  function FindStep(s: State, h: nat, i: nat): State
    requires h < |s.hs|
  {
    if i < s.ar.count && i < |s.ar.slots| then
      if s.ar.slots[i].fd == s.hs[h].client.fd then
        Goto(s.(ar := s.ar.(fds := s.ar.fds - {s.ar.slots[i].fd})), h, DShift(i, i))
      else Goto(s, h, DFind(i + 1))
    else Goto(s, h, DUnlock)
  }

  function RemoveAt(reg: seq<nat>, i: nat): seq<nat> { if i < |reg| then reg[..i] + reg[i + 1..] else reg }

  /** The client array after connection `c`, at position `i`, is counted out. */
  function Leave(ar: Registry, c: nat, i: nat, now: nat): Registry {
    ar.(count := if ar.count > 0 then ar.count - 1 else 0, reg := RemoveAt(ar.reg, i),
        conns := if c < |ar.conns| then ar.conns[c := ar.conns[c].(leave := now)] else ar.conns)
  }

  function ShiftStep(s: State, h: nat, i: nat, j: nat): State
    requires h < |s.hs|
  {
    if j + 1 < s.ar.count && j + 1 < |s.ar.slots| then
      Goto(s.(ar := s.ar.(slots := s.ar.slots[j := s.ar.slots[j + 1]])), h, DShift(i, j + 1))
    else
      Goto(s.(ar := Leave(s.ar, s.hs[h].client.conn, i, |s.fl.log|)), h, DUnlock)
  }

  function HStep(s: State, h: nat, input: Input): State
    requires HEnabled(s, h)
  {
    match s.hs[h].pc
    case HRecv => RecvStep(s, h, input)
    case HBody => BodyStep(s, h, input)
    case Queueing(m, st, ret) => QueueStep(s, h, m, st, ret)
    case TLock => Goto(s.(lk := s.lk.(clients := Worker(h))), h, TCount)
    case TCount => Count(s, h, ToTUnlock)
    case TUnlock => Goto(s.(lk := s.lk.(clients := Nobody)), h, WLock)
    case WLock => Goto(s.(lk := s.lk.(term := Worker(h))), h, WCheck)
    case WCheck => if s.fl.termSent then Goto(s, h, WUnlock) else Goto(s.(lk := s.lk.(term := Nobody)), h, WWait)
    case WUnlock => Goto(s.(lk := s.lk.(term := Nobody)), h, DLock)
    case DLock => Goto(s.(lk := s.lk.(clients := Worker(h))), h, if s.hs[h].sentTerm then DFind(0) else DCount)
    case DCount => Count(s, h, ToFind)
    case DFind(i) => FindStep(s, h, i)
    case DShift(i, j) => ShiftStep(s, h, i, j)
    case DUnlock => Goto(s.(lk := s.lk.(clients := Nobody)), h, HDone)
    case _ => s
  }

  // ---------------------------------------------------------------- runs

  predicate Enabled(s: State, x: Action) {
    match x
    case B => BEnabled(s)
    case BSpurious => s.b == BWait
    case A(fd) => AEnabled(s, fd)
    case H(h, _) => HEnabled(s, h)
    case HSpurious(h) => h < |s.hs| && s.hs[h].pc == WWait
  }

  function Next(s: State, x: Action): State
    requires Enabled(s, x)
  {
    match x
    case B => BStep(s)
    case BSpurious => s.(b := BLock)
    case A(fd) => AStep(s, fd)
    case H(h, input) => HStep(s, h, input)
    case HSpurious(h) => Goto(s, h, WLock)
  }

  /** `xs` leads from `s` to `t`. */
  predicate Leads(s: State, xs: seq<Action>, t: State)
    decreases |xs|
  {
    if xs == [] then s == t else Enabled(s, xs[0]) && Leads(Next(s, xs[0]), xs[1..], t)
  }

  ghost predicate Reachable(s: State) {
    exists s0, xs :: Initial(s0) && Leads(s0, xs, s)
  }

  lemma {:induction false} LeadsAppend(s: State, xs: seq<Action>, t: State, x: Action)
    requires Leads(s, xs, t) && Enabled(t, x)
    ensures Leads(s, xs + [x], Next(t, x))
    decreases |xs|
  {
    if xs == [] {
      assert xs + [x] == [x];
      assert [x][1..] == [];
    } else {
      assert (xs + [x])[1..] == xs[1..] + [x];
      LeadsAppend(Next(s, xs[0]), xs[1..], t, x);
    }
  }
}
