/** The parallel nonce search of a12 blockchain.c: eight workers race over a split
    nonce space; the shared `found` flag and the shared core are only touched inside
    `found_mutex`. A run is a schedule naming, step by step, the worker that moves. */
module Mining {
  import Bytes
  import Digests

  const UINT32_MAX: nat := 0xFFFF_FFFF
  const NONCE_SPACE: nat := 0x1_0000_0000
  const NUM_THREADS: nat := 8
  const NONCE_PER_THREAD: nat := UINT32_MAX / NUM_THREADS

  datatype Timespec = Timespec(sec: int, nsec: int)

  datatype Core = Core(index: nat, timestamp: Timespec, data: seq<Bytes.Byte>, pHash: Digests.Digest, nonce: nat)

  /** What every worker is given: the read-only template, the target and the hash function. */
  datatype Job = Job(template: Core, difficulty: Digests.Digest, hash: Core -> Digests.Digest)
  {
    function Candidate(nonce: nat): Core { template.(nonce := nonce) }

    predicate Solves(nonce: nat) { Digests.MeetsDifficulty(hash(Candidate(nonce)), difficulty) }
  }

  /** `Check`: about to test the loop bound and the flag; `Hash`: about to hash the
      candidate; `Commit`: holds a valid nonce, about to publish it; `Done`: returned. */
  datatype Phase = Check | Hash | Commit | Done

  datatype Worker = Worker(nonce: nat, end: nat, phase: Phase)

  datatype Race = Race(found: bool, core: Core, workers: seq<Worker>)
  {
    predicate AllDone() { forall i :: 0 <= i < |workers| ==> workers[i].phase == Done }
  }

  function NonceStart(i: nat): nat { i * NONCE_PER_THREAD }

  function NonceEnd(i: nat): nat {
    if i == NUM_THREADS - 1 then UINT32_MAX else NonceStart(i) + NONCE_PER_THREAD - 1
  }

  function InitialWorkers(n: nat): (ws: seq<Worker>)
    ensures |ws| == n
  {
    seq(n, (i: nat) => Worker(NonceStart(i), NonceEnd(i), Check))
  }

  /** The thread creation loop: `nonceStart` is carried from one worker to the next. */
  method PrepareWorkers(created: nat) returns (ws: seq<Worker>)
    requires created <= NUM_THREADS
    ensures ws == InitialWorkers(created)
    ensures |ws| == created && forall i: nat :: i < created ==>
              ws[i].nonce == 536870911 * i && ws[i].end == (if i == 7 then 4294967295 else 536870911 * i + 536870910)
  {
    ws := [];
    var nonceStart := 0;
    for i := 0 to created
      invariant nonceStart == NonceStart(i)
      invariant ws == InitialWorkers(i)
    {
      var nonceEnd := if i == NUM_THREADS - 1 then UINT32_MAX else nonceStart + NONCE_PER_THREAD - 1;
      ws := ws + [Worker(nonceStart, nonceEnd, Check)];
      nonceStart := nonceStart + NONCE_PER_THREAD;
    }
  }

  predicate InRange(i: nat, nonce: nat) { NonceStart(i) <= nonce <= NonceEnd(i) }

  function Owner(nonce: nat): nat {
    if nonce < 7 * NONCE_PER_THREAD then nonce / NONCE_PER_THREAD else NUM_THREADS - 1
  }

  lemma OwnerIsUnique(i: nat, nonce: nat)
    requires nonce < NONCE_SPACE && i < NUM_THREADS
    ensures InRange(i, nonce) <==> i == Owner(nonce)
  {
    var p := NONCE_PER_THREAD;
    assert p == 536870911;
    assert NonceStart(i) == 536870911 * i;
    assert nonce == nonce / p * p + nonce % p;
  }

  /** The eight ranges cut the 32-bit nonce space into disjoint pieces that cover it. */
  lemma RangesPartition(nonce: nat)
    requires nonce < NONCE_SPACE
    ensures Owner(nonce) < NUM_THREADS
    ensures forall i: nat :: i < NUM_THREADS ==> (InRange(i, nonce) <==> i == Owner(nonce))
  {
    assert nonce < 7 * NONCE_PER_THREAD ==> nonce / NONCE_PER_THREAD < 7;
    forall i: nat | i < NUM_THREADS
      ensures InRange(i, nonce) <==> i == Owner(nonce)
    {
      OwnerIsUnique(i, nonce);
    }
  }

  function Start(job: Job, created: nat): Race {
    Race(false, job.template, InitialWorkers(created))
  }

  /** One atomic step of worker `w`. The increment wraps at 32 bits as `uint32_t` does. */
  function Step(job: Job, s: Race, w: nat): Race
    requires w < |s.workers|
  {
    var me := s.workers[w];
    match me.phase
    case Check =>
      if me.nonce > me.end || s.found then Move(s, w, me.(phase := Done))
      else Move(s, w, me.(phase := Hash))
    case Hash =>
      if job.Solves(me.nonce) then Move(s, w, me.(phase := Commit))
      else Move(s, w, Worker((me.nonce + 1) % NONCE_SPACE, me.end, Check))
    case Commit =>
      var s1 := Move(s, w, me.(phase := Done));
      if s.found then s1 else s1.(found := true, core := job.Candidate(me.nonce))
    case Done => s
  }

  function Move(s: Race, w: nat, me: Worker): Race
    requires w < |s.workers|
  {
    s.(workers := s.workers[w := me])
  }

  /** A schedule is usable when it only names workers that exist. */
  predicate Schedule(sched: seq<nat>, n: nat) { forall k :: 0 <= k < |sched| ==> sched[k] < n }

  function Exec(job: Job, s: Race, sched: seq<nat>): (s': Race)
    requires Schedule(sched, |s.workers|)
    ensures |s'.workers| == |s.workers|
    decreases |sched|
  {
    if sched == [] then s
    else
      var n := |sched| - 1;
      assert Schedule(sched[..n], |s.workers|);
      Step(job, Exec(job, s, sched[..n]), sched[n])
  }

  // ---------------------------------------------------------------- safety

  predicate WorkerOk(job: Job, i: nat, w: Worker, found: bool) {
    && w.end == NonceEnd(i)
    && w.nonce < NONCE_SPACE
    && (i < NUM_THREADS - 1 ==> NonceStart(i) <= w.nonce <= w.end + 1)
    && (w.phase == Hash ==> w.nonce <= w.end)
    && (w.phase == Commit ==> w.nonce <= w.end && job.Solves(w.nonce))
    && (i == NUM_THREADS - 1 && w.phase == Done ==> found)
  }

  predicate Inv(job: Job, s: Race) {
    && |s.workers| <= NUM_THREADS
    && (forall i: nat :: i < |s.workers| ==> WorkerOk(job, i, s.workers[i], s.found))
    && (s.found ==> s.core == job.Candidate(s.core.nonce) && s.core.nonce < NONCE_SPACE && job.Solves(s.core.nonce))
    && (!s.found ==> s.core == job.template)
  }

  lemma StepKeepsWorker(job: Job, s: Race, w: nat)
    requires w < |s.workers| && WorkerOk(job, w, s.workers[w], s.found)
    ensures w < |Step(job, s, w).workers| && WorkerOk(job, w, Step(job, s, w).workers[w], Step(job, s, w).found)
  {
  }

  lemma StepKeepsInv(job: Job, s: Race, w: nat)
    requires w < |s.workers| && Inv(job, s)
    ensures Inv(job, Step(job, s, w))
  {
    var s' := Step(job, s, w);
    StepKeepsWorker(job, s, w);
    forall i: nat | i < |s'.workers|
      ensures WorkerOk(job, i, s'.workers[i], s'.found)
    {
      assert WorkerOk(job, i, s.workers[i], s.found);
    }
  }

  /** Under every schedule the race keeps its invariant. In particular the shared core is
      the untouched template until the flag is set, and afterwards the template with a
      32-bit nonce that meets the target. */
  lemma {:induction false} ExecKeepsInv(job: Job, created: nat, sched: seq<nat>)
    requires created <= NUM_THREADS && Schedule(sched, created)
    ensures Inv(job, Exec(job, Start(job, created), sched))
    decreases |sched|
  {
    if sched == [] {
      var s := Start(job, created);
      forall i: nat | i < |s.workers|
        ensures WorkerOk(job, i, s.workers[i], s.found)
      {
      }
    } else {
      var n := |sched| - 1;
      assert Schedule(sched[..n], created);
      ExecKeepsInv(job, created, sched[..n]);
      StepKeepsInv(job, Exec(job, Start(job, created), sched[..n]), sched[n]);
    }
  }

  /** `found` never goes back to false and the shared core is written at most once: once
      the flag is set, no continuation of the run changes either. */
  lemma {:induction false} FoundIsFinal(job: Job, s: Race, sched: seq<nat>)
    requires Schedule(sched, |s.workers|) && s.found
    ensures Exec(job, s, sched).found && Exec(job, s, sched).core == s.core
    decreases |sched|
  {
    if sched != [] {
      var n := |sched| - 1;
      assert Schedule(sched[..n], |s.workers|);
      FoundIsFinal(job, s, sched[..n]);
    }
  }

  /** When all eight workers have returned the flag is set: the last worker's loop condition
      is always true, so it leaves only through the flag or through its own publication. */
  lemma JoinedMeansFound(job: Job, sched: seq<nat>)
    requires Schedule(sched, NUM_THREADS)
    ensures var s := Exec(job, Start(job, NUM_THREADS), sched);
            s.AllDone() ==> s.found && s.core == job.Candidate(s.core.nonce) && job.Solves(s.core.nonce)
  {
    ExecKeepsInv(job, NUM_THREADS, sched);
    var s := Exec(job, Start(job, NUM_THREADS), sched);
    assert WorkerOk(job, NUM_THREADS - 1, s.workers[NUM_THREADS - 1], s.found);
  }

  /** Workers 0 to 6 stay inside their own range and never wrap. */
  lemma EarlyWorkersNeverWrap(job: Job, created: nat, sched: seq<nat>, i: nat)
    requires created <= NUM_THREADS && Schedule(sched, created) && i < created && i < NUM_THREADS - 1
    ensures NonceStart(i) <= Exec(job, Start(job, created), sched).workers[i].nonce <= NonceEnd(i) + 1 < NONCE_SPACE
  {
    ExecKeepsInv(job, created, sched);
    var s := Exec(job, Start(job, created), sched);
    assert WorkerOk(job, i, s.workers[i], s.found);
  }

  /** No nonce that an early worker has moved past is valid: it skips none. */
  predicate Tried(job: Job, i: nat, w: Worker) { forall n :: NonceStart(i) <= n < w.nonce ==> !job.Solves(n) }

  lemma StepTries(job: Job, s: Race, w: nat)
    requires w < |s.workers| && w < NUM_THREADS - 1
    requires WorkerOk(job, w, s.workers[w], s.found) && Tried(job, w, s.workers[w])
    ensures w < |Step(job, s, w).workers| && Tried(job, w, Step(job, s, w).workers[w])
  {
    assert s.workers[w].phase == Hash ==> s.workers[w].nonce + 1 < NONCE_SPACE;
  }

  lemma {:induction false} EarlyWorkersSkipNothing(job: Job, created: nat, sched: seq<nat>, i: nat)
    requires created <= NUM_THREADS && Schedule(sched, created) && i < created && i < NUM_THREADS - 1
    ensures Tried(job, i, Exec(job, Start(job, created), sched).workers[i])
    decreases |sched|
  {
    if sched != [] {
      var n := |sched| - 1;
      assert Schedule(sched[..n], created);
      var s := Exec(job, Start(job, created), sched[..n]);
      EarlyWorkersSkipNothing(job, created, sched[..n], i);
      ExecKeepsInv(job, created, sched[..n]);
      if sched[n] == i {
        assert WorkerOk(job, i, s.workers[i], s.found);
        StepTries(job, s, i);
      }
    }
  }

  lemma {:induction false} ReturnedAtEnd(job: Job, created: nat, sched: seq<nat>, i: nat)
    requires created <= NUM_THREADS && Schedule(sched, created) && i < created && i < NUM_THREADS - 1
    ensures var s := Exec(job, Start(job, created), sched);
            s.workers[i].phase == Done && !s.found ==> s.workers[i].nonce > NonceEnd(i)
    decreases |sched|
  {
    if sched != [] {
      var n := |sched| - 1;
      assert Schedule(sched[..n], created);
      var s := Exec(job, Start(job, created), sched[..n]);
      ReturnedAtEnd(job, created, sched[..n], i);
      ExecKeepsInv(job, created, sched[..n]);
      assert WorkerOk(job, i, s.workers[i], s.found);
    }
  }

  /** An early worker that has returned while nothing was found has tried its whole range. */
  lemma ReturnedMeansExhausted(job: Job, created: nat, sched: seq<nat>, i: nat, nonce: nat)
    requires created <= NUM_THREADS && Schedule(sched, created) && i < created && i < NUM_THREADS - 1
    requires var s := Exec(job, Start(job, created), sched); s.workers[i].phase == Done && !s.found
    requires InRange(i, nonce)
    ensures !job.Solves(nonce)
  {
    EarlyWorkersSkipNothing(job, created, sched, i);
    ReturnedAtEnd(job, created, sched, i);
  }
}
