/** How long the nonce search of a12 blockchain.c takes: a measure that every step of every
    worker uses up, also of the last one, whose loop wraps around the nonce space. */
module MiningBound {
  import opened Mining

  /** How many increments, wrapping at 32 bits, lead from `nonce` to `goal`. */
  function CyclicDistance(nonce: nat, goal: nat): nat
    requires nonce < NONCE_SPACE && goal < NONCE_SPACE
  {
    if nonce <= goal then goal - nonce else goal + NONCE_SPACE - nonce
  }

  /** Nonces worker `i` may still have to try: up to the end of its range, or for the last
      worker, whose range test never fails, up to the valid nonce `goal`. */
  function Remaining(i: nat, w: Worker, goal: nat): int
    requires w.nonce < NONCE_SPACE && goal < NONCE_SPACE
  {
    if i < NUM_THREADS - 1 then w.end + 1 - w.nonce else CyclicDistance(w.nonce, goal) + 1
  }

  function Work(i: nat, w: Worker, goal: nat): int
    requires w.nonce < NONCE_SPACE && goal < NONCE_SPACE
  {
    match w.phase
    case Done => 0
    case Commit => 1
    case Hash => 2 * Remaining(i, w, goal)
    case Check => 2 * Remaining(i, w, goal) + 1
  }

  predicate SmallNonces(ws: seq<Worker>) { forall i :: 0 <= i < |ws| ==> ws[i].nonce < NONCE_SPACE }

  function TotalWork(ws: seq<Worker>, goal: nat): int
    requires SmallNonces(ws) && goal < NONCE_SPACE
  {
    if ws == [] then 0
    else TotalWork(ws[..|ws| - 1], goal) + Work(|ws| - 1, ws[|ws| - 1], goal)
  }

  lemma {:induction false} TotalWorkUpdate(ws: seq<Worker>, k: nat, w: Worker, goal: nat)
    requires SmallNonces(ws) && k < |ws| && w.nonce < NONCE_SPACE && goal < NONCE_SPACE
    ensures SmallNonces(ws[k := w])
    ensures TotalWork(ws[k := w], goal) == TotalWork(ws, goal) - Work(k, ws[k], goal) + Work(k, w, goal)
  {
    var n := |ws| - 1;
    if k == n {
      assert ws[k := w][..n] == ws[..n];
    } else {
      assert ws[k := w][..n] == ws[..n][k := w];
      TotalWorkUpdate(ws[..n], k, w, goal);
    }
  }

  lemma InvSmall(job: Job, s: Race)
    requires Inv(job, s)
    ensures SmallNonces(s.workers)
  {
    forall i | 0 <= i < |s.workers|
      ensures s.workers[i].nonce < NONCE_SPACE
    {
      assert WorkerOk(job, i, s.workers[i], s.found);
    }
  }

  lemma IncrementWraps(nonce: nat)
    requires nonce < NONCE_SPACE
    ensures (nonce + 1) % NONCE_SPACE == if nonce == UINT32_MAX then 0 else nonce + 1
  {
  }

  lemma WorkerUsesWork(job: Job, s: Race, w: nat, goal: nat)
    requires w < |s.workers| <= NUM_THREADS && s.workers[w].phase != Done
    requires WorkerOk(job, w, s.workers[w], s.found)
    requires goal < NONCE_SPACE && job.Solves(goal)
    ensures var w' := Step(job, s, w).workers[w];
            w'.nonce < NONCE_SPACE && Work(w, w', goal) < Work(w, s.workers[w], goal)
  {
    IncrementWraps(s.workers[w].nonce);
  }

  /** Every step of a worker that has not returned uses up search work. */
  lemma StepUsesWork(job: Job, s: Race, w: nat, goal: nat)
    requires Inv(job, s) && w < |s.workers| && s.workers[w].phase != Done
    requires goal < NONCE_SPACE && job.Solves(goal)
    ensures SmallNonces(s.workers) && SmallNonces(Step(job, s, w).workers)
    ensures TotalWork(Step(job, s, w).workers, goal) < TotalWork(s.workers, goal)
  {
    InvSmall(job, s);
    assert WorkerOk(job, w, s.workers[w], s.found);
    WorkerUsesWork(job, s, w, goal);
    var s' := Step(job, s, w);
    assert s'.workers == s.workers[w := s'.workers[w]];
    TotalWorkUpdate(s.workers, w, s'.workers[w], goal);
  }

  lemma {:induction false} TotalWorkNonNegative(job: Job, s: Race, k: nat, goal: nat)
    requires Inv(job, s) && k <= |s.workers| && goal < NONCE_SPACE
    ensures SmallNonces(s.workers[..k]) && 0 <= TotalWork(s.workers[..k], goal)
    ensures TotalWork(s.workers[..k], goal) == 0 <==> forall i :: 0 <= i < k ==> s.workers[i].phase == Done
  {
    InvSmall(job, s);
    if k > 0 {
      TotalWorkNonNegative(job, s, k - 1, goal);
      assert s.workers[..k][..k - 1] == s.workers[..k - 1];
      assert WorkerOk(job, k - 1, s.workers[k - 1], s.found);
      assert s.workers[..k][k - 1] == s.workers[k - 1];
    }
  }

  /** No step is spent on a worker that has already returned. */
  predicate Busy(job: Job, s: Race, sched: seq<nat>)
    requires Schedule(sched, |s.workers|)
    decreases |sched|
  {
    sched != [] ==>
      var n := |sched| - 1;
      assert Schedule(sched[..n], |s.workers|);
      Busy(job, s, sched[..n]) && Exec(job, s, sched[..n]).workers[sched[n]].phase != Done
  }

  lemma {:induction false} BusyUsesWork(job: Job, created: nat, sched: seq<nat>, goal: nat)
    requires created <= NUM_THREADS && Schedule(sched, created)
    requires Busy(job, Start(job, created), sched)
    requires goal < NONCE_SPACE && job.Solves(goal)
    ensures var s0, s := Start(job, created), Exec(job, Start(job, created), sched);
            SmallNonces(s0.workers) && SmallNonces(s.workers) &&
            |sched| + TotalWork(s.workers, goal) <= TotalWork(s0.workers, goal)
    decreases |sched|
  {
    var s0 := Start(job, created);
    ExecKeepsInv(job, created, sched);
    InvSmall(job, Exec(job, s0, sched));
    if sched == [] {
    } else {
      var n := |sched| - 1;
      assert Schedule(sched[..n], created);
      ExecKeepsInv(job, created, sched[..n]);
      BusyUsesWork(job, created, sched[..n], goal);
      StepUsesWork(job, Exec(job, s0, sched[..n]), sched[n], goal);
    }
  }

  /** Upper bound on all steps of the eight workers together: two per nonce of the seven
      exclusive ranges, two per nonce of the whole space for the last, and one exit each. */
  const STEP_BOUND: nat := 2 * 7 * NONCE_PER_THREAD + 2 * NONCE_SPACE + 8

  lemma StartWorkOf(i: nat, goal: nat)
    requires i < NUM_THREADS && goal < NONCE_SPACE
    ensures var w := Worker(NonceStart(i), NonceEnd(i), Check);
            w.nonce < NONCE_SPACE &&
            Work(i, w, goal) <= 2 * (if i < 7 then NONCE_PER_THREAD else NONCE_SPACE) + 1
  {
    assert NONCE_PER_THREAD == 536870911;
    assert NonceStart(i) == 536870911 * i;
  }

  lemma {:induction false} StartNonces(n: nat)
    requires n <= NUM_THREADS
    ensures SmallNonces(InitialWorkers(n))
  {
    if n > 0 {
      var ws := InitialWorkers(n);
      StartNonces(n - 1);
      StartWorkOf(n - 1, 0);
      forall i | 0 <= i < |ws|
        ensures ws[i].nonce < NONCE_SPACE
      {
        if i < n - 1 { assert ws[i] == InitialWorkers(n - 1)[i]; }
      }
    }
  }

  lemma LastWork(n: nat, goal: nat)
    requires 0 < n <= NUM_THREADS && goal < NONCE_SPACE
    ensures SmallNonces(InitialWorkers(n)) && SmallNonces(InitialWorkers(n - 1))
    ensures TotalWork(InitialWorkers(n), goal) <=
              TotalWork(InitialWorkers(n - 1), goal) + 2 * (if n <= 7 then NONCE_PER_THREAD else NONCE_SPACE) + 1
  {
    StartNonces(n);
    StartNonces(n - 1);
    assert InitialWorkers(n)[..n - 1] == InitialWorkers(n - 1);
    StartWorkOf(n - 1, goal);
  }

  lemma {:induction false} StartWorkBelow(n: nat, goal: nat)
    requires n < NUM_THREADS && goal < NONCE_SPACE
    ensures SmallNonces(InitialWorkers(n)) && TotalWork(InitialWorkers(n), goal) <= n * 1073741823
  {
    if n > 0 {
      assert NONCE_PER_THREAD == 536870911;
      StartWorkBelow(n - 1, goal);
      LastWork(n, goal);
    }
  }

  lemma StartWork(n: nat, goal: nat)
    requires n <= NUM_THREADS && goal < NONCE_SPACE
    ensures SmallNonces(InitialWorkers(n)) && TotalWork(InitialWorkers(n), goal) <= STEP_BOUND
  {
    assert STEP_BOUND == 7 * 1073741823 + 2 * NONCE_SPACE + 1;
    if n < NUM_THREADS {
      StartWorkBelow(n, goal);
    } else {
      StartWorkBelow(n - 1, goal);
      LastWork(n, goal);
    }
  }

  /** If some 32-bit nonce meets the target, the eight workers together take at most
      STEP_BOUND steps under every schedule that spends no step on a returned worker. */
  lemma SearchIsBounded(job: Job, sched: seq<nat>, goal: nat)
    requires goal < NONCE_SPACE && job.Solves(goal)
    requires Schedule(sched, NUM_THREADS) && Busy(job, Start(job, NUM_THREADS), sched)
    ensures |sched| <= STEP_BOUND
  {
    var s := Exec(job, Start(job, NUM_THREADS), sched);
    StartWork(NUM_THREADS, goal);
    BusyUsesWork(job, NUM_THREADS, sched, goal);
    ExecKeepsInv(job, NUM_THREADS, sched);
    TotalWorkNonNegative(job, s, |s.workers|, goal);
    assert s.workers[..|s.workers|] == s.workers;
  }

  /** Every busy run extends, by any choice of unfinished workers, to one in which all
      eight have returned; `sched` is an arbitrary prefix. */
  lemma {:induction false} BusyRunCompletes(job: Job, sched: seq<nat>, goal: nat) returns (full: seq<nat>)
    requires goal < NONCE_SPACE && job.Solves(goal)
    requires Schedule(sched, NUM_THREADS) && Busy(job, Start(job, NUM_THREADS), sched)
    ensures sched <= full && Schedule(full, NUM_THREADS) && Busy(job, Start(job, NUM_THREADS), full)
    ensures Exec(job, Start(job, NUM_THREADS), full).AllDone()
    decreases STEP_BOUND - |sched|
  {
    var s := Exec(job, Start(job, NUM_THREADS), sched);
    if s.AllDone() {
      full := sched;
    } else {
      var w: nat :| w < |s.workers| && s.workers[w].phase != Done;
      var longer := sched + [w];
      assert longer[..|longer| - 1] == sched;
      SearchIsBounded(job, longer, goal);
      full := BusyRunCompletes(job, longer, goal);
    }
  }

  ghost predicate CanJoin(job: Job) {
    exists sched :: Schedule(sched, NUM_THREADS) && Exec(job, Start(job, NUM_THREADS), sched).AllDone()
  }

  ghost predicate Solvable(job: Job) { exists goal: nat :: goal < NONCE_SPACE && job.Solves(goal) }

  /** The eight workers can all be joined exactly when some 32-bit nonce meets the target;
      otherwise the last worker wraps around the nonce space for ever. */
  lemma JoinableIffSolvable(job: Job)
    ensures CanJoin(job) <==> Solvable(job)
  {
    if CanJoin(job) {
      var sched :| Schedule(sched, NUM_THREADS) && Exec(job, Start(job, NUM_THREADS), sched).AllDone();
      ExecKeepsInv(job, NUM_THREADS, sched);
      JoinedMeansFound(job, sched);
      assert job.Solves(Exec(job, Start(job, NUM_THREADS), sched).core.nonce);
    }
    if Solvable(job) {
      var goal: nat :| goal < NONCE_SPACE && job.Solves(goal);
      var full := BusyRunCompletes(job, [], goal);
    }
  }

  // ---------------------------------------------------------------- after the winner

  /** Steps a worker takes at most once the flag is set: it gives up at its next test. */
  function Rest(w: Worker): nat {
    match w.phase
    case Done => 0
    case Check => 1
    case Commit => 1
    case Hash => 2
  }

  function TotalRest(ws: seq<Worker>): (n: nat)
    ensures n <= 2 * |ws|
  {
    if ws == [] then 0 else TotalRest(ws[..|ws| - 1]) + Rest(ws[|ws| - 1])
  }

  lemma {:induction false} TotalRestUpdate(ws: seq<Worker>, k: nat, w: Worker)
    requires k < |ws|
    ensures TotalRest(ws[k := w]) == TotalRest(ws) - Rest(ws[k]) + Rest(w)
  {
    var n := |ws| - 1;
    if k == n {
      assert ws[k := w][..n] == ws[..n];
    } else {
      assert ws[k := w][..n] == ws[..n][k := w];
      TotalRestUpdate(ws[..n], k, w);
    }
  }

  /** Once a winner is found every worker stops at its next test: all of them together take at
      most two steps each, under any schedule. */
  lemma {:induction false} FoundEndsSearch(job: Job, s: Race, sched: seq<nat>)
    requires s.found && Schedule(sched, |s.workers|) && Busy(job, s, sched)
    ensures |sched| + TotalRest(Exec(job, s, sched).workers) <= TotalRest(s.workers)
    ensures |sched| <= 2 * |s.workers|
    decreases |sched|
  {
    if sched != [] {
      var n := |sched| - 1;
      assert Schedule(sched[..n], |s.workers|);
      FoundEndsSearch(job, s, sched[..n]);
      FoundIsFinal(job, s, sched[..n]);
      var s1 := Exec(job, s, sched[..n]);
      var s2 := Step(job, s1, sched[n]);
      assert s2.workers == s1.workers[sched[n] := s2.workers[sched[n]]];
      TotalRestUpdate(s1.workers, sched[n], s2.workers[sched[n]]);
    }
  }
}
