/** Threads that walk index ranges and append what a callback emits to one shared array, as
    the mapper and reducer threads of a10 interface.c do. Appending is one atomic step: it
    happens inside the array's mutex. */
module WorkerPool {
  import opened CStrings

  /** `next(i)` is where the thread loop goes after index `i`; `emit(i)` are the pairs that
      the callback called at `i` emits, in order. `ready` is false when a thread about to
      make a call would first block on the condition variable. */
  datatype Job = Job(next: nat -> nat, emit: nat -> seq<KV>, ready: bool)

  ghost predicate Advances(job: Job) { forall i: nat :: job.next(i) > i }

  datatype Range = Range(start: nat, end: nat)

  datatype Thread = Thread(i: nat, end: nat, pending: seq<KV>)
  {
    predicate Done() { i >= end && pending == [] }
  }

  /** `owners[k]` is the thread that appended `arr[k]`. */
  datatype Pool = Pool(arr: seq<KV>, owners: seq<nat>, threads: seq<Thread>)
  {
    predicate AllDone() { forall t :: 0 <= t < |threads| ==> threads[t].Done() }
  }

  function StartThread(r: Range): Thread { Thread(r.start, r.end, []) }

  function Start(ranges: seq<Range>): (s: Pool)
    ensures |s.threads| == |ranges| && s.arr == [] && s.owners == []
    ensures forall t :: 0 <= t < |ranges| ==> s.threads[t] == StartThread(ranges[t])
  {
    Pool([], [], seq(|ranges|, t requires 0 <= t < |ranges| => StartThread(ranges[t])))
  }

  /** Thread `t` is blocked on the condition variable. */
  predicate Waits(job: Job, s: Pool, t: nat)
    requires t < |s.threads|
  {
    var me := s.threads[t];
    me.pending == [] && me.i < me.end && !job.ready
  }

  /** One step of thread `t`: emit the next pair of the current call, or make the next call. */
  function Step(job: Job, s: Pool, t: nat): (s': Pool)
    requires t < |s.threads|
    ensures |s'.threads| == |s.threads|
  {
    var me := s.threads[t];
    if me.pending != [] then
      Pool(s.arr + [Truncate(me.pending[0])], s.owners + [t], s.threads[t := me.(pending := me.pending[1..])])
    else if me.i < me.end && job.ready then
      s.(threads := s.threads[t := Thread(job.next(me.i), me.end, job.emit(me.i))])
    else s
  }

  predicate Schedule(sched: seq<nat>, n: nat) { forall k :: 0 <= k < |sched| ==> sched[k] < n }

  function Exec(job: Job, s: Pool, sched: seq<nat>): (s': Pool)
    requires Schedule(sched, |s.threads|)
    ensures |s'.threads| == |s.threads|
    decreases |sched|
  {
    if sched == [] then s
    else
      var n := |sched| - 1;
      assert Schedule(sched[..n], |s.threads|);
      Step(job, Exec(job, s, sched[..n]), sched[n])
  }

  /** Everything a thread emits on its way from `i` to `end`. */
  ghost function Script(job: Job, i: nat, end: nat): seq<KV>
    requires Advances(job)
    decreases end - i
  {
    if i >= end then [] else job.emit(i) + Script(job, job.next(i), end)
  }

  /** The calls it makes on that way. */
  ghost function Calls(job: Job, i: nat, end: nat): nat
    requires Advances(job)
    decreases end - i
  {
    if i >= end then 0 else 1 + Calls(job, job.next(i), end)
  }

  /** The subsequence of `arr` that thread `t` appended. */
  function Share(arr: seq<KV>, owners: seq<nat>, t: nat): seq<KV>
    requires |arr| == |owners|
    decreases |arr|
  {
    if arr == [] then []
    else
      var n := |arr| - 1;
      Share(arr[..n], owners[..n], t) + (if owners[n] == t then [arr[n]] else [])
  }

  lemma ShareAppend(arr: seq<KV>, owners: seq<nat>, x: KV, o: nat, t: nat)
    requires |arr| == |owners|
    ensures Share(arr + [x], owners + [o], t) == Share(arr, owners, t) + (if o == t then [x] else [])
  {
    assert (arr + [x])[..|arr|] == arr && (owners + [o])[..|arr|] == owners;
  }

  // ---------------------------------------------------------------- what every run keeps

  /** Thread `t` has appended a prefix of its script, the rest is still ahead of it. */
  ghost predicate OnScript(job: Job, ranges: seq<Range>, s: Pool, t: nat)
    requires Advances(job) && |s.arr| == |s.owners| && t < |s.threads| == |ranges|
  {
    var me := s.threads[t];
    && me.end == ranges[t].end
    && Share(s.arr, s.owners, t) + TruncateAll(me.pending + Script(job, me.i, me.end))
       == TruncateAll(Script(job, ranges[t].start, ranges[t].end))
  }

  ghost predicate Inv(job: Job, ranges: seq<Range>, s: Pool)
    requires Advances(job)
  {
    && |s.arr| == |s.owners| && |s.threads| == |ranges|
    && (forall k :: 0 <= k < |s.owners| ==> s.owners[k] < |ranges|)
    && forall t: nat :: t < |ranges| ==> OnScript(job, ranges, s, t)
  }

  lemma EmitShift(had: seq<KV>, pending: seq<KV>, rest: seq<KV>)
    requires pending != []
    ensures had + TruncateAll(pending + rest) == had + [Truncate(pending[0])] + TruncateAll(pending[1..] + rest)
  {
    assert pending + rest == [pending[0]] + (pending[1..] + rest);
    TruncateAllConcat([pending[0]], pending[1..] + rest);
    assert TruncateAll([pending[0]]) == [Truncate(pending[0])];
  }

  lemma StepOnScript(job: Job, ranges: seq<Range>, s: Pool, w: nat, t: nat)
    requires Advances(job) && |s.arr| == |s.owners| && |s.threads| == |ranges| && w < |ranges| && t < |ranges|
    requires OnScript(job, ranges, s, t)
    ensures |Step(job, s, w).arr| == |Step(job, s, w).owners| && OnScript(job, ranges, Step(job, s, w), t)
  {
    var me := s.threads[w];
    if me.pending != [] {
      ShareAppend(s.arr, s.owners, Truncate(me.pending[0]), w, t);
      if t == w {
        EmitShift(Share(s.arr, s.owners, t), me.pending, Script(job, me.i, me.end));
      } else {
        assert Share(s.arr, s.owners, t) + [] == Share(s.arr, s.owners, t);
      }
    } else if t == w && me.i < me.end && job.ready {
      assert [] + Script(job, me.i, me.end) == Script(job, me.i, me.end);
    }
  }

  lemma StepKeepsInv(job: Job, ranges: seq<Range>, s: Pool, w: nat)
    requires Advances(job) && Inv(job, ranges, s) && w < |ranges|
    ensures Inv(job, ranges, Step(job, s, w))
  {
    forall t: nat | t < |ranges|
      ensures |Step(job, s, w).arr| == |Step(job, s, w).owners| && OnScript(job, ranges, Step(job, s, w), t)
    {
      StepOnScript(job, ranges, s, w, t);
    }
    assert |Step(job, s, w).arr| == |Step(job, s, w).owners|;
  }

  lemma {:induction false} ExecKeepsInv(job: Job, ranges: seq<Range>, sched: seq<nat>)
    requires Advances(job) && Schedule(sched, |ranges|)
    ensures Inv(job, ranges, Exec(job, Start(ranges), sched))
    decreases |sched|
  {
    if sched == [] {
      forall t: nat | t < |ranges|
        ensures OnScript(job, ranges, Start(ranges), t)
      {
        assert [] + Script(job, ranges[t].start, ranges[t].end) == Script(job, ranges[t].start, ranges[t].end);
      }
    } else {
      var n := |sched| - 1;
      assert Schedule(sched[..n], |ranges|);
      ExecKeepsInv(job, ranges, sched[..n]);
      StepKeepsInv(job, ranges, Exec(job, Start(ranges), sched[..n]), sched[n]);
    }
  }

  /** Under every schedule that finishes all threads, the shared array is a shuffle of the
      threads' emission sequences: thread `t`'s share of it is exactly its whole script, in
      order, and every element belongs to some thread. */
  lemma FinishedRunIsShuffle(job: Job, ranges: seq<Range>, sched: seq<nat>)
    requires Advances(job) && Schedule(sched, |ranges|)
    requires Exec(job, Start(ranges), sched).AllDone()
    ensures var s := Exec(job, Start(ranges), sched);
            && |s.arr| == |s.owners|
            && (forall k :: 0 <= k < |s.owners| ==> s.owners[k] < |ranges|)
            && forall t: nat :: t < |ranges| ==>
                 Share(s.arr, s.owners, t) == TruncateAll(Script(job, ranges[t].start, ranges[t].end))
  {
    ExecKeepsInv(job, ranges, sched);
    var s := Exec(job, Start(ranges), sched);
    forall t: nat | t < |ranges|
      ensures Share(s.arr, s.owners, t) == TruncateAll(Script(job, ranges[t].start, ranges[t].end))
    {
      assert OnScript(job, ranges, s, t);
      assert s.threads[t].Done();
    }
  }

  // ---------------------------------------------------------------- contents

  /** All scripts one after the other. */
  ghost function AllScripts(job: Job, ranges: seq<Range>): seq<KV>
    requires Advances(job)
  {
    if ranges == [] then []
    else
      var n := |ranges| - 1;
      AllScripts(job, ranges[..n]) + Script(job, ranges[n].start, ranges[n].end)
  }

  /** The shares of the first `n` threads. */
  function Shares(arr: seq<KV>, owners: seq<nat>, n: nat): (r: seq<seq<KV>>)
    requires |arr| == |owners|
    ensures |r| == n && forall t: nat :: t < n ==> r[t] == Share(arr, owners, t)
  {
    if n == 0 then [] else Shares(arr, owners, n - 1) + [Share(arr, owners, n - 1)]
  }

  function Flatten(parts: seq<seq<KV>>): seq<KV> {
    if parts == [] then [] else Flatten(parts[..|parts| - 1]) + parts[|parts| - 1]
  }

  lemma FlattenLast(parts: seq<seq<KV>>, last: seq<KV>)
    ensures Flatten(parts + [last]) == Flatten(parts) + last
  {
    assert (parts + [last])[..|parts|] == parts;
  }

  /** One more element at the end of one part is one more element in all. */
  lemma {:induction false} FlattenGrows(parts: seq<seq<KV>>, o: nat, x: KV)
    requires o < |parts|
    ensures multiset(Flatten(parts[o := parts[o] + [x]])) == multiset(Flatten(parts)) + multiset{x}
  {
    var init, last := parts[..|parts| - 1], parts[|parts| - 1];
    assert parts == init + [last];
    FlattenLast(init, last);
    if o == |init| {
      assert parts[o := last + [x]] == init + [last + [x]];
      FlattenLast(init, last + [x]);
      assert Flatten(init) + (last + [x]) == (Flatten(init) + last) + [x];
    } else {
      assert parts[o := parts[o] + [x]] == init[o := init[o] + [x]] + [last];
      FlattenGrows(init, o, x);
      FlattenLast(init[o := init[o] + [x]], last);
    }
  }

  lemma {:induction false} FlattenNothing(n: nat)
    ensures Flatten(Shares([], [], n)) == []
  {
    if n > 0 {
      FlattenNothing(n - 1);
      FlattenLast(Shares([], [], n - 1), Share([], [], n - 1));
    }
  }

  lemma SharesGrow(arr: seq<KV>, owners: seq<nat>, x: KV, o: nat, n: nat)
    requires |arr| == |owners| && o < n
    ensures var parts := Shares(arr, owners, n); Shares(arr + [x], owners + [o], n) == parts[o := parts[o] + [x]]
  {
    var parts, parts' := Shares(arr, owners, n), Shares(arr + [x], owners + [o], n);
    forall t: nat | t < n
      ensures parts'[t] == parts[t] + (if o == t then [x] else [])
    {
      ShareAppend(arr, owners, x, o, t);
    }
    assert forall t :: 0 <= t < n && t != o ==> parts'[t] == parts[t];
  }

  /** The shares together hold what the array holds. */
  predicate Covered(arr: seq<KV>, owners: seq<nat>, n: nat)
    requires |arr| == |owners|
  {
    multiset(Flatten(Shares(arr, owners, n))) == multiset(arr)
  }

  lemma CoverMore(arr: seq<KV>, owners: seq<nat>, x: KV, o: nat, n: nat)
    requires |arr| == |owners| && o < n && Covered(arr, owners, n)
    ensures Covered(arr + [x], owners + [o], n)
  {
    SharesGrow(arr, owners, x, o, n);
    FlattenGrows(Shares(arr, owners, n), o, x);
  }

  lemma CoverNothing(n: nat)
    ensures Covered([], [], n)
  {
    FlattenNothing(n);
  }

  lemma {:induction false} SharesCoverArray(arr: seq<KV>, owners: seq<nat>, n: nat)
    requires |arr| == |owners| && forall k :: 0 <= k < |owners| ==> owners[k] < n
    ensures Covered(arr, owners, n)
    decreases |arr|
  {
    if arr == [] {
      CoverNothing(n);
    } else {
      var m := |arr| - 1;
      SharesCoverArray(arr[..m], owners[..m], n);
      CoverMore(arr[..m], owners[..m], arr[m], owners[m], n);
      assert arr[..m] + [arr[m]] == arr && owners[..m] + [owners[m]] == owners;
    }
  }

  lemma {:induction false} SharesAreScripts(job: Job, ranges: seq<Range>, arr: seq<KV>, owners: seq<nat>)
    requires Advances(job) && |arr| == |owners|
    requires forall t: nat :: t < |ranges| ==>
        Share(arr, owners, t) == TruncateAll(Script(job, ranges[t].start, ranges[t].end))
    ensures Flatten(Shares(arr, owners, |ranges|)) == TruncateAll(AllScripts(job, ranges))
    decreases |ranges|
  {
    if ranges != [] {
      var n := |ranges| - 1;
      SharesAreScripts(job, ranges[..n], arr, owners);
      FlattenLast(Shares(arr, owners, n), Share(arr, owners, n));
      TruncateAllConcat(AllScripts(job, ranges[..n]), Script(job, ranges[n].start, ranges[n].end));
    }
  }

  /** The finished array holds exactly the truncated emissions of all calls, whatever the schedule. */
  lemma FinishedRunContents(job: Job, ranges: seq<Range>, sched: seq<nat>)
    requires Advances(job) && Schedule(sched, |ranges|)
    requires Exec(job, Start(ranges), sched).AllDone()
    ensures multiset(Exec(job, Start(ranges), sched).arr) == multiset(TruncateAll(AllScripts(job, ranges)))
  {
    var s := Exec(job, Start(ranges), sched);
    FinishedRunIsShuffle(job, ranges, sched);
    SharesAreScripts(job, ranges, s.arr, s.owners);
    SharesCoverArray(s.arr, s.owners, |ranges|);
  }

  // ---------------------------------------------------------------- termination

  ghost function ThreadWork(job: Job, me: Thread): nat
    requires Advances(job)
  {
    |me.pending| + |Script(job, me.i, me.end)| + Calls(job, me.i, me.end)
  }

  ghost function Work(job: Job, threads: seq<Thread>): nat
    requires Advances(job)
  {
    if threads == [] then 0 else Work(job, threads[..|threads| - 1]) + ThreadWork(job, threads[|threads| - 1])
  }

  lemma {:induction false} WorkUpdate(job: Job, threads: seq<Thread>, t: nat, me: Thread)
    requires Advances(job) && t < |threads|
    ensures Work(job, threads[t := me]) == Work(job, threads) - ThreadWork(job, threads[t]) + ThreadWork(job, me)
  {
    var n := |threads| - 1;
    if t == n {
      assert threads[t := me][..n] == threads[..n];
    } else {
      assert threads[t := me][..n] == threads[..n][t := me];
      WorkUpdate(job, threads[..n], t, me);
    }
  }

  lemma {:induction false} NoWorkIsDone(job: Job, threads: seq<Thread>)
    requires Advances(job)
    ensures Work(job, threads) == 0 <==> forall t :: 0 <= t < |threads| ==> threads[t].Done()
  {
    if threads != [] {
      var n := |threads| - 1;
      NoWorkIsDone(job, threads[..n]);
      assert forall t :: 0 <= t < n ==> threads[..n][t] == threads[t];
    }
  }

  /** No step is spent on a thread that has returned. */
  predicate Busy(job: Job, s: Pool, sched: seq<nat>)
    requires Schedule(sched, |s.threads|)
    decreases |sched|
  {
    sched != [] ==>
      var n := |sched| - 1;
      assert Schedule(sched[..n], |s.threads|);
      Busy(job, s, sched[..n]) && !Exec(job, s, sched[..n]).threads[sched[n]].Done()
  }

  /** Every busy run uses up one unit of work per step, so all schedules take the same number
      of steps to the end, and a run with work left can always go on. */
  lemma {:induction false} BusyRunUsesWork(job: Job, s: Pool, sched: seq<nat>)
    requires Advances(job) && job.ready && Schedule(sched, |s.threads|) && Busy(job, s, sched)
    ensures |sched| + Work(job, Exec(job, s, sched).threads) == Work(job, s.threads)
    ensures Exec(job, s, sched).AllDone() <==> |sched| == Work(job, s.threads)
    decreases |sched|
  {
    NoWorkIsDone(job, Exec(job, s, sched).threads);
    if sched != [] {
      var n := |sched| - 1;
      assert Schedule(sched[..n], |s.threads|);
      BusyRunUsesWork(job, s, sched[..n]);
      var s1 := Exec(job, s, sched[..n]);
      var s' := Step(job, s1, sched[n]);
      assert s'.threads == s1.threads[sched[n] := s'.threads[sched[n]]];
      WorkUpdate(job, s1.threads, sched[n], s'.threads[sched[n]]);
    }
  }

  /** Every busy run can be continued, by any choice of unfinished threads, until all threads
      have returned. */
  lemma {:induction false} BusyRunCompletes(job: Job, s: Pool, sched: seq<nat>) returns (full: seq<nat>)
    requires Advances(job) && job.ready && Schedule(sched, |s.threads|) && Busy(job, s, sched)
    ensures sched <= full && Schedule(full, |s.threads|) && Busy(job, s, full) && Exec(job, s, full).AllDone()
    decreases Work(job, Exec(job, s, sched).threads)
  {
    var now := Exec(job, s, sched);
    if now.AllDone() {
      full := sched;
    } else {
      var t: nat :| t < |now.threads| && !now.threads[t].Done();
      var longer := sched + [t];
      assert longer[..|longer| - 1] == sched;
      BusyRunUsesWork(job, s, sched);
      BusyRunUsesWork(job, s, longer);
      full := BusyRunCompletes(job, s, longer);
    }
  }
}
