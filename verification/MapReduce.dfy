/** `mr_exec` of a10 interface.c end to end: for every schedule of the mappers and of the
    reducers, every pair of thread counts and every order `qsort` may choose among equal
    keys, the output is the sequential group-by. */
module MapReduce {
  import opened CStrings
  import opened WorkerPool
  import opened Grouping
  import opened GroupByKey

  /** The callbacks: what one call emits, in order. `map` emits intermediate pairs only and
      `reduce` final pairs only. */
  datatype Program = Program(map_: KV -> seq<KV>, reduce: (CStr, seq<CStr>) -> seq<KV>)

  /** What a reducer emits, as a bag, may depend on the bag of values only: the engine does
      not promise an order of the values under a key. */
  ghost predicate OrderFree(p: Program) {
    forall key, a, b :: multiset(a) == multiset(b) ==> multiset(p.reduce(key, a)) == multiset(p.reduce(key, b))
  }

  // ---------------------------------------------------------------- the sequential program

  function MapAll(p: Program, input: seq<KV>): seq<KV> {
    if input == [] then [] else MapAll(p, input[..|input| - 1]) + p.map_(input[|input| - 1])
  }

  function ReduceKeys(p: Program, s: seq<KV>, keys: seq<CStr>): seq<KV> {
    if keys == [] then [] else p.reduce(keys[0], Values(s, keys[0])) + ReduceKeys(p, s, keys[1..])
  }

  /** The sequential map emits what the callback emits for each pair, in input order. */
  lemma {:induction false} MapAllConcat(p: Program, a: seq<KV>, b: seq<KV>)
    ensures MapAll(p, a + b) == MapAll(p, a) + MapAll(p, b)
  {
    if b == [] {
      assert a + b == a;
    } else {
      assert (a + b)[..|a + b| - 1] == a + b[..|b| - 1];
      MapAllConcat(p, a, b[..|b| - 1]);
    }
  }

  lemma MapAllOne(p: Program, x: KV)
    ensures MapAll(p, [x]) == p.map_(x) && MapAll(p, []) == []
  {
    assert [x][..0] == [];
  }

  lemma ReduceKeysOne(p: Program, s: seq<KV>, key: CStr)
    ensures ReduceKeys(p, s, [key]) == p.reduce(key, Values(s, key)) && ReduceKeys(p, s, []) == []
  {
    assert [key][1..] == [];
  }

  function Intermediate(p: Program, input: seq<KV>): seq<KV> { TruncateAll(MapAll(p, input)) }

  /** Map everything in input order, reduce each key once in order of first appearance. */
  function Final(p: Program, input: seq<KV>): seq<KV> {
    var s := Intermediate(p, input);
    TruncateAll(ReduceKeys(p, s, DistinctKeys(s)))
  }

  /** `out` lists the keys of `fin` in strictly ascending order, each with exactly its bag of values. */
  ghost predicate GroupsOf(out: seq<Group>, fin: seq<KV>) {
    && Ascending(out)
    && (forall key :: HasGroup(out, key) <==> HasKey(fin, key))
    && forall a :: 0 <= a < |out| ==> multiset(out[a].values) == multiset(Values(fin, out[a].key))
  }

  /** What the output is, in terms of bytes, pairs and how often they occur alone. */
  lemma GroupsMean(out: seq<Group>, fin: seq<KV>)
    requires GroupsOf(out, fin)
    ensures forall i, j :: 0 <= i < j < |out| ==> BytesBefore(out[i].key, out[j].key)
    ensures forall pair :: pair in fin ==> exists a :: 0 <= a < |out| && out[a].key == pair.key
    ensures forall a, v :: 0 <= a < |out| ==> multiset(out[a].values)[v] == multiset(fin)[KV(out[a].key, v)]
  {
    forall i, j | 0 <= i < j < |out|
      ensures BytesBefore(out[i].key, out[j].key)
    {
      StrCmpIsByteOrder(out[i].key, out[j].key);
    }
    forall pair | pair in fin
      ensures exists a :: 0 <= a < |out| && out[a].key == pair.key
    {
      var k :| 0 <= k < |fin| && fin[k] == pair;
      assert HasKey(fin, pair.key);
      assert HasGroup(out, pair.key);
    }
    forall a, v | 0 <= a < |out|
      ensures multiset(out[a].values)[v] == multiset(fin)[KV(out[a].key, v)]
    {
      ValuesCount(fin, out[a].key, v);
    }
  }

  // ---------------------------------------------------------------- the two thread pools

  function MapJob(p: Program, input: seq<KV>): Job {
    Job((i: nat) => i + 1, (i: nat) => if i < |input| then p.map_(input[i]) else [], true)
  }

  /** A reducer first waits while the intermediate array is empty. */
  function ReduceJob(p: Program, s: seq<KV>): Job {
    Job((i: nat) => RunEnd(s, i),
        (i: nat) => if i < |s| then p.reduce(GroupAt(s, i).key, GroupAt(s, i).values) else [],
        |s| > 0)
  }

  lemma MapJobAdvances(p: Program, input: seq<KV>)
    ensures Advances(MapJob(p, input))
  {
  }

  lemma ReduceJobAdvances(p: Program, s: seq<KV>)
    ensures Advances(ReduceJob(p, s))
  {
  }

  /** `b` is one of the indices the thread loop visits from `a`. */
  ghost predicate OnPath(job: Job, a: nat, b: nat)
    requires Advances(job)
    decreases b - a
  {
    a == b || (a < b && job.next(a) <= b && OnPath(job, job.next(a), b))
  }

  lemma {:induction false} ScriptSplits(job: Job, a: nat, b: nat, c: nat)
    requires Advances(job) && OnPath(job, a, b) && b <= c
    ensures Script(job, a, c) == Script(job, a, b) + Script(job, b, c)
    decreases b - a
  {
    if a < b {
      ScriptSplits(job, job.next(a), b, c);
    }
  }

  lemma {:induction false} ConsecutiveScripts(job: Job, ranges: seq<Range>, count: nat)
    requires Advances(job) && ranges != [] && Consecutive(ranges, count)
    requires forall l :: 0 <= l < |ranges| ==> OnPath(job, 0, ranges[l].start)
    ensures AllScripts(job, ranges) == Script(job, 0, count)
    decreases |ranges|
  {
    var n := |ranges| - 1;
    if n == 0 {
      assert ranges[..0] == [];
    } else {
      var mid := ranges[n].start;
      assert ranges[n - 1].end == mid;
      ConsecutiveScripts(job, ranges[..n], mid);
      ScriptSplits(job, 0, mid, count);
    }
  }

  lemma {:induction false} MapPath(p: Program, input: seq<KV>, a: nat, b: nat)
    requires a <= b && Advances(MapJob(p, input))
    ensures OnPath(MapJob(p, input), a, b)
    decreases b - a
  {
    if a < b { MapPath(p, input, a + 1, b); }
  }

  lemma {:induction false} MapScript(p: Program, input: seq<KV>, n: nat)
    requires n <= |input| && Advances(MapJob(p, input))
    ensures Script(MapJob(p, input), 0, n) == MapAll(p, input[..n])
  {
    var job := MapJob(p, input);
    if n > 0 {
      MapScript(p, input, n - 1);
      MapPath(p, input, 0, n - 1);
      ScriptSplits(job, 0, n - 1, n);
      assert input[..n][..n - 1] == input[..n - 1];
      assert Script(job, n - 1, n) == job.emit(n - 1) + Script(job, n, n);
    }
  }

  lemma {:induction false} ReducePath(p: Program, s: seq<KV>, a: nat, b: nat)
    requires a <= b && Boundary(s, b) && Advances(ReduceJob(p, s))
    ensures OnPath(ReduceJob(p, s), a, b)
    decreases b - a
  {
    if a < b {
      ScanStaysInRange(s, a, b);
      ReducePath(p, s, RunEnd(s, a), b);
    }
  }

  lemma {:induction false} ReduceScript(p: Program, s: seq<KV>, i: nat)
    requires Advances(ReduceJob(p, s)) && i <= |s|
    requires forall a :: 0 <= a < |GroupsFrom(s, i)| ==>
        GroupsFrom(s, i)[a].values == Values(s, GroupsFrom(s, i)[a].key)
    ensures Script(ReduceJob(p, s), i, |s|) == ReduceKeys(p, s, GroupKeys(GroupsFrom(s, i)))
    decreases |s| - i
  {
    if i < |s| {
      var r := RunEnd(s, i);
      var g, rest := GroupsFrom(s, i), GroupsFrom(s, r);
      assert g[1..] == rest && g[0] == GroupAt(s, i);
      assert forall a :: 0 <= a < |rest| ==> rest[a] == g[a + 1];
      ReduceScript(p, s, r);
      assert GroupKeys(g)[1..] == GroupKeys(rest);
      assert Script(ReduceJob(p, s), i, |s|) == ReduceJob(p, s).emit(i) + Script(ReduceJob(p, s), r, |s|);
    }
  }

  /** In no reachable state of the reducer pool does a reducer wait on the condition
      variable, and none ever reads past its own range. */
  lemma ReducersNeverWait(p: Program, s: seq<KV>, reducers: nat, sched: seq<nat>, t: nat)
    requires reducers > 0 && Schedule(sched, reducers) && t < reducers
    ensures var ranges := RunRanges(s, reducers, reducers);
            var pool := Exec(ReduceJob(p, s), Start(ranges), sched);
            && pool.threads[t].end == ranges[t].end <= |s|
            && !Waits(ReduceJob(p, s), pool, t)
  {
    ReduceJobAdvances(p, s);
    var ranges := RunRanges(s, reducers, reducers);
    ExecKeepsInv(ReduceJob(p, s), ranges, sched);
    var pool := Exec(ReduceJob(p, s), Start(ranges), sched);
    assert OnScript(ReduceJob(p, s), ranges, pool, t);
    assert ranges[t] == RunRange(s, reducers, t);
  }

  // ---------------------------------------------------------------- order does not matter

  lemma BagCancel<T>(x: T, a: multiset<T>, b: multiset<T>)
    requires multiset{x} + a == multiset{x} + b
    ensures a == b
  {
    assert a == (multiset{x} + a) - multiset{x};
    assert b == (multiset{x} + b) - multiset{x};
  }

  lemma BagAround<T>(s: seq<T>, i: nat)
    requires i < |s|
    ensures multiset(s) == multiset{s[i]} + multiset(s[..i] + s[i + 1..])
  {
    assert s == s[..i] + ([s[i]] + s[i + 1..]);
    BagSwap(s[..i], s[i], s[i + 1..]);
  }

  lemma BagSwap<T>(a: seq<T>, x: T, b: seq<T>)
    ensures multiset(a + ([x] + b)) == multiset{x} + multiset(a + b)
  {
    assert multiset(a + ([x] + b)) == multiset(a) + multiset([x] + b);
    assert multiset([x] + b) == multiset{x} + multiset(b);
    assert multiset(a + b) == multiset(a) + multiset(b);
  }

  /** The first element of `s` has its counterpart in any permutation. */
  lemma Counterpart<T>(s: seq<T>, t: seq<T>) returns (i: nat)
    requires multiset(s) == multiset(t) && s != []
    ensures i < |t| && t[i] == s[0] && multiset(s[1..]) == multiset(t[..i] + t[i + 1..])
  {
    assert s[0] in multiset(s);
    i :| i < |t| && t[i] == s[0];
    BagAround(t, i);
    BagAround(s, 0);
    assert s[..0] + s[1..] == s[1..];
    BagCancel(s[0], multiset(s[1..]), multiset(t[..i] + t[i + 1..]));
  }

  lemma TruncateMiddle(a: seq<KV>, x: KV, b: seq<KV>)
    ensures multiset(TruncateAll(a + ([x] + b))) == multiset{Truncate(x)} + multiset(TruncateAll(a + b))
  {
    TruncateAllConcat(a, [x] + b);
    TruncateAllConcat([x], b);
    TruncateAllConcat(a, b);
    var ta, tb := TruncateAll(a), TruncateAll(b);
    assert TruncateAll([x]) == [Truncate(x)];
    BagSwap(ta, Truncate(x), tb);
  }

  lemma SplitAt<T>(t: seq<T>, i: nat)
    requires i < |t|
    ensures t == t[..i] + ([t[i]] + t[i + 1..])
  {
  }

  lemma {:induction false} TruncatePermutation(s: seq<KV>, t: seq<KV>)
    requires multiset(s) == multiset(t)
    ensures multiset(TruncateAll(s)) == multiset(TruncateAll(t))
    decreases |s|
  {
    if s == [] {
      assert |t| == |multiset(t)| == 0;
    } else {
      var i := Counterpart(s, t);
      var a, x, b, rest := t[..i], t[i], t[i + 1..], s[1..];
      SplitAt(t, i);
      SplitAt(s, 0);
      TruncatePermutation(rest, a + b);
      TruncateMiddle(a, x, b);
      TruncateMiddle([], x, rest);
      assert [] + rest == rest && [] + ([x] + rest) == s;
    }
  }

  lemma {:induction false} ReduceKeysConcat(p: Program, s: seq<KV>, a: seq<CStr>, b: seq<CStr>)
    ensures ReduceKeys(p, s, a + b) == ReduceKeys(p, s, a) + ReduceKeys(p, s, b)
  {
    if a == [] {
      assert a + b == b;
    } else {
      assert (a + b)[1..] == a[1..] + b;
      ReduceKeysConcat(p, s, a[1..], b);
    }
  }

  lemma MiddleOut(a: seq<KV>, x: seq<KV>, x': seq<KV>, b: seq<KV>, r: seq<KV>)
    requires multiset(x) == multiset(x') && multiset(r) == multiset(a + b)
    ensures multiset(x' + r) == multiset(a + x + b)
  {
    assert multiset(x' + r) == multiset(x') + multiset(r);
    assert multiset(a + b) == multiset(a) + multiset(b);
    assert multiset(a + x + b) == multiset(a) + multiset(x) + multiset(b);
  }

  lemma ReduceMiddle(p: Program, t: seq<KV>, a: seq<CStr>, k: CStr, b: seq<CStr>)
    ensures ReduceKeys(p, t, a + [k] + b) == ReduceKeys(p, t, a) + (p.reduce(k, Values(t, k)) + ReduceKeys(p, t, b))
    ensures ReduceKeys(p, t, a + b) == ReduceKeys(p, t, a) + ReduceKeys(p, t, b)
  {
    ReduceKeysConcat(p, t, a, b);
    ReduceKeysConcat(p, t, a, [k] + b);
    assert a + [k] + b == a + ([k] + b);
    assert ([k] + b)[1..] == b;
  }

  /** Reducing the same keys in another order, from another order of the pairs, emits the same bag. */
  lemma {:induction false} ReducePermutation(p: Program, s: seq<KV>, t: seq<KV>, ks: seq<CStr>, ls: seq<CStr>)
    requires OrderFree(p) && multiset(s) == multiset(t) && multiset(ks) == multiset(ls)
    ensures multiset(ReduceKeys(p, s, ks)) == multiset(ReduceKeys(p, t, ls))
    decreases |ks|
  {
    if ks == [] {
      assert |ls| == |multiset(ls)| == 0;
    } else {
      var i := Counterpart(ks, ls);
      var a, b := ls[..i], ls[i + 1..];
      assert ls == a + [ls[i]] + b;
      ReducePermutation(p, s, t, ks[1..], a + b);
      ReduceMiddle(p, t, a, ls[i], b);
      var x, x' := p.reduce(ls[i], Values(t, ls[i])), p.reduce(ks[0], Values(s, ks[0]));
      ValuesOfPermutation(s, t, ks[0]);
      MiddleOut(ReduceKeys(p, t, a), x, x', ReduceKeys(p, t, b), ReduceKeys(p, s, ks[1..]));
    }
  }

  lemma GroupKeysMember(g: seq<Group>, key: CStr)
    ensures key in GroupKeys(g) <==> HasGroup(g, key)
  {
    if key in GroupKeys(g) {
      var a :| 0 <= a < |g| && GroupKeys(g)[a] == key;
    }
    if HasGroup(g, key) {
      var a :| 0 <= a < |g| && g[a].key == key;
      assert GroupKeys(g)[a] == key;
    }
  }

  lemma KeyFromStart(s: seq<KV>, key: CStr)
    ensures KeyFrom(s, 0, key) <==> HasKey(s, key)
  {
  }

  /** The sorted array's group keys are the distinct keys of the unsorted one, each once. */
  lemma SortedKeys(sorted: seq<KV>, s: seq<KV>)
    requires SortOf(sorted, s) && AllShort(s)
    ensures multiset(GroupKeys(GroupsFrom(sorted, 0))) == multiset(DistinctKeys(s))
  {
    ShortPermutation(s, sorted);
    var g := GroupsFrom(sorted, 0);
    GroupsAreComplete(sorted, 0);
    AscendingNoRepeats(g);
    DistinctKeysOk(s);
    forall k
      ensures k in GroupKeys(g) <==> k in DistinctKeys(s)
    {
      GroupKeysMember(g, k);
      KeyFromStart(sorted, k);
      if HasKey(s, k) { KeysOfPermutation(s, sorted, k); }
      if HasKey(sorted, k) { KeysOfPermutation(sorted, s, k); }
    }
    SameKeysSameBag(GroupKeys(g), DistinctKeys(s));
  }

  lemma {:induction false} GroupCount(s: seq<KV>, i: nat)
    ensures |GroupsFrom(s, i)| == CountRuns(s, i)
    decreases |s| - i
  {
    if i < |s| { GroupCount(s, RunEnd(s, i)); }
  }

  /** The runs that are counted and handed out to the reducers are the distinct keys. */
  lemma RunsAreKeys(sorted: seq<KV>, s: seq<KV>)
    requires SortOf(sorted, s) && AllShort(s)
    ensures CountRuns(sorted, 0) == |DistinctKeys(s)| && NoRepeats(DistinctKeys(s))
    ensures forall key :: key in DistinctKeys(s) <==> HasKey(s, key)
  {
    GroupCount(sorted, 0);
    SortedKeys(sorted, s);
    DistinctKeysOk(s);
    var keys := GroupKeys(GroupsFrom(sorted, 0));
    assert |multiset(keys)| == |keys| && |multiset(DistinctKeys(s))| == |DistinctKeys(s)|;
  }

  // ---------------------------------------------------------------- the whole run

  /** Both pools run to the end under their schedules, with any sorted order in between. */
  ghost predicate IsRun(p: Program, input: seq<KV>, mappers: nat, reducers: nat,
                        sched1: seq<nat>, sorted1: seq<KV>, sched2: seq<nat>, sorted2: seq<KV>)
    requires mappers > 0 && reducers > 0
  {
    && Schedule(sched1, mappers) && Schedule(sched2, reducers)
    && var pool1 := Exec(MapJob(p, input), Start(BalancedRanges(|input|, mappers, mappers)), sched1);
    && pool1.AllDone() && SortOf(sorted1, pool1.arr)
    && var pool2 := Exec(ReduceJob(p, sorted1), Start(RunRanges(sorted1, reducers, reducers)), sched2);
    && pool2.AllDone() && SortOf(sorted2, pool2.arr)
  }

  /** After the mappers are joined the intermediate array holds exactly what the sequential
      map emits, whatever the schedule and the number of mappers. */
  lemma MapPhase(p: Program, input: seq<KV>, mappers: nat, sched: seq<nat>)
    requires mappers > 0 && Schedule(sched, mappers)
    requires Exec(MapJob(p, input), Start(BalancedRanges(|input|, mappers, mappers)), sched).AllDone()
    ensures multiset(Exec(MapJob(p, input), Start(BalancedRanges(|input|, mappers, mappers)), sched).arr)
            == multiset(Intermediate(p, input))
  {
    var job, ranges := MapJob(p, input), BalancedRanges(|input|, mappers, mappers);
    MapJobAdvances(p, input);
    FinishedRunContents(job, ranges, sched);
    MapScripts(p, input, mappers);
  }

  /** The mappers' emission sequences one after the other are the sequential ones. */
  lemma MapScripts(p: Program, input: seq<KV>, mappers: nat)
    requires mappers > 0 && Advances(MapJob(p, input))
    ensures AllScripts(MapJob(p, input), BalancedRanges(|input|, mappers, mappers)) ==
        Script(MapJob(p, input), 0, |input|)
    ensures TruncateAll(Script(MapJob(p, input), 0, |input|)) == Intermediate(p, input)
  {
    var job, ranges := MapJob(p, input), BalancedRanges(|input|, mappers, mappers);
    MapperRangesCover(|input|, mappers);
    forall l | 0 <= l < |ranges| ensures OnPath(job, 0, ranges[l].start) { MapPath(p, input, 0, ranges[l].start); }
    ConsecutiveScripts(job, ranges, |input|);
    MapScript(p, input, |input|);
    assert input[..|input|] == input;
  }

  /** After the reducers are joined the final array holds, as a bag, each key reduced once
      with all its values. */
  lemma ReducePhase(p: Program, s: seq<KV>, sorted: seq<KV>, reducers: nat, sched: seq<nat>)
    requires OrderFree(p) && AllShort(s) && SortOf(sorted, s) && reducers > 0 && Schedule(sched, reducers)
    requires Exec(ReduceJob(p, sorted), Start(RunRanges(sorted, reducers, reducers)), sched).AllDone()
    ensures multiset(Exec(ReduceJob(p, sorted), Start(RunRanges(sorted, reducers, reducers)), sched).arr)
            == multiset(TruncateAll(ReduceKeys(p, s, DistinctKeys(s))))
  {
    var job, ranges := ReduceJob(p, sorted), RunRanges(sorted, reducers, reducers);
    ReduceJobAdvances(p, sorted);
    FinishedRunContents(job, ranges, sched);
    ReducerRangesCover(sorted, reducers);
    forall l | 0 <= l < |ranges| ensures OnPath(job, 0, ranges[l].start) { ReducePath(p, sorted, 0, ranges[l].start); }
    ConsecutiveScripts(job, ranges, |sorted|);
    ShortPermutation(s, sorted);
    GroupsAreComplete(sorted, 0);
    ReduceScript(p, sorted, 0);
    SortedKeys(sorted, s);
    ReducePermutation(p, sorted, s, GroupKeys(GroupsFrom(sorted, 0)), DistinctKeys(s));
    TruncatePermutation(ReduceKeys(p, sorted, GroupKeys(GroupsFrom(sorted, 0))), ReduceKeys(p, s, DistinctKeys(s)));
  }

  /** Grouping a sorted permutation of `fin` lists its keys in order with their bags. */
  lemma OutputPhase(fin: seq<KV>, sorted: seq<KV>)
    requires AllShort(fin) && SortOf(sorted, fin)
    ensures GroupsOf(GroupsFrom(sorted, 0), fin)
  {
    ShortPermutation(fin, sorted);
    GroupsAreComplete(sorted, 0);
    var out := GroupsFrom(sorted, 0);
    forall key
      ensures HasGroup(out, key) <==> HasKey(fin, key)
    {
      KeyFromStart(sorted, key);
      if HasKey(fin, key) { KeysOfPermutation(fin, sorted, key); }
      if HasKey(sorted, key) { KeysOfPermutation(sorted, fin, key); }
    }
    forall a | 0 <= a < |out|
      ensures multiset(out[a].values) == multiset(Values(fin, out[a].key))
    {
      ValuesOfPermutation(fin, sorted, out[a].key);
    }
  }

  /** The engine computes the sequential group-by: for every run, the output lists the final
      keys of the sequential program in strictly ascending order, each with its bag of values. */
  lemma ParallelEqualsSequential(p: Program, input: seq<KV>, mappers: nat, reducers: nat,
                                 sched1: seq<nat>, sorted1: seq<KV>, sched2: seq<nat>, sorted2: seq<KV>)
    requires OrderFree(p) && mappers > 0 && reducers > 0
    requires IsRun(p, input, mappers, reducers, sched1, sorted1, sched2, sorted2)
    ensures GroupsOf(GroupsFrom(sorted2, 0), Final(p, input))
  {
    var s := Intermediate(p, input);
    MapPhase(p, input, mappers, sched1);
    assert SortOf(sorted1, s);
    ReducePhase(p, s, sorted1, reducers, sched2);
    assert SortOf(sorted2, Final(p, input));
    OutputPhase(Final(p, input), sorted2);
  }

  /** The specification leaves nothing open but the order of values under a key. */
  lemma OutputIsDetermined(a: seq<Group>, b: seq<Group>, fin: seq<KV>)
    requires GroupsOf(a, fin) && GroupsOf(b, fin)
    ensures |a| == |b| && forall k :: 0 <= k < |a| ==>
        a[k].key == b[k].key && multiset(a[k].values) == multiset(b[k].values)
  {
    AscendingSameKeys(a, b);
  }

  lemma {:induction false} AscendingSameKeys(a: seq<Group>, b: seq<Group>)
    requires Ascending(a) && Ascending(b) && forall key :: HasGroup(a, key) <==> HasGroup(b, key)
    ensures |a| == |b| && forall k :: 0 <= k < |a| ==> a[k].key == b[k].key
    decreases |a|
  {
    if a == [] {
      if b != [] { assert HasGroup(b, b[0].key); }
    } else {
      assert HasGroup(a, a[0].key);
      var j :| 0 <= j < |b| && b[j].key == a[0].key;
      assert HasGroup(b, b[0].key);
      var i :| 0 <= i < |a| && a[i].key == b[0].key;
      StrCmpOrder(a[0].key, b[0].key);
      StrCmpOrder(a[0].key, a[i].key);
      StrCmpOrder(b[0].key, b[j].key);
      assert a[0].key == b[0].key;
      forall key
        ensures HasGroup(a[1..], key) <==> HasGroup(b[1..], key)
      {
        TailKeys(a, key);
        TailKeys(b, key);
      }
      AscendingSameKeys(a[1..], b[1..]);
    }
  }

  lemma TailKeys(a: seq<Group>, key: CStr)
    requires Ascending(a) && a != []
    ensures Ascending(a[1..])
    ensures HasGroup(a[1..], key) <==> HasGroup(a, key) && key != a[0].key
  {
    assert a == [a[0]] + a[1..];
    ConsHasGroup(a[0], a[1..], key);
    StrCmpOrder(key, key);
    if HasGroup(a[1..], key) {
      var k :| 0 <= k < |a[1..]| && a[1..][k].key == key;
      assert StrCmp(a[0].key, a[k + 1].key) < 0;
    }
  }
}
