/** `mr_exec` of a10 interface.c as a program: the arrays it fills, the pools it runs, the
    sorts and the final grouping, proved to return the sequential group-by. */
module MapReduceEngine {
  import CStrings
  import GrowingArray
  import opened WorkerPool
  import opened Grouping
  import GroupByKey
  import opened MapReduce

  /** Runs the threads in the order of `sched`. Every emission goes through the array's own
      emission routine. */
  method RunPool(arr: GrowingArray.KVArray, job: Job, ranges: seq<Range>, sched: seq<nat>)
    requires arr.Valid() && arr.Contents() == [] && Schedule(sched, |ranges|)
    modifies arr, arr.pair
    ensures arr.Valid() && arr.Contents() == Exec(job, Start(ranges), sched).arr
    ensures arr.pair == old(arr.pair) || fresh(arr.pair)
    ensures |arr.Contents()| > 0 ==> arr.copied < 2 * |arr.Contents()|
  {
    var threads := Start(ranges).threads;
    for k := 0 to |sched|
      invariant arr.Valid() && (arr.pair == old(arr.pair) || fresh(arr.pair))
      invariant Schedule(sched[..k], |ranges|) && |threads| == |ranges|
      invariant arr.Contents() == Exec(job, Start(ranges), sched[..k]).arr
      invariant threads == Exec(job, Start(ranges), sched[..k]).threads
      invariant |arr.Contents()| > 0 ==> arr.copied < 2 * |arr.Contents()|
    {
      assert sched[..k + 1][..k] == sched[..k] && sched[..k + 1][k] == sched[k];
      var t := sched[k];
      var me := threads[t];
      if me.pending != [] {
        arr.Emit(me.pending[0].key, me.pending[0].value);
        threads := threads[t := me.(pending := me.pending[1..])];
      } else if me.i < me.end && job.ready {
        threads := threads[t := Thread(job.next(me.i), me.end, job.emit(me.i))];
      }
    }
    assert sched[..|sched|] == sched;
  }

  /** The calls to `pthread_join` return for both pools. */
  ghost predicate Joins(p: Program, input: seq<CStrings.KV>, mappers: nat, reducers: nat,
                        sched1: seq<nat>, qsort: seq<CStrings.KV> -> seq<CStrings.KV>, sched2: seq<nat>)
    requires mappers > 0 && reducers > 0
  {
    && Schedule(sched1, mappers) && Schedule(sched2, reducers)
    && var pool := Exec(MapJob(p, input), Start(BalancedRanges(|input|, mappers, mappers)), sched1);
    && pool.AllDone()
    && var sorted := qsort(pool.arr);
    && Exec(ReduceJob(p, sorted), Start(RunRanges(sorted, reducers, reducers)), sched2).AllDone()
  }

  /** `mr_exec`. `qsort` stands for whatever the library does with equal keys; the schedules
      say in which order the threads of each pool move. */
  method MrExec(p: Program, input: seq<CStrings.KV>, mappers: nat, reducers: nat,
                sched1: seq<nat>, qsort: seq<CStrings.KV> -> seq<CStrings.KV>, sched2: seq<nat>)
    returns (out: seq<Group>)
    requires mappers > 0 && reducers > 0 && OrderFree(p)
    requires forall s :: GroupByKey.SortOf(qsort(s), s)
    requires Joins(p, input, mappers, reducers, sched1, qsort, sched2)
    ensures GroupsOf(out, Final(p, input))
    ensures forall i, j :: 0 <= i < j < |out| ==> CStrings.BytesBefore(out[i].key, out[j].key)
    ensures forall pair :: pair in Final(p, input) ==> exists a :: 0 <= a < |out| && out[a].key == pair.key
    ensures forall a, v :: 0 <= a < |out| ==>
              multiset(out[a].values)[v] == multiset(Final(p, input))[CStrings.KV(out[a].key, v)]
  {
    var iArr := new GrowingArray.KVArray();
    var fArr := new GrowingArray.KVArray();
    var mapRanges := MapperRanges(|input|, mappers);
    RunPool(iArr, MapJob(p, input), mapRanges, sched1);
    ghost var pool1 := Exec(MapJob(p, input), Start(mapRanges), sched1);
    assert GroupByKey.SortOf(qsort(pool1.arr), pool1.arr);
    iArr.Reorder(qsort(iArr.Contents()));
    var sorted1 := iArr.Contents();

    var reduceRanges := ReducerRanges(sorted1, reducers);
    RunPool(fArr, ReduceJob(p, sorted1), reduceRanges, sched2);
    ghost var pool2 := Exec(ReduceJob(p, sorted1), Start(reduceRanges), sched2);
    assert GroupByKey.SortOf(qsort(pool2.arr), pool2.arr);
    fArr.Reorder(qsort(fArr.Contents()));
    var sorted2 := fArr.Contents();

    out := BuildOutput(sorted2);
    ParallelEqualsSequential(p, input, mappers, reducers, sched1, sorted1, sched2, sorted2);
    GroupsMean(out, Final(p, input));
  }
}
