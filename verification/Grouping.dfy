/** Cutting arrays into ranges and groups, as `mr_exec` and `reduce_thread` do in a10
    interface.c: balanced mapper ranges, runs of equal keys, reducer ranges, grouped output. */
module Grouping {
  import opened CStrings
  import opened WorkerPool

  datatype Group = Group(key: CStr, values: seq<CStr>)

  /** First index from `j` on whose key differs from the key at `i`, or the end. */
  function ScanFrom(s: seq<KV>, i: nat, j: nat): (r: nat)
    requires i < |s| && j <= |s|
    ensures j <= r <= |s|
    ensures forall k :: j <= k < r ==> s[k].key == s[i].key
    ensures r < |s| ==> s[r].key != s[i].key
    decreases |s| - j
  {
    if j < |s| && s[j].key == s[i].key then ScanFrom(s, i, j + 1) else j
  }

  /** Where the run of equal keys that begins at `i` ends. */
  function RunEnd(s: seq<KV>, i: nat): (r: nat)
    ensures r > i && (i < |s| ==> r <= |s|)
  {
    if i < |s| then ScanFrom(s, i, i + 1) else i + 1
  }

  /** The inner loop that all three passes share. It is bounded by the array alone. */
  method Scan(s: seq<KV>, i: nat) returns (j: nat)
    requires i < |s|
    ensures j == RunEnd(s, i)
  {
    j := i + 1;
    while j < |s| && StrCmp(s[i].key, s[j].key) == 0
      invariant i < j <= |s| && ScanFrom(s, i, j) == ScanFrom(s, i, i + 1)
    {
      StrCmpOrder(s[i].key, s[j].key);
      j := j + 1;
    }
    if j < |s| { StrCmpOrder(s[i].key, s[j].key); }
  }

  /** A place between two different keys, or either end. */
  predicate Boundary(s: seq<KV>, k: nat) {
    k <= |s| && (k == 0 || k == |s| || s[k - 1].key != s[k].key)
  }

  lemma RunEndIsBoundary(s: seq<KV>, i: nat)
    requires i < |s|
    ensures Boundary(s, RunEnd(s, i))
  {
    var r := RunEnd(s, i);
    assert r - 1 == i || s[r - 1].key == s[i].key;
  }

  lemma {:induction false} ScanFromStays(s: seq<KV>, i: nat, j: nat, end: nat)
    requires i < j <= end && Boundary(s, end) && s[j - 1].key == s[i].key
    ensures ScanFrom(s, i, j) <= end
    decreases end - j
  {
    if j < end && s[j].key == s[i].key { ScanFromStays(s, i, j + 1, end); }
  }

  /** A scan that starts inside a range ending on a boundary never passes that end. */
  lemma ScanStaysInRange(s: seq<KV>, i: nat, end: nat)
    requires i < end && Boundary(s, end)
    ensures RunEnd(s, i) <= end
  {
    ScanFromStays(s, i, i + 1, end);
  }

  function CountRuns(s: seq<KV>, i: nat): nat
    decreases |s| - i
  {
    if i >= |s| then 0 else 1 + CountRuns(s, RunEnd(s, i))
  }

  /** The index reached from `i` after `n` runs, or the end. */
  function SkipRuns(s: seq<KV>, i: nat, n: nat): (r: nat)
    requires i <= |s|
    ensures i <= r <= |s|
    decreases n
  {
    if n == 0 || i == |s| then i else SkipRuns(s, RunEnd(s, i), n - 1)
  }

  lemma {:induction false} SkipAll(s: seq<KV>, i: nat, n: nat)
    requires i <= |s| && n >= CountRuns(s, i)
    ensures SkipRuns(s, i, n) == |s|
    decreases n
  {
    if n > 0 && i < |s| { SkipAll(s, RunEnd(s, i), n - 1); }
  }

  lemma {:induction false} SkipAgain(s: seq<KV>, i: nat, n: nat, m: nat)
    requires i <= |s|
    ensures SkipRuns(s, SkipRuns(s, i, n), m) == SkipRuns(s, i, n + m)
    decreases n
  {
    if n > 0 && i < |s| { SkipAgain(s, RunEnd(s, i), n - 1, m); }
  }

  lemma {:induction false} SkipIsBoundary(s: seq<KV>, i: nat, n: nat)
    requires Boundary(s, i)
    ensures Boundary(s, SkipRuns(s, i, n))
    decreases n
  {
    if n > 0 && i < |s| {
      RunEndIsBoundary(s, i);
      SkipIsBoundary(s, RunEnd(s, i), n - 1);
    }
  }

  method CountKeys(s: seq<KV>) returns (total: nat)
    ensures total == CountRuns(s, 0)
  {
    total := 0;
    var i := 0;
    while i < |s|
      invariant i <= |s| && total + CountRuns(s, i) == CountRuns(s, 0)
      decreases |s| - i
    {
      total := total + 1;
      i := Scan(s, i);
    }
  }

  // ---------------------------------------------------------------- balanced shares

  /** How many of `total` items the `l`-th of `n` workers gets: the first `total % n` one more. */
  function Portion(total: nat, n: nat, l: nat): nat
    requires n > 0
  {
    total / n + if l < total % n then 1 else 0
  }

  /** Items that go to the workers before the `l`-th. */
  function Before(total: nat, n: nat, l: nat): nat
    requires n > 0
  {
    if l == 0 then 0 else Before(total, n, l - 1) + Portion(total, n, l - 1)
  }

  lemma {:induction false} BeforeClosed(total: nat, n: nat, l: nat)
    requires n > 0
    ensures Before(total, n, l) == l * (total / n) + (if l < total % n then l else total % n)
  {
    if l > 0 {
      BeforeClosed(total, n, l - 1);
      assert l * (total / n) == (l - 1) * (total / n) + total / n;
    }
  }

  /** The portions differ by at most one and add up to everything. */
  lemma PortionsSum(total: nat, n: nat)
    requires n > 0
    ensures Before(total, n, n) == total
    ensures forall l: nat, m: nat :: l < n && m < n ==> Portion(total, n, l) <= Portion(total, n, m) + 1
  {
    BeforeClosed(total, n, n);
  }

  ghost predicate Consecutive(ranges: seq<Range>, count: nat) {
    && (forall l :: 0 <= l < |ranges| ==> ranges[l].start <= ranges[l].end)
    && (forall l :: 0 < l < |ranges| ==> ranges[l - 1].end == ranges[l].start)
    && (|ranges| > 0 ==> ranges[0].start == 0 && ranges[|ranges| - 1].end == count)
  }

  /** The first `m` of `n` balanced index ranges over `count` items. */
  function BalancedRanges(count: nat, n: nat, m: nat): (r: seq<Range>)
    requires n > 0
    ensures |r| == m
    ensures forall l: nat :: l < m ==> r[l] == Range(Before(count, n, l), Before(count, n, l + 1))
  {
    if m == 0 then [] else BalancedRanges(count, n, m - 1) + [Range(Before(count, n, m - 1), Before(count, n, m))]
  }

  /** The mapper creation loop. */
  method MapperRanges(count: nat, mappers: nat) returns (ranges: seq<Range>)
    requires mappers > 0
    ensures ranges == BalancedRanges(count, mappers, mappers)
  {
    var perMap, extra := count / mappers, count % mappers;
    var index := 0;
    ranges := [];
    for i := 0 to mappers
      invariant index == Before(count, mappers, i) && ranges == BalancedRanges(count, mappers, i)
    {
      var start := index;
      var end := if i < extra then start + perMap + 1 else start + perMap;
      ranges := ranges + [Range(start, end)];
      index := end;
    }
  }

  /** Mapper ranges are consecutive and cover the whole input. */
  lemma MapperRangesCover(count: nat, mappers: nat)
    requires mappers > 0
    ensures Consecutive(BalancedRanges(count, mappers, mappers), count)
  {
    var r := BalancedRanges(count, mappers, mappers);
    assert Before(count, mappers, mappers) == count by { PortionsSum(count, mappers); }
    forall l | 0 < l < |r|
      ensures r[l - 1].end == r[l].start
    {
      assert r[l - 1] == Range(Before(count, mappers, l - 1), Before(count, mappers, l));
      assert r[l] == Range(Before(count, mappers, l), Before(count, mappers, l + 1));
    }
    forall l | 0 <= l < |r|
      ensures r[l].start <= r[l].end
    {
      assert r[l] == Range(Before(count, mappers, l), Before(count, mappers, l + 1));
    }
    assert r[0] == Range(Before(count, mappers, 0), Before(count, mappers, 1));
    assert r[mappers - 1] == Range(Before(count, mappers, mappers - 1), Before(count, mappers, mappers));
  }

  /** They differ in size by at most one. */
  lemma MapperRangesBalanced(count: nat, mappers: nat, l: nat, m: nat)
    requires mappers > 0 && l < mappers && m < mappers
    ensures var r := BalancedRanges(count, mappers, mappers);
            r[l].end - r[l].start == Portion(count, mappers, l) <= r[m].end - r[m].start + 1
  {
    assert BalancedRanges(count, mappers, mappers)[l] ==
        Range(Before(count, mappers, l), Before(count, mappers, l + 1));
    assert BalancedRanges(count, mappers, mappers)[m] ==
        Range(Before(count, mappers, m), Before(count, mappers, m + 1));
  }

  /** The first `m` of `n` ranges of whole runs, balanced by number of keys. */
  function RunRanges(s: seq<KV>, n: nat, m: nat): (r: seq<Range>)
    requires n > 0
    ensures |r| == m
    ensures forall l: nat :: l < m ==> r[l] == RunRange(s, n, l)
  {
    if m == 0 then [] else RunRanges(s, n, m - 1) + [RunRange(s, n, m - 1)]
  }

  function RunRange(s: seq<KV>, n: nat, l: nat): Range
    requires n > 0
  {
    Range(CutPoint(s, n, l), CutPoint(s, n, l + 1))
  }

  /** Where the `l`-th of `n` reducers begins. */
  function CutPoint(s: seq<KV>, n: nat, l: nat): nat
    requires n > 0
  {
    SkipRuns(s, 0, Before(CountRuns(s, 0), n, l))
  }

  /** Advances over `target` runs: the loop that hands keys to one reducer. */
  method TakeKeys(s: seq<KV>, start: nat, target: nat) returns (i: nat)
    requires start <= |s|
    ensures i == SkipRuns(s, start, target)
  {
    i := start;
    var keysTaken := 0;
    while i < |s| && keysTaken < target
      invariant i <= |s| && keysTaken <= target
      invariant SkipRuns(s, i, target - keysTaken) == SkipRuns(s, start, target)
      decreases |s| - i
    {
      i := Scan(s, i);
      keysTaken := keysTaken + 1;
    }
  }

  lemma NextCut(s: seq<KV>, n: nat, l: nat)
    requires n > 0
    ensures CutPoint(s, n, l) <= |s|
    ensures CutPoint(s, n, l + 1) == SkipRuns(s, CutPoint(s, n, l), Portion(CountRuns(s, 0), n, l))
  {
    SkipAgain(s, 0, Before(CountRuns(s, 0), n, l), Portion(CountRuns(s, 0), n, l));
  }

  /** The reducer creation loop. */
  method ReducerRanges(s: seq<KV>, reducers: nat) returns (ranges: seq<Range>)
    requires reducers > 0
    ensures ranges == RunRanges(s, reducers, reducers)
  {
    var totalKeys := CountKeys(s);
    var perReducer, extra := totalKeys / reducers, totalKeys % reducers;
    var i := 0;
    ranges := [];
    for l := 0 to reducers
      invariant i <= |s| && i == CutPoint(s, reducers, l) && ranges == RunRanges(s, reducers, l)
    {
      var start := i;
      var target := if l < extra then perReducer + 1 else perReducer;
      NextCut(s, reducers, l);
      i := TakeKeys(s, start, target);
      ranges := ranges + [Range(start, i)];
    }
  }

  /** Reducer ranges are consecutive, begin and end between two different keys, cover the
      whole array, and are balanced: their numbers of keys add up to all keys. */
  lemma ReducerRangesCover(s: seq<KV>, reducers: nat)
    requires reducers > 0
    ensures var r := RunRanges(s, reducers, reducers);
            && Consecutive(r, |s|)
            && (forall l: nat :: l < reducers ==> Boundary(s, r[l].start) && Boundary(s, r[l].end))
            && Before(CountRuns(s, 0), reducers, reducers) == CountRuns(s, 0)
  {
    var total := CountRuns(s, 0);
    var r := RunRanges(s, reducers, reducers);
    PortionsSum(total, reducers);
    SkipAll(s, 0, total);
    forall l: nat | l < reducers
      ensures Boundary(s, r[l].start) && Boundary(s, r[l].end) && r[l].start <= r[l].end
    {
      SkipIsBoundary(s, 0, Before(total, reducers, l));
      SkipIsBoundary(s, 0, Before(total, reducers, l + 1));
      SkipAgain(s, 0, Before(total, reducers, l), Portion(total, reducers, l));
    }
    forall l | 0 < l < |r|
      ensures r[l - 1].end == r[l].start
    {
      assert r[l - 1] == RunRange(s, reducers, l - 1);
      assert r[l] == RunRange(s, reducers, l);
    }
    assert r[reducers - 1] == RunRange(s, reducers, reducers - 1);
  }

  /** Skipping `n` runs leaves `n` runs fewer. */
  lemma {:induction false} SkipCounts(s: seq<KV>, i: nat, n: nat)
    requires i <= |s| && n <= CountRuns(s, i)
    ensures CountRuns(s, SkipRuns(s, i, n)) == CountRuns(s, i) - n
    decreases n
  {
    if n > 0 { SkipCounts(s, RunEnd(s, i), n - 1); }
  }

  lemma {:induction false} BeforeGrows(total: nat, n: nat, l: nat, m: nat)
    requires n > 0 && l <= m
    ensures Before(total, n, l) <= Before(total, n, m)
    decreases m
  {
    if l < m { BeforeGrows(total, n, l, m - 1); }
  }

  lemma CutCounts(s: seq<KV>, n: nat, l: nat)
    requires n > 0 && l <= n
    ensures CutPoint(s, n, l) <= |s|
    ensures CountRuns(s, CutPoint(s, n, l)) == CountRuns(s, 0) - Before(CountRuns(s, 0), n, l)
  {
    var total := CountRuns(s, 0);
    BeforeGrows(total, n, l, n);
    PortionsSum(total, n);
    SkipCounts(s, 0, Before(total, n, l));
  }

  /** Each reducer gets exactly its portion of the keys: between the start and the end of its
      range lie that many runs. So no reducer gets two keys more than another. */
  lemma ReducerRangesBalanced(s: seq<KV>, reducers: nat, l: nat)
    requires l < reducers
    ensures var r := RunRanges(s, reducers, reducers)[l];
            && r.start <= |s| && r.end <= |s|
            && CountRuns(s, r.start) - CountRuns(s, r.end) == Portion(CountRuns(s, 0), reducers, l)
  {
    CutCounts(s, reducers, l);
    CutCounts(s, reducers, l + 1);
    assert RunRanges(s, reducers, reducers)[l] == RunRange(s, reducers, l);
  }

  // ---------------------------------------------------------------- groups

  function ValuesIn(s: seq<KV>, i: nat, j: nat): (r: seq<CStr>)
    requires i <= j <= |s|
    ensures |r| == j - i
  {
    if i == j then [] else ValuesIn(s, i, j - 1) + [Cut(s[j - 1].value, MAX_VALUE_SIZE - 1)]
  }

  function GroupAt(s: seq<KV>, i: nat): Group
    requires i < |s|
  {
    Group(Cut(s[i].key, MAX_KEY_SIZE - 1), ValuesIn(s, i, RunEnd(s, i)))
  }

  function GroupsFrom(s: seq<KV>, i: nat): seq<Group>
    decreases |s| - i
  {
    if i >= |s| then [] else [GroupAt(s, i)] + GroupsFrom(s, RunEnd(s, i))
  }

  method CollectGroup(s: seq<KV>, i: nat, j: nat) returns (g: Group)
    requires i < |s| && j == RunEnd(s, i)
    ensures g == GroupAt(s, i)
  {
    var values := [];
    for k := 0 to j - i
      invariant values == ValuesIn(s, i, i + k)
    {
      values := values + [Cut(s[i + k].value, MAX_VALUE_SIZE - 1)];
    }
    g := Group(Cut(s[i].key, MAX_KEY_SIZE - 1), values);
  }

  /** The last pass of `mr_exec`. */
  method BuildOutput(s: seq<KV>) returns (out: seq<Group>)
    ensures out == GroupsFrom(s, 0)
  {
    out := [];
    var i := 0;
    while i < |s|
      invariant i <= |s| && out + GroupsFrom(s, i) == GroupsFrom(s, 0)
      decreases |s| - i
    {
      var j := Scan(s, i);
      var g := CollectGroup(s, i, j);
      out := out + [g];
      i := j;
    }
  }
}
