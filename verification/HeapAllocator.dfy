/** a9 alloc.c itself: static variables, headers kept inside the managed memory, and
    pointer-walking loops, proved against the heap state machine. Address 0 is NULL. */
module HeapAllocator {
  import opened HeapMemory
  import opened HeapLayout
  import opened HeapSpec
  import opened HeapRuns

  const NULL: int := 0

  function AddrAt(fs: seq<Chunk>, i: nat): int { if i < |fs| then fs[i].addr else NULL }

  /** The header of `c` in memory: its size word, then its link word. */
  predicate HeaderIs(m: Mem, c: Chunk, next: int) { Holds(m, c.addr, c.size) && Holds(m, c.addr + WORD, next) }

  predicate HeaderAt(m: Mem, fs: seq<Chunk>, i: nat)
    requires i < |fs|
  {
    HeaderIs(m, fs[i], AddrAt(fs, i + 1))
  }

  predicate Headers(m: Mem, fs: seq<Chunk>) { forall i: nat :: i < |fs| ==> HeaderAt(m, fs, i) }

  /** Following the links from `head` visits exactly `fs` and ends in NULL. */
  predicate Linked(m: Mem, head: int, fs: seq<Chunk>) { head == AddrAt(fs, 0) && Headers(m, fs) }

  /** Every live block still carries its size. */
  predicate SizesHeld(m: Mem, l: Layout) {
    forall i: nat :: i < |l| && l[i].kind == Live ==> Holds(m, l[i].addr, l[i].size)
  }

  /** No byte, header or payload, of a live block other than the one at `except` changed. */
  predicate Kept(m: Mem, m': Mem, l: Layout, except: int) {
    forall i: nat :: i < |l| && l[i].kind == Live && l[i].addr != except ==> Same(m, m', l[i].addr, l[i].End())
  }

  predicate InHeader(fs: seq<Chunk>, b: int) { exists c :: c in fs && c.addr <= b < c.addr + HEADER_SIZE }

  predicate InLink(c: Chunk, b: int) { c.addr + WORD <= b < c.addr + HEADER_SIZE }

  lemma HeaderFrame(m: Mem, m': Mem, c: Chunk, next: int)
    requires HeaderIs(m, c, next) && Same(m, m', c.addr, c.addr + HEADER_SIZE)
    ensures HeaderIs(m', c, next)
  {
    HoldsFrame(m, m', c.addr, c.size);
    HoldsFrame(m, m', c.addr + WORD, next);
  }

  // ---------------------------------------------------------------- list surgery in memory

  function Merged(g: seq<Chunk>, i: nat): seq<Chunk>
    requires i + 1 < |g|
  {
    g[..i] + [Merge(g[i], g[i + 1])] + g[i + 2..]
  }

  lemma {:induction false} MergedSorted(g: seq<Chunk>, i: nat, lo: int, hi: int)
    requires Sorted(g, lo, hi) && i + 1 < |g| && g[i].End() == g[i + 1].addr
    ensures Sorted(Merged(g, i), lo, hi)
  {
    if i == 0 {
      assert Merged(g, 0)[1..] == g[2..] == g[1..][1..];
    } else {
      MergedSorted(g[1..], i - 1, g[0].End(), hi);
      assert Merged(g, i)[1..] == Merged(g[1..], i - 1);
    }
  }

  lemma MergedLinked(m: Mem, m': Mem, head: int, g: seq<Chunk>, i: nat, lo: int, hi: int)
    requires Linked(m, head, g) && Sorted(g, lo, hi) && i + 1 < |g|
    requires HeaderIs(m', Merge(g[i], g[i + 1]), AddrAt(g, i + 2))
    requires forall b :: b in m && !(g[i].addr <= b < g[i].addr + HEADER_SIZE) ==> b in m' && m'[b] == m[b]
    ensures Linked(m', head, Merged(g, i))
  {
    var r := Merged(g, i);
    forall k: nat | k < |r|
      ensures HeaderAt(m', r, k)
    {
      SortedOrder(g, lo, hi, i);
      if k < i {
        SortedOrder(g, lo, hi, k);
        assert HeaderAt(m, g, k);
        HeaderFrame(m, m', g[k], AddrAt(g, k + 1));
      } else if k > i {
        assert HeaderAt(m, g, k + 1);
        HeaderFrame(m, m', g[k + 1], AddrAt(g, k + 2));
      }
    }
  }

  lemma {:induction false} AddressesPositive(g: seq<Chunk>, lo: int, hi: int)
    requires 0 < lo && Sorted(g, lo, hi)
    ensures forall k :: 0 <= k < |g| ==> g[k].addr > 0
    ensures forall k: nat :: AddrAt(g, k) == NULL <==> k >= |g|
  {
    SortedFrom(g, lo, hi);
  }

  /** The pass at position `i`: merge with the next block, step over it, or stop. */
  lemma MergePassAt(g: seq<Chunk>, i: nat)
    requires i < |g|
    ensures i + 1 == |g| ==> g[..i] + MergePass(g[i..]) == g
    ensures i + 1 < |g| && g[i].End() == g[i + 1].addr ==>
              MergePass(g[i..]) == MergePass(Merged(g, i)[i..]) && g[..i] == Merged(g, i)[..i]
    ensures i + 1 < |g| && g[i].End() != g[i + 1].addr ==>
              g[..i] + MergePass(g[i..]) == g[..i + 1] + MergePass(g[i + 1..])
  {
    var t := g[i..];
    if i + 1 < |g| {
      assert t[1..] == g[i + 1..] && t[2..] == g[i + 2..];
      MergedFrom(g, i);
      assert g[..i] + [g[i]] == g[..i + 1];
    }
  }

  lemma MergedFrom(g: seq<Chunk>, i: nat)
    requires i + 1 < |g|
    ensures Merged(g, i)[i..] == [Merge(g[i], g[i + 1])] + g[i + 2..] && Merged(g, i)[..i] == g[..i]
  {
  }

  lemma MergedHeaders(g: seq<Chunk>, i: nat)
    requires i + 1 < |g|
    ensures forall b :: InHeader(Merged(g, i), b) ==> InHeader(g, b)
    ensures Merged(g, i)[|Merged(g, i)| - 1].addr <= g[|g| - 1].addr || i + 2 == |g|
  {
    forall b | InHeader(Merged(g, i), b)
      ensures InHeader(g, b)
    {
      var c :| c in Merged(g, i) && c.addr <= b < c.addr + HEADER_SIZE;
      if c !in g { assert g[i] in g; }
    }
  }

  lemma HeaderFrameLast(m: Mem, m': Mem, g: seq<Chunk>, i: nat, fs: seq<Chunk>, lo: int, hi: int)
    requires Sorted(g, lo, hi) && i + 1 < |g| && fs != [] && g[|g| - 1].addr <= fs[|fs| - 1].addr
    requires HeaderIs(m, fs[|fs| - 1], NULL)
    requires forall b :: b in m && !(g[i].addr <= b < g[i].addr + HEADER_SIZE) ==> b in m' && m'[b] == m[b]
    ensures HeaderIs(m', fs[|fs| - 1], NULL)
  {
    SortedOrder(g, lo, hi, i);
    HeaderFrame(m, m', fs[|fs| - 1], NULL);
  }

  /** The coalescing loop when it stands at position `i` of the current list `g`, having
      started from the list `fs` in memory `m0`. */
  ghost predicate Passing(m0: Mem, m: Mem, head: int, fs: seq<Chunk>, g: seq<Chunk>, i: nat, lo: int, hi: int) {
    && i <= |g| && 0 < lo
    && Sorted(g, lo, hi) && Linked(m, head, g) && Mapped(m, lo, hi - lo)
    && MergePass(fs) == g[..i] + MergePass(g[i..])
    && m.Keys == m0.Keys
    && (forall b :: InHeader(g, b) ==> InHeader(fs, b))
    && (forall b :: b in m0 && !InHeader(fs, b) ==> m[b] == m0[b])
    && (fs != [] ==> g != [] && g[|g| - 1].addr <= fs[|fs| - 1].addr && HeaderIs(m, fs[|fs| - 1], NULL))
    && (fs == [] ==> g == [])
  }

  lemma PassingStart(m: Mem, head: int, fs: seq<Chunk>, lo: int, hi: int)
    requires 0 < lo && Sorted(fs, lo, hi) && Mapped(m, lo, hi - lo) && Linked(m, head, fs)
    ensures Passing(m, m, head, fs, fs, 0, lo, hi)
    ensures AddrAt(fs, 0) != NULL <==> fs != []
  {
    assert fs[..0] == [] && fs[0..] == fs;
    AddressesPositive(fs, lo, hi);
    if fs != [] { assert HeaderAt(m, fs, |fs| - 1); }
  }

  lemma PassingLoads(m: Mem, head: int, g: seq<Chunk>, i: nat, lo: int, hi: int)
    requires Sorted(g, lo, hi) && Linked(m, head, g) && Mapped(m, lo, hi - lo) && 0 < lo && i < |g|
    ensures HeaderAt(m, g, i) && Mapped(m, g[i].addr, HEADER_SIZE) && g[i].addr > 0
    ensures Intact(m, g[i].addr) && Load(m, g[i].addr) == g[i].size
    ensures Intact(m, g[i].addr + WORD) && Load(m, g[i].addr + WORD) == AddrAt(g, i + 1)
    ensures AddrAt(g, i + 1) != NULL <==> i + 1 < |g|
  {
    assert HeaderAt(m, g, i);
    AddressesPositive(g, lo, hi);
  }

  /** The two stores of a merge, in the order the code makes them. */
  lemma MergeStores(m: Mem, head: int, g: seq<Chunk>, i: nat, lo: int, hi: int)
    requires Sorted(g, lo, hi) && Linked(m, head, g) && i + 1 < |g|
    requires Mapped(m, g[i].addr, HEADER_SIZE)
    ensures var m1 := Store(m, g[i].addr, g[i].size + HEADER_SIZE + g[i + 1].size);
            && Intact(m1, g[i + 1].addr + WORD) && Load(m1, g[i + 1].addr + WORD) == AddrAt(g, i + 2)
            && Mapped(m1, g[i].addr + WORD, WORD)
            && var m2 := Store(m1, g[i].addr + WORD, AddrAt(g, i + 2));
            && m2.Keys == m.Keys && HeaderIs(m2, Merge(g[i], g[i + 1]), AddrAt(g, i + 2))
            && forall b :: b in m && !(g[i].addr <= b < g[i].addr + HEADER_SIZE) ==> m2[b] == m[b]
  {
    SortedOrder(g, lo, hi, i);
    assert HeaderAt(m, g, i + 1);
    var m1 := Store(m, g[i].addr, g[i].size + HEADER_SIZE + g[i + 1].size);
    HoldsFrame(m, m1, g[i + 1].addr + WORD, AddrAt(g, i + 2));
    var m2 := Store(m1, g[i].addr + WORD, AddrAt(g, i + 2));
    HoldsFrame(m1, m2, g[i].addr, Merge(g[i], g[i + 1]).size);
  }

  lemma PassingMerge(m0: Mem, m: Mem, m': Mem, head: int, fs: seq<Chunk>, g: seq<Chunk>, i: nat, lo: int, hi: int)
    requires Passing(m0, m, head, fs, g, i, lo, hi) && i + 1 < |g| && g[i].End() == g[i + 1].addr
    requires m'.Keys == m.Keys && HeaderIs(m', Merge(g[i], g[i + 1]), AddrAt(g, i + 2))
    requires forall b :: b in m && !(g[i].addr <= b < g[i].addr + HEADER_SIZE) ==> b in m' && m'[b] == m[b]
    ensures Passing(m0, m', head, fs, Merged(g, i), i, lo, hi)
    ensures HeaderAt(m', Merged(g, i), i) && AddrAt(Merged(g, i), i) == g[i].addr
  {
    HeaderFrameLast(m, m', g, i, fs, lo, hi);
    MergedLinked(m, m', head, g, i, lo, hi);
    MergedSorted(g, i, lo, hi);
    MergedHeaders(g, i);
    MergePassAt(g, i);
    SortedOrder(g, lo, hi, i);
    assert HeaderAt(m', Merged(g, i), i);
    assert g[i] in g;
    assert forall b :: b in m0 && !InHeader(fs, b) ==> !InHeader(g, b);
  }

  lemma PassingNext(m0: Mem, m: Mem, head: int, fs: seq<Chunk>, g: seq<Chunk>, i: nat, lo: int, hi: int)
    requires Passing(m0, m, head, fs, g, i, lo, hi) && i + 1 < |g| && g[i].End() != g[i + 1].addr
    ensures Passing(m0, m, head, fs, g, i + 1, lo, hi) && HeaderAt(m, g, i + 1)
  {
    MergePassAt(g, i);
    assert HeaderAt(m, g, i + 1);
  }

  lemma PassingEnd(m0: Mem, m: Mem, head: int, fs: seq<Chunk>, g: seq<Chunk>, i: nat, lo: int, hi: int)
    requires Passing(m0, m, head, fs, g, i, lo, hi) && (AddrAt(g, i) == NULL || AddrAt(g, i + 1) == NULL)
    ensures MergePass(fs) == g
  {
    AddressesPositive(g, lo, hi);
    if i < |g| {
      MergePassAt(g, i);
    } else {
      assert g[..i] == g && g[i..] == [];
    }
  }

  /** `fs` with `c` linked in before position `j`. */
  function Inserted(fs: seq<Chunk>, j: nat, c: Chunk): seq<Chunk>
    requires j <= |fs|
  {
    fs[..j] + [c] + fs[j..]
  }

  lemma InsertedAway(m: Mem, m': Mem, fs: seq<Chunk>, j: nat, c: Chunk, lo: int, hi: int, k: nat)
    requires Headers(m, fs) && j <= |fs| && Sorted(Inserted(fs, j, c), lo, hi)
    requires k <= |fs| && (k < j - 1 || k > j)
    requires forall b :: b in m && !InLink(c, b) && !(j > 0 && InLink(fs[j - 1], b)) ==> b in m' && m'[b] == m[b]
    ensures HeaderAt(m', Inserted(fs, j, c), k)
  {
    var r, q := Inserted(fs, j, c), if k < j then k else k - 1;
    SortedOrder(r, lo, hi, k);
    SortedOrder(r, lo, hi, j);
    if j > 0 { SortedOrder(r, lo, hi, j - 1); }
    assert HeaderAt(m, fs, q);
    HeaderFrame(m, m', fs[q], AddrAt(fs, q + 1));
  }

  lemma InsertedHere(m: Mem, m': Mem, fs: seq<Chunk>, j: nat, c: Chunk, lo: int, hi: int, k: nat)
    requires Headers(m, fs) && j <= |fs| && Sorted(Inserted(fs, j, c), lo, hi)
    requires k <= |fs| && j - 1 <= k <= j
    requires Holds(m, c.addr, c.size) && Holds(m', c.addr + WORD, AddrAt(fs, j))
    requires j > 0 ==> Holds(m', fs[j - 1].addr + WORD, c.addr)
    requires forall b :: b in m && !InLink(c, b) && !(j > 0 && InLink(fs[j - 1], b)) ==> b in m' && m'[b] == m[b]
    ensures HeaderAt(m', Inserted(fs, j, c), k)
  {
    var r := Inserted(fs, j, c);
    SortedOrder(r, lo, hi, j);
    if j > 0 { SortedOrder(r, lo, hi, j - 1); }
    if k < j { assert HeaderAt(m, fs, k); }
    HoldsFrame(m, m', r[k].addr, r[k].size);
  }

  lemma InsertedLinked(m: Mem, m': Mem, head: int, head': int, fs: seq<Chunk>, j: nat, c: Chunk, lo: int, hi: int)
    requires Linked(m, head, fs) && j <= |fs| && Sorted(Inserted(fs, j, c), lo, hi)
    requires Holds(m, c.addr, c.size) && Holds(m', c.addr + WORD, AddrAt(fs, j))
    requires if j == 0 then head' == c.addr else head' == head && Holds(m', fs[j - 1].addr + WORD, c.addr)
    requires forall b :: b in m && !InLink(c, b) && !(j > 0 && InLink(fs[j - 1], b)) ==> b in m' && m'[b] == m[b]
    ensures Linked(m', head', Inserted(fs, j, c))
  {
    var r := Inserted(fs, j, c);
    forall k: nat | k < |r|
      ensures HeaderAt(m', r, k)
    {
      if k < j - 1 || k > j {
        InsertedAway(m, m', fs, j, c, lo, hi, k);
      } else {
        InsertedHere(m, m', fs, j, c, lo, hi, k);
      }
    }
  }

  lemma PlaceApart(fs: seq<Chunk>, j: nat, c: Chunk, lo: int, hi: int)
    requires j <= |fs| && Sorted(Inserted(fs, j, c), lo, hi)
    ensures j > 0 ==> fs[j - 1].addr + HEADER_SIZE <= c.addr
  {
    if j > 0 {
      var r := Inserted(fs, j, c);
      SortedOrder(r, lo, hi, j - 1);
      assert r[j - 1] == fs[j - 1] && r[j] == c;
    }
  }

  /** `fs` with the block at `j` replaced by its remainder `rest` (none or one chunk). */
  function Spliced(fs: seq<Chunk>, j: nat, rest: seq<Chunk>): seq<Chunk>
    requires j < |fs|
  {
    fs[..j] + rest + fs[j + 1..]
  }

  predicate SpliceWrites(m: Mem, m': Mem, fs: seq<Chunk>, j: nat)
    requires j < |fs|
  {
    forall b :: b in m && !fs[j].Contains(b) && !(j > 0 && InLink(fs[j - 1], b)) ==> b in m' && m'[b] == m[b]
  }

  lemma SpliceKeeps(m: Mem, m': Mem, fs: seq<Chunk>, j: nat, k: nat, lo: int, hi: int)
    requires Headers(m, fs) && j < |fs| && k < |fs| && k != j && Sorted(fs, lo, hi)
    requires SpliceWrites(m, m', fs, j)
    ensures Holds(m', fs[k].addr, fs[k].size)
    ensures k + 1 != j ==> HeaderAt(m', fs, k)
  {
    assert HeaderAt(m, fs, k);
    SortedOrder(fs, lo, hi, j);
    SortedOrder(fs, lo, hi, k);
    if j > 0 { SortedOrder(fs, lo, hi, j - 1); }
    HoldsFrame(m, m', fs[k].addr, fs[k].size);
    if k + 1 != j { HeaderFrame(m, m', fs[k], AddrAt(fs, k + 1)); }
  }

  lemma SplicedHeaders(m: Mem, m': Mem, fs: seq<Chunk>, j: nat, rest: seq<Chunk>, lo: int, hi: int)
    requires Headers(m, fs) && j < |fs| && Sorted(fs, lo, hi) && |rest| <= 1
    requires rest != [] ==> HeaderIs(m', rest[0], AddrAt(fs, j + 1))
    requires j > 0 ==> Holds(m', fs[j - 1].addr + WORD, if rest != [] then rest[0].addr else AddrAt(fs, j + 1))
    requires SpliceWrites(m, m', fs, j)
    ensures Headers(m', Spliced(fs, j, rest))
  {
    var r := Spliced(fs, j, rest);
    forall k: nat | k < |r|
      ensures HeaderAt(m', r, k)
    {
      if k < j {
        SpliceKeeps(m, m', fs, j, k, lo, hi);
      } else if k >= j + |rest| {
        SpliceKeeps(m, m', fs, j, k - |rest| + 1, lo, hi);
      }
    }
  }

  lemma InsertionIndex(a: seq<Chunk>, b: seq<Chunk>, j: nat, x: int)
    requires j <= |a + b| && (forall k :: 0 <= k < j ==> (a + b)[k].addr < x) && (j < |a + b| ==> (a + b)[j].addr >= x)
    requires (forall k :: 0 <= k < |a| ==> a[k].addr < x) && (b != [] ==> b[0].addr >= x)
    ensures (a + b)[..j] == a && (a + b)[j..] == b
  {
    assert forall k :: 0 <= k < |a| ==> (a + b)[k] == a[k];
    assert b != [] ==> (a + b)[|a|] == b[0];
    assert j == |a|;
  }

  lemma FreeAround(l: Layout, i: nat, lo: int, hi: int)
    requires Tiles(l, lo, hi) && i < |l|
    ensures forall k :: 0 <= k < |FreeList(l[..i])| ==> FreeList(l[..i])[k].addr < l[i].addr
    ensures FreeList(l[i + 1..]) != [] ==> FreeList(l[i + 1..])[0].addr >= l[i].addr
  {
    var mid := TilesSplit(l, i, lo, hi);
    var a, b := FreeList(l[..i]), FreeList(l[i + 1..]);
    SortedOfKind(l[..i], Free, lo, mid);
    SortedOfKind(l[i + 1..], Free, l[i].End(), hi);
    forall k | 0 <= k < |a| ensures a[k].addr < l[i].addr { SortedOrder(a, lo, mid, k); }
    if b != [] { SortedOrder(b, l[i].End(), hi, 0); }
  }

  lemma RetagFree(l: Layout, i: nat)
    requires i < |l| && l[i].kind != Free
    ensures var a, b, c := FreeList(l[..i]), FreeList(l[i + 1..]), l[i].(kind := Free);
            FreeList(l) == a + b && FreeList(l[i := c]) == a + [c] + b
  {
    OfKindAround(l, i, Free);
    OfKindSmall(l[i], Free);
    OfKindSmall(l[i].(kind := Free), Free);
    RetagLists(l, i, Free, Free);
  }

  /** Freeing chunk `i` puts it on the list before every free block at a higher address. */
  lemma InsertionPoint(l: Layout, i: nat, j: nat, lo: int, hi: int)
    requires Tiles(l, lo, hi) && i < |l| && l[i].kind != Free && j <= |FreeList(l)|
    requires forall k :: 0 <= k < j ==> FreeList(l)[k].addr < l[i].addr
    requires j < |FreeList(l)| ==> FreeList(l)[j].addr >= l[i].addr
    ensures FreeList(l[i := l[i].(kind := Free)]) == Inserted(FreeList(l), j, l[i].(kind := Free))
  {
    FreeAround(l, i, lo, hi);
    RetagFree(l, i);
    InsertionIndex(FreeList(l[..i]), FreeList(l[i + 1..]), j, l[i].addr);
  }

  /** Changes confined to the free chunks and to one chunk `i` leave all other live bytes. */
  lemma LiveKept(m: Mem, m': Mem, l: Layout, i: nat, lo: int, hi: int)
    requires Tiles(l, lo, hi) && i < |l|
    requires forall b :: b in m && !Covers(FreeList(l), b) && !l[i].Contains(b) ==> b in m' && m'[b] == m[b]
    ensures Kept(m, m', l, l[i].addr)
  {
    forall k: nat | k < |l| && l[k].kind == Live && l[k].addr != l[i].addr
      ensures Same(m, m', l[k].addr, l[k].End())
    {
      forall b | l[k].addr <= b < l[k].End() && b in m
        ensures b in m' && m'[b] == m[b]
      {
        if l[i].Contains(b) { OneOwner(l, lo, hi, i, k, b); }
        if Covers(FreeList(l), b) {
          var c :| c in FreeList(l) && c.Contains(b);
          OfKindMembers(l, Free, c);
          var q :| 0 <= q < |l| && l[q] == c;
          OneOwner(l, lo, hi, q, k, b);
        }
      }
    }
  }

  /** Live blocks that survive from `l` to `r` still carry their sizes. */
  lemma SizesFromKept(m: Mem, m': Mem, l: Layout, r: Layout, except: int)
    requires SizesHeld(m, l) && Kept(m, m', l, except)
    requires forall i: nat :: i < |l| ==> l[i].size >= 1
    requires forall c :: c in OfKind(r, Live) ==> c in OfKind(l, Live) && c.addr != except
    ensures SizesHeld(m', r)
  {
    forall k: nat | k < |r| && r[k].kind == Live
      ensures Holds(m', r[k].addr, r[k].size)
    {
      OfKindMembers(r, Live, r[k]);
      OfKindMembers(l, Live, r[k]);
      var i: nat :| i < |l| && l[i] == r[k];
      assert Same(m, m', l[i].addr, l[i].End());
      HoldsFrame(m, m', l[i].addr, l[i].size);
    }
  }

  lemma FreeMember(l: Layout, j: nat)
    requires j < |FreeList(l)|
    ensures FreeList(l)[j] in FreeList(l) && FreeList(l)[j] in l && FreeList(l)[j].kind == Free
  {
    OfKindMembers(l, Free, FreeList(l)[j]);
  }

  /** The two link words that an insertion writes are inside the heap. */
  lemma PlaceIsMapped(m: Mem, l: Layout, i: nat, j: nat, lo: int, hi: int)
    requires 0 < lo && Tiles(l, lo, hi) && Mapped(m, lo, hi - lo) && i < |l| && j <= |FreeList(l)|
    ensures Mapped(m, l[i].addr, HEADER_SIZE) && l[i].addr > 0
    ensures j > 0 ==> Mapped(m, FreeList(l)[j - 1].addr, HEADER_SIZE) && FreeList(l)[j - 1].addr > 0
  {
    Inside(l, lo, hi, i);
    if j > 0 {
      SortedOfKind(l, Free, lo, hi);
      SortedOrder(FreeList(l), lo, hi, j - 1);
    }
  }

  predicate LinksOnly(m: Mem, m': Mem, l: Layout, i: nat, j: nat)
    requires i < |l| && j <= |FreeList(l)|
  {
    forall b :: b in m && !InLink(l[i], b) && !(j > 0 && InLink(FreeList(l)[j - 1], b)) ==> b in m' && m'[b] == m[b]
  }

  /** An insertion followed by a pass touches nothing but free blocks and the freed block. */
  lemma DeallocWrites(m: Mem, m1: Mem, m2: Mem, l: Layout, i: nat, j: nat, lo: int, hi: int)
    requires Tiles(l, lo, hi) && i < |l| && j <= |FreeList(l)|
    requires LinksOnly(m, m1, l, i, j)
    requires forall b :: b in m1 && !InHeader(FreeList(l[i := l[i].(kind := Free)]), b) ==> b in m2 && m2[b] == m1[b]
    ensures Kept(m, m2, l, l[i].addr)
  {
    var l' := l[i := l[i].(kind := Free)];
    Inside(l, lo, hi, i);
    forall b | b in m && !Covers(FreeList(l), b) && !l[i].Contains(b)
      ensures b in m2 && m2[b] == m[b]
    {
      if j > 0 {
        FreeMember(l, j - 1);
        SortedOfKind(l, Free, lo, hi);
        SortedOrder(FreeList(l), lo, hi, j - 1);
      }
      if InHeader(FreeList(l'), b) {
        var c :| c in FreeList(l') && c.addr <= b < c.addr + HEADER_SIZE;
        OfKindMembers(l', Free, c);
        var q: nat :| q < |l'| && l'[q] == c;
        if q != i {
          OfKindMembers(l, Free, c);
          assert l[q] == c;
          Inside(l, lo, hi, q);
        }
      }
    }
    LiveKept(m, m2, l, i, lo, hi);
  }

  lemma PlaceOk(m: Mem, l: Layout, i: nat, j: nat, lo: int, hi: int)
    requires 0 < lo && Tiles(l, lo, hi) && Mapped(m, lo, hi - lo) && i < |l| && l[i].kind != Free && j <= |FreeList(l)|
    requires forall k :: 0 <= k < j ==> FreeList(l)[k].addr < l[i].addr
    requires j < |FreeList(l)| ==> FreeList(l)[j].addr >= l[i].addr
    ensures var fs, c := FreeList(l), l[i].(kind := Free);
            && FreeList(l[i := c]) == Inserted(fs, j, c) && Sorted(Inserted(fs, j, c), lo, hi)
            && Mapped(m, c.addr, HEADER_SIZE) && c.addr > 0
            && (j > 0 ==>
                  Mapped(m, fs[j - 1].addr, HEADER_SIZE) && 0 < fs[j - 1].addr <= c.addr - HEADER_SIZE)
  {
    InsertionPoint(l, i, j, lo, hi);
    FreedSorted(l, i, lo, hi);
    PlaceIsMapped(m, l, i, j, lo, hi);
    PlaceApart(FreeList(l), j, l[i].(kind := Free), lo, hi);
  }

  lemma FreedSorted(l: Layout, i: nat, lo: int, hi: int)
    requires Tiles(l, lo, hi) && i < |l|
    ensures Sorted(FreeList(l[i := l[i].(kind := Free)]), lo, hi)
  {
    RetagTiles(l, i, Free, lo, hi);
    SortedOfKind(l[i := l[i].(kind := Free)], Free, lo, hi);
  }

  /** What an insertion and the following pass write. */
  predicate FreeWrites(m: Mem, m1: Mem, m2: Mem, l: Layout, i: nat, j: nat) {
    && i < |l| && j <= |FreeList(l)| && LinksOnly(m, m1, l, i, j)
    && forall b :: b in m1 && !InHeader(FreeList(l[i := l[i].(kind := Free)]), b) ==> b in m2 && m2[b] == m1[b]
  }

  lemma DeallocDone(m: Mem, m1: Mem, m2: Mem, h: Heap, ptr: int, j: nat)
    requires Inv(h) && ptr != NULL && IsLive(h, ptr) && SizesHeld(m, h.layout)
    requires FreeWrites(m, m1, m2, h.layout, LivePosition(h.layout, ptr - HEADER_SIZE), j)
    ensures var i := LivePosition(h.layout, ptr - HEADER_SIZE);
            && Inv(h.(layout := Release(h.layout, i)))
            && FreeList(Release(h.layout, i)) == MergePass(FreeList(h.layout[i := h.layout[i].(kind := Free)]))
            && SizesHeld(m2, Release(h.layout, i))
    ensures Kept(m, m2, h.layout, ptr - HEADER_SIZE)
  {
    var l := h.layout;
    var i := LivePosition(l, ptr - HEADER_SIZE);
    RetagTiles(l, i, Free, h.base, h.Break());
    MergePassFollowsLayout(l[i := l[i].(kind := Free)], h.base, h.Break());
    DeallocWrites(m, m1, m2, l, i, j, h.base, h.Break());
    ApplyKeepsInv(h, Call.Dealloc(ptr));
    DeallocResult(h, ptr);
    forall k: nat | k < |l| ensures l[k].size >= 1 { Inside(l, h.base, h.Break(), k); }
    SizesFromKept(m, m2, l, Release(l, i), ptr - HEADER_SIZE);
  }

  lemma DeallocMembers(h: Heap, ptr: int)
    requires Inv(h) && ptr != NULL && IsLive(h, ptr)
    ensures var l := Apply(h, HeapSpec.Dealloc(ptr)).layout;
            forall c :: c in l && c.kind == Live <==> c in h.layout && c.kind == Live && c.addr != ptr - 16
  {
    var l := Apply(h, HeapSpec.Dealloc(ptr)).layout;
    DeallocResult(h, ptr);
    forall c
      ensures c in l && c.kind == Live <==> c in h.layout && c.kind == Live && c.addr != ptr - 16
    {
      OfKindMembers(l, Live, c);
      OfKindMembers(h.layout, Live, c);
    }
  }

  /** Freeing the last chunk of the heap puts it last on the list. */
  lemma LastFreed(h: Heap, ptr: int)
    requires Inv(h) && IsLive(h, ptr)
    requires h.layout[|h.layout| - 1].addr == ptr - HEADER_SIZE
    ensures var l, i := h.layout, LivePosition(h.layout, ptr - HEADER_SIZE);
            var fs := FreeList(l[i := l[i].(kind := Free)]);
            i == |l| - 1 && fs != [] && fs[|fs| - 1] == l[i].(kind := Free)
  {
    var l, i := h.layout, LivePosition(h.layout, ptr - HEADER_SIZE);
    Inside(l, h.base, h.Break(), |l| - 1);
    Inside(l, h.base, h.Break(), i);
    OneOwner(l, h.base, h.Break(), i, |l| - 1, ptr - HEADER_SIZE);
    RetagLists(l, i, Free, Free);
    OfKindSmall(l[i].(kind := Free), Free);
    assert l[i + 1..] == [];
  }

  lemma {:induction false} FirstFitStays(fs: seq<Chunk>, size: int, p: nat, n: nat)
    requires p < n <= |fs| && fs[p].size >= size && PickAmong(fs, FirstFit, size, p) == -1
    ensures PickAmong(fs, FirstFit, size, n) == p
  {
    if n > p + 1 { FirstFitStays(fs, size, p, n - 1); }
  }

  function AddrBefore(fs: seq<Chunk>, j: int): int
    requires j <= |fs|
  {
    if j <= 0 then NULL else fs[j - 1].addr
  }

  /** A chunk on the list, seen from the heap. */
  lemma ListPosition(l: Layout, i: nat, lo: int, hi: int)
    requires Tiles(l, lo, hi) && i < |l| && l[i].kind == Free
    ensures var fs, j := FreeList(l), |FreeList(l[..i])|;
            && j < |fs| && fs[j] == l[i] && Sorted(fs, lo, hi)
            && lo <= l[i].addr && l[i].End() <= hi && l[i].size >= 1
            && (j > 0 ==> lo <= fs[j - 1].addr && fs[j - 1].addr + HEADER_SIZE <= l[i].addr)
  {
    Inside(l, lo, hi, i);
    OfKindAround(l, i, Free);
    OfKindSmall(l[i], Free);
    SortedOfKind(l, Free, lo, hi);
    var fs, j := FreeList(l), |FreeList(l[..i])|;
    if j > 0 { SortedOrder(fs, lo, hi, j - 1); }
  }

  /** The free list after the split, as a splice of the old one. */
  lemma CarveSplices(l: Layout, i: nat, size: int)
    requires i < |l| && l[i].kind == Free && l[i].size >= 1 && size >= 1
    ensures var fs, j := FreeList(l), |FreeList(l[..i])|;
            j < |fs| && FreeList(Carve(l, i, size)) == Spliced(fs, j, Pieces(l[i], size)[1..])
  {
    CarveLists(l, i, size, Free);
    PiecesTile(l[i], size);
    OfKindAround(l, i, Free);
    OfKindSmall(l[i], Free);
    var a, b := FreeList(l[..i]), FreeList(l[i + 1..]);
    assert FreeList(l) == a + [l[i]] + b;
    assert FreeList(l)[..|a|] == a && FreeList(l)[|a| + 1..] == b;
  }

  /** Memory before and after taking chunk `i` of `l`: only that chunk and the link of the
      block before it on the list may change. */
  predicate TakeWrites(m: Mem, m': Mem, l: Layout, i: nat)
    requires i < |l| && |FreeList(l[..i])| <= |FreeList(l)|
  {
    var j := |FreeList(l[..i])|;
    forall b :: b in m && !l[i].Contains(b) && !(j > 0 && InLink(FreeList(l)[j - 1], b)) ==> b in m' && m'[b] == m[b]
  }

  lemma TakeKeeps(m: Mem, m': Mem, l: Layout, i: nat, lo: int, hi: int)
    requires Tiles(l, lo, hi) && i < |l| && l[i].kind == Free && 0 < lo
    requires |FreeList(l[..i])| <= |FreeList(l)| && TakeWrites(m, m', l, i)
    ensures Kept(m, m', l, NULL)
  {
    var j := |FreeList(l[..i])|;
    forall b | b in m && !Covers(FreeList(l), b) && !l[i].Contains(b)
      ensures b in m' && m'[b] == m[b]
    {
      if j > 0 {
        FreeMember(l, j - 1);
        SortedOfKind(l, Free, lo, hi);
        SortedOrder(FreeList(l), lo, hi, j - 1);
      }
    }
    LiveKept(m, m', l, i, lo, hi);
    forall k: nat | k < |l| && l[k].kind == Live
      ensures l[k].addr != l[i].addr
    {
      Inside(l, lo, hi, i);
      Inside(l, lo, hi, k);
      if l[k].addr == l[i].addr { OneOwner(l, lo, hi, i, k, l[i].addr); }
    }
  }

  /** A whole header, stored size first. */
  function StoreHeader(m: Mem, a: int, size: int, next: int): (m': Mem)
    requires Mapped(m, a, HEADER_SIZE)
    ensures m'.Keys == m.Keys && Holds(m', a, size) && Holds(m', a + WORD, next)
    ensures forall b :: b in m && !(a <= b < a + HEADER_SIZE) ==> m'[b] == m[b]
  {
    var m1 := Store(m, a, size);
    var m2 := Store(m1, a + WORD, next);
    HoldsFrame(m1, m2, a, size);
    m2
  }

  /** The stores of the tail of `alloc`, in order: the remainder's header when the block is
      split, the link before it on the list, and the null link of the block handed out. */
  function StoreSplit(m: Mem, c: Chunk, size: int, next: int): Mem
    requires Mapped(m, c.addr, c.Total()) && size >= 1 && c.size > size + HEADER_SIZE
  {
    Store(StoreHeader(m, c.addr + HEADER_SIZE + size, c.size - size - HEADER_SIZE, next), c.addr, size)
  }

  function StoreLinks(m: Mem, c: Chunk, prev: int, target: int): Mem
    requires Mapped(m, c.addr, HEADER_SIZE) && (prev != NULL ==> Mapped(m, prev, HEADER_SIZE))
  {
    var m1 := if prev != NULL then Store(m, prev + WORD, target) else m;
    Store(m1, c.addr + WORD, NULL)
  }

  lemma LoadPastStore(m: Mem, a: int, w: int, p: int, v: int)
    requires Mapped(m, a, WORD) && Holds(m, p, v) && p + WORD <= a
    ensures var m' := Store(m, a, w); Intact(m', p) && Load(m', p) == v
  {
    HoldsFrame(m, Store(m, a, w), p, v);
  }

  lemma StoreSplitOk(m: Mem, c: Chunk, size: int, next: int)
    requires Mapped(m, c.addr, c.Total()) && size >= 1 && c.size > size + HEADER_SIZE
    ensures var m' := StoreSplit(m, c, size, next);
            && m'.Keys == m.Keys && HeaderIs(m', Pieces(c, size)[1], next) && Holds(m', c.addr, size)
            && forall b :: b in m && !c.Contains(b) ==> m'[b] == m[b]
  {
    var r := Pieces(c, size)[1];
    var m2 := StoreHeader(m, r.addr, r.size, next);
    var m3 := Store(m2, c.addr, size);
    HeaderFrame(m2, m3, r, next);
  }

  lemma StoreLinksOk(m: Mem, c: Chunk, size: int, prev: int, target: int)
    requires Mapped(m, c.addr, HEADER_SIZE) && Holds(m, c.addr, size)
    requires prev != NULL ==> Mapped(m, prev, HEADER_SIZE) && prev + HEADER_SIZE <= c.addr
    ensures var m' := StoreLinks(m, c, prev, target);
            && m'.Keys == m.Keys && Holds(m', c.addr, size)
            && (prev != NULL ==> Holds(m', prev + WORD, target))
            && (forall d: Chunk, n :: c.addr + HEADER_SIZE <= d.addr && HeaderIs(m, d, n) ==> HeaderIs(m', d, n))
            && forall b :: b in m && !InLink(c, b) && !(prev != NULL && prev + WORD <= b < prev + HEADER_SIZE) ==>
               m'[b] == m[b]
  {
    var m1 := if prev != NULL then Store(m, prev + WORD, target) else m;
    var m' := Store(m1, c.addr + WORD, NULL);
    if prev != NULL { HoldsFrame(m1, m', prev + WORD, target); }
    HoldsFrame(m, m', c.addr, size);
    forall d: Chunk, n | c.addr + HEADER_SIZE <= d.addr && HeaderIs(m, d, n)
      ensures HeaderIs(m', d, n)
    {
      HeaderFrame(m, m', d, n);
    }
  }

  lemma SizesWithNew(m: Mem, m': Mem, l: Layout, r: Layout, b: Chunk)
    requires SizesHeld(m, l) && Kept(m, m', l, NULL) && Holds(m', b.addr, b.size)
    requires forall i: nat :: i < |l| ==> l[i].size >= 1 && l[i].addr != NULL
    requires forall c :: c in OfKind(r, Live) ==> c == b || c in OfKind(l, Live)
    ensures SizesHeld(m', r)
  {
    forall k: nat | k < |r| && r[k].kind == Live
      ensures Holds(m', r[k].addr, r[k].size)
    {
      OfKindMembers(r, Live, r[k]);
      if r[k] != b {
        OfKindMembers(l, Live, r[k]);
        var i: nat :| i < |l| && l[i] == r[k];
        assert Same(m, m', l[i].addr, l[i].End());
        HoldsFrame(m, m', l[i].addr, l[i].size);
      }
    }
  }

  // ---------------------------------------------------------------- growth

  /** What `sbrk` hands out before anything is stored there. */
  function Blank(b: int): Frag { Frag(0, 0) }

  function PendingChunk(h: Heap): Chunk { NewChunk(h).(kind := Live) }

  /** The heap after `sbrk`, while the new block is not on the list yet. */
  function Pending(h: Heap): Heap {
    h.(layout := h.layout + [PendingChunk(h)], size := h.size + INCREMENT)
  }

  lemma PendingOk(h: Heap)
    requires Inv(h)
    ensures Inv(Pending(h)) && FreeList(Pending(h).layout) == FreeList(h.layout)
    ensures IsLive(Pending(h), h.Break() + HEADER_SIZE)
  {
    var c := PendingChunk(h);
    var l := h.layout + [c];
    assert [c][1..] == [];
    TilesJoin(h.layout, [c], h.base, h.Break(), Pending(h).Break());
    OfKindConcat(h.layout, [c], Free);
    OfKindSmall(c, Free);
    assert l[|h.layout|] == c;
    forall k | 0 <= k < |l| - 1
      ensures !BothFree(l[k], l[k + 1])
    {
      if k < |h.layout| - 1 { assert !BothFree(h.layout[k], h.layout[k + 1]); }
    }
  }

  lemma PendingSizes(m: Mem, m': Mem, h: Heap)
    requires Inv(h) && SizesHeld(m, h.layout) && Holds(m', h.Break(), INCREMENT - HEADER_SIZE)
    requires Same(m, m', h.base, h.Break())
    ensures SizesHeld(m', Pending(h).layout)
  {
    var l := Pending(h).layout;
    forall i: nat | i < |l| && l[i].kind == Live
      ensures Holds(m', l[i].addr, l[i].size)
    {
      if i < |h.layout| {
        assert l[i] == h.layout[i];
        Inside(h.layout, h.base, h.Break(), i);
        HoldsFrame(m, m', l[i].addr, l[i].size);
      }
    }
  }

  lemma ListFrame(m: Mem, m': Mem, head: int, fs: seq<Chunk>, lo: int, hi: int)
    requires Linked(m, head, fs) && Sorted(fs, lo, hi) && Same(m, m', lo, hi)
    ensures Linked(m', head, fs)
  {
    forall k: nat | k < |fs|
      ensures HeaderAt(m', fs, k)
    {
      assert HeaderAt(m, fs, k);
      SortedOrder(fs, lo, hi, k);
      HeaderFrame(m, m', fs[k], AddrAt(fs, k + 1));
    }
  }

  /** Keeping the old heap's bytes and then the pending heap's live bytes keeps the old live bytes. */
  lemma KeptThroughGrowth(m: Mem, m1: Mem, m2: Mem, h: Heap)
    requires Inv(h) && Same(m, m1, h.base, h.Break()) && Mapped(m, h.base, h.size)
    requires Kept(m1, m2, Pending(h).layout, h.Break())
    ensures Kept(m, m2, h.layout, NULL)
  {
    forall i: nat | i < |h.layout| && h.layout[i].kind == Live
      ensures Same(m, m2, h.layout[i].addr, h.layout[i].End())
    {
      assert Pending(h).layout[i] == h.layout[i];
      Inside(h.layout, h.base, h.Break(), i);
      assert Same(m1, m2, h.layout[i].addr, h.layout[i].End());
    }
  }

  lemma KeptTrans(m: Mem, m1: Mem, m2: Mem, l: Layout, l1: Layout)
    requires Kept(m, m1, l, NULL) && Kept(m1, m2, l1, NULL) && |l| <= |l1|
    requires forall i: nat :: i < |l| && l[i].kind == Live ==> l1[i] == l[i]
    ensures Kept(m, m2, l, NULL)
  {
    forall i: nat | i < |l| && l[i].kind == Live && l[i].addr != NULL
      ensures Same(m, m2, l[i].addr, l[i].End())
    {
      assert l1[i] == l[i];
      assert Same(m, m1, l[i].addr, l[i].End());
      assert Same(m1, m2, l[i].addr, l[i].End());
    }
  }

  lemma OnlyNewIsFree(l: Layout, c: Chunk)
    requires FreeList(l) == [] && c.kind == Free
    ensures FreeList(l + [c]) == [c] && FreeList((l + [c])[..|l|]) == []
  {
    OfKindConcat(l, [c], Free);
    OfKindSmall(c, Free);
    assert (l + [c])[..|l|] == l;
  }

  /** After growth the new block alone is what the tail of `alloc` works on. */
  lemma GrownList(h: Heap, size: int)
    requires Inv(h) && size >= 1 && Grows(h, size)
    ensures var (l, i) := BeforeSplit(h, size);
            && i == |h.layout| && |l| == i + 1 && l[i] == NewChunk(h)
            && FreeList(l) == [NewChunk(h)] && FreeList(l[..i]) == []
            && Tiles(l, h.base, h.Break() + INCREMENT)
            && forall k: nat :: k < |h.layout| && h.layout[k].kind == Live ==> l[k] == h.layout[k]
  {
    BeforeSplitOk(h, size);
    AbandonKeeps(h.layout, h.base, h.Break());
    OnlyNewIsFree(Abandon(h.layout), NewChunk(h));
  }

  lemma GrownHeaders(m: Mem, fs: seq<Chunk>, c: Chunk)
    requires fs == [c] && HeaderIs(m, c, NULL)
    ensures Headers(m, fs)
  {
  }

  lemma FittedList(h: Heap, size: int)
    requires Inv(h) && size >= 1 && !Grows(h, size)
    ensures var (l, i) := BeforeSplit(h, size);
            var p := Pick(FreeList(h.layout), h.policy, size);
            && l == h.layout && i < |l| && 0 <= p < |FreeList(l)| && l[i] == FreeList(l)[p] && l[i].kind == Free
            && |FreeList(l[..i])| == p
  {
    FreePositionOk(h.layout, Pick(FreeList(h.layout), h.policy, size));
  }

  lemma AllocDone(m: Mem, m': Mem, h: Heap, size: int)
    requires Inv(h) && size >= 1 && !Fails(h, size, true)
    requires SizesHeld(m, h.layout) && Kept(m, m', h.layout, NULL)
    requires Holds(m', NewBlock(h, size).addr, NewBlock(h, size).size)
    ensures Inv(AfterAlloc(h, size)) && SizesHeld(m', AfterAlloc(h, size).layout)
  {
    ApplyKeepsInv(h, Call.Alloc(size, true));
    AllocResult(h, size, true);
    forall i: nat | i < |h.layout| ensures h.layout[i].size >= 1 && h.layout[i].addr != NULL {
      Inside(h.layout, h.base, h.Break(), i);
    }
    SizesWithNew(m, m', h.layout, AfterAlloc(h, size).layout, NewBlock(h, size));
  }

  lemma {:induction false} ListBytes(l: Layout)
    ensures Bytes(FreeList(l), Free) == Bytes(l, Free)
  {
    if l != [] {
      ListBytes(l[1..]);
      if l[0].kind == Free {
        OfKindConcat([l[0]], FreeList(l[1..]), Free);
        OfKindSmall(l[0], Free);
      } else {
        assert FreeList(l) == FreeList(l[1..]);
      }
    }
  }

  /** A payload byte is in no header that the allocator relies on. */
  lemma PayloadIsPrivate(m: Mem, head: int, l: Layout, i: nat, offset: int, value: Frag, lo: int, hi: int)
    requires Tiles(l, lo, hi) && i < |l| && l[i].kind == Live && 0 <= offset < l[i].size
    requires Linked(m, head, FreeList(l)) && SizesHeld(m, l)
    ensures var m' := m[l[i].addr + HEADER_SIZE + offset := value];
            Linked(m', head, FreeList(l)) && SizesHeld(m', l)
  {
    var fs, a := FreeList(l), l[i].addr + HEADER_SIZE + offset;
    var m' := m[a := value];
    Inside(l, lo, hi, i);
    forall k: nat | k < |fs|
      ensures HeaderAt(m', fs, k)
    {
      assert HeaderAt(m, fs, k);
      FreeMember(l, k);
      var q: nat :| q < |l| && l[q] == fs[k];
      Inside(l, lo, hi, q);
      if l[q].Contains(a) { OneOwner(l, lo, hi, q, i, a); }
      HeaderFrame(m, m', fs[k], AddrAt(fs, k + 1));
    }
    forall k: nat | k < |l| && l[k].kind == Live
      ensures Holds(m', l[k].addr, l[k].size)
    {
      Inside(l, lo, hi, k);
      if l[k].Contains(a) { OneOwner(l, lo, hi, k, i, a); }
      HoldsFrame(m, m', l[k].addr, l[k].size);
    }
  }

  datatype AllocInfo = AllocInfo(freeSize: int, freeChunks: int, largest: int, smallest: int)

  function SumSizes(fs: seq<Chunk>, n: nat): int
    requires n <= |fs|
  {
    if n == 0 then 0 else SumSizes(fs, n - 1) + fs[n - 1].size
  }

  /** The statistics after the first `n` blocks of the list. */
  ghost predicate Tally(fs: seq<Chunk>, n: nat, info: AllocInfo) {
    && n <= |fs| && info.freeChunks == n && info.freeSize == SumSizes(fs, n)
    && (n == 0 ==> info == AllocInfo(0, 0, 0, 0))
    && (n > 0 ==> 1 <= info.smallest)
    && (n > 0 ==> exists k :: 0 <= k < n && fs[k].size == info.largest)
    && (n > 0 ==> exists k :: 0 <= k < n && fs[k].size == info.smallest)
    && (forall k :: 0 <= k < n ==> info.smallest <= fs[k].size <= info.largest)
  }

  lemma {:induction false} SumSizesBytes(fs: seq<Chunk>, n: nat)
    requires n <= |fs| && forall k :: 0 <= k < n ==> fs[k].kind == Free
    ensures SumSizes(fs, n) + HEADER_SIZE * n == Bytes(fs[..n], Free)
  {
    if n == 0 {
      assert fs[..0] == [];
    } else {
      SumSizesBytes(fs, n - 1);
      assert fs[..n] == fs[..n - 1] + [fs[n - 1]];
      OfKindConcat(fs[..n - 1], [fs[n - 1]], Free);
      OfKindSmall(fs[n - 1], Free);
    }
  }

  lemma TallyTotal(fs: seq<Chunk>, info: AllocInfo)
    requires Tally(fs, |fs|, info) && forall c :: c in fs ==> c.kind == Free
    ensures info.freeSize + HEADER_SIZE * info.freeChunks == Bytes(fs, Free)
    ensures forall c :: c in fs ==> info.smallest <= c.size <= info.largest
    ensures if fs == [] then info == AllocInfo(0, 0, 0, 0)
            else exists c, d :: c in fs && d in fs && c.size == info.largest && d.size == info.smallest
  {
    SumSizesBytes(fs, |fs|);
    assert fs[..|fs|] == fs;
    if fs != [] {
      var i :| 0 <= i < |fs| && fs[i].size == info.largest;
      var k :| 0 <= k < |fs| && fs[k].size == info.smallest;
      assert fs[i] in fs && fs[k] in fs;
    }
  }

  lemma PendingValid(m: Mem, m': Mem, head: int, h: Heap)
    requires Inv(h) && Mapped(m, h.base, h.size) && Linked(m, head, FreeList(h.layout)) && SizesHeld(m, h.layout)
    requires Same(m, m', h.base, h.Break()) && Holds(m', h.Break(), INCREMENT - HEADER_SIZE)
    ensures Inv(Pending(h)) && Linked(m', head, FreeList(Pending(h).layout)) && SizesHeld(m', Pending(h).layout)
    ensures IsLive(Pending(h), h.Break() + HEADER_SIZE) && h.Break() > 0
  {
    PendingOk(h);
    PendingSizes(m, m', h);
    SortedOfKind(h.layout, Free, h.base, h.Break());
    ListFrame(m, m', head, FreeList(h.layout), h.base, h.Break());
    TilesBound(h.layout, h.base, h.Break());
  }

  class Allocator {
    var mem: Mem
    var brk: int            // the program break that `sbrk` moves
    var freeList: int
    var currentAlg: Policy
    var heapLimit: int
    var heapStart: int
    var currentHeapSize: int
    ghost var base: int     // the program break at the last reset
    ghost var layout: Layout

    ghost function Abstract(): Heap
      reads this
    {
      Heap(currentAlg, heapLimit, base, currentHeapSize, layout)
    }

    ghost predicate Valid()
      reads this
    {
      && Inv(Abstract())
      && brk == Abstract().Break()
      && Mapped(mem, base, currentHeapSize)
      && Linked(mem, freeList, FreeList(layout))
      && SizesHeld(mem, layout)
    }

    /** Program start: nothing obtained yet, `programBreak` wherever the system put it. */
    constructor (programBreak: int)
      requires programBreak > 0
      ensures Valid() && Abstract() == Heap(FirstFit, 0, programBreak, 0, [])
    {
      mem, brk := map[], programBreak;
      freeList, currentAlg, heapLimit, heapStart, currentHeapSize := NULL, FirstFit, 0, NULL, 0;
      base, layout := programBreak, [];
    }

    method ResetAllocator()
      modifies this`freeList, this`currentHeapSize, this`heapStart, this`base, this`layout
      ensures freeList == NULL && currentHeapSize == 0 && heapStart == brk && base == brk && layout == []
    {
      freeList := NULL;
      currentHeapSize := 0;
      heapStart := brk;
      base, layout := brk, [];
    }

    /** `allocopt` starts a new heap at the current program break. */
    method AllocOpt(alg: Policy, limit: int)
      requires Valid()
      modifies this
      ensures Valid() && Abstract() == Apply(old(Abstract()), HeapSpec.AllocOpt(alg, limit))
      ensures mem == old(mem) && heapStart == base
      ensures currentAlg == alg && heapLimit == limit && currentHeapSize == 0 && base == brk == old(brk)
      ensures freeList == NULL && layout == []
    {
      TilesBound(layout, base, brk);
      currentAlg := alg;
      heapLimit := limit;
      ResetAllocator();
    }

    /** The block at `curr` takes over the block `next` that it touches. */
    method Absorb(curr: int, next: int, ghost g: seq<Chunk>, ghost i: nat, ghost lo: int, ghost hi: int)
      requires 0 < lo && Sorted(g, lo, hi) && Linked(mem, freeList, g) && Mapped(mem, lo, hi - lo)
      requires i + 1 < |g| && curr == g[i].addr && next == g[i + 1].addr && g[i].End() == next
      modifies this`mem
      ensures mem.Keys == old(mem.Keys) && HeaderIs(mem, Merge(g[i], g[i + 1]), AddrAt(g, i + 2))
      ensures forall b :: b in old(mem) && !(g[i].addr <= b < g[i].addr + HEADER_SIZE) ==> mem[b] == old(mem[b])
    {
      PassingLoads(mem, freeList, g, i, lo, hi);
      PassingLoads(mem, freeList, g, i + 1, lo, hi);
      MergeStores(mem, freeList, g, i, lo, hi);
      var total := Load(mem, curr) + HEADER_SIZE + Load(mem, next);
      mem := Store(mem, curr, total);
      mem := Store(mem, curr + WORD, Load(mem, next + WORD));
    }

    /** One pass over the list `fs`, merging blocks that touch. It writes only into headers
        of listed blocks, and leaves the header of the last block alone. */
    method CoalesceFreeBlocks(ghost fs: seq<Chunk>, ghost lo: int, ghost hi: int)
      requires 0 < lo && Sorted(fs, lo, hi) && Mapped(mem, lo, hi - lo) && Linked(mem, freeList, fs)
      modifies this`mem
      ensures Linked(mem, freeList, MergePass(fs))
      ensures mem.Keys == old(mem.Keys)
      ensures forall b :: b in old(mem) && !InHeader(fs, b) ==> mem[b] == old(mem[b])
      ensures fs != [] ==> HeaderIs(mem, fs[|fs| - 1], NULL)
    {
      var curr := freeList;
      ghost var g, i: nat, m0 := fs, 0, mem;
      PassingStart(mem, freeList, fs, lo, hi);
      if fs != [] { PassingLoads(mem, freeList, g, i, lo, hi); }
      while curr != NULL && Load(mem, curr + WORD) != NULL
        invariant Passing(m0, mem, freeList, fs, g, i, lo, hi) && curr == AddrAt(g, i)
        invariant curr != NULL ==> i < |g| && HeaderAt(mem, g, i)
        decreases |g| - i
      {
        var next := Load(mem, curr + WORD);
        PassingLoads(mem, freeList, g, i, lo, hi);
        PassingLoads(mem, freeList, g, i + 1, lo, hi);
        if curr + HEADER_SIZE + Load(mem, curr) == next {
          ghost var m := mem;
          Absorb(curr, next, g, i, lo, hi);
          PassingMerge(m0, m, mem, freeList, fs, g, i, lo, hi);
          g := Merged(g, i);
        } else {
          PassingNext(m0, mem, freeList, fs, g, i, lo, hi);
          curr := next;
          i := i + 1;
        }
      }
      PassingEnd(m0, mem, freeList, fs, g, i, lo, hi);
    }

    /** Where a block with a given address belongs on the list: the walk of `dealloc`. */
    method FindPlace(block: int, ghost fs: seq<Chunk>, ghost lo: int, ghost hi: int)
      returns (prev: int, curr: int, ghost j: nat)
      requires 0 < lo && Sorted(fs, lo, hi) && Linked(mem, freeList, fs)
      ensures j <= |fs| && curr == AddrAt(fs, j)
      ensures prev == if j == 0 then NULL else fs[j - 1].addr
      ensures forall k :: 0 <= k < j ==> fs[k].addr < block
      ensures j < |fs| ==> fs[j].addr >= block
    {
      AddressesPositive(fs, lo, hi);
      curr, prev, j := freeList, NULL, 0;
      while curr != NULL && curr < block
        invariant j <= |fs| && curr == AddrAt(fs, j)
        invariant prev == if j == 0 then NULL else fs[j - 1].addr
        invariant forall k :: 0 <= k < j ==> fs[k].addr < block
        decreases |fs| - j
      {
        assert HeaderAt(mem, fs, j);
        prev := curr;
        curr := Load(mem, curr + WORD);
        j := j + 1;
      }
    }

    /** The two stores of `dealloc`: the block's own link and the link that leads to it. */
    method SetLinks(block: int, prev: int, curr: int, ghost fs: seq<Chunk>, ghost j: nat, ghost c: Chunk)
      requires j <= |fs| && block == c.addr && prev == (if j == 0 then NULL else fs[j - 1].addr)
      requires Mapped(mem, c.addr, HEADER_SIZE)
      requires j > 0 ==> prev != NULL && fs[j - 1].addr + HEADER_SIZE <= c.addr
      requires j > 0 ==> Mapped(mem, fs[j - 1].addr, HEADER_SIZE)
      modifies this`mem, this`freeList
      ensures mem.Keys == old(mem.Keys) && Holds(mem, c.addr + WORD, curr)
      ensures j == 0 ==> freeList == c.addr
      ensures j > 0 ==> freeList == old(freeList) && Holds(mem, fs[j - 1].addr + WORD, c.addr)
      ensures forall b :: b in old(mem) && !InLink(c, b) && !(j > 0 && InLink(fs[j - 1], b)) ==>
          b in mem && mem[b] == old(mem[b])
    {
      mem := Store(mem, block + WORD, curr);
      ghost var m1 := mem;
      if prev != NULL {
        mem := Store(mem, prev + WORD, block);
        HoldsFrame(m1, mem, block + WORD, curr);
      } else {
        freeList := block;
      }
    }

    /** Links `block`, the chunk at position `i` of `l`, into the list at its place. */
    method LinkIn(block: int, ghost l: Layout, ghost i: nat, ghost lo: int, ghost hi: int) returns (ghost j: nat)
      requires 0 < lo && Tiles(l, lo, hi) && Mapped(mem, lo, hi - lo) && Linked(mem, freeList, FreeList(l))
      requires i < |l| && l[i].kind == Live && l[i].addr == block && Holds(mem, block, l[i].size)
      modifies this`mem, this`freeList
      ensures mem.Keys == old(mem.Keys) && j <= |FreeList(l)| && LinksOnly(old(mem), mem, l, i, j)
      ensures Linked(mem, freeList, FreeList(l[i := l[i].(kind := Free)]))
    {
      ghost var m := mem;
      ghost var c, fs := l[i].(kind := Free), FreeList(l);
      SortedOfKind(l, Free, lo, hi);
      var prev, curr;
      prev, curr, j := FindPlace(block, fs, lo, hi);
      PlaceOk(m, l, i, j, lo, hi);

      SetLinks(block, prev, curr, fs, j, c);
      InsertedLinked(m, mem, old(freeList), freeList, fs, j, c, lo, hi);
    }

    /** Frees the chunk at position `i` of `l`: an insertion and a coalescing pass. */
    method FreeBlock(block: int, ghost l: Layout, ghost i: nat, ghost lo: int, ghost hi: int)
      returns (ghost j: nat, ghost m1: Mem)
      requires 0 < lo && Tiles(l, lo, hi) && Mapped(mem, lo, hi - lo) && Linked(mem, freeList, FreeList(l))
      requires i < |l| && l[i].kind == Live && l[i].addr == block && Holds(mem, block, l[i].size)
      modifies this`mem, this`freeList
      ensures mem.Keys == old(mem.Keys) && FreeWrites(old(mem), m1, mem, l, i, j)
      ensures var freed := FreeList(l[i := l[i].(kind := Free)]);
              Linked(mem, freeList, MergePass(freed)) && (freed != [] ==> HeaderIs(mem, freed[|freed| - 1], NULL))
    {
      j := LinkIn(block, l, i, lo, hi);
      m1 := mem;
      FreedSorted(l, i, lo, hi);
      CoalesceFreeBlocks(FreeList(l[i := l[i].(kind := Free)]), lo, hi);
    }

    /** The body of `dealloc` for the live block behind `ptr`. */
    method Release(ptr: int)
      requires Valid() && ptr != NULL && IsLive(Abstract(), ptr)
      modifies this`mem, this`freeList, this`layout
      ensures Valid() && layout == HeapSpec.Release(old(layout), LivePosition(old(layout), ptr - HEADER_SIZE))
      ensures Kept(old(mem), mem, old(layout), ptr - HEADER_SIZE) && mem.Keys == old(mem.Keys)
      ensures var l := old(layout); l[|l| - 1].addr == ptr - HEADER_SIZE ==> HeaderIs(mem, l[|l| - 1], NULL)
    {
      ghost var h, l, m, i := Abstract(), layout, mem, LivePosition(layout, ptr - HEADER_SIZE);
      ghost var j, m1 := FreeBlock(ptr - HEADER_SIZE, l, i, base, brk);
      layout := HeapSpec.Release(l, i);
      DeallocDone(m, m1, mem, h, ptr, j);
      if l[|l| - 1].addr == ptr - HEADER_SIZE { LastFreed(h, ptr); }
    }

    /** `dealloc`: links the block in by address, then coalesces. Besides the heap it
        describes, it leaves every byte of every other live block alone, and leaves the
        header of a block at the very end of the heap as it was, with a null link. */
    method Dealloc(ptr: int)
      requires Valid() && Allowed(Abstract(), HeapSpec.Dealloc(ptr))
      modifies this`mem, this`freeList, this`layout
      ensures Valid() && Abstract() == Apply(old(Abstract()), HeapSpec.Dealloc(ptr))
      ensures Kept(old(mem), mem, old(layout), ptr - HEADER_SIZE) && mem.Keys == old(mem.Keys)
      ensures (ptr != NULL && old(layout) != [] && old(layout)[|old(layout)| - 1].addr == ptr - HEADER_SIZE) ==>
                HeaderIs(mem, old(layout)[|old(layout)| - 1], NULL)
      ensures ptr == NULL ==> layout == old(layout)
      ensures ptr != NULL ==>
                forall c :: c in layout && c.kind == Live <==> c in old(layout) && c.kind == Live && c.addr != ptr - 16
    {
      if ptr == NULL { return; }
      ghost var h := Abstract();
      Release(ptr);
      DeallocMembers(h, ptr);
    }

    /** The search loop of `alloc` under the current policy. */
    method FindFit(size: int, ghost fs: seq<Chunk>, ghost lo: int, ghost hi: int) returns (prev: int, curr: int)
      requires 0 < lo && Sorted(fs, lo, hi) && Linked(mem, freeList, fs)
      ensures var p := Pick(fs, currentAlg, size);
              curr == (if p == -1 then NULL else fs[p].addr) && (p != -1 ==> prev == AddrBefore(fs, p))
    {
      AddressesPositive(fs, lo, hi);
      prev, curr := NULL, freeList;
      var bestFit, bestFitPrev := NULL, NULL;
      ghost var n: nat := 0;
      while curr != NULL
        invariant n <= |fs| && curr == AddrAt(fs, n) && prev == AddrBefore(fs, n)
        invariant var p := PickAmong(fs, currentAlg, size, n);
                  && (currentAlg == FirstFit ==> p == -1)
                  && bestFitPrev == AddrBefore(fs, p) && bestFit == if p == -1 then NULL else fs[p].addr
        decreases |fs| - n
      {
        assert HeaderAt(mem, fs, n);
        ghost var p := PickAmong(fs, currentAlg, size, n);
        if p != -1 { assert HeaderAt(mem, fs, p); }
        if Load(mem, curr) >= size {
          if currentAlg == FirstFit {
            FirstFitStays(fs, size, n, |fs|);
            return;
          } else if currentAlg == BestFit {
            if bestFit == NULL || Load(mem, curr) < Load(mem, bestFit) {
              bestFit, bestFitPrev := curr, prev;
            }
          } else {
            if bestFit == NULL || Load(mem, curr) > Load(mem, bestFit) {
              bestFit, bestFitPrev := curr, prev;
            }
          }
        }
        prev := curr;
        curr := Load(mem, curr + WORD);
        n := n + 1;
      }
      if currentAlg != FirstFit {
        curr, prev := bestFit, bestFitPrev;
      }
    }

    /** The end of both branches: the list goes on to `target` after `prev`, and the block
        handed out no longer points to a free block. */
    method Relink(prev: int, curr: int, target: int, ghost c: Chunk, ghost size: int)
      requires curr == c.addr && Mapped(mem, curr, HEADER_SIZE) && Holds(mem, curr, size)
      requires prev != NULL ==> Mapped(mem, prev, HEADER_SIZE) && prev + HEADER_SIZE <= curr
      modifies this`mem, this`freeList
      ensures freeList == if prev == NULL then target else old(freeList)
      ensures mem.Keys == old(mem.Keys) && Holds(mem, curr, size) && (prev != NULL ==> Holds(mem, prev + WORD, target))
      ensures forall d: Chunk, n :: c.addr + HEADER_SIZE <= d.addr && HeaderIs(old(mem), d, n) ==> HeaderIs(mem, d, n)
      ensures forall b | b in old(mem) && !InLink(c, b) ::
                !(prev != NULL && prev + WORD <= b < prev + HEADER_SIZE) ==> mem[b] == old(mem[b])
    {
      StoreLinksOk(mem, c, size, prev, target);
      if prev != NULL {
        mem := Store(mem, prev + WORD, target);
      } else {
        freeList := target;
      }
      mem := Store(mem, curr + WORD, NULL);
    }

    /** Writes the header of the block that remains. */
    method MakeHeader(curr: int, size: int, ghost c: Chunk, ghost next: int) returns (newBlock: int)
      requires curr == c.addr && size >= 1 && c.size > size + HEADER_SIZE
      requires Mapped(mem, c.addr, c.Total()) && HeaderIs(mem, c, next)
      modifies this`mem
      ensures newBlock == curr + HEADER_SIZE + size
      ensures mem == StoreHeader(old(mem), newBlock, c.size - size - HEADER_SIZE, next)
    {
      newBlock := curr + HEADER_SIZE + size;
      LoadPastStore(mem, newBlock, c.size - size - HEADER_SIZE, curr + WORD, next);
      mem := Store(mem, newBlock, Load(mem, curr) - size - HEADER_SIZE);
      mem := Store(mem, newBlock + WORD, Load(mem, curr + WORD));
    }

    /** Cuts `size` payload bytes off the block at `curr`; what remains becomes a block. */
    method SplitOff(curr: int, size: int, ghost c: Chunk, ghost next: int) returns (newBlock: int)
      requires curr == c.addr && size >= 1 && c.size > size + HEADER_SIZE
      requires Mapped(mem, c.addr, c.Total()) && HeaderIs(mem, c, next)
      modifies this`mem
      ensures mem.Keys == old(mem.Keys) && newBlock == Pieces(c, size)[1].addr
      ensures HeaderIs(mem, Pieces(c, size)[1], next) && Holds(mem, curr, size)
      ensures forall b :: b in old(mem) && !c.Contains(b) ==> mem[b] == old(mem[b])
    {
      ghost var m := mem;
      newBlock := MakeHeader(curr, size, c, next);
      mem := Store(mem, curr, size);
      StoreSplitOk(m, c, size, next);
    }

    /** Splits the `j`-th block of the list or takes all of it, and repairs the link before it. */
    method CutOut(prev: int, curr: int, size: int, ghost fs: seq<Chunk>, ghost j: nat)
      requires size >= 1 && j < |fs| && curr == fs[j].addr && prev == AddrBefore(fs, j)
      requires fs[j].size >= 1 && Mapped(mem, fs[j].addr, fs[j].Total()) && HeaderIs(mem, fs[j], AddrAt(fs, j + 1))
      requires j > 0 ==> prev != NULL && Mapped(mem, prev, HEADER_SIZE) && prev + HEADER_SIZE <= curr
      modifies this`mem, this`freeList
      ensures mem.Keys == old(mem.Keys) && SpliceWrites(old(mem), mem, fs, j)
      ensures Holds(mem, curr, Pieces(fs[j], size)[0].size)
      ensures var rest := Pieces(fs[j], size)[1..];
              var target := if rest != [] then rest[0].addr else AddrAt(fs, j + 1);
              && (rest != [] ==> HeaderIs(mem, rest[0], AddrAt(fs, j + 1)))
              && (j > 0 ==> freeList == old(freeList) && Holds(mem, fs[j - 1].addr + WORD, target))
              && (j == 0 ==> freeList == target)
    {
      ghost var c, next := fs[j], AddrAt(fs, j + 1);
      ghost var rest := Pieces(c, size)[1..];
      if Load(mem, curr) > size + HEADER_SIZE {
        var newBlock := SplitOff(curr, size, c, next);
        Relink(prev, curr, newBlock, c, size);
        assert rest == [Pieces(c, size)[1]];
      } else {
        var link := Load(mem, curr + WORD);
        Relink(prev, curr, link, c, c.size);
        assert rest == [];
      }
    }

    /** The tail of `alloc`: cuts `size` bytes off the block at `curr`, or takes all of it,
        and repairs the list. `curr` is chunk `i` of `l`. */
    method TakeBlock(prev: int, curr: int, size: int, ghost l: Layout, ghost i: nat, ghost lo: int, ghost hi: int)
      requires 0 < lo && Tiles(l, lo, hi) && Mapped(mem, lo, hi - lo) && Headers(mem, FreeList(l))
      requires size >= 1 && i < |l| && l[i].kind == Free && curr == l[i].addr
      requires |FreeList(l[..i])| <= |FreeList(l)| && prev == AddrBefore(FreeList(l), |FreeList(l[..i])|)
      requires prev != NULL ==> freeList == AddrAt(FreeList(l), 0)
      modifies this`mem, this`freeList
      ensures mem.Keys == old(mem.Keys) && TakeWrites(old(mem), mem, l, i)
      ensures Linked(mem, freeList, FreeList(Carve(l, i, size)))
      ensures Holds(mem, curr, Pieces(l[i], size)[0].size)
    {
      ghost var m, fs, c := mem, FreeList(l), l[i];
      ghost var j := |FreeList(l[..i])|;
      ListPosition(l, i, lo, hi);
      assert HeaderAt(mem, fs, j);
      CutOut(prev, curr, size, fs, j);
      SplicedHeaders(m, mem, fs, j, Pieces(c, size)[1..], lo, hi);
      CarveSplices(l, i, size);
    }

    /** `sbrk`: the new bytes follow the old break; what they contain is not specified. */
    method Sbrk(increment: int) returns (oldBreak: int)
      requires increment > 0
      modifies this`mem, this`brk
      ensures oldBreak == old(brk) && brk == oldBreak + increment
      ensures Mapped(mem, oldBreak, increment) && old(mem).Keys <= mem.Keys
      ensures forall b :: b in old(mem) && b < oldBreak ==> mem[b] == old(mem[b])
    {
      oldBreak := brk;
      brk := brk + increment;
      mem := mem + (map b | oldBreak <= b < brk :: Blank(b));
    }

    /** Obtains a block of 256 bytes and writes its header. */
    method Obtain() returns (newBlock: int)
      modifies this`mem, this`brk, this`currentHeapSize
      ensures newBlock == old(brk) && brk == newBlock + INCREMENT && currentHeapSize == old(currentHeapSize) + INCREMENT
      ensures Holds(mem, newBlock, INCREMENT - HEADER_SIZE) && Mapped(mem, newBlock, INCREMENT)
      ensures forall b :: b in old(mem) && b < newBlock ==> b in mem && mem[b] == old(mem[b])
    {
      newBlock := Sbrk(INCREMENT);
      ghost var m := mem;
      mem := Store(mem, newBlock, INCREMENT - HEADER_SIZE);
      ghost var m1 := mem;
      mem := Store(mem, newBlock + WORD, NULL);
      HoldsFrame(m1, mem, newBlock, INCREMENT - HEADER_SIZE);
      currentHeapSize := currentHeapSize + INCREMENT;
    }

    /** The growth branch of `alloc`: a fresh block, put on the list (where it may merge with
        its neighbour) while its own header stays as written. */
    method Grow() returns (newBlock: int)
      requires Valid()
      modifies this`mem, this`brk, this`freeList, this`currentHeapSize, this`layout
      ensures newBlock == old(brk) && brk == old(brk) + INCREMENT && currentHeapSize == old(currentHeapSize) + INCREMENT
      ensures HeaderIs(mem, NewChunk(old(Abstract())), NULL)
      ensures Mapped(mem, base, currentHeapSize) && Kept(old(mem), mem, old(layout), NULL)
    {
      ghost var h, m := Abstract(), mem;
      newBlock := Obtain();
      ghost var m1 := mem;
      PendingValid(m, mem, freeList, h);
      layout := h.layout + [PendingChunk(h)];
      Dealloc(newBlock + HEADER_SIZE);
      KeptThroughGrowth(m, m1, mem, h);
    }

    /** Takes the block and leaves alone what was live in `l0` at memory `m`. */
    method Take(prev: int, curr: int, size: int, ghost m: Mem, ghost l0: Layout, ghost l: Layout, ghost i: nat)
      requires 0 < base && Tiles(l, base, brk) && Mapped(mem, base, brk - base) && Headers(mem, FreeList(l))
      requires size >= 1 && i < |l| && l[i].kind == Free && curr == l[i].addr
      requires |FreeList(l[..i])| <= |FreeList(l)| && prev == AddrBefore(FreeList(l), |FreeList(l[..i])|)
      requires prev != NULL ==> freeList == AddrAt(FreeList(l), 0)
      requires Kept(m, mem, l0, NULL)
      requires |l0| <= |l| && forall k: nat :: k < |l0| && l0[k].kind == Live ==> l[k] == l0[k]
      modifies this`mem, this`freeList
      ensures mem.Keys == old(mem.Keys) && Kept(m, mem, l0, NULL)
      ensures Linked(mem, freeList, FreeList(Carve(l, i, size))) && Holds(mem, curr, Pieces(l[i], size)[0].size)
    {
      ghost var m1 := mem;
      TakeBlock(prev, curr, size, l, i, base, brk);
      TakeKeeps(m1, mem, l, i, base, brk);
      KeptTrans(m, m1, mem, l0, l);
    }

    /** The end of `alloc` once the block at `curr` is chosen: chunk `i` of `l`. `m` and `h`
        are the memory and the heap at the start of the call. */
    method Finish(prev: int, curr: int, size: int, ghost m: Mem, ghost h: Heap, ghost l: Layout, ghost i: nat)
      requires Inv(h) && size >= 1 && !Fails(h, size, true) && BeforeSplit(h, size) == (l, i)
      requires AfterAlloc(h, size) == Abstract().(layout := AfterAlloc(h, size).layout) && brk == Abstract().Break()
      requires Mapped(mem, base, currentHeapSize) && Headers(mem, FreeList(l)) && i < |l| && curr == l[i].addr
      requires |FreeList(l[..i])| <= |FreeList(l)| && prev == AddrBefore(FreeList(l), |FreeList(l[..i])|)
      requires prev != NULL ==> freeList == AddrAt(FreeList(l), 0)
      requires SizesHeld(m, h.layout) && Kept(m, mem, h.layout, NULL)
      requires |h.layout| <= |l| && forall k: nat :: k < |h.layout| && h.layout[k].kind == Live ==> l[k] == h.layout[k]
      modifies this`mem, this`freeList, this`layout
      ensures Valid() && Abstract() == AfterAlloc(h, size) && Kept(m, mem, h.layout, NULL)
    {
      BeforeSplitOk(h, size);
      Take(prev, curr, size, m, h.layout, l, i);
      layout := Carve(l, i, size);
      AllocDone(m, mem, h, size);
    }

    method Search(size: int) returns (prev: int, curr: int)
      requires Valid()
      ensures var fs := FreeList(layout); var p := Pick(fs, currentAlg, size);
              && (curr == NULL <==> p == -1)
              && (p != -1 ==> curr == fs[p].addr && prev == AddrBefore(fs, p))
    {
      SortedOfKind(layout, Free, base, brk);
      AddressesPositive(FreeList(layout), base, brk);
      prev, curr := FindFit(size, FreeList(layout), base, brk);
    }

    /** The body of `alloc`: the state machine's step, on the bytes in memory. */
    method Allocate(size: int, grant: bool) returns (ptr: int)
      requires Valid()
      modifies this`mem, this`brk, this`freeList, this`currentHeapSize, this`layout
      ensures Valid() && Abstract() == Apply(old(Abstract()), HeapSpec.Alloc(size, grant))
      ensures ptr == Returned(old(Abstract()), HeapSpec.Alloc(size, grant))
      ensures Kept(old(mem), mem, old(layout), NULL)
    {
      ghost var h, m := Abstract(), mem;
      if size <= 0 { return NULL; }
      ghost var (l, i) := BeforeSplit(h, size);
      var prev, curr := Search(size);
      if curr == NULL {
        if heapLimit != 0 && currentHeapSize + INCREMENT > heapLimit { return NULL; }
        if !grant { return NULL; }
        curr := Grow();
        prev := NULL;
        GrownList(h, size);
        GrownHeaders(mem, FreeList(l), NewChunk(h));
      } else {
        FittedList(h, size);
      }
      Finish(prev, curr, size, m, h, l, i);
      return curr + HEADER_SIZE;
    }

    /** `alloc`. `grant` is whether the system agrees if `sbrk` has to be called. The heap grows
        by 256 bytes exactly when nothing fits and neither the limit nor the system forbids it;
        otherwise the block is the policy's. No byte of a block that was live before is touched. */
    method Alloc(size: int, grant: bool) returns (ptr: int)
      requires Valid()
      modifies this`mem, this`brk, this`freeList, this`currentHeapSize, this`layout
      ensures Valid() && Abstract() == Apply(old(Abstract()), HeapSpec.Alloc(size, grant))
      ensures ptr == Returned(old(Abstract()), HeapSpec.Alloc(size, grant))
      ensures Kept(old(mem), mem, old(layout), NULL)
      ensures var limited := heapLimit != 0 && old(currentHeapSize) + 256 > heapLimit;
              var fits := exists c :: c in FreeList(old(layout)) && c.size >= size;
              && (ptr == NULL <==> size <= 0 || (!fits && (!grant || limited)))
              && currentHeapSize == old(currentHeapSize) + (if ptr != NULL && !fits then 256 else 0)
              && (ptr != NULL && !fits ==> ptr == old(brk) + 16)
              && (ptr == NULL ==> layout == old(layout))
              && (ptr != NULL ==> exists b | b in layout && b !in old(layout) && b.kind == Live ::
                    ptr == b.addr + 16 && b.size <= size + 16 && (size <= b.size <==> fits || size <= 240))
      ensures size > 0 && (exists c :: c in FreeList(old(layout)) && c.size >= size) ==>
                exists b | b in FreeList(old(layout)) && b.size >= size ::
                  && ptr == b.addr + 16
                  && forall c :: c in FreeList(old(layout)) && c.size >= size ==>
                    (currentAlg == FirstFit ==> b.addr <= c.addr) && (currentAlg == BestFit ==> b.size <= c.size) &&
                      (currentAlg == WorstFit ==> b.size >= c.size) && (b.size == c.size ==> b.addr <= c.addr)
    {
      AllocFacts(Abstract(), size, grant);
      AllocBlock(Abstract(), size, grant);
      if size > 0 && exists c :: c in FreeList(layout) && c.size >= size { PolicyChoice(Abstract(), size, grant); }
      ptr := Allocate(size, grant);
    }

    method WalkList(ghost fs: seq<Chunk>, ghost lo: int, ghost hi: int) returns (info: AllocInfo)
      requires 0 < lo && Sorted(fs, lo, hi) && Linked(mem, freeList, fs)
      ensures Tally(fs, |fs|, info)
    {
      AddressesPositive(fs, lo, hi);
      info := AllocInfo(0, 0, 0, 0);
      var curr := freeList;
      ghost var n := 0;
      while curr != NULL
        invariant n <= |fs| && curr == AddrAt(fs, n) && Tally(fs, n, info)
        decreases |fs| - n
      {
        SortedOrder(fs, lo, hi, n);
        assert HeaderAt(mem, fs, n);
        var size := Load(mem, curr);
        info := info.(freeSize := info.freeSize + size, freeChunks := info.freeChunks + 1);
        if size > info.largest { info := info.(largest := size); }
        if info.smallest == 0 || size < info.smallest { info := info.(smallest := size); }
        curr := Load(mem, curr + WORD);
        n := n + 1;
      }
    }

    /** `allocinfo`: sums, counts and extremes of the free list. */
    method Info() returns (info: AllocInfo)
      requires Valid()
      ensures info.freeSize + HEADER_SIZE * info.freeChunks == Bytes(layout, Free)
      ensures info.freeSize + HEADER_SIZE * info.freeChunks + Bytes(layout, Live) + Bytes(layout, Lost) ==
          currentHeapSize
      ensures info.freeChunks == |FreeList(layout)|
      ensures forall c :: c in FreeList(layout) ==> info.smallest <= c.size <= info.largest
      ensures if FreeList(layout) == [] then info == AllocInfo(0, 0, 0, 0)
              else exists c, d | c in FreeList(layout) && d in FreeList(layout) ::
                     c.size == info.largest && d.size == info.smallest
    {
      ghost var fs := FreeList(layout);
      SortedOfKind(layout, Free, base, brk);
      info := WalkList(fs, base, brk);
      ListBytes(layout);
      BytesTotal(layout, base, brk);
      forall c | c in fs ensures c.kind == Free { OfKindMembers(layout, Free, c); }
      TallyTotal(fs, info);
    }

    /** The program's own store into a live block's payload. */
    method WritePayload(ptr: int, offset: int, value: Frag)
      requires Valid() && IsLive(Abstract(), ptr)
      requires 0 <= offset < layout[LivePosition(layout, ptr - HEADER_SIZE)].size
      modifies this`mem
      ensures Valid() && Abstract() == old(Abstract()) && mem == old(mem)[ptr + offset := value]
    {
      ghost var m, i := mem, LivePosition(layout, ptr - HEADER_SIZE);
      mem := mem[ptr + offset := value];
      PayloadIsPrivate(m, freeList, layout, i, offset, value, base, brk);
    }
  }
}
