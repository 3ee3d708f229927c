/** What every run of `alloc`, `dealloc` and `allocopt` keeps (a9 alloc.c). */
module HeapRuns {
  import opened HeapLayout
  import opened HeapSpec

  // ---------------------------------------------------------------- one call

  lemma BeforeSplitOk(h: Heap, size: int)
    requires Inv(h)
    ensures var (l, i) := BeforeSplit(h, size);
            && i < |l| && l[i].kind == Free && l[i].size >= 1
            && Tiles(l, h.base, AfterAlloc(h, size).Break()) && Coalesced(l)
            && (Grows(h, size) ==> l == Abandon(h.layout) + [NewChunk(h)] && i == |h.layout|)
            && (!Grows(h, size) ==> l == h.layout)
  {
    var (l, i) := BeforeSplit(h, size);
    var hi := AfterAlloc(h, size).Break();
    if Grows(h, size) {
      AbandonKeeps(h.layout, h.base, h.Break());
      var last := [NewChunk(h)];
      assert last[1..] == [];
      TilesJoin(Abandon(h.layout), last, h.base, h.Break(), hi);
      forall k | 0 <= k < |l| - 1
        ensures !BothFree(l[k], l[k + 1])
      {
        assert l[k] == Abandon(h.layout)[k];
      }
    } else {
      FreePositionOk(h.layout, Pick(FreeList(h.layout), h.policy, size));
      Inside(l, h.base, hi, i);
    }
  }

  /** Every call keeps the heap tiled by its chunks and maximally coalesced. */
  lemma ApplyKeepsInv(h: Heap, c: Call)
    requires Inv(h) && Allowed(h, c)
    ensures Inv(Apply(h, c))
  {
    match c {
      case Alloc(size, grant) =>
        if !Fails(h, size, grant) {
          BeforeSplitOk(h, size);
          var (l, i) := BeforeSplit(h, size);
          CarveTiles(l, i, size, h.base, AfterAlloc(h, size).Break());
          CarveCoalesced(l, i, size);
        }
      case Dealloc(ptr) =>
        if ptr != 0 {
          var i := LivePosition(h.layout, ptr - HEADER_SIZE);
          RetagTiles(h.layout, i, Free, h.base, h.Break());
          MergeLayoutCoalesces(h.layout[i := h.layout[i].(kind := Free)], h.base, h.Break());
        }
      case AllocOpt(policy, limit) =>
        TilesBound(h.layout, h.base, h.Break());
    }
  }

  /** The kinds account for every byte obtained from the system. */
  lemma {:induction false} BytesTotal(l: Layout, lo: int, hi: int)
    requires Tiles(l, lo, hi)
    ensures Bytes(l, Free) + Bytes(l, Live) + Bytes(l, Lost) == hi - lo
    ensures Bytes(l, Free) >= 0 && Bytes(l, Live) >= 0 && Bytes(l, Lost) >= 0
    ensures forall k :: Bytes(l, k) == 0 <==> OfKind(l, k) == []
  {
    if l != [] { BytesTotal(l[1..], l[0].End(), hi); }
  }

  lemma AllocLoses(h: Heap, size: int, grant: bool)
    requires Inv(h) && !Fails(h, size, grant)
    ensures Bytes(Apply(h, Alloc(size, grant)).layout, Lost) ==
        Bytes(h.layout, Lost) + (if Grows(h, size) then Bytes(h.layout, Free) else 0)
  {
    BeforeSplitOk(h, size);
    var (l, i) := BeforeSplit(h, size);
    CarveLists(l, i, size, Lost);
    PiecesTile(l[i], size);
    OfKindSmall(l[i], Lost);
    if Grows(h, size) {
      AbandonKeeps(h.layout, h.base, h.Break());
      OfKindConcat(Abandon(h.layout), [NewChunk(h)], Lost);
      OfKindSmall(NewChunk(h), Lost);
    }
  }

  lemma DeallocLoses(h: Heap, ptr: int)
    requires Inv(h) && ptr != 0 && IsLive(h, ptr)
    ensures Bytes(Apply(h, Dealloc(ptr)).layout, Lost) == Bytes(h.layout, Lost)
  {
    var i := LivePosition(h.layout, ptr - HEADER_SIZE);
    RetagTiles(h.layout, i, Free, h.base, h.Break());
    RetagLists(h.layout, i, Free, Lost);
    OfKindSmall(h.layout[i], Lost);
    OfKindSmall(h.layout[i].(kind := Free), Lost);
    MergeLayoutCoalesces(h.layout[i := h.layout[i].(kind := Free)], h.base, h.Break());
  }

  /** Conservation: a call that does not grow the heap leaves free plus live bytes, headers
      included, as they were. Growth adds 256 obtained bytes and loses exactly the bytes
      that were on the free list. */
  lemma Conservation(h: Heap, c: Call)
    requires Inv(h) && Allowed(h, c) && !c.AllocOpt?
    ensures var h' := Apply(h, c);
            var grown := c.Alloc? && !Fails(h, c.size, c.grant) && Grows(h, c.size);
            && h'.base == h.base && h'.size == h.size + (if grown then INCREMENT else 0)
            && Bytes(h'.layout, Lost) == Bytes(h.layout, Lost) + (if grown then Bytes(h.layout, Free) else 0)
            && (!grown ==>
                  Bytes(h'.layout, Free) + Bytes(h'.layout, Live) == Bytes(h.layout, Free) + Bytes(h.layout, Live))
  {
    ApplyKeepsInv(h, c);
    var h' := Apply(h, c);
    BytesTotal(h.layout, h.base, h.Break());
    BytesTotal(h'.layout, h'.base, h'.Break());
    if c.Alloc? {
      if !Fails(h, c.size, c.grant) { AllocLoses(h, c.size, c.grant); }
    } else if c.ptr != 0 {
      DeallocLoses(h, c.ptr);
    }
  }

  /** The block behind a pointer that `alloc` just returned. */
  function NewBlock(h: Heap, size: int): Chunk {
    var (l, i) := BeforeSplit(h, size);
    Pieces(l[i], size)[0]
  }

  lemma BeforeSplitLive(h: Heap, size: int)
    requires Inv(h)
    ensures OfKind(BeforeSplit(h, size).0, Live) == OfKind(h.layout, Live)
  {
    if Grows(h, size) {
      AbandonKeeps(h.layout, h.base, h.Break());
      OfKindConcat(Abandon(h.layout), [NewChunk(h)], Live);
      OfKindSmall(NewChunk(h), Live);
    }
  }

  lemma CarveLive(l: Layout, i: nat, size: int)
    requires i < |l| && l[i].kind == Free && l[i].size >= 1 && size >= 1
    ensures var b := Pieces(l[i], size)[0];
            forall c :: c in OfKind(Carve(l, i, size), Live) <==> c == b || c in OfKind(l, Live)
  {
    CarveLists(l, i, size, Live);
    PiecesTile(l[i], size);
    OfKindAround(l, i, Live);
    OfKindSmall(l[i], Live);
  }

  lemma NewBlockIsNew(h: Heap, size: int)
    requires Inv(h) && size > 0
    ensures NewBlock(h, size).kind == Live && NewBlock(h, size) !in h.layout
  {
    BeforeSplitOk(h, size);
    var (l, i) := BeforeSplit(h, size);
    var b := NewBlock(h, size);
    if b in h.layout {
      var k :| 0 <= k < |h.layout| && h.layout[k] == b;
      Inside(h.layout, h.base, h.Break(), k);
      if !Grows(h, size) {
        OneOwner(h.layout, h.base, h.Break(), k, i, b.addr);
      }
    }
  }

  /** A successful `alloc` adds exactly one live block, where it says, and leaves every other
      live block in place. */
  lemma AllocResult(h: Heap, size: int, grant: bool)
    requires Inv(h) && !Fails(h, size, grant)
    ensures var b := NewBlock(h, size);
            && Returned(h, Alloc(size, grant)) == b.addr + HEADER_SIZE
            && b.kind == Live && b !in h.layout
            && (forall c :: c in OfKind(Apply(h, Alloc(size, grant)).layout, Live) <==>
                c == b || c in OfKind(h.layout, Live))
  {
    BeforeSplitOk(h, size);
    NewBlockIsNew(h, size);
    BeforeSplitLive(h, size);
    var (l, i) := BeforeSplit(h, size);
    CarveLive(l, i, size);
  }

  /** Its payload is the requested size up to one header more, unless the heap had to grow
      for more than 240 bytes: then the block is 240 bytes, too few. */
  lemma AllocSize(h: Heap, size: int)
    requires Inv(h) && size > 0
    ensures var b := NewBlock(h, size);
            && b.size <= size + HEADER_SIZE
            && (size <= b.size <==> !Grows(h, size) || size <= INCREMENT - HEADER_SIZE)
  {
    BeforeSplitOk(h, size);
    PickIsPolicy(FreeList(h.layout), h.policy, size, |FreeList(h.layout)|);
    if !Grows(h, size) { FreePositionOk(h.layout, Pick(FreeList(h.layout), h.policy, size)); }
  }

  /** Without growth the chosen block is the policy's, and the list changes only there: the
      block leaves, or its remainder takes its place. */
  lemma AllocList(h: Heap, size: int, grant: bool)
    requires Inv(h) && size > 0 && !Grows(h, size)
    ensures var fs, p := FreeList(h.layout), Pick(FreeList(h.layout), h.policy, size);
            && 0 <= p < |fs| && Chosen(fs, h.policy, size, |fs|, p)
            && Returned(h, Alloc(size, grant)) == fs[p].addr + HEADER_SIZE
            && FreeList(Apply(h, Alloc(size, grant)).layout) == fs[..p] + Pieces(fs[p], size)[1..] + fs[p + 1..]
  {
    BeforeSplitOk(h, size);
    var fs := FreeList(h.layout);
    PickIsPolicy(fs, h.policy, size, |fs|);
    FreePositionOk(h.layout, Pick(fs, h.policy, size));
    var (l, i) := BeforeSplit(h, size);
    CarveLists(l, i, size, Free);
    PiecesTile(l[i], size);
  }

  /** `alloc` fails for want of space only when no block on the list fits. */
  lemma AllocFailure(h: Heap, size: int, grant: bool)
    requires Inv(h) && size > 0
    ensures Fails(h, size, grant) <==>
            !Fits(FreeList(h.layout), |FreeList(h.layout)|, size) && (AtLimit(h) || !grant)
    ensures Fails(h, size, grant) ==> Apply(h, Alloc(size, grant)) == h && Returned(h, Alloc(size, grant)) == 0
    ensures !Fails(h, size, grant) ==> Returned(h, Alloc(size, grant)) > 0
  {
    PickIsPolicy(FreeList(h.layout), h.policy, size, |FreeList(h.layout)|);
    if !Fails(h, size, grant) {
      BeforeSplitOk(h, size);
      var (l, i) := BeforeSplit(h, size);
      Inside(l, h.base, AfterAlloc(h, size).Break(), i);
    }
  }

  /** `alloc` in terms of the limit and the blocks on the list alone. */
  lemma AllocFacts(h: Heap, size: int, grant: bool)
    requires Inv(h)
    ensures var fs, h', ptr := FreeList(h.layout), Apply(h, Alloc(size, grant)), Returned(h, Alloc(size, grant));
            var fits := exists c :: c in fs && c.size >= size;
            && (ptr == 0 <==> size <= 0 || (!fits && (!grant || (h.limit != 0 && h.size + 256 > h.limit))))
            && h'.size == (if ptr != 0 && !fits then h.size + 256 else h.size)
            && (ptr == 0 ==> h' == h)
            && (ptr != 0 && !fits ==> ptr == h.Break() + 16)
            && (ptr != 0 && fits ==> exists p: nat :: Chosen(fs, h.policy, size, |fs|, p) && ptr == fs[p].addr + 16)
    ensures SameSettings(h, Apply(h, Alloc(size, grant)))
  {
    var fs := FreeList(h.layout);
    var n := |fs|;
    FitsMember(fs, size);
    PickIsPolicy(fs, h.policy, size, n);
    if size > 0 {
      AllocFailure(h, size, grant);
      if !Grows(h, size) { AllocList(h, size, grant); }
      else { BeforeSplitOk(h, size); }
    }
  }

  /** Policy, limit and start of the heap are as before. */
  predicate SameSettings(h: Heap, h': Heap) { h'.policy == h.policy && h'.limit == h.limit && h'.base == h.base }

  lemma FitsMember(fs: seq<Chunk>, size: int)
    ensures Fits(fs, |fs|, size) <==> exists c :: c in fs && c.size >= size
  {
    if Fits(fs, |fs|, size) {
      var k :| 0 <= k < |fs| && fs[k].size >= size;
      assert fs[k] in fs;
    }
  }

  /** The block that a successful `alloc` hands out, in terms of the sizes alone. */
  lemma AllocBlock(h: Heap, size: int, grant: bool)
    requires Inv(h)
    ensures var fits, l := exists c :: c in FreeList(h.layout) && c.size >= size, Apply(h, Alloc(size, grant)).layout;
            Returned(h, Alloc(size, grant)) != 0 ==> exists b | b in l && b !in h.layout && b.kind == Live ::
              && Returned(h, Alloc(size, grant)) == b.addr + 16
              && b.size <= size + 16 && (size <= b.size <==> fits || size <= 240)
  {
    if Returned(h, Alloc(size, grant)) != 0 {
      AllocResult(h, size, grant);
      AllocSize(h, size);
      FitsMember(FreeList(h.layout), size);
      PickIsPolicy(FreeList(h.layout), h.policy, size, |FreeList(h.layout)|);
      OfKindMembers(Apply(h, Alloc(size, grant)).layout, Live, NewBlock(h, size));
    }
  }

  lemma ChosenBefore(fs: seq<Chunk>, policy: Policy, size: int, lo: int, hi: int, p: nat, c: Chunk)
    requires Sorted(fs, lo, hi) && Chosen(fs, policy, size, |fs|, p) && c in fs && c.size >= size
    ensures (policy == FirstFit ==> fs[p].addr <= c.addr) && (policy == BestFit ==> fs[p].size <= c.size)
    ensures (policy == WorstFit ==> fs[p].size >= c.size) && (fs[p].size == c.size ==> fs[p].addr <= c.addr)
  {
    var k: nat :| k < |fs| && fs[k] == c;
    SortedOrder(fs, lo, hi, p);
  }

  /** The block that `alloc` takes when one fits, told by sizes and addresses: the lowest, the
      smallest or the largest that fits, and the lowest of those as large. */
  lemma PolicyChoice(h: Heap, size: int, grant: bool)
    requires Inv(h) && size > 0 && exists c :: c in FreeList(h.layout) && c.size >= size
    ensures exists b | b in FreeList(h.layout) && b.size >= size ::
              && Returned(h, Alloc(size, grant)) == b.addr + 16
              && forall c :: c in FreeList(h.layout) && c.size >= size ==>
                (h.policy == FirstFit ==> b.addr <= c.addr) && (h.policy == BestFit ==> b.size <= c.size) &&
                  (h.policy == WorstFit ==> b.size >= c.size) && (b.size == c.size ==> b.addr <= c.addr)
  {
    var fs := FreeList(h.layout);
    AllocFacts(h, size, grant);
    var p: nat :| Chosen(fs, h.policy, size, |fs|, p) && Returned(h, Alloc(size, grant)) == fs[p].addr + 16;
    SortedOfKind(h.layout, Free, h.base, h.Break());
    forall c | c in fs && c.size >= size
      ensures (h.policy == FirstFit ==> fs[p].addr <= c.addr) && (h.policy == BestFit ==> fs[p].size <= c.size)
      ensures (h.policy == WorstFit ==> fs[p].size >= c.size) && (fs[p].size == c.size ==> fs[p].addr <= c.addr)
    {
      ChosenBefore(fs, h.policy, size, h.base, h.Break(), p, c);
    }
  }

  lemma RetagLive(l: Layout, i: nat, lo: int, hi: int)
    requires Tiles(l, lo, hi) && i < |l| && l[i].kind == Live
    ensures var l' := l[i := l[i].(kind := Free)];
            && Bytes(l', Free) == Bytes(l, Free) + l[i].Total()
            && (forall c :: c in OfKind(l', Live) <==> c in OfKind(l, Live) && c.addr != l[i].addr)
  {
    var freed := l[i].(kind := Free);
    var l' := l[i := freed];
    Inside(l, lo, hi, i);
    RetagLists(l, i, Free, Free);
    OfKindSmall(l[i], Free);
    OfKindSmall(freed, Free);
    forall c
      ensures c in OfKind(l', Live) <==> c in OfKind(l, Live) && c.addr != l[i].addr
    {
      OfKindMembers(l, Live, c);
      OfKindMembers(l', Live, c);
      if c in l && c.addr == l[i].addr {
        var k :| 0 <= k < |l| && l[k] == c;
        Inside(l, lo, hi, k);
        OneOwner(l, lo, hi, i, k, c.addr);
      }
      if c in l' && c.kind == Live && c.addr == l[i].addr {
        var k :| 0 <= k < |l'| && l'[k] == c;
        assert k != i;
        Inside(l, lo, hi, k);
        OneOwner(l, lo, hi, i, k, c.addr);
      }
      if c in l && c.kind == Live && c.addr != l[i].addr {
        var k :| 0 <= k < |l| && l[k] == c;
        assert l'[k] == c;
      }
    }
  }

  /** `dealloc` takes exactly the named block out of the live ones and returns all its bytes. */
  lemma DeallocResult(h: Heap, ptr: int)
    requires Inv(h) && ptr != 0 && IsLive(h, ptr)
    ensures forall c :: c in OfKind(Apply(h, Dealloc(ptr)).layout, Live) <==>
                        c in OfKind(h.layout, Live) && c.addr != ptr - HEADER_SIZE
    ensures var b := h.layout[LivePosition(h.layout, ptr - HEADER_SIZE)];
            Bytes(Apply(h, Dealloc(ptr)).layout, Free) == Bytes(h.layout, Free) + b.Total()
  {
    var l := h.layout;
    var i := LivePosition(l, ptr - HEADER_SIZE);
    RetagLive(l, i, h.base, h.Break());
    RetagTiles(l, i, Free, h.base, h.Break());
    MergeLayoutCoalesces(l[i := l[i].(kind := Free)], h.base, h.Break());
  }

  // ---------------------------------------------------------------- runs

  /** Nothing obtained yet, the program break wherever the system put it. */
  predicate Fresh(h: Heap) { h.layout == [] && h.size == 0 && 0 < h.base }

  /** The `k`-th call is allowed and takes the `k`-th state to the next. */
  predicate CallAt(hs: seq<Heap>, cs: seq<Call>, k: nat)
    requires |hs| == |cs| + 1 && k < |cs|
  {
    Allowed(hs[k], cs[k]) && hs[k + 1] == Apply(hs[k], cs[k])
  }

  /** Any calls in any order, of which only `dealloc` of something not live is ruled out. */
  predicate IsRun(hs: seq<Heap>, cs: seq<Call>) {
    && |hs| == |cs| + 1 && Fresh(hs[0])
    && forall k: nat :: k < |cs| ==> CallAt(hs, cs, k)
  }

  lemma {:induction false} RunKeepsInv(hs: seq<Heap>, cs: seq<Call>, n: nat)
    requires IsRun(hs, cs) && n <= |cs|
    ensures Inv(hs[n])
  {
    if n > 0 {
      RunKeepsInv(hs, cs, n - 1);
      assert CallAt(hs, cs, n - 1);
      ApplyKeepsInv(hs[n - 1], cs[n - 1]);
    }
  }

  /** In every state of every run, growth included: any two chunks, live, free or lost, are
      disjoint and lie inside the obtained heap, all bytes are accounted for, and the free
      list is strictly increasing in address with no two blocks touching. */
  lemma RunsAreSafe(hs: seq<Heap>, cs: seq<Call>, n: nat)
    requires IsRun(hs, cs) && n <= |cs|
    ensures Inv(hs[n])
    ensures forall i: nat, j: nat :: i < j < |hs[n].layout| ==>
              hs[n].base <= hs[n].layout[i].addr && hs[n].layout[i].End() <= hs[n].layout[j].addr &&
                hs[n].layout[j].End() <= hs[n].Break()
    ensures Bytes(hs[n].layout, Free) + Bytes(hs[n].layout, Live) + Bytes(hs[n].layout, Lost) == hs[n].size
    ensures Sorted(FreeList(hs[n].layout), hs[n].base, hs[n].Break()) && Apart(FreeList(hs[n].layout))
  {
    var h := hs[n];
    RunKeepsInv(hs, cs, n);
    forall i: nat, j: nat | i < j < |h.layout|
      ensures h.base <= h.layout[i].addr && h.layout[i].End() <= h.layout[j].addr && h.layout[j].End() <= h.Break()
    {
      Disjoint(h.layout, h.base, h.Break(), i, j);
    }
    BytesTotal(h.layout, h.base, h.Break());
    SortedOfKind(h.layout, Free, h.base, h.Break());
    MergeLayoutIdle(h.layout);
    MergePassFollowsLayout(h.layout, h.base, h.Break());
    MergePassSeparates(FreeList(h.layout), h.base, h.Break());
  }

  /** The calls since the last reset that grow the heap while something is on the list. */
  predicate Forgets(h: Heap, c: Call) {
    c.Alloc? && !Fails(h, c.size, c.grant) && Grows(h, c.size) && FreeList(h.layout) != []
  }

  lemma LostStep(h: Heap, c: Call)
    requires Inv(h) && Allowed(h, c) && !c.AllocOpt?
    ensures OfKind(Apply(h, c).layout, Lost) == [] <==> OfKind(h.layout, Lost) == [] && !Forgets(h, c)
  {
    ApplyKeepsInv(h, c);
    var h' := Apply(h, c);
    BytesTotal(h.layout, h.base, h.Break());
    BytesTotal(h'.layout, h'.base, h'.Break());
    Conservation(h, c);
  }

  predicate NeverForgets(hs: seq<Heap>, cs: seq<Call>, from: nat, to: nat)
    requires |hs| == |cs| + 1 && to <= |cs|
  {
    forall k :: from <= k < to ==> !Forgets(hs[k], cs[k])
  }

  /** Blocks are lost exactly when some growth since the last reset met a non-empty list. */
  lemma {:induction false} LostIffForgot(hs: seq<Heap>, cs: seq<Call>, n: nat, since: nat)
    requires IsRun(hs, cs) && since <= n <= |cs| && hs[since].layout == []
    requires forall k :: since <= k < n ==> !cs[k].AllocOpt?
    ensures OfKind(hs[n].layout, Lost) == [] <==> NeverForgets(hs, cs, since, n)
    decreases n
  {
    if n > since {
      LostIffForgot(hs, cs, n - 1, since);
      RunKeepsInv(hs, cs, n - 1);
      assert CallAt(hs, cs, n - 1);
      var h, c, h' := hs[n - 1], cs[n - 1], hs[n];
      assert OfKind(h'.layout, Lost) == [] <==> OfKind(h.layout, Lost) == [] && !Forgets(h, c) by { LostStep(h, c); }
      assert NeverForgets(hs, cs, since, n) <==> NeverForgets(hs, cs, since, n - 1) && !Forgets(h, c);
    }
  }

  /** At most one growth has happened and nothing is lost. */
  predicate SingleGrowth(h: Heap) {
    (h.size == 0 || h.size == INCREMENT) && OfKind(h.layout, Lost) == []
  }

  lemma SingleGrowthStep(h: Heap, c: Call)
    requires Inv(h) && Allowed(h, c) && !c.AllocOpt? && SingleGrowth(h) && 256 <= h.limit < 512
    ensures SingleGrowth(Apply(h, c)) && Apply(h, c).limit == h.limit
  {
    LostStep(h, c);
    Conservation(h, c);
    TilesBound(h.layout, h.base, h.Break());
  }

  /** A limit that allows a single growth never forgets a block. */
  lemma {:induction false} SmallLimitLosesNothing(hs: seq<Heap>, cs: seq<Call>, n: nat, since: nat)
    requires IsRun(hs, cs) && since <= n <= |cs| && hs[since].layout == []
    requires hs[since].size == 0 && 256 <= hs[since].limit < 512
    requires forall k :: since <= k < n ==> !cs[k].AllocOpt?
    ensures SingleGrowth(hs[n]) && hs[n].limit == hs[since].limit
    decreases n
  {
    if n > since {
      SmallLimitLosesNothing(hs, cs, n - 1, since);
      RunKeepsInv(hs, cs, n - 1);
      assert CallAt(hs, cs, n - 1);
      SingleGrowthStep(hs[n - 1], cs[n - 1]);
    }
  }

  /** When nothing was lost and everything has been freed, the heap is one free chunk of
      everything obtained minus its header. */
  lemma AllFreedIsOneChunk(h: Heap)
    requires Inv(h) && h.size > 0
    ensures OfKind(h.layout, Live) == [] && OfKind(h.layout, Lost) == [] <==>
            h.layout == [Chunk(h.base, h.size - HEADER_SIZE, Free)]
  {
    var l := h.layout;
    assert |l| >= 2 ==> !BothFree(l[0], l[1]);
    if OfKind(l, Live) == [] && OfKind(l, Lost) == [] {
      forall i | 0 <= i < |l|
        ensures l[i].kind == Free
      {
        OfKindMembers(l, l[i].kind, l[i]);
      }
      assert l == [l[0]] && l[1..] == [];
      assert l[0].addr == h.base;
      assert Tiles(l[1..], l[0].End(), h.Break());
    }
    if h.layout == [Chunk(h.base, h.size - HEADER_SIZE, Free)] {
      OfKindSmall(Chunk(h.base, h.size - HEADER_SIZE, Free), Live);
      OfKindSmall(Chunk(h.base, h.size - HEADER_SIZE, Free), Lost);
    }
  }

  // ---------------------------------------------------------------- options and limits

  /** From one reset to the next the policy, the limit and the start of the heap stay as they
      were set. */
  lemma {:induction false} SettingsStay(hs: seq<Heap>, cs: seq<Call>, since: nat, n: nat)
    requires IsRun(hs, cs) && since <= n <= |cs|
    requires forall k :: since <= k < n ==> !cs[k].AllocOpt?
    ensures SameSettings(hs[since], hs[n])
    decreases n
  {
    if n > since {
      SettingsStay(hs, cs, since, n - 1);
      assert CallAt(hs, cs, n - 1);
    }
  }

  /** After `allocopt` and until the next one, every allocation that need not grow the heap
      takes the block that the policy asked for last names: the lowest, the smallest or the
      largest that fits, and the lowest of those as large. */
  lemma OptionsAreObeyed(hs: seq<Heap>, cs: seq<Call>, k: nat, n: nat, size: int, grant: bool)
    requires IsRun(hs, cs) && k < n <= |cs| && cs[k].AllocOpt?
    requires forall i :: k < i < n ==> !cs[i].AllocOpt?
    ensures hs[n].policy == cs[k].policy && hs[n].limit == cs[k].limit && hs[n].base == hs[k].Break()
    ensures var fs, policy := FreeList(hs[n].layout), cs[k].policy;
            size > 0 && (exists c :: c in fs && c.size >= size) ==>
              exists b | b in fs && b.size >= size ::
                && Returned(hs[n], Alloc(size, grant)) == b.addr + 16
                && forall c :: c in fs && c.size >= size ==>
                  (policy == FirstFit ==> b.addr <= c.addr) && (policy == BestFit ==> b.size <= c.size) &&
                    (policy == WorstFit ==> b.size >= c.size) && (b.size == c.size ==> b.addr <= c.addr)
  {
    assert CallAt(hs, cs, k);
    SettingsStay(hs, cs, k + 1, n);
    RunKeepsInv(hs, cs, n);
    if size > 0 && exists c :: c in FreeList(hs[n].layout) && c.size >= size { PolicyChoice(hs[n], size, grant); }
  }

  /** Under a limit the heap never gets bigger than it. */
  lemma {:induction false} LimitIsKept(hs: seq<Heap>, cs: seq<Call>, since: nat, n: nat)
    requires IsRun(hs, cs) && since <= n <= |cs| && hs[since].size == 0 && hs[since].limit != 0
    requires forall k :: since <= k < n ==> !cs[k].AllocOpt?
    ensures hs[n].size == 0 || hs[n].size <= hs[since].limit
    decreases n
  {
    if n > since {
      LimitIsKept(hs, cs, since, n - 1);
      SettingsStay(hs, cs, since, n - 1);
      assert CallAt(hs, cs, n - 1);
    }
  }

  /** And it can get as big as the limit allows: `k` requests of 240 bytes each make it grow,
      if and as long as there is no limit or the limit leaves room for 256 bytes more. */
  lemma {:induction false} GrowthIsReached(h: Heap, k: nat) returns (hs: seq<Heap>, cs: seq<Call>)
    requires Fresh(h) && (h.limit == 0 || 256 * k <= h.limit)
    ensures IsRun(hs, cs) && |cs| == k && hs[0] == h && hs[k].size == 256 * k
    ensures forall i :: 0 <= i < k ==> cs[i] == Alloc(240, true) && Returned(hs[i], cs[i]) != 0
    ensures hs[k].limit == h.limit && FreeList(hs[k].layout) == []
  {
    if k == 0 {
      hs, cs := [h], [];
    } else {
      hs, cs := GrowthIsReached(h, k - 1);
      var last, c := hs[k - 1], Alloc(240, true);
      RunKeepsInv(hs, cs, k - 1);
      AllocFacts(last, 240, true);
      FullGrowth(last);
      OneStep(last, c, hs, cs);
      hs, cs := hs + [Apply(last, c)], cs + [c];
    }
  }

  /** A new block of which nothing is left over leaves the list empty. */
  lemma FullGrowth(h: Heap)
    requires Inv(h) && FreeList(h.layout) == [] && !AtLimit(h)
    ensures FreeList(Apply(h, Alloc(240, true)).layout) == []
  {
    var (l, i) := BeforeSplit(h, 240);
    BeforeSplitOk(h, 240);
    AbandonKeeps(h.layout, h.base, h.Break());
    CarveLists(l, i, 240, Free);
    PiecesTile(l[i], 240);
    assert l[..i] == Abandon(h.layout) && l[i + 1..] == [];
  }

  // ---------------------------------------------------------------- what the code does not keep

  lemma OneStep(h: Heap, c: Call, hs: seq<Heap>, cs: seq<Call>)
    requires IsRun(hs, cs) && hs[|cs|] == h && Allowed(h, c)
    ensures IsRun(hs + [Apply(h, c)], cs + [c])
  {
    var hs', cs' := hs + [Apply(h, c)], cs + [c];
    forall k: nat | k < |cs'|
      ensures CallAt(hs', cs', k)
    {
      if k < |cs| { assert CallAt(hs, cs, k); }
    }
  }

  /** A request that a new block cannot hold: the first call of a run, on any fresh heap
      whose limit allows a growth, succeeds and returns a block of 240 bytes. */
  lemma ShortBlockIsReached(h: Heap, size: int)
    requires Fresh(h) && (h.limit == 0 || h.limit >= 256) && size > 240
    ensures IsRun([h, Apply(h, Alloc(size, true))], [Alloc(size, true)])
    ensures Returned(h, Alloc(size, true)) == NewBlock(h, size).addr + HEADER_SIZE
    ensures NewBlock(h, size).size == 240 < size
  {
    var c := Alloc(size, true);
    assert [h] + [Apply(h, c)] == [h, Apply(h, c)] && [] + [c] == [c];
    OneStep(h, c, [h], []);
    assert Abandon([]) == [] && [] + [NewChunk(h)] == [NewChunk(h)];
  }

  /** Two requests of which the second does not fit into what the first leaves over: that
      remainder is forgotten. */
  lemma LossIsReached(h: Heap, first: int, second: int)
    requires Fresh(h) && (h.limit == 0 || h.limit >= 512) && 1 <= first < 224 && second > 224 - first
    ensures var h1 := Apply(h, Alloc(first, true));
            var h2 := Apply(h1, Alloc(second, true));
            && IsRun([h, h1, h2], [Alloc(first, true), Alloc(second, true)])
            && OfKind(h1.layout, Lost) == [] && OfKind(h2.layout, Lost) != []
  {
    var c, d := Alloc(first, true), Alloc(second, true);
    var h1 := Apply(h, c);
    assert [h] + [h1] == [h, h1] && [] + [c] == [c];
    OneStep(h, c, [h], []);
    assert [h, h1] + [Apply(h1, d)] == [h, h1, Apply(h1, d)] && [c] + [d] == [c, d];
    OneStep(h1, d, [h, h1], [c]);
    LeftOver(h, first);
    RunKeepsInv([h, h1], [c], 1);
    LostStep(h, c);
    LostStep(h1, d);
    PickIsPolicy(FreeList(h1.layout), h1.policy, second, |FreeList(h1.layout)|);
  }

  lemma LeftOver(h: Heap, size: int)
    requires Fresh(h) && (h.limit == 0 || h.limit >= 512) && 1 <= size < INCREMENT - 2 * HEADER_SIZE
    ensures var h1 := Apply(h, Alloc(size, true));
            && h1.limit == h.limit && h1.size == 256
            && FreeList(h1.layout) == [Chunk(h.base + HEADER_SIZE + size, INCREMENT - 2 * HEADER_SIZE - size, Free)]
  {
    var b := NewChunk(h);
    assert Abandon([]) == [] && [] + [b] == [b];
    assert Carve([b], 0, size) == Pieces(b, size);
    PiecesTile(b, size);
  }
}
