/** The allocator of a9 alloc.c as a state machine over heap layouts: block choice, split,
    release, growth, reset, and what every run of these operations keeps. */
module HeapSpec {
  import opened HeapLayout

  datatype Policy = FirstFit | BestFit | WorstFit

  // ---------------------------------------------------------------- block choice

  /** Whether a later fitting block replaces the one found so far. */
  predicate Better(policy: Policy, size: int, best: int) {
    (policy == BestFit && size < best) || (policy == WorstFit && size > best)
  }

  /** The search loop after it has looked at the first `n` blocks; -1 while none fits. */
  function PickAmong(fs: seq<Chunk>, policy: Policy, size: int, n: nat): (p: int)
    requires n <= |fs|
    ensures -1 <= p < n
  {
    if n == 0 then -1
    else
      var p := PickAmong(fs, policy, size, n - 1);
      var c := fs[n - 1];
      if c.size >= size && (p == -1 || Better(policy, c.size, fs[p].size)) then n - 1 else p
  }

  function Pick(fs: seq<Chunk>, policy: Policy, size: int): (p: int)
    ensures -1 <= p < |fs|
  {
    PickAmong(fs, policy, size, |fs|)
  }

  predicate Fits(fs: seq<Chunk>, n: nat, size: int) { exists k :: 0 <= k < n <= |fs| && fs[k].size >= size }

  /** `p` is the first fitting block, the earliest of the smallest fitting ones, or the
      earliest of the largest fitting ones among the first `n`. */
  predicate Chosen(fs: seq<Chunk>, policy: Policy, size: int, n: nat, p: nat) {
    && p < n <= |fs| && fs[p].size >= size
    && match policy
       case FirstFit => forall k :: 0 <= k < p ==> fs[k].size < size
       case BestFit => forall k :: 0 <= k < n && fs[k].size >= size ==>
             fs[p].size <= fs[k].size && (k < p ==> fs[p].size < fs[k].size)
       case WorstFit => forall k :: 0 <= k < n && fs[k].size >= size ==>
             fs[k].size <= fs[p].size && (k < p ==> fs[k].size < fs[p].size)
  }

  /** The search finds a block exactly when one fits, and it is the one the policy names. */
  lemma {:induction false} PickIsPolicy(fs: seq<Chunk>, policy: Policy, size: int, n: nat)
    requires n <= |fs|
    ensures PickAmong(fs, policy, size, n) != -1 <==> Fits(fs, n, size)
    ensures PickAmong(fs, policy, size, n) != -1 ==> Chosen(fs, policy, size, n, PickAmong(fs, policy, size, n))
  {
    if n > 0 {
      PickIsPolicy(fs, policy, size, n - 1);
      var p := PickAmong(fs, policy, size, n - 1);
      if p == -1 {
        assert forall k :: 0 <= k < n - 1 ==> fs[k].size < size;
      } else {
        assert fs[p].size >= size;
      }
      if fs[n - 1].size >= size { assert Fits(fs, n, size); }
    }
  }

  lemma ChosenIsUnique(fs: seq<Chunk>, policy: Policy, size: int, n: nat, p: nat, q: nat)
    requires Chosen(fs, policy, size, n, p) && Chosen(fs, policy, size, n, q)
    ensures p == q
  {
  }

  lemma FreeCons(l: Layout, i: nat)
    requires i + 1 < |l|
    ensures var head := if l[0].kind == Free then [l[0]] else [];
            && FreeList(l[..i + 1]) == head + FreeList(l[1..][..i])
            && FreeList(l[i + 2..]) == FreeList(l[1..][i + 1..])
  {
    assert l[..i + 1][1..] == l[1..][..i];
    assert l[i + 2..] == l[1..][i + 1..];
  }

  /** Position in the heap of the `j`-th free chunk. */
  function FreePosition(l: Layout, j: nat): (i: nat)
    requires j < |FreeList(l)|
    ensures i < |l|
  {
    if l[0].kind == Free && j == 0 then 0
    else
      assert FreeList(l) == (if l[0].kind == Free then [l[0]] else []) + FreeList(l[1..]);
      1 + FreePosition(l[1..], if l[0].kind == Free then j - 1 else j)
  }

  lemma {:induction false} FreePositionOk(l: Layout, j: nat)
    requires j < |FreeList(l)|
    ensures var i := FreePosition(l, j);
            && l[i] == FreeList(l)[j] && l[i].kind == Free
            && FreeList(l[..i]) == FreeList(l)[..j] && FreeList(l[i + 1..]) == FreeList(l)[j + 1..]
  {
    assert FreeList(l) == (if l[0].kind == Free then [l[0]] else []) + FreeList(l[1..]);
    if l[0].kind == Free && j == 0 {
      assert l[..0] == [];
    } else {
      var j' := if l[0].kind == Free then j - 1 else j;
      FreePositionOk(l[1..], j');
      FreeCons(l, FreePosition(l[1..], j'));
    }
  }

  // ---------------------------------------------------------------- split, abandon, release

  /** The pieces into which a free chunk is cut: the live block and, if more than a header
      would remain, the free remainder. */
  function Pieces(c: Chunk, size: int): Layout {
    if c.size > size + HEADER_SIZE then
      [Chunk(c.addr, size, Live), Chunk(c.addr + HEADER_SIZE + size, c.size - size - HEADER_SIZE, Free)]
    else
      [c.(kind := Live)]
  }

  function Carve(l: Layout, i: nat, size: int): Layout
    requires i < |l|
  {
    l[..i] + Pieces(l[i], size) + l[i + 1..]
  }

  /** Growth forgets the blocks that were on the free list. */
  function Abandon(l: Layout): Layout {
    if l == [] then [] else [if l[0].kind == Free then l[0].(kind := Lost) else l[0]] + Abandon(l[1..])
  }

  function Release(l: Layout, i: nat): Layout
    requires i < |l|
  {
    MergeLayout(l[i := l[i].(kind := Free)])
  }

  lemma OfKindPair(c: Chunk, d: Chunk, k: Kind)
    ensures OfKind([c, d], k) == (if c.kind == k then [c] else []) + (if d.kind == k then [d] else [])
    ensures Bytes([c, d], k) == (if c.kind == k then c.Total() else 0) + (if d.kind == k then d.Total() else 0)
  {
    assert [c, d] == [c] + [d];
    OfKindConcat([c], [d], k);
    OfKindSmall(c, k);
    OfKindSmall(d, k);
  }

  /** The lists and totals of one kind among the pieces. */
  lemma PiecesOfKind(c: Chunk, size: int, k: Kind)
    ensures var ps := Pieces(c, size);
            && OfKind(ps, k) == (if k == Live then [ps[0]] else if k == Free then ps[1..] else [])
            && Bytes(ps, k) == (if k == Live then ps[0].Total()
                                else if k == Free && |ps| == 2 then ps[1].Total() else 0)
  {
    var ps := Pieces(c, size);
    if |ps| == 2 {
      OfKindPair(ps[0], ps[1], k);
      assert ps == [ps[0], ps[1]] && ps[1..] == [ps[1]];
    } else {
      OfKindSmall(ps[0], k);
    }
  }

  lemma PiecesTile(c: Chunk, size: int)
    requires c.size >= 1 && size >= 1
    ensures Tiles(Pieces(c, size), c.addr, c.End())
    ensures FreeList(Pieces(c, size)) == Pieces(c, size)[1..]
    ensures OfKind(Pieces(c, size), Live) == [Pieces(c, size)[0]]
    ensures OfKind(Pieces(c, size), Lost) == []
    ensures Bytes(Pieces(c, size), Free) + Bytes(Pieces(c, size), Live) == c.Total()
    ensures Bytes(Pieces(c, size), Live) == Pieces(c, size)[0].Total()
    ensures Bytes(Pieces(c, size), Lost) == 0
  {
    PiecesAdjoin(c, size);
    PiecesOfKind(c, size, Free);
    PiecesOfKind(c, size, Live);
    PiecesOfKind(c, size, Lost);
  }

  lemma PiecesAdjoin(c: Chunk, size: int)
    requires c.size >= 1 && size >= 1
    ensures Tiles(Pieces(c, size), c.addr, c.End())
  {
    var ps := Pieces(c, size);
    if |ps| == 2 { assert ps[1..] == [ps[1]] && ps[1..][1..] == []; }
  }

  lemma CarveTiles(l: Layout, i: nat, size: int, lo: int, hi: int)
    requires Tiles(l, lo, hi) && i < |l| && size >= 1
    ensures Tiles(Carve(l, i, size), lo, hi)
  {
    var mid := TilesSplit(l, i, lo, hi);
    PiecesTile(l[i], size);
    TilesJoin(l[..i], Pieces(l[i], size), lo, mid, l[i].End());
    TilesJoin(l[..i] + Pieces(l[i], size), l[i + 1..], lo, l[i].End(), hi);
  }

  lemma CarveCoalesced(l: Layout, i: nat, size: int)
    requires Coalesced(l) && i < |l| && l[i].kind == Free
    ensures Coalesced(Carve(l, i, size))
  {
    var r := Carve(l, i, size);
    var d := |Pieces(l[i], size)| - 1;
    forall k | 0 <= k < |r| - 1
      ensures !BothFree(r[k], r[k + 1])
    {
      if k < i - 1 {
        assert !BothFree(l[k], l[k + 1]);
      } else if k >= i + d {
        assert !BothFree(l[k - d], l[k - d + 1]);
        assert r[k + 1] == l[k - d + 1];
      }
    }
  }

  /** What a split does to each kind: one live block appears at the chosen place, the list
      loses that block or keeps its remainder there, nothing else moves. */
  lemma CarveLists(l: Layout, i: nat, size: int, k: Kind)
    requires i < |l| && l[i].kind == Free && l[i].size >= 1 && size >= 1
    ensures OfKind(Carve(l, i, size), k) ==
              OfKind(l[..i], k) + OfKind(Pieces(l[i], size), k) + OfKind(l[i + 1..], k)
    ensures Bytes(Carve(l, i, size), k) ==
              Bytes(l, k) - Bytes([l[i]], k) + Bytes(Pieces(l[i], size), k)
  {
    OfKindConcat(l[..i] + Pieces(l[i], size), l[i + 1..], k);
    OfKindConcat(l[..i], Pieces(l[i], size), k);
    OfKindAround(l, i, k);
  }

  lemma {:induction false} AbandonKeeps(l: Layout, lo: int, hi: int)
    requires Tiles(l, lo, hi)
    ensures Tiles(Abandon(l), lo, hi) && |Abandon(l)| == |l|
    ensures FreeList(Abandon(l)) == [] && OfKind(Abandon(l), Live) == OfKind(l, Live)
    ensures Bytes(Abandon(l), Free) == 0 && Bytes(Abandon(l), Live) == Bytes(l, Live)
    ensures Bytes(Abandon(l), Lost) == Bytes(l, Lost) + Bytes(l, Free)
    ensures forall i :: 0 <= i < |l| ==> Abandon(l)[i] == (if l[i].kind == Free then l[i].(kind := Lost) else l[i])
    ensures FreeList(l) == [] ==> Abandon(l) == l
  {
    if l != [] {
      AbandonKeeps(l[1..], l[0].End(), hi);
      assert Abandon(l)[1..] == Abandon(l[1..]);
      forall i | 0 <= i < |l|
        ensures Abandon(l)[i] == (if l[i].kind == Free then l[i].(kind := Lost) else l[i])
      {
        if i > 0 { assert l[i] == l[1..][i - 1]; }
      }
    }
  }

  lemma {:induction false} RetagTiles(l: Layout, i: nat, k: Kind, lo: int, hi: int)
    requires Tiles(l, lo, hi) && i < |l|
    ensures Tiles(l[i := l[i].(kind := k)], lo, hi)
  {
    var c := l[i].(kind := k);
    if i == 0 {
      assert l[0 := c][1..] == l[1..];
    } else {
      RetagTiles(l[1..], i - 1, k, l[0].End(), hi);
      assert l[i := c][1..] == l[1..][i - 1 := c];
    }
  }

  lemma RetagLists(l: Layout, i: nat, k: Kind, q: Kind)
    requires i < |l|
    ensures var l' := l[i := l[i].(kind := k)];
            && OfKind(l', q) == OfKind(l[..i], q) + OfKind([l[i].(kind := k)], q) + OfKind(l[i + 1..], q)
            && Bytes(l', q) == Bytes(l, q) - Bytes([l[i]], q) + Bytes([l[i].(kind := k)], q)
  {
    var l' := l[i := l[i].(kind := k)];
    OfKindAround(l', i, q);
    OfKindAround(l, i, q);
    assert l'[..i] == l[..i] && l'[i + 1..] == l[i + 1..];
  }

  // ---------------------------------------------------------------- the state machine

  /** `base` is the program break at the last reset, `size` what was obtained since. */
  datatype Heap = Heap(policy: Policy, limit: int, base: int, size: int, layout: Layout)
  {
    function Break(): int { base + size }
  }

  /** The calls a program can make. `grant` is whether `sbrk` succeeds if it is reached. */
  datatype Call = Alloc(size: int, grant: bool) | Dealloc(ptr: int) | AllocOpt(policy: Policy, limit: int)

  predicate Inv(h: Heap) {
    0 < h.base && Tiles(h.layout, h.base, h.Break()) && Coalesced(h.layout)
  }

  predicate IsLive(h: Heap, ptr: int) {
    exists i :: 0 <= i < |h.layout| && h.layout[i].kind == Live && h.layout[i].addr == ptr - HEADER_SIZE
  }

  function LivePosition(l: Layout, addr: int): (i: nat)
    requires exists i :: 0 <= i < |l| && l[i].kind == Live && l[i].addr == addr
    ensures i < |l| && l[i].kind == Live && l[i].addr == addr
  {
    if l[0].kind == Live && l[0].addr == addr then 0
    else
      assert forall k :: 1 <= k < |l| ==> l[k] == l[1..][k - 1];
      LivePosition(l[1..], addr) + 1
  }

  /** `alloc` must grow the heap: no block on the list fits. */
  predicate Grows(h: Heap, size: int) { Pick(FreeList(h.layout), h.policy, size) == -1 }

  predicate AtLimit(h: Heap) { h.limit != 0 && h.size + INCREMENT > h.limit }

  predicate Fails(h: Heap, size: int, grant: bool) {
    size <= 0 || (Grows(h, size) && (AtLimit(h) || !grant))
  }

  function NewChunk(h: Heap): Chunk { Chunk(h.Break(), INCREMENT - HEADER_SIZE, Free) }

  /** The layout just before the split, and the position of the chunk to split. */
  function BeforeSplit(h: Heap, size: int): (Layout, nat) {
    var p := Pick(FreeList(h.layout), h.policy, size);
    if p == -1 then (Abandon(h.layout) + [NewChunk(h)], |Abandon(h.layout)|)
    else (h.layout, FreePosition(h.layout, p))
  }

  function AfterAlloc(h: Heap, size: int): Heap {
    var (l, i) := BeforeSplit(h, size);
    AbandonLength(h.layout);
    h.(layout := Carve(l, i, size), size := if Grows(h, size) then h.size + INCREMENT else h.size)
  }

  /** The pointer a successful `alloc` returns. */
  function Allocated(h: Heap, size: int): int
  {
    var (l, i) := BeforeSplit(h, size);
    l[i].addr + HEADER_SIZE
  }

  lemma {:induction false} AbandonLength(l: Layout)
    ensures |Abandon(l)| == |l|
  {
    if l != [] { AbandonLength(l[1..]); }
  }

  predicate Allowed(h: Heap, c: Call) { c.Dealloc? && c.ptr != 0 ==> IsLive(h, c.ptr) }

  function Apply(h: Heap, c: Call): Heap
    requires Allowed(h, c)
  {
    match c
    case Alloc(size, grant) => if Fails(h, size, grant) then h else AfterAlloc(h, size)
    case Dealloc(ptr) =>
      if ptr == 0 then h else h.(layout := Release(h.layout, LivePosition(h.layout, ptr - HEADER_SIZE)))
    case AllocOpt(policy, limit) => Heap(policy, limit, h.Break(), 0, [])
  }

  function Returned(h: Heap, c: Call): int {
    if c.Alloc? && !Fails(h, c.size, c.grant) then Allocated(h, c.size) else 0
  }
}
