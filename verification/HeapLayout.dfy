/** The abstract heap of a9 alloc.c: the obtained heap as a left-to-right sequence of
    chunks, and the pure functions the allocator's operations amount to. */
module HeapLayout {
  import Sequences

  const HEADER_SIZE: int := 16
  const INCREMENT: int := 256

  /** `Lost` chunks were free when the heap grew with a non-empty free list: alloc.c then
      restarts the list at the new block, so they are neither live nor on the list. */
  datatype Kind = Free | Live | Lost

  datatype Chunk = Chunk(addr: int, size: int, kind: Kind)
  {
    function Total(): int { HEADER_SIZE + size }
    function End(): int { addr + Total() }
    predicate Contains(b: int) { addr <= b < End() }
  }

  type Layout = seq<Chunk>

  /** The chunks follow each other without gap or overlap from `lo` to `hi`. */
  predicate Tiles(l: Layout, lo: int, hi: int) {
    if l == [] then lo == hi
    else l[0].addr == lo && l[0].size >= 1 && Tiles(l[1..], l[0].End(), hi)
  }

  predicate BothFree(c: Chunk, d: Chunk) { c.kind == Free && d.kind == Free }

  /** No two neighbouring chunks are free. */
  predicate Coalesced(l: Layout) {
    forall i :: 0 <= i < |l| - 1 ==> !BothFree(l[i], l[i + 1])
  }

  function OfKind(l: Layout, k: Kind): seq<Chunk> {
    if l == [] then [] else (if l[0].kind == k then [l[0]] else []) + OfKind(l[1..], k)
  }

  /** The chunks on the free list, in list order. */
  function FreeList(l: Layout): seq<Chunk> { OfKind(l, Free) }

  /** Bytes, headers included, in chunks of kind `k`. */
  function Bytes(l: Layout, k: Kind): int {
    if l == [] then 0 else (if l[0].kind == k then l[0].Total() else 0) + Bytes(l[1..], k)
  }

  // ---------------------------------------------------------------- tilings

  lemma {:induction false} TilesSplit(l: Layout, i: nat, lo: int, hi: int) returns (mid: int)
    requires Tiles(l, lo, hi) && i <= |l|
    ensures Tiles(l[..i], lo, mid) && Tiles(l[i..], mid, hi)
    ensures lo <= mid <= hi
    ensures i < |l| ==> mid == l[i].addr && l[i].size >= 1 && Tiles(l[i + 1..], l[i].End(), hi) && l[i].End() <= hi
  {
    if i == 0 {
      mid := lo;
      assert l[0..] == l;
      TilesBound(l, lo, hi);
      if l != [] { TilesBound(l[1..], l[0].End(), hi); }
    } else {
      mid := TilesSplit(l[1..], i - 1, l[0].End(), hi);
      assert l[1..][..i - 1] == l[..i][1..];
      assert l[1..][i - 1..] == l[i..];
      if i < |l| { assert l[1..][i..] == l[i + 1..]; }
    }
  }

  lemma {:induction false} TilesBound(l: Layout, lo: int, hi: int)
    requires Tiles(l, lo, hi)
    ensures lo + |l| <= hi
  {
    if l != [] { TilesBound(l[1..], l[0].End(), hi); }
  }

  lemma {:induction false} TilesJoin(a: Layout, b: Layout, lo: int, mid: int, hi: int)
    requires Tiles(a, lo, mid) && Tiles(b, mid, hi)
    ensures Tiles(a + b, lo, hi)
  {
    if a == [] {
      assert a + b == b;
    } else {
      TilesJoin(a[1..], b, a[0].End(), mid, hi);
      assert (a + b)[1..] == a[1..] + b;
    }
  }

  /** Chunks of a tiling are disjoint, ordered by address and inside the heap. */
  lemma Disjoint(l: Layout, lo: int, hi: int, i: nat, j: nat)
    requires Tiles(l, lo, hi) && i < j < |l|
    ensures lo <= l[i].addr && l[i].End() <= l[j].addr && l[j].End() <= hi
    ensures l[i].size >= 1 && l[j].size >= 1
  {
    var m := TilesSplit(l, j, lo, hi);
    var n := TilesSplit(l[..j], i, lo, m);
  }

  lemma Inside(l: Layout, lo: int, hi: int, i: nat)
    requires Tiles(l, lo, hi) && i < |l|
    ensures lo <= l[i].addr && l[i].End() <= hi && l[i].size >= 1
  {
    var m := TilesSplit(l, i, lo, hi);
  }

  /** A byte belongs to at most one chunk. */
  lemma OneOwner(l: Layout, lo: int, hi: int, i: nat, j: nat, b: int)
    requires Tiles(l, lo, hi) && i < |l| && j < |l| && l[i].Contains(b) && l[j].Contains(b)
    ensures i == j
  {
    if i < j { Disjoint(l, lo, hi, i, j); }
    if j < i { Disjoint(l, lo, hi, j, i); }
  }

  lemma {:induction false} OfKindConcat(a: Layout, b: Layout, k: Kind)
    ensures OfKind(a + b, k) == OfKind(a, k) + OfKind(b, k)
    ensures Bytes(a + b, k) == Bytes(a, k) + Bytes(b, k)
  {
    if a == [] {
      assert a + b == b;
    } else {
      var head := if a[0].kind == k then [a[0]] else [];
      assert (a + b)[1..] == a[1..] + b;
      OfKindConcat(a[1..], b, k);
      Sequences.Associate(head, OfKind(a[1..], k), OfKind(b, k));
    }
  }

  lemma OfKindSmall(c: Chunk, k: Kind)
    ensures OfKind([c], k) == (if c.kind == k then [c] else [])
    ensures Bytes([c], k) == (if c.kind == k then c.Total() else 0)
  {
    assert [c][1..] == [];
  }

  /** Splitting the free list around the chunk at position `i`. */
  lemma OfKindAround(l: Layout, i: nat, k: Kind)
    requires i < |l|
    ensures OfKind(l, k) == OfKind(l[..i], k) + OfKind([l[i]], k) + OfKind(l[i + 1..], k)
    ensures Bytes(l, k) == Bytes(l[..i], k) + Bytes([l[i]], k) + Bytes(l[i + 1..], k)
  {
    assert l == l[..i] + ([l[i]] + l[i + 1..]);
    OfKindConcat(l[..i], [l[i]] + l[i + 1..], k);
    OfKindConcat([l[i]], l[i + 1..], k);
  }

  lemma {:induction false} OfKindMembers(l: Layout, k: Kind, c: Chunk)
    ensures c in OfKind(l, k) <==> c in l && c.kind == k
  {
    if l != [] { OfKindMembers(l[1..], k, c); }
  }

  /** Sorted by address with room for each block before the next: what every list of
      chunks of a tiling is. */
  predicate Sorted(fs: seq<Chunk>, lo: int, hi: int) {
    if fs == [] then lo <= hi
    else lo <= fs[0].addr && fs[0].size >= 1 && Sorted(fs[1..], fs[0].End(), hi)
  }

  lemma {:induction false} SortedOfKind(l: Layout, k: Kind, lo: int, hi: int)
    requires Tiles(l, lo, hi)
    ensures Sorted(OfKind(l, k), lo, hi)
  {
    if l != [] {
      SortedOfKind(l[1..], k, l[0].End(), hi);
      if l[0].kind != k {
        SortedWeaken(OfKind(l[1..], k), l[0].End(), lo, hi);
        assert OfKind(l, k) == OfKind(l[1..], k);
      } else {
        assert OfKind(l, k)[1..] == OfKind(l[1..], k);
      }
    }
  }

  lemma SortedWeaken(fs: seq<Chunk>, lo: int, lo': int, hi: int)
    requires Sorted(fs, lo, hi) && lo' <= lo
    ensures Sorted(fs, lo', hi)
  {
  }

  lemma {:induction false} SortedOrder(fs: seq<Chunk>, lo: int, hi: int, i: nat)
    requires Sorted(fs, lo, hi) && i < |fs|
    ensures lo <= fs[i].addr && fs[i].size >= 1 && fs[i].End() <= hi
    ensures forall j :: i < j < |fs| ==> fs[i].End() <= fs[j].addr
  {
    if i == 0 {
      SortedFrom(fs[1..], fs[0].End(), hi);
      assert forall j :: 0 < j < |fs| ==> fs[j] == fs[1..][j - 1];
    } else {
      SortedOrder(fs[1..], fs[0].End(), hi, i - 1);
      assert forall j :: i < j < |fs| ==> fs[j] == fs[1..][j - 1];
    }
  }

  lemma {:induction false} SortedFrom(fs: seq<Chunk>, lo: int, hi: int)
    requires Sorted(fs, lo, hi)
    ensures lo <= hi && forall j :: 0 <= j < |fs| ==> lo <= fs[j].addr
  {
    if fs != [] {
      SortedFrom(fs[1..], fs[0].End(), hi);
      assert forall j :: 0 < j < |fs| ==> fs[j] == fs[1..][j - 1];
    }
  }

  // ---------------------------------------------------------------- coalescing

  function Merge(c: Chunk, d: Chunk): Chunk { c.(size := c.size + d.Total()) }

  /** `coalesce_free_blocks` on the list alone: it merges by address arithmetic. */
  function MergePass(fs: seq<Chunk>): seq<Chunk>
    decreases |fs|
  {
    if |fs| < 2 then fs
    else if fs[0].End() == fs[1].addr then MergePass([Merge(fs[0], fs[1])] + fs[2..])
    else [fs[0]] + MergePass(fs[1..])
  }

  /** Merging neighbouring free chunks of the whole heap. */
  function MergeLayout(l: Layout): Layout
    decreases |l|
  {
    if |l| < 2 then l
    else if BothFree(l[0], l[1]) then MergeLayout([Merge(l[0], l[1])] + l[2..])
    else [l[0]] + MergeLayout(l[1..])
  }

  /** The list pass, which only sees the free blocks and their addresses, merges exactly the
      free chunks that are neighbours in the heap. */
  lemma {:induction false} MergePassFollowsLayout(l: Layout, lo: int, hi: int)
    requires Tiles(l, lo, hi)
    ensures FreeList(MergeLayout(l)) == MergePass(FreeList(l))
    decreases |l|
  {
    if |l| < 2 {
      assert |FreeList(l)| < 2 by { if l != [] { OfKindSmall(l[0], Free); assert l == [l[0]]; } }
    } else if BothFree(l[0], l[1]) {
      var m := [Merge(l[0], l[1])] + l[2..];
      assert m[1..] == l[2..] == l[1..][1..];
      MergePassFollowsLayout(m, lo, hi);
      assert FreeList(l[1..]) == [l[1]] + FreeList(l[2..]);
      assert FreeList(l) == [l[0], l[1]] + FreeList(l[2..]);
      assert FreeList(l)[2..] == FreeList(l[2..]);
      assert FreeList(m) == [m[0]] + FreeList(l[2..]);
    } else {
      MergePassFollowsLayout(l[1..], l[0].End(), hi);
      var rest := FreeList(l[1..]);
      assert ([l[0]] + MergeLayout(l[1..]))[1..] == MergeLayout(l[1..]);
      if l[0].kind == Free {
        assert l[1].kind != Free;
        assert rest == FreeList(l[1..][1..]);
        SortedOfKind(l[1..][1..], Free, l[1].End(), hi);
        assert FreeList(l) == [l[0]] + rest;
        assert FreeList(l)[1..] == rest;
        if rest != [] { assert FreeList(l)[1] == rest[0]; }
        assert MergePass(FreeList(l)) == [l[0]] + MergePass(rest);
      } else {
        assert FreeList(l) == rest;
        assert FreeList(MergeLayout(l)) == FreeList(MergeLayout(l[1..]));
      }
    }
  }

  /** One pass over a tiling leaves a tiling of the same heap in which no two neighbours are
      free, keeps every chunk that is not free, and moves no byte between kinds. */
  lemma {:induction false} MergeLayoutCoalesces(l: Layout, lo: int, hi: int)
    requires Tiles(l, lo, hi)
    ensures Tiles(MergeLayout(l), lo, hi) && Coalesced(MergeLayout(l))
    ensures l != [] ==> MergeLayout(l) != [] && MergeLayout(l)[0].kind == l[0].kind
    ensures forall k :: k != Free ==> OfKind(MergeLayout(l), k) == OfKind(l, k)
    ensures forall k :: Bytes(MergeLayout(l), k) == Bytes(l, k)
    decreases |l|
  {
    if |l| < 2 {
    } else if BothFree(l[0], l[1]) {
      var m := [Merge(l[0], l[1])] + l[2..];
      assert m[1..] == l[2..] == l[1..][1..];
      MergeLayoutCoalesces(m, lo, hi);
    } else {
      MergeLayoutCoalesces(l[1..], l[0].End(), hi);
      var r := MergeLayout(l);
      assert r[1..] == MergeLayout(l[1..]);
      forall i | 0 <= i < |r| - 1
        ensures !BothFree(r[i], r[i + 1])
      {
        if i > 0 {
          assert !BothFree(r[1..][i - 1], r[1..][i]);
        }
      }
    }
  }

  lemma {:induction false} MergeLayoutIdle(l: Layout)
    requires Coalesced(l)
    ensures MergeLayout(l) == l
    decreases |l|
  {
    if |l| >= 2 {
      assert !BothFree(l[0], l[1]);
      CoalescedSlice(l, 1, |l|);
      assert l[1..|l|] == l[1..];
      MergeLayoutIdle(l[1..]);
    }
  }

  lemma CoalescedSlice(l: Layout, i: nat, j: nat)
    requires Coalesced(l) && i <= j <= |l|
    ensures Coalesced(l[i..j])
  {
    forall k | 0 <= k < |l[i..j]| - 1
      ensures !BothFree(l[i..j][k], l[i..j][k + 1])
    {
      assert !BothFree(l[i + k], l[i + k + 1]);
    }
  }

  /** No block of the list ends where the next begins. */
  predicate Apart(fs: seq<Chunk>) { forall i :: 0 <= i < |fs| - 1 ==> fs[i].End() != fs[i + 1].addr }

  /** Some block of the list contains the byte. */
  predicate Covers(fs: seq<Chunk>, b: int) { exists c :: c in fs && c.Contains(b) }

  /** One pass restores maximal coalescing after any sorted insertion, whatever the list. */
  lemma {:induction false} MergePassSeparates(fs: seq<Chunk>, lo: int, hi: int)
    requires Sorted(fs, lo, hi)
    ensures Sorted(MergePass(fs), lo, hi) && Apart(MergePass(fs))
    ensures fs != [] ==> MergePass(fs) != [] && MergePass(fs)[0].addr == fs[0].addr
    ensures forall b :: Covers(fs, b) <==> Covers(MergePass(fs), b)
    decreases |fs|
  {
    if |fs| < 2 {
    } else if fs[0].End() == fs[1].addr {
      var m := [Merge(fs[0], fs[1])] + fs[2..];
      assert m[1..] == fs[2..] == fs[1..][1..];
      MergePassSeparates(m, lo, hi);
      assert fs == [fs[0], fs[1]] + fs[2..];
      forall b
        ensures Covers(fs, b) <==> Covers(m, b)
      {
        MergeCovers(fs[0], fs[1], fs[2..], b);
      }
    } else {
      MergePassSeparates(fs[1..], fs[0].End(), hi);
      var r := MergePass(fs);
      assert r[1..] == MergePass(fs[1..]);
      assert fs == [fs[0]] + fs[1..];
      forall i | 0 <= i < |r| - 1
        ensures r[i].End() != r[i + 1].addr
      {
        if i > 0 { assert r[1..][i - 1].End() != r[1..][i].addr; }
      }
      forall b
        ensures Covers(fs, b) <==> Covers(r, b)
      {
        ConsCovers(fs[0], fs[1..], b);
        ConsCovers(fs[0], r[1..], b);
      }
    }
  }

  lemma ConsCovers(c: Chunk, fs: seq<Chunk>, b: int)
    ensures Covers([c] + fs, b) <==> c.Contains(b) || Covers(fs, b)
  {
    if Covers(fs, b) {
      var d :| d in fs && d.Contains(b);
      assert d in [c] + fs;
    }
    if c.Contains(b) { assert c in [c] + fs; }
  }

  lemma MergeCovers(c: Chunk, d: Chunk, fs: seq<Chunk>, b: int)
    requires c.End() == d.addr && c.size >= 1 && d.size >= 1
    ensures Covers([c, d] + fs, b) <==> Covers([Merge(c, d)] + fs, b)
  {
    ConsCovers(c, [d] + fs, b);
    assert [c] + ([d] + fs) == [c, d] + fs;
    ConsCovers(d, fs, b);
    ConsCovers(Merge(c, d), fs, b);
  }
}
