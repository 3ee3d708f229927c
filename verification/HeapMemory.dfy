/** Byte-addressed memory as a9 alloc.c sees it. A byte remembers which stored word it
    belongs to and which of the eight bytes of that word it is, so a store that overlaps an
    earlier word destroys it and a load of a torn word cannot be justified. */
module HeapMemory {

  datatype Frag = Frag(word: int, part: int)

  type Mem = map<int, Frag>

  const WORD: int := 8

  predicate Mapped(m: Mem, a: int, n: int) { forall b :: a <= b < a + n ==> b in m }

  /** The eight bytes at `a` are the bytes of `w`, in order. */
  predicate Holds(m: Mem, a: int, w: int) {
    forall b :: a <= b < a + WORD ==> b in m && m[b] == Frag(w, b - a)
  }

  predicate Intact(m: Mem, a: int) { a in m && Holds(m, a, m[a].word) }

  function Load(m: Mem, a: int): (w: int)
    requires Intact(m, a)
    ensures Holds(m, a, w)
    ensures forall v :: Holds(m, a, v) ==> v == w
  {
    assert forall v :: Holds(m, a, v) ==> m[a] == Frag(v, 0);
    m[a].word
  }

  function Store(m: Mem, a: int, w: int): (m': Mem)
    requires Mapped(m, a, WORD)
    ensures Holds(m', a, w)
    ensures m'.Keys == m.Keys
    ensures forall b :: b in m && !(a <= b < a + WORD) ==> m'[b] == m[b]
  {
    map b | b in m :: if a <= b < a + WORD then Frag(w, b - a) else m[b]
  }

  /** Both memories agree on the bytes from `lo` up to `hi`. */
  predicate Same(m: Mem, m': Mem, lo: int, hi: int) {
    forall b :: lo <= b < hi && b in m ==> b in m' && m'[b] == m[b]
  }

  lemma HoldsFrame(m: Mem, m': Mem, a: int, w: int)
    requires Holds(m, a, w) && Same(m, m', a, a + WORD)
    ensures Holds(m', a, w)
  {
  }
}
