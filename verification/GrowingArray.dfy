/** The key-value arrays of a10 interface.c: a buffer doubled by `realloc` when full. */
module GrowingArray {
  import opened CStrings

  const I_CAPACITY: nat := 16

  class KVArray {
    var pair: array<KV>
    var count: nat
    var size: nat
    ghost var copied: nat  // elements moved by all reallocations so far

    ghost predicate Valid()
      reads this
    {
      && pair.Length == size && count <= size
      && copied + I_CAPACITY == size
      && (size > I_CAPACITY ==> size < 2 * count)
    }

    function Contents(): seq<KV>
      requires Valid()
      reads this, pair
    {
      pair[..count]
    }

    /** `kv_arr_init` */
    constructor ()
      ensures Valid() && Contents() == [] && fresh(pair)
    {
      pair := new KV[I_CAPACITY](_ => KV([], []));
      count, size, copied := 0, I_CAPACITY, 0;
    }

    /** The emission functions, inside their critical section: nothing already emitted is
        lost or moved when the array doubles, the new pair is cut to 15 bytes a field, and
        all doublings so far have copied fewer than two elements per emission. */
    method Emit(key: CStr, value: CStr)
      requires Valid()
      modifies this, pair
      ensures Valid() && Contents() == old(Contents()) + [Truncate(KV(key, value))]
      ensures var last := Contents()[|Contents()| - 1];
              && last.key <= key && |last.key| == (if |key| < 15 then |key| else 15)
              && last.value <= value && |last.value| == (if |value| < 15 then |value| else 15)
      ensures copied < 2 * |Contents()|
      ensures pair == old(pair) || fresh(pair)
    {
      if count == size {
        var bigger := new KV[2 * size](_ => KV([], []));
        forall k | 0 <= k < count { bigger[k] := pair[k]; }
        copied := copied + count;
        size := 2 * size;
        pair := bigger;
      }
      pair[count] := KV(Cut(key, MAX_KEY_SIZE - 1), Cut(value, MAX_VALUE_SIZE - 1));
      count := count + 1;
    }

    /** `qsort` in place, `sorted` being whatever order of the elements it arrives at. */
    method Reorder(sorted: seq<KV>)
      requires Valid() && multiset(sorted) == multiset(Contents())
      modifies pair
      ensures Valid() && Contents() == sorted
    {
      assert |sorted| == |multiset(sorted)| == |multiset(Contents())| == count;
      forall k | 0 <= k < count { pair[k] := sorted[k]; }
    }
  }
}
