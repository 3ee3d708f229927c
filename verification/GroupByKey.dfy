/** Grouping as a relation between bags of pairs: what a sorted array's groups contain, and
    why neither the order of the array nor the order of the keys matters (a10 interface.c). */
module GroupByKey {
  import opened CStrings
  import opened Grouping

  predicate KeySorted(s: seq<KV>) { forall i, j :: 0 <= i < j < |s| ==> StrCmp(s[i].key, s[j].key) <= 0 }

  predicate AllShort(s: seq<KV>) { forall i :: 0 <= i < |s| ==> Short(s[i]) }

  /** What `qsort` may return: any permutation in key order. */
  ghost predicate SortOf(t: seq<KV>, s: seq<KV>) { multiset(t) == multiset(s) && KeySorted(t) }

  /** The values that `s` holds under `key`, in order. */
  function Values(s: seq<KV>, key: CStr): seq<CStr> {
    if s == [] then []
    else Values(s[..|s| - 1], key) + (if s[|s| - 1].key == key then [s[|s| - 1].value] else [])
  }

  predicate HasKey(s: seq<KV>, key: CStr) { exists i :: 0 <= i < |s| && s[i].key == key }

  lemma {:induction false} ValuesConcat(s: seq<KV>, t: seq<KV>, key: CStr)
    ensures Values(s + t, key) == Values(s, key) + Values(t, key)
  {
    if t == [] {
      assert s + t == s;
    } else {
      assert (s + t)[..|s + t| - 1] == s + t[..|t| - 1];
      ValuesConcat(s, t[..|t| - 1], key);
    }
  }

  lemma {:induction false} ValuesAbsent(s: seq<KV>, key: CStr)
    requires forall i :: 0 <= i < |s| ==> s[i].key != key
    ensures Values(s, key) == []
  {
    if s != [] { ValuesAbsent(s[..|s| - 1], key); }
  }

  lemma {:induction false} ValuesOfRun(s: seq<KV>, i: nat, j: nat, key: CStr)
    requires i <= j <= |s| && AllShort(s) && forall k :: i <= k < j ==> s[k].key == key
    ensures ValuesIn(s, i, j) == Values(s[i..j], key)
    decreases j
  {
    if i < j {
      ValuesOfRun(s, i, j - 1, key);
      assert s[i..j][..j - i - 1] == s[i..j - 1];
      assert Short(s[j - 1]);
    }
  }

  /** Counting: how often a value appears under a key is how often the pair appears. */
  lemma {:induction false} ValuesCount(s: seq<KV>, key: CStr, value: CStr)
    ensures multiset(Values(s, key))[value] == multiset(s)[KV(key, value)]
  {
    if s != [] {
      var n := |s| - 1;
      ValuesCount(s[..n], key, value);
      assert s == s[..n] + [s[n]];
    }
  }

  /** The values under a key do not depend on the order of the pairs. */
  lemma ValuesOfPermutation(s: seq<KV>, t: seq<KV>, key: CStr)
    requires multiset(s) == multiset(t)
    ensures multiset(Values(s, key)) == multiset(Values(t, key))
  {
    forall v
      ensures multiset(Values(s, key))[v] == multiset(Values(t, key))[v]
    {
      ValuesCount(s, key, v);
      ValuesCount(t, key, v);
    }
  }

  lemma InPermutation<T>(s: seq<T>, t: seq<T>, x: T)
    requires multiset(s) == multiset(t)
    ensures x in s <==> x in t
  {
    assert x in s <==> x in multiset(s);
    assert x in t <==> x in multiset(t);
  }

  lemma KeysOfPermutation(s: seq<KV>, t: seq<KV>, key: CStr)
    requires multiset(s) == multiset(t) && HasKey(s, key)
    ensures HasKey(t, key)
  {
    var i :| 0 <= i < |s| && s[i].key == key;
    InPermutation(s, t, s[i]);
    var j :| 0 <= j < |t| && t[j] == s[i];
  }

  lemma ShortPermutation(s: seq<KV>, t: seq<KV>)
    requires multiset(s) == multiset(t) && AllShort(s)
    ensures AllShort(t)
  {
    forall i | 0 <= i < |t|
      ensures Short(t[i])
    {
      assert t[i] in t;
      InPermutation(s, t, t[i]);
    }
  }

  // ---------------------------------------------------------------- groups of a sorted array

  /** In key order, a boundary separates strictly smaller keys from the key after it. */
  lemma BoundarySeparates(s: seq<KV>, i: nat, k: nat)
    requires KeySorted(s) && Boundary(s, i) && k < i < |s|
    ensures StrCmp(s[k].key, s[i].key) < 0
  {
    StrCmpOrder(s[i - 1].key, s[i].key);
    StrCmpOrder(s[k].key, s[k].key);
    StrCmpTransitive(s[k].key, s[i - 1].key, s[i].key);
  }

  lemma KeysBefore(s: seq<KV>, i: nat)
    requires KeySorted(s) && Boundary(s, i) && i < |s|
    ensures Values(s[..i], s[i].key) == []
  {
    forall k | 0 <= k < i
      ensures s[..i][k].key != s[i].key
    {
      BoundarySeparates(s, i, k);
      StrCmpOrder(s[k].key, s[i].key);
    }
    ValuesAbsent(s[..i], s[i].key);
  }

  /** Every pair at or after a later boundary has a strictly larger key. */
  lemma LaterIsLarger(s: seq<KV>, i: nat, r: nat, q: nat)
    requires KeySorted(s) && Boundary(s, r) && i < r <= q < |s|
    ensures StrCmp(s[i].key, s[q].key) < 0
  {
    BoundarySeparates(s, r, i);
    StrCmpOrder(s[q].key, s[q].key);
    StrCmpTransitive(s[i].key, s[r].key, s[q].key);
  }

  lemma KeysAfter(s: seq<KV>, i: nat, r: nat)
    requires KeySorted(s) && Boundary(s, r) && i < r <= |s|
    ensures Values(s[r..], s[i].key) == []
  {
    forall k | 0 <= k < |s| - r
      ensures s[r..][k].key != s[i].key
    {
      LaterIsLarger(s, i, r, r + k);
      StrCmpOrder(s[i].key, s[r + k].key);
    }
    ValuesAbsent(s[r..], s[i].key);
  }

  lemma ValuesInParts(s: seq<KV>, i: nat, r: nat, key: CStr)
    requires i <= r <= |s| && Values(s[..i], key) == [] && Values(s[r..], key) == []
    ensures Values(s, key) == Values(s[i..r], key)
  {
    assert s == s[..i] + (s[i..r] + s[r..]);
    ValuesConcat(s[..i], s[i..r] + s[r..], key);
    ValuesConcat(s[i..r], s[r..], key);
  }

  /** If a key occurs only in the run from `i` to `r`, the run holds all its values. */
  lemma ValuesOfOnlyRun(s: seq<KV>, i: nat, r: nat, key: CStr)
    requires i <= r <= |s| && AllShort(s) && forall k :: i <= k < r ==> s[k].key == key
    requires Values(s[..i], key) == [] && Values(s[r..], key) == []
    ensures ValuesIn(s, i, r) == Values(s, key)
  {
    ValuesOfRun(s, i, r, key);
    ValuesInParts(s, i, r, key);
  }

  lemma KeysElsewhere(s: seq<KV>, i: nat, r: nat)
    requires KeySorted(s) && Boundary(s, i) && Boundary(s, r) && i < r <= |s|
    ensures Values(s[..i], s[i].key) == [] && Values(s[r..], s[i].key) == []
  {
    KeysBefore(s, i);
    KeysAfter(s, i, r);
  }

  lemma GroupOfRun(s: seq<KV>, i: nat)
    requires AllShort(s) && i < |s|
    requires Values(s[..i], s[i].key) == [] && Values(s[RunEnd(s, i)..], s[i].key) == []
    ensures GroupAt(s, i) == Group(s[i].key, Values(s, s[i].key))
  {
    assert Short(s[i]);
    RunEndIsBoundary(s, i);
    ValuesOfOnlyRun(s, i, RunEnd(s, i), s[i].key);
  }

  /** The run at a boundary is exactly the pairs with its key. */
  lemma GroupIsComplete(s: seq<KV>, i: nat)
    requires KeySorted(s) && AllShort(s) && Boundary(s, i) && i < |s|
    ensures GroupAt(s, i) == Group(s[i].key, Values(s, s[i].key))
  {
    RunEndIsBoundary(s, i);
    KeysElsewhere(s, i, RunEnd(s, i));
    GroupOfRun(s, i);
  }

  /** Strictly ascending keys. */
  predicate Ascending(g: seq<Group>) { forall a, b :: 0 <= a < b < |g| ==> StrCmp(g[a].key, g[b].key) < 0 }

  predicate KeyFrom(s: seq<KV>, i: nat, key: CStr) { exists q :: i <= q < |s| && s[q].key == key }

  predicate HasGroup(g: seq<Group>, key: CStr) { exists a :: 0 <= a < |g| && g[a].key == key }

  lemma ConsHasGroup(h: Group, rest: seq<Group>, key: CStr)
    ensures HasGroup([h] + rest, key) <==> h.key == key || HasGroup(rest, key)
  {
    var g := [h] + rest;
    if h.key == key { assert g[0].key == key; }
    if HasGroup(rest, key) {
      var a :| 0 <= a < |rest| && rest[a].key == key;
      assert g[a + 1].key == key;
    }
    if HasGroup(g, key) {
      var a :| 0 <= a < |g| && g[a].key == key;
      if a > 0 { assert rest[a - 1].key == key; }
    }
  }

  lemma KeyFromRun(s: seq<KV>, i: nat, r: nat, key: CStr)
    requires i < r <= |s| && forall q :: i <= q < r ==> s[q].key == s[i].key
    ensures KeyFrom(s, i, key) <==> s[i].key == key || KeyFrom(s, r, key)
  {
    if KeyFrom(s, i, key) {
      var q :| i <= q < |s| && s[q].key == key;
      if q >= r { assert KeyFrom(s, r, key); }
    }
    if KeyFrom(s, r, key) {
      var q :| r <= q < |s| && s[q].key == key;
    }
  }

  lemma ConsAscending(h: Group, rest: seq<Group>)
    requires Ascending(rest) && forall b :: 0 <= b < |rest| ==> StrCmp(h.key, rest[b].key) < 0
    ensures Ascending([h] + rest)
  {
    var g := [h] + rest;
    forall a, b | 0 <= a < b < |g|
      ensures StrCmp(g[a].key, g[b].key) < 0
    {
      if a > 0 { assert g[a] == rest[a - 1]; }
      assert g[b] == rest[b - 1];
    }
  }

  /** The groups of a sorted array: strictly ascending keys, each key of the array once, with
      all its values. */
  lemma {:induction false} GroupsAreComplete(s: seq<KV>, i: nat)
    requires KeySorted(s) && AllShort(s) && Boundary(s, i)
    ensures Ascending(GroupsFrom(s, i))
    ensures forall key :: HasGroup(GroupsFrom(s, i), key) <==> KeyFrom(s, i, key)
    ensures forall a :: 0 <= a < |GroupsFrom(s, i)| ==> GroupsFrom(s, i)[a].values == Values(s, GroupsFrom(s, i)[a].key)
    decreases |s| - i
  {
    if i < |s| {
      var r, h := RunEnd(s, i), GroupAt(s, i);
      var rest := GroupsFrom(s, r);
      RunEndIsBoundary(s, i);
      GroupsAreComplete(s, r);
      GroupIsComplete(s, i);
      forall b | 0 <= b < |rest|
        ensures StrCmp(h.key, rest[b].key) < 0
      {
        assert HasGroup(rest, rest[b].key);
        var q :| r <= q < |s| && s[q].key == rest[b].key;
        LaterIsLarger(s, i, r, q);
      }
      ConsAscending(h, rest);
      forall key
        ensures HasGroup([h] + rest, key) <==> KeyFrom(s, i, key)
      {
        ConsHasGroup(h, rest, key);
        KeyFromRun(s, i, r, key);
      }
    }
  }

  // ---------------------------------------------------------------- orders of keys

  predicate NoRepeats(ks: seq<CStr>) { forall a, b :: 0 <= a < b < |ks| ==> ks[a] != ks[b] }

  lemma {:induction false} NoRepeatsCount(ks: seq<CStr>, k: CStr)
    requires NoRepeats(ks)
    ensures multiset(ks)[k] == if k in ks then 1 else 0
  {
    if ks != [] {
      var n := |ks| - 1;
      NoRepeatsCount(ks[..n], k);
      assert ks == ks[..n] + [ks[n]];
    }
  }

  lemma SameKeysSameBag(a: seq<CStr>, b: seq<CStr>)
    requires NoRepeats(a) && NoRepeats(b) && forall k :: k in a <==> k in b
    ensures multiset(a) == multiset(b)
  {
    forall k
      ensures multiset(a)[k] == multiset(b)[k]
    {
      NoRepeatsCount(a, k);
      NoRepeatsCount(b, k);
    }
  }

  /** The keys of `s` in order of first appearance. */
  function DistinctKeys(s: seq<KV>): seq<CStr> {
    if s == [] then []
    else
      var ks := DistinctKeys(s[..|s| - 1]);
      if s[|s| - 1].key in ks then ks else ks + [s[|s| - 1].key]
  }

  lemma {:induction false} DistinctKeysOk(s: seq<KV>)
    ensures NoRepeats(DistinctKeys(s)) && forall k :: k in DistinctKeys(s) <==> HasKey(s, k)
  {
    if s != [] {
      var n := |s| - 1;
      DistinctKeysOk(s[..n]);
      forall k
        ensures k in DistinctKeys(s) <==> HasKey(s, k)
      {
        if HasKey(s[..n], k) {
          var i :| 0 <= i < n && s[..n][i].key == k;
          assert s[i].key == k;
        }
        if HasKey(s, k) {
          var i :| 0 <= i < |s| && s[i].key == k;
          if i < n { assert s[..n][i].key == k; }
        }
      }
    }
  }

  function GroupKeys(g: seq<Group>): (ks: seq<CStr>)
    ensures |ks| == |g| && forall a :: 0 <= a < |g| ==> ks[a] == g[a].key
  {
    if g == [] then [] else [g[0].key] + GroupKeys(g[1..])
  }

  lemma AscendingNoRepeats(g: seq<Group>)
    requires Ascending(g)
    ensures NoRepeats(GroupKeys(g))
  {
    forall a, b | 0 <= a < b < |g|
      ensures GroupKeys(g)[a] != GroupKeys(g)[b]
    {
      StrCmpOrder(g[a].key, g[b].key);
    }
  }
}
