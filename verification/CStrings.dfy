/** C strings, `strcmp`, and the truncating copies of a10 interface.c. */
module CStrings {

  /** A byte of a C string: unsigned, never the terminator. */
  type CChar = x: int | 1 <= x < 256 witness 1

  type CStr = seq<CChar>

  const MAX_KEY_SIZE: nat := 16
  const MAX_VALUE_SIZE: nat := 16

  datatype KV = KV(key: CStr, value: CStr)

  /** `strcmp`: the difference at the first place where the strings differ, the end of a
      string counting as a zero byte. */
  function StrCmp(a: CStr, b: CStr): int {
    if a == [] then (if b == [] then 0 else -b[0])
    else if b == [] then a[0]
    else if a[0] != b[0] then a[0] - b[0]
    else StrCmp(a[1..], b[1..])
  }

  lemma {:induction false} StrCmpOrder(a: CStr, b: CStr)
    ensures StrCmp(a, b) == 0 <==> a == b
    ensures StrCmp(a, b) < 0 <==> StrCmp(b, a) > 0
  {
    if a != [] && b != [] && a[0] == b[0] {
      StrCmpOrder(a[1..], b[1..]);
      assert a == [a[0]] + a[1..] && b == [b[0]] + b[1..];
    }
  }

  /** `a` comes before `b` byte by byte: they agree up to a place where `a` ends or has the
      smaller byte. */
  predicate BytesBefore(a: CStr, b: CStr) {
    exists k :: 0 <= k <= |a| && k < |b| && a[..k] == b[..k] && (k == |a| || a[k] < b[k])
  }

  lemma PrefixTail(a: CStr, b: CStr, k: nat)
    requires k < |a| && k < |b| && a[0] == b[0]
    ensures a[..k + 1] == b[..k + 1] <==> a[1..][..k] == b[1..][..k]
  {
    assert a[..k + 1] == [a[0]] + a[1..][..k] && b[..k + 1] == [b[0]] + b[1..][..k];
  }

  lemma BytesBeforeTail(a: CStr, b: CStr)
    requires a != [] && b != [] && a[0] == b[0]
    ensures BytesBefore(a, b) <==> BytesBefore(a[1..], b[1..])
  {
    if BytesBefore(a, b) {
      var k :| 0 <= k <= |a| && k < |b| && a[..k] == b[..k] && (k == |a| || a[k] < b[k]);
      if k > 0 { PrefixTail(a, b, k - 1); }
    }
    if BytesBefore(a[1..], b[1..]) {
      var x, y := a[1..], b[1..];
      var k :| 0 <= k <= |x| && k < |y| && x[..k] == y[..k] && (k == |x| || x[k] < y[k]);
      PrefixTail(a, b, k);
    }
  }

  /** Which order `strcmp` is: that of the bytes, the first difference deciding, a string
      before its own extensions. */
  lemma {:induction false} StrCmpIsByteOrder(a: CStr, b: CStr)
    ensures StrCmp(a, b) < 0 <==> BytesBefore(a, b)
  {
    if a != [] && b != [] && a[0] == b[0] {
      StrCmpIsByteOrder(a[1..], b[1..]);
      BytesBeforeTail(a, b);
    } else if b != [] && (a == [] || a[0] < b[0]) {
      assert a[..0] == b[..0];
    } else if BytesBefore(a, b) {
      var k :| 0 <= k <= |a| && k < |b| && a[..k] == b[..k] && (k == |a| || a[k] < b[k]);
      assert k > 0 ==> a[..k][0] == b[..k][0];
    }
  }

  lemma {:induction false} StrCmpTransitive(a: CStr, b: CStr, c: CStr)
    requires StrCmp(a, b) <= 0 && StrCmp(b, c) <= 0
    ensures StrCmp(a, c) <= 0
    ensures StrCmp(a, b) < 0 || StrCmp(b, c) < 0 ==> StrCmp(a, c) < 0
  {
    if a != [] && b != [] && c != [] && a[0] == b[0] == c[0] {
      StrCmpTransitive(a[1..], b[1..], c[1..]);
    }
  }

  /** `strndup(s, n)`, and `strncpy` into a buffer of n + 1 bytes ended by hand. */
  function Cut(s: CStr, n: nat): CStr { if |s| <= n then s else s[..n] }

  function Truncate(p: KV): KV { KV(Cut(p.key, MAX_KEY_SIZE - 1), Cut(p.value, MAX_VALUE_SIZE - 1)) }

  predicate Short(p: KV) { |p.key| < MAX_KEY_SIZE && |p.value| < MAX_VALUE_SIZE }

  /** What is kept of a key and a value: their first 15 bytes. */
  lemma TruncateKeepsPrefix(p: KV)
    ensures var q := Truncate(p);
            && q.key <= p.key && |q.key| == (if |p.key| < 15 then |p.key| else 15)
            && q.value <= p.value && |q.value| == (if |p.value| < 15 then |p.value| else 15)
  {
  }

  function TruncateAll(s: seq<KV>): (r: seq<KV>)
    ensures |r| == |s| && forall k :: 0 <= k < |s| ==> r[k] == Truncate(s[k]) && Short(r[k])
  {
    if s == [] then [] else [Truncate(s[0])] + TruncateAll(s[1..])
  }

  lemma TruncateAllConcat(s: seq<KV>, t: seq<KV>)
    ensures TruncateAll(s + t) == TruncateAll(s) + TruncateAll(t)
  {
    var r, q := TruncateAll(s + t), TruncateAll(s) + TruncateAll(t);
    assert forall k :: 0 <= k < |r| ==> r[k] == q[k];
  }
}
