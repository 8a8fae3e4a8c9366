/** Bitmaps: counting clear bits, and marking and clearing runs (k64_xfs.c:79-89, 182-230). */
module Bitmap {

  function CountClear(bits: seq<bool>, lo: nat, hi: nat): nat
    requires hi <= |bits|
  {
    if lo >= hi then 0 else CountClear(bits, lo, hi - 1) + if bits[hi - 1] then 0 else 1
  }

  lemma {:induction false} CountSame(a: seq<bool>, b: seq<bool>, lo: nat, hi: nat)
    requires hi <= |a| && hi <= |b| && forall k :: lo <= k < hi ==> a[k] == b[k]
    ensures CountClear(a, lo, hi) == CountClear(b, lo, hi)
    decreases hi
  {
    if lo < hi {
      CountSame(a, b, lo, hi - 1);
    }
  }

  /** Flipping one bit moves the count of clear bits by one. */
  lemma {:induction false} CountFlip(bits: seq<bool>, i: nat, lo: nat, hi: nat)
    requires lo <= i < hi <= |bits| && !bits[i]
    ensures CountClear(bits, lo, hi) == CountClear(bits[i := true], lo, hi) + 1
    decreases hi
  {
    if i == hi - 1 {
      CountSame(bits, bits[i := true], lo, hi - 1);
    } else {
      CountFlip(bits, i, lo, hi - 1);
    }
  }

  lemma {:induction false} CountZero(bits: seq<bool>, lo: nat, hi: nat)
    requires hi <= |bits|
    ensures CountClear(bits, lo, hi) == 0 <==> forall k :: lo <= k < hi ==> bits[k]
    decreases hi
  {
    if lo < hi {
      CountZero(bits, lo, hi - 1);
    }
  }

  predicate ClearRun(bits: seq<bool>, start: int, n: nat) {
    0 <= start && start + n <= |bits| && forall b :: start <= b < start + n ==> !bits[b]
  }

  function Marked(bits: seq<bool>, start: nat, n: nat, value: bool): (r: seq<bool>)
    requires start + n <= |bits|
    ensures |r| == |bits|
    ensures forall b :: 0 <= b < |bits| ==> r[b] == if start <= b < start + n then value else bits[b]
  {
    if n == 0 then bits else Marked(bits, start, n - 1, value)[start + n - 1 := value]
  }

  /** A clear run of n blocks holds n of the free blocks. */
  lemma {:induction false} ClearRunCounts(bits: seq<bool>, lo: nat, start: nat, n: nat)
    requires lo <= start && ClearRun(bits, start, n)
    ensures CountClear(bits, lo, |bits|) == CountClear(Marked(bits, start, n, true), lo, |bits|) + n
  {
    if n > 0 {
      ClearRunCounts(bits, lo, start, n - 1);
      CountFlip(Marked(bits, start, n - 1, true), start + n - 1, lo, |bits|);
    }
  }

  /** First fit: the lowest clear run of n bits at or above lo. */
  method FindRun(bits: seq<bool>, lo: nat, n: nat) returns (found: bool, start: nat)
    requires n > 0 && lo <= |bits|
    ensures found ==> lo <= start && ClearRun(bits, start, n)
    ensures found ==> forall s :: lo <= s < start ==> !ClearRun(bits, s, n)
    ensures !found ==> forall s :: lo <= s ==> !ClearRun(bits, s, n)
  {
    found, start := false, 0;
    var len := 0;
    for b := lo to |bits|
      invariant len < n && len <= b - lo
      invariant len > 0 ==> start == b - len
      invariant forall k :: b - len <= k < b ==> !bits[k]
      invariant b - len > lo ==> bits[b - len - 1]
      invariant forall s :: lo <= s && s + n <= b ==> !ClearRun(bits, s, n)
    {
      if !bits[b] {
        if len == 0 {
          start := b;
        }
        len := len + 1;
        if len == n {
          return true, start;
        }
      } else {
        len := 0;
      }
    }
  }

  /** Marks a run of blocks. */
  method Mark(bits: seq<bool>, start: nat, n: nat) returns (r: seq<bool>)
    requires start + n <= |bits|
    ensures r == Marked(bits, start, n, true)
  {
    r := bits;
    for x := 0 to n
      invariant r == Marked(bits, start, x, true)
    {
      r := r[start + x := true];
    }
  }

  /** Clears a run of blocks and counts the bits that were set. */
  method Unmark(bits: seq<bool>, lo: nat, start: nat, n: nat) returns (r: seq<bool>, freed: nat)
    requires lo <= start && start + n <= |bits|
    ensures r == Marked(bits, start, n, false)
    ensures CountClear(r, lo, |bits|) == CountClear(bits, lo, |bits|) + freed
  {
    r, freed := bits, 0;
    for i := 0 to n
      invariant r == Marked(bits, start, i, false)
      invariant CountClear(r, lo, |bits|) == CountClear(bits, lo, |bits|) + freed
    {
      if r[start + i] {
        ghost var before := r;
        r := r[start + i := false];
        freed := freed + 1;
        CountFlip(r, start + i, lo, |bits|);
        assert r[start + i := true] == before;
      } else {
        assert r == r[start + i := false];
      }
    }
  }
}
