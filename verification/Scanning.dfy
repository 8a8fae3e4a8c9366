/** Looking for the first element of a table that passes a test, as the kernel's scanning loops do. */
module Scanning {

  /** The first index at or after i that passes; the length when none does. */
  function First<T>(table: seq<T>, test: T -> bool, i: nat): (k: nat)
    requires i <= |table|
    ensures i <= k <= |table| && (k < |table| ==> test(table[k]))
    ensures forall j :: i <= j < k ==> !test(table[j])
    decreases |table| - i
  {
    if i == |table| || test(table[i]) then i else First(table, test, i + 1)
  }

  method Scan<T>(table: seq<T>, test: T -> bool) returns (k: nat)
    ensures k == First(table, test, 0)
  {
    k := 0;
    while k < |table| && !test(table[k])
      invariant k <= |table| && First(table, test, 0) == First(table, test, k)
      decreases |table| - k
    {
      k := k + 1;
    }
  }
}
