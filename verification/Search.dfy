/** The first-match search that every fixed table in the firmware performs over its slots. */
module Search {
  /** Index of the first element satisfying `p`, or `|s|` when there is none. */
  function First<T>(s: seq<T>, p: T -> bool): (k: nat)
    ensures k <= |s|
    ensures forall j :: 0 <= j < k ==> !p(s[j])
    ensures k < |s| ==> p(s[k])
  {
    if s == [] then 0
    else if p(s[0]) then 0
    else
      var k := 1 + First(s[1..], p);
      assert forall j :: 0 <= j < k ==> !p(s[j]) by {
        forall j | 0 <= j < k ensures !p(s[j]) {
          if j > 0 { assert s[j] == s[1..][j - 1]; }
        }
      }
      k
  }

  /** A scan that stopped at `k` computed `First`. */
  lemma FirstIs<T>(s: seq<T>, p: T -> bool, k: nat)
    requires k <= |s|
    requires forall j :: 0 <= j < k ==> !p(s[j])
    requires k < |s| ==> p(s[k])
    ensures First(s, p) == k
  {
  }

  /** The scan itself, over a table's slots. */
  method Scan<T>(slots: array<T>, p: T -> bool) returns (k: nat)
    ensures k == First(slots[..], p)
  {
    k := 0;
    while k < slots.Length && !p(slots[k])
      invariant k <= slots.Length
      invariant forall j :: 0 <= j < k ==> !p(slots[..][j])
    {
      k := k + 1;
    }
    FirstIs(slots[..], p, k);
  }
}
