/** Counting and filtering, for the caps below. */
module Counting {
  function Count<T>(s: seq<T>, p: T -> bool): (n: nat)
    ensures n <= |s|
  {
    if s == [] then 0 else Count(s[..|s| - 1], p) + if p(s[|s| - 1]) then 1 else 0
  }

  function Filter<T>(s: seq<T>, keep: T -> bool): (r: seq<T>) {
    if s == [] then []
    else if keep(s[|s| - 1]) then Filter(s[..|s| - 1], keep) + [s[|s| - 1]]
    else Filter(s[..|s| - 1], keep)
  }

  lemma {:induction false} CountUpdate<T>(s: seq<T>, i: nat, x: T, p: T -> bool)
    requires i < |s|
    ensures Count(s[i := x], p) + (if p(s[i]) then 1 else 0) == Count(s, p) + if p(x) then 1 else 0
  {
    var n := |s| - 1;
    if i == n {
      assert s[i := x][..n] == s[..n];
    } else {
      CountUpdate(s[..n], i, x, p);
      assert s[i := x][..n] == s[..n][i := x];
    }
  }

  /** Filtering out only what is not counted changes no count. */
  lemma {:induction false} CountFilter<T>(s: seq<T>, keep: T -> bool, p: T -> bool)
    requires forall x :: x in s && p(x) ==> keep(x)
    ensures Count(Filter(s, keep), p) == Count(s, p)
  {
    if s != [] {
      var n := |s| - 1;
      assert s[n] in s;
      CountFilter(s[..n], keep, p);
    }
  }

  lemma {:induction false} FilterCountsLess<T>(s: seq<T>, keep: T -> bool, p: T -> bool)
    ensures Count(Filter(s, keep), p) <= Count(s, p)
  {
    if s != [] {
      var n := |s| - 1;
      FilterCountsLess(s[..n], keep, p);
    }
  }

  /** Dropping something counted lowers the count. */
  lemma {:induction false} FilterLoses<T>(s: seq<T>, keep: T -> bool, p: T -> bool, i: nat)
    requires i < |s| && p(s[i]) && !keep(s[i])
    ensures Count(Filter(s, keep), p) < Count(s, p)
  {
    var n := |s| - 1;
    if i == n {
      FilterCountsLess(s[..n], keep, p);
    } else {
      FilterLoses(s[..n], keep, p, i);
    }
  }

  lemma {:induction false} FilterMeaning<T>(s: seq<T>, keep: T -> bool, x: T)
    ensures x in Filter(s, keep) <==> x in s && keep(x)
  {
    if s != [] {
      FilterMeaning(s[..|s| - 1], keep, x);
      assert s == s[..|s| - 1] + [s[|s| - 1]];
    }
  }

  lemma {:induction false} CountNone<T>(s: seq<T>, p: T -> bool)
    requires forall x :: x in s ==> !p(x)
    ensures Count(s, p) == 0
  {
    if s != [] {
      assert s[|s| - 1] in s;
      CountNone(s[..|s| - 1], p);
    }
  }
}
