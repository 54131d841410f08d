/** Cell addresses: dot-separated decimal segments, where string prefixes stand for ancestry. */
module Addresses {
  import opened Words

  // ---- Splitting on dots ----

  predicate DotFree(s: string) { forall i :: 0 <= i < |s| ==> s[i] != '.' }

  function Split(s: string): (segs: seq<string>)
    ensures segs != []
    decreases |s|
  {
    if s == "" then [""]
    else if s[0] == '.' then [""] + Split(s[1..])
    else
      var rest := Split(s[1..]);
      [[s[0]] + rest[0]] + rest[1..]
  }

  function Join(segs: seq<string>): (r: string)
    requires segs != []
    decreases |segs|
  {
    if |segs| == 1 then segs[0] else segs[0] + "." + Join(segs[1..])
  }

  lemma {:induction false} JoinUndoesSplit(s: string)
    ensures Join(Split(s)) == s
    decreases |s|
  {
    if s != "" {
      var rest := Split(s[1..]);
      JoinUndoesSplit(s[1..]);
      if s[0] == '.' {
        assert Split(s)[1..] == rest;
      } else {
      }
    }
  }

  lemma {:induction false} SplitAtDot(a: string, b: string)
    ensures Split(a + "." + b) == Split(a) + Split(b)
    decreases |a|
  {
    var s := a + "." + b;
    if a == "" {
      assert s[1..] == b;
    } else {
      SplitAtDot(a[1..], b);
      assert s[1..] == a[1..] + "." + b && s[0] == a[0];
      GrowFirst(a[0], Split(a[1..]), Split(b));
    }
  }

  lemma GrowFirst(c: char, x: seq<string>, y: seq<string>)
    requires x != []
    ensures [""] + (x + y) == ([""] + x) + y
    ensures [[c] + (x + y)[0]] + (x + y)[1..] == ([[c] + x[0]] + x[1..]) + y
  {
    assert (x + y)[1..] == x[1..] + y;
  }

  lemma {:induction false} SplitOfDotFree(s: string)
    requires DotFree(s)
    ensures Split(s) == [s]
    decreases |s|
  {
    if s != "" {
      SplitOfDotFree(s[1..]);
      assert [s[0]] + s[1..] == s;
    }
  }

  lemma {:induction false} JoinAppend(a: seq<string>, b: seq<string>)
    requires a != [] && b != []
    ensures Join(a + b) == Join(a) + "." + Join(b)
    decreases |a|
  {
    if |a| > 1 {
      JoinAppend(a[1..], b);
      assert (a + b)[1..] == a[1..] + b;
      assert a[0] + "." + (Join(a[1..]) + "." + Join(b)) == a[0] + "." + Join(a[1..]) + "." + Join(b);
    } else {
      assert (a + b)[1..] == b;
    }
  }

  lemma SplitInjective(a: string, b: string)
    requires Split(a) == Split(b)
    ensures a == b
  {
    JoinUndoesSplit(a);
    JoinUndoesSplit(b);
  }

  // ---- Addresses ----

  const ROOT: string := "0"

  predicate Digit(c: char) { '0' <= c <= '9' }
  predicate AllDigits(s: string) { forall i :: 0 <= i < |s| ==> Digit(s[i]) }
  predicate GoodSegment(s: string) { 1 <= |s| <= 6 && AllDigits(s) }

  /** What `Addr::parse` accepts. */
  predicate Valid(s: string) {
    && 1 <= |s| <= 64
    && Split(s)[0] == "0"
    && forall i :: 1 <= i < |Split(s)| ==> GoodSegment(Split(s)[i])
  }

  predicate IsAncestorOf(a: string, b: string) {
    |b| > |a| && b[..|a|] == a && b[|a|] == '.'
  }

  predicate ProperPrefix(a: seq<string>, b: seq<string>) {
    |a| < |b| && b[..|a|] == a
  }

  /** The string test is exactly "proper prefix, segment by segment" - for all strings, valid or not. */
  lemma AncestryIsSegmentPrefix(a: string, b: string)
    ensures IsAncestorOf(a, b) <==> ProperPrefix(Split(a), Split(b))
  {
    if IsAncestorOf(a, b) {
      var r := b[|a| + 1..];
      assert b == a + "." + r;
      SplitAtDot(a, r);
    }
    if ProperPrefix(Split(a), Split(b)) {
      var more := Split(b)[|Split(a)|..];
      JoinUndoesSplit(a);
      JoinUndoesSplit(b);
      assert Split(a) + more == Split(b);
      JoinAppend(Split(a), more);
      assert b == a + "." + Join(more);
    }
  }

  /** Index of the last dot, or `|s|` when there is none. */
  function LastDot(s: string): (i: nat)
    ensures i <= |s|
    ensures i < |s| ==> s[i] == '.' && DotFree(s[i + 1..])
    ensures i == |s| ==> DotFree(s)
    decreases |s|
  {
    if s == "" then 0
    else
      var i := LastDot(s[1..]);
      if i < |s| - 1 then
        assert s[1..][i + 1..] == s[i + 2..];
        i + 1
      else if s[0] == '.' then 0
      else
        assert forall j :: 1 <= j < |s| ==> s[j] == s[1..][j - 1];
        |s|
  }

  function Parent(a: string): (r: Option<string>) {
    var i := LastDot(a);
    if i == |a| then None else Some(a[..i])
  }

  lemma ParentDropsOneSegment(a: string)
    ensures var segs := Split(a);
            match Parent(a)
            case None => |segs| == 1
            case Some(p) => |segs| >= 2 && Split(p) == segs[..|segs| - 1] && IsAncestorOf(p, a) && |p| < |a|
  {
    var i := LastDot(a);
    if i == |a| {
      SplitOfDotFree(a);
    } else {
      assert a == a[..i] + "." + a[i + 1..];
      SplitAtDot(a[..i], a[i + 1..]);
      SplitOfDotFree(a[i + 1..]);
    }
  }

  /** Ancestors of a cell are its parent and the parent's ancestors. */
  lemma AncestorsThroughParent(a: string, u: string)
    ensures IsAncestorOf(u, a) <==> Parent(a).Some? && (u == Parent(a).value || IsAncestorOf(u, Parent(a).value))
  {
    ParentDropsOneSegment(a);
    AncestryIsSegmentPrefix(u, a);
    if Parent(a).Some? {
      var p := Parent(a).value;
      AncestryIsSegmentPrefix(u, p);
      if IsAncestorOf(u, a) && |Split(u)| == |Split(p)| {
        assert Split(u) == Split(p);
        SplitInjective(u, p);
      }
    }
  }

  /** Every valid address is the root or below it. */
  lemma RootIsAboveAll(a: string)
    requires Valid(a) && a != ROOT
    ensures IsAncestorOf(ROOT, a)
  {
    SplitOfDotFree(ROOT);
    AncestryIsSegmentPrefix(ROOT, a);
    if |Split(a)| == 1 {
      assert Split(a) == Split(ROOT);
      SplitInjective(a, ROOT);
    }
    assert Split(a)[..1] == [Split(a)[0]];
  }

  // ---- Ordinals ----

  function DigitChar(d: nat): (c: char)
    requires d < 10
    ensures Digit(c)
  {
    ['0', '1', '2', '3', '4', '5', '6', '7', '8', '9'][d]
  }

  function DigitValue(c: char): (r: nat)
    requires Digit(c)
  {
    (c as int) - ('0' as int)
  }

  /** A number written in decimal, as `format!` writes it. */
  function Decimal(n: nat): (s: string)
    ensures s != "" && AllDigits(s)
  {
    if n < 10 then [DigitChar(n)] else Decimal(n / 10) + [DigitChar(n % 10)]
  }

  function NumberOf(s: string): (r: nat)
    requires AllDigits(s)
  {
    if s == "" then 0 else 10 * NumberOf(s[..|s| - 1]) + DigitValue(s[|s| - 1])
  }

  lemma {:induction false} DecimalRoundTrip(n: nat)
    ensures NumberOf(Decimal(n)) == n
  {
    if n < 10 {
      assert Decimal(n)[..0] == "";
      assert DigitValue(DigitChar(n)) == n;
    } else {
      DecimalRoundTrip(n / 10);
      var s := Decimal(n);
      assert s[..|s| - 1] == Decimal(n / 10);
      assert DigitValue(DigitChar(n % 10)) == n % 10;
    }
  }

  function Child(a: string, n: nat): (r: string) { a + "." + Decimal(n) }

  lemma ChildSegments(a: string, n: nat)
    ensures Split(Child(a, n)) == Split(a) + [Decimal(n)]
  {
    SplitAtDot(a, Decimal(n));
    assert DotFree(Decimal(n));
    SplitOfDotFree(Decimal(n));
  }

  function Pow10(k: nat): (p: nat)
    ensures p >= 1
  {
    if k == 0 then 1 else 10 * Pow10(k - 1)
  }

  /** A number takes at most `k >= 1` digits exactly when it is below 10^k. */
  lemma {:induction false} DecimalLength(n: nat, k: nat)
    requires k >= 1
    ensures |Decimal(n)| <= k <==> n < Pow10(k)
    decreases k
  {
    if k == 1 {
      assert Pow10(1) == 10 * Pow10(0);
    } else if n >= 10 {
      DecimalLength(n / 10, k - 1);
    }
  }

  lemma SixDigits(n: nat)
    ensures |Decimal(n)| <= 6 <==> n < 1_000_000
  {
    DecimalLength(n, 6);
    assert Pow10(3) == 1000;
    assert Pow10(6) == 1000 * Pow10(3);
  }

  /** Exactly which minted addresses the parser takes back. */
  lemma ChildIsValid(a: string, n: nat)
    ensures Valid(Child(a, n)) <==> Valid(a) && n < 1_000_000 && |Child(a, n)| <= 64
  {
    ChildSegments(a, n);
    SixDigits(n);
    var segs, more := Split(a), Split(Child(a, n));
    assert more[|segs|] == Decimal(n);
    assert forall i :: 0 <= i < |segs| ==> more[i] == segs[i];
    if a == "" { assert segs == [""]; }
  }
}
