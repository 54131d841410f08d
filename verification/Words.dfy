/** Fixed-width words, and the little-endian byte layouts every record and nonce is built from. */
module Words {
  datatype Option<+T> = None | Some(value: T)
  datatype Result<+T, +E> = Ok(value: T) | Err(error: E)

  const U16_MAX: nat := 0xFFFF
  const U32_MAX: nat := 0xFFFF_FFFF
  const U64_MAX: nat := 0xFFFF_FFFF_FFFF_FFFF

  type byte = x: nat | x < 0x100
  type u16 = x: nat | x < 0x1_0000
  type u32 = x: nat | x < 0x1_0000_0000
  type u64 = x: nat | x <= U64_MAX

  type Bytes = seq<byte>

  function SaturatingAdd(a: u64, b: u64): (r: u64) {
    if a + b > U64_MAX then U64_MAX else a + b
  }

  function SaturatingSub(a: nat, b: nat): (r: nat) {
    if a < b then 0 else a - b
  }

  lemma Scale(a: nat, b: nat, m: nat)
    requires a <= b
    ensures a * m <= b * m
  {
  }

  /** Quotient and remainder are unique. */
  lemma QuotientIs(x: nat, m: nat, k: nat, r: nat)
    requires m >= 1 && r < m && x == k * m + r
    ensures x / m == k && x % m == r
  {
    var q := x / m;
    assert x == q * m + x % m;
    if q < k { Scale(q + 1, k, m); }
    if q > k { Scale(k + 1, q, m); }
  }

  /** Pieces strung together. */
  function Concat(pieces: seq<Bytes>): (all: Bytes) {
    if pieces == [] then [] else pieces[0] + Concat(pieces[1..])
  }

  /** How many values `n` bytes can hold. */
  function Span(n: nat): (s: nat)
    ensures s >= 1
  {
    if n == 0 then 1 else 256 * Span(n - 1)
  }

  lemma SpanConstants()
    ensures Span(2) == 0x1_0000
    ensures Span(4) == 0x1_0000_0000
    ensures Span(8) == U64_MAX + 1
  {
    assert Span(1) == 256 * Span(0);
    assert Span(2) == 256 * Span(1);
    assert Span(3) == 256 * Span(2);
    assert Span(4) == 256 * Span(3);
    assert Span(5) == 256 * Span(4);
    assert Span(6) == 256 * Span(5);
    assert Span(7) == 256 * Span(6);
    assert Span(8) == 256 * Span(7);
  }

  /** The low `n` bytes of `x`, least significant first. */
  function LeBytes(x: nat, n: nat): (bytes: Bytes)
    ensures |bytes| == n
  {
    if n == 0 then [] else [x % 256] + LeBytes(x / 256, n - 1)
  }

  function LeValue(bytes: Bytes): (r: nat) {
    if bytes == [] then 0 else bytes[0] + 256 * LeValue(bytes[1..])
  }

  lemma {:induction false} LeRoundTrip(x: nat, n: nat)
    requires x < Span(n)
    ensures LeValue(LeBytes(x, n)) == x
  {
    if n > 0 {
      assert x / 256 < Span(n - 1);
      LeRoundTrip(x / 256, n - 1);
      assert LeBytes(x, n)[1..] == LeBytes(x / 256, n - 1);
    }
  }

  lemma {:induction false} LeValueBound(bytes: Bytes)
    ensures LeValue(bytes) < Span(|bytes|)
  {
    if bytes != [] {
      LeValueBound(bytes[1..]);
    }
  }

  lemma RoundTrip16(x: u16)
    ensures LeValue(LeBytes(x, 2)) == x
  {
    SpanConstants();
    LeRoundTrip(x, 2);
  }

  lemma RoundTrip32(x: u32)
    ensures LeValue(LeBytes(x, 4)) == x
  {
    SpanConstants();
    LeRoundTrip(x, 4);
  }

  lemma RoundTrip64(x: u64)
    ensures LeValue(LeBytes(x, 8)) == x
  {
    SpanConstants();
    LeRoundTrip(x, 8);
  }

  function Read16(bytes: Bytes): (r: u16)
    requires |bytes| == 2
  {
    SpanConstants();
    LeValueBound(bytes);
    LeValue(bytes)
  }

  function Read32(bytes: Bytes): (r: u32)
    requires |bytes| == 4
  {
    SpanConstants();
    LeValueBound(bytes);
    LeValue(bytes)
  }

  function Read64(bytes: Bytes): (r: u64)
    requires |bytes| == 8
  {
    SpanConstants();
    LeValueBound(bytes);
    LeValue(bytes)
  }

  function Zeros(n: nat): (bytes: Bytes)
    ensures |bytes| == n
    ensures forall i :: 0 <= i < n ==> bytes[i] == 0
  {
    seq(n, _ => 0)
  }
}
