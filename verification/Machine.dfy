/** Fixed-width integers and byte encodings of the C program, written over unbounded integers.
    `int` and `long` are 32 bits wide, `long long` 64 bits, and memory is little-endian, as on
    the 32-bit ARM targets of the repository. */
module Machine {
  const TWO_16 := 0x1_0000
  const TWO_31 := 0x8000_0000
  const TWO_32 := 0x1_0000_0000
  const TWO_64 := 0x1_0000_0000_0000_0000

  type byte = x: int | 0 <= x < 0x100
  type u16 = x: int | 0 <= x < TWO_16
  type u32 = x: int | 0 <= x < TWO_32
  type u64 = x: int | 0 <= x < TWO_64
  type int16 = x: int | -0x8000 <= x < 0x8000
  type int32 = x: int | -TWO_31 <= x < TWO_31

  // ----- conversions that keep the low bits -----

  function U16(x: int): u16 { x % TWO_16 }

  function U32(x: int): u32 { x % TWO_32 }

  function U64(x: int): u64 { x % TWO_64 }

  function S16(x: int): int16 {
    var m := x % TWO_16;
    if m < 0x8000 then m else m - TWO_16
  }

  function S32(x: int): int32 {
    var m := x % TWO_32;
    if m < TWO_31 then m else m - TWO_32
  }

  function Abs(x: int): nat { if x < 0 then -x else x }

  function Min(x: int, y: int): int { if x < y then x else y }

  function Max(x: int, y: int): int { if x < y then y else x }

  /** C's division truncates toward zero. */
  function TruncDiv(x: int, y: int): int
    requires y > 0
  {
    if x < 0 then -((-x) / y) else x / y
  }

  /** C's division by a divisor of either sign. */
  function Quotient(x: int, y: int): int
    requires y != 0
  {
    if y > 0 then TruncDiv(x, y) else -TruncDiv(x, -y)
  }

  /** The remainder is smaller than the divisor and has the sign of the dividend. */
  lemma TruncatesToZero(x: int, y: int)
    requires y != 0
    ensures
      var r := x - y * Quotient(x, y);
      Abs(r) < Abs(y) && (0 <= x ==> 0 <= r) && (x <= 0 ==> r <= 0)
  {
    var a: nat, b := Abs(x), Abs(y);
    QuotientBounds(a, b);
    QuotientSign(x, y);
    var q := a / b;
    var z := b * q;
    SignedProducts(y, q);
  }

  lemma QuotientSign(x: int, y: int)
    requires y != 0
    ensures Quotient(x, y) == if (x < 0) <==> (y < 0) then Abs(x) / Abs(y) else -(Abs(x) / Abs(y))
  {
  }

  lemma SignedProducts(y: int, q: int)
    ensures y * q == if y < 0 then -(Abs(y) * q) else Abs(y) * q
    ensures y * -q == -(y * q)
  {
  }

  function Pow2(n: nat): (p: nat)
    ensures p > 0
  {
    if n == 0 then 1 else 2 * Pow2(n - 1)
  }

  lemma {:induction false} Pow2Add(m: nat, n: nat)
    ensures Pow2(m + n) == Pow2(m) * Pow2(n)
  {
    if m > 0 {
      Pow2Add(m - 1, n);
    }
  }

  lemma {:induction false} Pow2Monotone(m: nat, n: nat)
    requires m <= n
    ensures Pow2(m) <= Pow2(n)
  {
    if m < n {
      Pow2Monotone(m, n - 1);
    }
  }

  lemma S32OfU32(x: int)
    ensures S32(U32(x)) == S32(x)
  {
  }

  lemma Fits32(x: int)
    ensures -TWO_31 <= x < TWO_31 ==> S32(x) == x
    ensures 0 <= x < TWO_32 ==> U32(x) == x
  {
  }

  // ----- multiplication and division -----

  lemma MulLe(m: int, n: int, k: int)
    requires m <= n && 0 <= k
    ensures m * k <= n * k
  {
  }

  lemma CancelLess(m: int, n: int, k: int)
    requires 0 < k && m * k < n * k
    ensures m < n
  {
  }

  /** The quotient is the only number with a remainder in range. */
  lemma QuotientIs(x: int, k: int, q: int)
    requires 0 < k && q * k <= x < q * k + k
    ensures x / k == q
  {
    var d := x / k;
    assert x == k * d + x % k;
    assert d * k <= x < (d + 1) * k;
    assert (q + 1) * k == q * k + k;
    CancelLess(q, d + 1, k);
    CancelLess(d, q + 1, k);
  }

  lemma QuotientBounds(a: nat, p: int)
    requires p >= 1
    ensures p * (a / p) <= a < p * (a / p) + p
    ensures 0 <= a / p <= a
  {
  }

  lemma AtMostQuotient(m: int, k: int, x: int)
    requires 0 < k && m * k <= x
    ensures m <= x / k
  {
    var d := x / k;
    assert x == k * d + x % k;
    assert x < (d + 1) * k;
    CancelLess(m, d + 1, k);
  }

  function Concat<T>(pieces: seq<seq<T>>): seq<T> {
    if pieces == [] then [] else pieces[0] + Concat(pieces[1..])
  }

  lemma ConcatOne<T>(piece: seq<T>)
    ensures Concat([piece]) == piece
  {
    assert [piece][1..] == [] && piece + [] == piece;
  }

  lemma ConcatTwo<T>(first: seq<T>, second: seq<T>)
    ensures Concat([first, second]) == first + second
  {
    assert [first, second][1..] == [second];
    ConcatOne(second);
  }

  // ----- writing over part of a buffer -----

  /** `s` with `b` written over it at `at`. */
  function Splice<T>(s: seq<T>, at: nat, b: seq<T>): (r: seq<T>)
    requires at + |b| <= |s|
    ensures |r| == |s|
  {
    s[..at] + b + s[at + |b|..]
  }

  lemma CutPrefix<T>(s: seq<T>, a: nat, n: nat)
    requires a <= n <= |s|
    ensures s[..n] == s[..a] + s[a..n]
    ensures s[..n][a..] == s[a..][..n - a]
  {
  }

  lemma SliceOfSlice<T>(s: seq<T>, a: nat, b: nat, c: nat, d: nat)
    requires a <= b <= |s| && c <= d <= b - a
    ensures s[a..b][c..d] == s[a + c..a + d]
  {
    forall k | 0 <= k < d - c
      ensures s[a..b][c..d][k] == s[a + c..a + d][k]
    {
      assert s[a..b][c..d][k] == s[a..b][c + k];
    }
  }

  lemma Rejoin<T>(s: seq<T>, a: nat, b: nat, c: nat)
    requires a <= b <= c <= |s|
    ensures s[a..c] == s[a..b] + s[b..c]
  {
  }

  lemma SpliceHolds<T>(s: seq<T>, at: nat, b: seq<T>)
    requires at + |b| <= |s|
    ensures Splice(s, at, b)[at..at + |b|] == b
  {
  }

  lemma SpliceNothing<T>(s: seq<T>, at: nat)
    requires at <= |s|
    ensures Splice(s, at, []) == s
  {
  }

  lemma SpliceAfter<T>(s: seq<T>, at: nat, b: seq<T>, c: seq<T>)
    requires at + |b| + |c| <= |s|
    ensures Splice(Splice(s, at, b), at + |b|, c) == Splice(s, at, b + c)
  {
    assert Splice(s, at, b)[..at + |b|] == s[..at] + b;
  }

  lemma SpliceBefore<T>(s: seq<T>, at: nat, b: seq<T>, c: seq<T>)
    requires at + |b| + |c| <= |s|
    ensures Splice(Splice(s, at + |b|, c), at, b) == Splice(s, at, b + c)
  {
  }

  /** `memcpy`. */
  method Copy(data: array<byte>, at: nat, b: seq<byte>)
    requires at + |b| <= data.Length
    modifies data
    ensures data[..] == Splice(old(data[..]), at, b)
  {
    forall k | 0 <= k < |b| {
      data[at + k] := b[k];
    }
  }

  // ----- bytes -----

  function Le16(x: u16): (b: seq<byte>)
    ensures |b| == 2
  {
    [x % 0x100, x / 0x100]
  }

  function Le32(x: u32): (b: seq<byte>)
    ensures |b| == 4
  {
    Le16(x % TWO_16) + Le16(x / TWO_16)
  }

  function Le64(x: u64): (b: seq<byte>)
    ensures |b| == 8
  {
    Le32(x % TWO_32) + Le32(x / TWO_32)
  }

  function FromLe16(b: seq<byte>): u16
    requires |b| >= 2
  {
    var lo: int, hi: int := b[0], b[1];
    lo + 0x100 * hi
  }

  function FromLe32(b: seq<byte>): u32
    requires |b| >= 4
  {
    FromLe16(b[..2]) + TWO_16 * FromLe16(b[2..4])
  }

  function FromLe64(b: seq<byte>): u64
    requires |b| >= 8
  {
    FromLe32(b[..4]) + TWO_32 * FromLe32(b[4..8])
  }

  function Be16(x: u16): (b: seq<byte>)
    ensures |b| == 2
  {
    [x / 0x100, x % 0x100]
  }

  function Be32(x: u32): (b: seq<byte>)
    ensures |b| == 4
  {
    Be16(x / TWO_16) + Be16(x % TWO_16)
  }

  function FromBe16(b: seq<byte>): u16
    requires |b| >= 2
  {
    var hi: int, lo: int := b[0], b[1];
    0x100 * hi + lo
  }

  function FromBe32(b: seq<byte>): u32
    requires |b| >= 4
  {
    TWO_16 * FromBe16(b[..2]) + FromBe16(b[2..4])
  }

  lemma Le32RoundTrip(x: u32, tail: seq<byte>)
    ensures FromLe32(Le32(x) + tail) == x
  {
    var b := Le32(x) + tail;
    assert b[..2] == Le16(x % TWO_16);
    assert b[2..4] == Le16(x / TWO_16);
  }

  lemma Le64RoundTrip(x: u64, tail: seq<byte>)
    ensures FromLe64(Le64(x) + tail) == x
  {
    var b := Le64(x) + tail;
    assert b[..4] == Le32(x % TWO_32) + [];
    assert b[4..8] == Le32(x / TWO_32) + [];
    Le32RoundTrip(x % TWO_32, []);
    Le32RoundTrip(x / TWO_32, []);
  }

  lemma Be32RoundTrip(x: u32, tail: seq<byte>)
    ensures FromBe32(Be32(x) + tail) == x
  {
    var b := Be32(x) + tail;
    assert b[..2] == Be16(x / TWO_16);
    assert b[2..4] == Be16(x % TWO_16);
  }

  lemma Be16RoundTrip(x: u16, tail: seq<byte>)
    ensures FromBe16(Be16(x) + tail) == x
  {
  }

  lemma Le16RoundTrip(x: u16, tail: seq<byte>)
    ensures FromLe16(Le16(x) + tail) == x
  {
  }

  lemma SignedRoundTrip(x: int16, y: int32)
    ensures S16(U16(x)) == x && S32(U32(y)) == y
  {
  }
}
