/** Go's fixed-width integer behaviour, written out on Dafny's unbounded
    integers: the 64-bit range, saturation, wrap-around, division that
    truncates toward zero, and the float-to-int conversion. */
module GoNumbers {

  const MinInt64: int := -0x8000_0000_0000_0000
  const MaxInt64: int := 0x7FFF_FFFF_FFFF_FFFF
  const TwoTo64: int := 0x1_0000_0000_0000_0000

  /** A float32 value the core only copies from one record to another, kept
      as its IEEE 754 bit pattern. */
  datatype Float32 = Float32(bits: bv32)

  /** A float64 value the core only copies, kept as its bit pattern. */
  datatype Float64 = Float64(bits: bv64)

  predicate InInt64(x: int)
  {
    MinInt64 <= x <= MaxInt64
  }

  /** Saturating conversion into the int64 range (Go's `Time.Sub` and
      `strconv.ParseInt` on overflow). */
  function Clamp64(x: int): (r: int)
    ensures InInt64(r)
    ensures InInt64(x) ==> r == x
    ensures x < MinInt64 ==> r == MinInt64
    ensures x > MaxInt64 ==> r == MaxInt64
  {
    if x < MinInt64 then MinInt64 else if x > MaxInt64 then MaxInt64 else x
  }

  /** Two's-complement wrap-around of an int64 multiplication result. */
  function Wrap64(x: int): (r: int)
    ensures InInt64(r)
    ensures InInt64(x) ==> r == x
    ensures (x - r) % TwoTo64 == 0
  {
    var m := (x - MinInt64) % TwoTo64;
    assert (x - (m + MinInt64)) % TwoTo64 == 0;
    m + MinInt64
  }

  /** Go's integer division `a / b`, which truncates toward zero (Dafny's `/`
      is Euclidean). */
  function Quo(a: int, b: int): (q: int)
    requires b != 0
    ensures var rem := a - b * q;
      (if rem < 0 then -rem else rem) < (if b < 0 then -b else b) &&
      (rem == 0 || (rem < 0 <==> a < 0))
  {
    var na := if a < 0 then -a else a;
    var nb := if b < 0 then -b else b;
    var nq := na / nb;
    if (a < 0) == (b < 0) then nq else -nq
  }

  /** With a non-negative dividend and a positive divisor Go's division is
      floor division, so the quotient lies between 0 and the dividend. */
  lemma QuoOfNonNegative(a: int, b: int)
    requires a >= 0 && b >= 1
    ensures 0 <= Quo(a, b) <= a
    ensures Quo(a, b) == a / b
  {
    var q := a / b;
    assert Quo(a, b) == q;
    assert a == b * q + a % b && 0 <= a % b < b;
    if q < 0 {
      MulNegative(b, q);
    }
    MulAtLeast(b, q);
  }

  lemma MulNegative(b: int, q: int)
    requires b >= 1 && q <= -1
    ensures b * q <= -b
  {
    assert b * q == b * (q + 1) - b;
    assert b * (q + 1) <= 0;
  }

  lemma MulAtLeast(b: int, q: int)
    requires b >= 1 && q >= 0
    ensures b * q >= q
  {
    assert b * q == (b - 1) * q + q;
  }

  /** Go's `int(f)` for a finite float: the fraction is discarded, rounding
      toward zero. */
  function TruncReal(x: real): (r: int)
    ensures x >= 0.0 ==> r as real <= x < r as real + 1.0
    ensures x < 0.0 ==> r as real - 1.0 < x <= r as real
  {
    if x >= 0.0 then x.Floor else -((-x).Floor)
  }
}
