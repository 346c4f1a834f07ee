/** Java's fixed-width integer semantics over Dafny's unbounded integers:
    narrowing casts keep the low bits as two's complement, and integer
    division truncates toward zero (Dafny's `/` is Euclidean). */
module JavaInt {

  const TWO_7: int := 0x80
  const TWO_8: int := 0x100
  const TWO_13: int := 0x2000
  const TWO_15: int := 0x8000
  const TWO_16: int := 0x1_0000
  const TWO_31: int := 0x8000_0000
  const TWO_32: int := 0x1_0000_0000
  const TWO_63: int := 0x8000_0000_0000_0000
  const TWO_64: int := 0x1_0000_0000_0000_0000

  predicate IsInt(x: int) {
    -TWO_31 <= x < TWO_31
  }

  predicate IsLong(x: int) {
    -TWO_63 <= x < TWO_63
  }

  /** The Java cast `(byte) x`: the value in [-2^7, 2^7) with the same low 8 bits. */
  function ToByte(x: int): (r: int)
    ensures -TWO_7 <= r < TWO_7
    ensures r % TWO_8 == x % TWO_8
    ensures -TWO_7 <= x < TWO_7 ==> r == x
  {
    var m := x % TWO_8;
    if m >= TWO_7 then m - TWO_8 else m
  }

  /** The Java cast `(short) x`: the value in [-2^15, 2^15) with the same low 16 bits. */
  function ToShort(x: int): (r: int)
    ensures -TWO_15 <= r < TWO_15
    ensures r % TWO_16 == x % TWO_16
    ensures -TWO_15 <= x < TWO_15 ==> r == x
  {
    var m := x % TWO_16;
    if m >= TWO_15 then m - TWO_16 else m
  }

  /** The Java cast `(int) x`, and the result of any `int` arithmetic that
      overflows: the value in [-2^31, 2^31) with the same low 32 bits. */
  function ToInt(x: int): (r: int)
    ensures IsInt(r)
    ensures r % TWO_32 == x % TWO_32
    ensures IsInt(x) ==> r == x
  {
    var m := x % TWO_32;
    if m >= TWO_31 then m - TWO_32 else m
  }

  /** The Java cast `(long) x`, and the result of any `long` arithmetic that
      overflows: the value in [-2^63, 2^63) with the same low 64 bits. */
  function ToLong(x: int): (r: int)
    ensures IsLong(r)
    ensures r % TWO_64 == x % TWO_64
    ensures IsLong(x) ==> r == x
  {
    var m := x % TWO_64;
    if m >= TWO_63 then m - TWO_64 else m
  }

  function Abs(x: int): nat {
    if x < 0 then -x else x
  }

  /** Java's `a / b` on integers: the quotient of the magnitudes, negated
      when the operands have opposite signs (truncation toward zero). */
  function Quot(a: int, b: int): int
    requires b != 0
  {
    var m := Abs(a) / Abs(b);
    if (a < 0) == (b < 0) then m else -m
  }

  /** On a non-negative dividend and a positive divisor Java's division
      agrees with Dafny's. */
  lemma QuotOfNonNegative(a: int, b: int)
    requires a >= 0 && b > 0
    ensures Quot(a, b) == a / b
  {
  }

  /** Adding after a narrowing is the same as narrowing once at the end:
      Java's stepwise `int` sums wrap like the exact sum. */
  lemma ToIntOfSum(x: int, y: int)
    ensures ToInt(ToInt(x) + y) == ToInt(x + y)
  {
    var k := x / TWO_32 + (if x % TWO_32 >= TWO_31 then 1 else 0);
    assert ToInt(x) == x - TWO_32 * k;
    ShiftKeepsResidue(x + y, -k);
  }

  /** Shifting by a whole number of 2^32 steps leaves the residue modulo
      2^32 unchanged. */
  lemma ShiftKeepsResidue(a: int, k: int)
    ensures (a + TWO_32 * k) % TWO_32 == a % TWO_32
  {
  }

  /** Multiplying by a non-negative factor keeps an inequality. */
  lemma MulMonotone(a: int, x: int, y: int)
    requires 0 <= a && x <= y
    ensures a * x <= a * y
  {
    assert a * y - a * x == a * (y - x);
  }

  /** A non-zero u32 stays non-zero when narrowed to an `int`. */
  lemma NarrowedU32NonZero(x: int)
    requires 0 < x < TWO_32
    ensures ToInt(x) != 0
  {
  }
}
