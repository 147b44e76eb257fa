/** Size arithmetic of pkg/utils/rounding.go, on Go's 64-bit integers. */
module Rounding {

  const GIB: int := 1024 * 1024 * 1024
  const TWO_63: int := 0x8000_0000_0000_0000
  const TWO_64: int := 0x1_0000_0000_0000_0000

  predicate IsInt64(x: int) { -TWO_63 <= x < TWO_63 }

  /** Go's `/` truncates toward zero. */
  function GoDiv(a: int, b: int): int
    requires b > 0
  {
    if a >= 0 then a / b else -((-a) / b)
  }

  /** Go's `%` takes the sign of the dividend. */
  function GoMod(a: int, b: int): int
    requires b > 0
  {
    a - GoDiv(a, b) * b
  }

  /** Two's complement wrap-around of an int64 result. */
  function Wrap64(x: int): int {
    var m := x % TWO_64;
    if m < TWO_63 then m else m - TWO_64
  }

  function RoundUpSize(size: int, unit: int): int
    requires unit > 0
  {
    var q := GoDiv(size, unit);
    if GoMod(size, unit) > 0 then q + 1 else q
  }

  function RoundUpGiB(size: int): int { RoundUpSize(size, GIB) }

  function RoundUpBytes(size: int): int { Wrap64(RoundUpSize(size, GIB) * GIB) }

  /** `q` is the least number of units that hold `size`. */
  predicate IsCeiling(size: int, unit: int, q: int) {
    (q - 1) * unit < size <= q * unit
  }

  lemma {:induction false} DivBounds(a: int, b: int)
    requires a >= 0 && b > 0
    ensures a / b * b <= a < a / b * b + b
  {
  }

  /** Truncated division plus the remainder test is the ceiling, for negative sizes too, and
      the increment never leaves int64. */
  lemma {:induction false} RoundUpIsCeiling(size: int, unit: int)
    requires unit > 0
    ensures IsCeiling(size, unit, RoundUpSize(size, unit))
    ensures IsInt64(size) ==> IsInt64(RoundUpSize(size, unit))
  {
  }

  /** Rounding up is the lower adjoint of multiplication by GiB. */
  lemma {:induction false} RoundUpGiBAtMost(size: int, g: int)
    ensures RoundUpGiB(size) <= g <==> size <= g * GIB
  {
    RoundUpIsCeiling(size, GIB);
  }

  /** RoundUpBytes is the rounded size exactly up to 2^63 - 2^30; above it wraps to the most
      negative int64. */
  lemma {:induction false} RoundUpBytesFits(size: int)
    requires IsInt64(size)
    ensures RoundUpBytes(size) == RoundUpGiB(size) * GIB <==> size <= TWO_63 - GIB
    ensures size > TWO_63 - GIB ==> RoundUpBytes(size) == -TWO_63
  {
    RoundUpIsCeiling(size, GIB);
    var g := RoundUpGiB(size);
    assert TWO_63 == 0x2_0000_0000 * GIB;
    assert -0x2_0000_0000 <= g <= 0x2_0000_0000;
    if size > TWO_63 - GIB {
      assert g == 0x2_0000_0000;
    }
  }

  // ----- ByteCount -----

  newtype uint64 = x: int | 0 <= x < 0x1_0000_0000_0000_0000

  const UNITS: string := "KMGTPE"

  function Pow1024(n: nat): (p: nat)
    ensures p >= 1
  {
    if n == 0 then 1 else 1024 * Pow1024(n - 1)
  }

  function Digits(n: nat): string {
    if n < 10 then ["0123456789"[n]] else Digits(n / 10) + ["0123456789"[n % 10]]
  }

  /** The number that a string of digits stands for. */
  function Value(s: string): int {
    if s == "" then 0 else 10 * Value(s[..|s| - 1]) + (s[|s| - 1] as int - '0' as int)
  }

  /** Printing is decimal: it reads back as the number, in digits, without a leading zero. */
  lemma {:induction false} DigitsReadBack(n: nat)
    ensures Value(Digits(n)) == n && Digits(n) != ""
    ensures forall c :: c in Digits(n) ==> '0' <= c <= '9'
    ensures n > 0 ==> Digits(n)[0] != '0'
  {
    if n < 10 {
      assert Digits(n)[..0] == "";
    } else {
      DigitsReadBack(n / 10);
      assert Digits(n)[..|Digits(n)| - 1] == Digits(n / 10);
    }
  }

  /** The unit index a byte count is printed with. */
  predicate IsUnitIndex(b: nat, k: nat) {
    k < |UNITS| && Pow1024(k + 1) <= b < Pow1024(k + 2)
  }

  lemma {:induction false} MulMonotone(a: int, b: int, d: nat)
    ensures a <= b ==> a * d <= b * d
  {
    if a <= b {
      assert b * d - a * d == (b - a) * d;
    }
  }

  lemma {:induction false} QuotientUnique(b: nat, d: nat, q: nat)
    requires d > 0 && q * d <= b < (q + 1) * d
    ensures b / d == q
  {
    var p := b / d;
    DivBounds(b, d);
    assert (p + 1) * d == p * d + d;
    MulMonotone(p + 1, q, d);
    MulMonotone(q + 1, p, d);
  }

  /** `val` is the quotient of `b` by `div`, said without division. */
  ghost predicate Bracket(b: nat, val: nat, div: nat) {
    val * div <= b < (val + 1) * div
  }

  /** Dividing the quotient and multiplying the divisor keep the bracket around `b`. */
  lemma {:induction false} NextBracket(b: nat, val: nat, div: nat)
    requires Bracket(b, val, div) && val >= 1024
    ensures Bracket(b, val / 1024, 1024 * div) && 1024 * div <= b
  {
    var p := val / 1024;
    MulMonotone(1024, val, div);
    MulMonotone(1024 * p, val, div);
    MulMonotone(val + 1, 1024 * p + 1024, div);
    Reassociate(p, div);
    Reassociate(p + 1, div);
  }

  lemma {:induction false} LastBracket(b: nat, val: nat, div: nat)
    requires Bracket(b, val, div) && 1 <= val < 1024 && div > 0
    ensures b / div == val && div <= b < 1024 * div
  {
    QuotientUnique(b, div, val);
    MulMonotone(1, val, div);
    MulMonotone(val + 1, 1024, div);
  }

  lemma {:induction false} Reassociate(p: int, div: int)
    ensures p * (1024 * div) == (1024 * p) * div
  {
  }

  lemma {:induction false} Pow1024Seven()
    ensures Pow1024(7) > 0xFFFF_FFFF_FFFF_FFFF
  {
    assert Pow1024(2) == 1024 * 1024;
    assert Pow1024(4) == 1024 * 1024 * 1024 * 1024;
    assert Pow1024(6) == 1024 * 1024 * 1024 * 1024 * 1024 * 1024;
  }

  /** ByteCount: no overflow of `div` in uint64, no index past the unit letters, and the
      printed quotient is below 1024 in the one unit that fits. */
  method ByteCount(b: uint64) returns (s: string)
    ensures b < 1024 ==> s == Digits(b as nat) + "B"
    ensures b >= 1024 ==>
              exists k: nat :: IsUnitIndex(b as nat, k) && 1 <= b as nat / Pow1024(k + 1) < 1024 &&
                          s == Digits(b as nat / Pow1024(k + 1)) + ["KMGTPE"[k]] + "i"
  {
    if b < 1024 {
      return Digits(b as nat) + "B";
    }
    var div: uint64, index: nat := 1024, 0;
    var val := b / 1024;
    while val >= 1024
      invariant div as nat == Pow1024(index + 1)
      invariant Bracket(b as nat, val as nat, div as nat)
      invariant val >= 1 && index < |UNITS|
      decreases val
    {
      NextBracket(b as nat, val as nat, div as nat);
      Pow1024Seven();
      div, index, val := 1024 * div, index + 1, val / 1024;
    }
    LastBracket(b as nat, val as nat, div as nat);
    assert IsUnitIndex(b as nat, index);
    s := Digits((b / div) as nat) + [UNITS[index]] + "i";
  }

  lemma {:induction false} Pow1024Monotone(i: nat, j: nat)
    requires i <= j
    ensures Pow1024(i) <= Pow1024(j)
    decreases j
  {
    if i < j {
      Pow1024Monotone(i, j - 1);
    }
  }

  /** The unit is determined by the byte count, so ByteCount's contract fixes its result. */
  lemma {:induction false} UnitIndexUnique(b: nat, j: nat, k: nat)
    requires IsUnitIndex(b, j) && IsUnitIndex(b, k)
    ensures j == k
  {
    if j < k {
      Pow1024Monotone(j + 2, k + 1);
    } else if k < j {
      Pow1024Monotone(k + 2, j + 1);
    }
  }
}
