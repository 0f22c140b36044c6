/** C++ integer semantics that the window's slot handlers rely on.
    Dafny's `/` and `%` are Euclidean; C++ truncates the quotient toward zero,
    so the remainder takes the sign of the dividend. Integer widths are explicit. */
module CppInt {

  const INT32_MIN: int := -0x8000_0000
  const INT32_MAX: int := 0x7FFF_FFFF
  const INT64_MIN: int := -0x8000_0000_0000_0000
  const INT64_MAX: int := 0x7FFF_FFFF_FFFF_FFFF

  /** The values of C++ `int` (32 bits on every platform Qt supports). */
  predicate IsInt32(x: int) { INT32_MIN <= x <= INT32_MAX }

  /** The values of Qt's `qint64`. */
  predicate IsInt64(x: int) { INT64_MIN <= x <= INT64_MAX }

  function Abs(x: int): nat { if x < 0 then -x else x }

  lemma MulNonneg(x: nat, y: nat)
    ensures x * y >= 0
  {
  }

  lemma MulAtLeast(d: int, b: nat)
    requires d >= 1
    ensures d * b >= b
  {
    assert d * b == (d - 1) * b + b;
    MulNonneg(d - 1, b);
  }

  /** Euclidean quotient and remainder are the only pair with 0 <= r < b. */
  lemma DivUnique(a: int, b: int, q: int, r: int)
    requires b > 0 && 0 <= r < b && a == q * b + r
    ensures a / b == q && a % b == r
  {
    var q0, r0 := a / b, a % b;
    assert q0 * b + r0 == a;
    assert (q - q0) * b == r0 - r;
    if q > q0 {
      MulAtLeast(q - q0, b);
    } else if q < q0 {
      MulAtLeast(q0 - q, b);
    }
  }

  lemma DivBounds(a: nat, b: nat)
    requires b > 0
    ensures a / b >= 0
    ensures (a / b) * b <= a < (a / b) * b + b
  {
  }

  /** C++ `a / b`: the exact quotient truncated toward zero. */
  function TruncDiv(a: int, b: int): (q: int)
    requires b != 0
    ensures Abs(q) * Abs(b) <= Abs(a) < Abs(q) * Abs(b) + Abs(b)
    ensures (a >= 0) == (b > 0) ==> q >= 0
    ensures (a <= 0) == (b > 0) ==> q <= 0
  {
    DivBounds(Abs(a), Abs(b));
    var m := Abs(a) / Abs(b);
    if (a < 0) == (b < 0) then m else -m
  }

  /** C++ `a % b`: smaller than the divisor in magnitude, and carrying the
      sign of the dividend (zero when the division is exact). */
  function TruncRem(a: int, b: int): (r: int)
    requires b != 0
    ensures Abs(r) < Abs(b)
    ensures a >= 0 ==> r >= 0
    ensures a <= 0 ==> r <= 0
  {
    var m := Abs(a) % Abs(b);
    if a < 0 then -m else m
  }

  /** The defining identity of C++ division: (a/b)*b + a%b == a. */
  lemma TruncDivRem(a: int, b: int)
    requires b != 0
    ensures TruncDiv(a, b) * b + TruncRem(a, b) == a
  {
    var m, k := Abs(a) / Abs(b), Abs(a) % Abs(b);
    assert Abs(a) == m * Abs(b) + k;
    if a >= 0 && b > 0 {
      assert TruncDiv(a, b) == m && TruncRem(a, b) == k;
    } else if a >= 0 {
      assert TruncDiv(a, b) == -m && TruncRem(a, b) == k;
      assert -m * b == m * Abs(b);
    } else if b > 0 {
      assert TruncDiv(a, b) == -m && TruncRem(a, b) == -k;
      assert -m * b == -(m * Abs(b));
    } else {
      assert TruncDiv(a, b) == m && TruncRem(a, b) == -k;
      assert m * b == -(m * Abs(b));
    }
  }

  /** For a non-negative dividend and a positive divisor, C++ and Dafny agree. */
  lemma TruncAgreesOnNatural(a: int, b: int)
    requires a >= 0 && b > 0
    ensures TruncDiv(a, b) == a / b && TruncRem(a, b) == a % b
  {
  }

  /** For a negative dividend they differ: C++ gives -1 where Dafny (and
      Python) give b - 1. */
  lemma MinusOneRem(b: int)
    requires b > 1
    ensures TruncRem(-1, b) == -1 && (-1) % b == b - 1
  {
  }

  /** An exact multiple of a positive divisor leaves no C++ remainder and
      divides back exactly, whatever its sign. */
  lemma TruncRemOfMultiple(k: int, b: int)
    requires b > 0
    ensures TruncRem(k * b, b) == 0 && TruncDiv(k * b, b) == k
  {
    var m := Abs(k);
    assert Abs(k * b) == m * b by {
      if k < 0 {
        assert k * b == -(m * b);
      }
    }
    DivUnique(m * b, b, m, 0);
  }

  /** The value an integer takes when converted to a 32-bit `int`: two's
      complement wrap-around, as C++20 defines every narrowing to a signed
      type. */
  function ToInt32(x: int): (r: int)
    ensures IsInt32(r)
    ensures (r - x) % 0x1_0000_0000 == 0
    ensures IsInt32(x) ==> r == x
  {
    var m := x % 0x1_0000_0000;
    if m > INT32_MAX then m - 0x1_0000_0000 else m
  }
}
