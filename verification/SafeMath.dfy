/** Overflow-checked arithmetic on machine integers. */
module SafeMath {

  // ----- machine integers --------------------------------------------------------------------

  /** An integer type: half is 2^(bits - 1). The results hold for every such type with at least
      two bits, in particular for 8, 16, 32 and 64. */
  datatype Ty = Ty(signed: bool, half: int)

  predicate IsTy(t: Ty) { t.half >= 2 }

  function Min(t: Ty): int { if t.signed then -t.half else 0 }

  function Max(t: Ty): int { if t.signed then t.half - 1 else 2 * t.half - 1 }

  predicate Fits(t: Ty, v: int) { Min(t) <= v <= Max(t) }

  /** What is left of a value when the higher bits are dropped. */
  function Wrap(t: Ty, v: int): int
    requires IsTy(t)
  {
    if t.signed then (v + t.half) % (2 * t.half) - t.half else v % (2 * t.half)
  }

  lemma WrapIs(t: Ty, v: int, k: int)
    requires IsTy(t) && Fits(t, v - 2 * t.half * k)
    ensures Wrap(t, v) == v - 2 * t.half * k
  {
    var m := 2 * t.half;
    var u := if t.signed then v + t.half else v;
    ModIs(u, m, k);
  }

  lemma DivMod(u: int, m: int)
    requires m > 0
    ensures u == m * (u / m) + u % m && 0 <= u % m < m
  {
  }

  lemma Unique(m: int, q: int, r: int, k: int, s: int)
    requires m > 0 && m * q + r == m * k + s && 0 <= r < m && 0 <= s < m
    ensures q == k && r == s
  {
    if q != k {
      NonZeroProduct(m, q - k);
    }
  }

  lemma ModIs(u: int, m: int, k: int)
    requires m > 0 && 0 <= u - m * k < m
    ensures u % m == u - m * k && u / m == k
  {
    DivMod(u, m);
    Unique(m, u / m, u % m, k, u - m * k);
  }

  /** Every wrapped value is in range and a multiple of the modulus away. */
  lemma WrapSome(t: Ty, v: int) returns (k: int)
    requires IsTy(t)
    ensures Wrap(t, v) == v - 2 * t.half * k && Fits(t, Wrap(t, v)) && (Fits(t, v) <==> k == 0)
  {
    var m := 2 * t.half;
    var u := if t.signed then v + t.half else v;
    k := u / m;
    assert u == m * k + u % m;
    if Fits(t, v) {
      WrapIs(t, v, 0);
      assert m * k == 0;
      if k != 0 {
        NonZeroProduct(m, k);
      }
    }
  }

  lemma NonZeroProduct(m: int, k: int)
    requires m > 0 && k != 0
    ensures m * k >= m || m * k <= -m
  {
    if k > 0 {
      assert m * (k - 1) >= 0;
    } else {
      assert m * (-k - 1) >= 0;
    }
  }

  /** Division towards zero; of a minimum by -1 only the wrapped result is left. */
  function TruncDiv(a: int, b: int): int
    requires b != 0
  {
    if (a >= 0) == (b > 0) then Abs(a) / Abs(b) else -(Abs(a) / Abs(b))
  }

  function Abs(a: int): int { if a < 0 then -a else a }

  function Quotient(t: Ty, a: int, b: int): int
    requires IsTy(t) && b != 0
  {
    Wrap(t, TruncDiv(a, b))
  }

  datatype Result = Value(v: int) | Overflow | DivisionByZero

  function Exact(t: Ty, v: int): Result { if Fits(t, v) then Value(v) else Overflow }

  // ----- addition and subtraction ----------------------------------------------------------------

  function SafeAdd(t: Ty, x: int, y: int): (r: Result)
    requires IsTy(t) && Fits(t, x) && Fits(t, y)
    ensures r == Exact(t, x + y)
  {
    var result := Wrap(t, x + y);
    AddWraps(t, x + y);
    if y > 0 then
      if result < x then Overflow else Value(result)
    else if result > x then Overflow
    else Value(result)
  }

  function SafeSub(t: Ty, x: int, y: int): (r: Result)
    requires IsTy(t) && Fits(t, x) && Fits(t, y)
    ensures r == Exact(t, x - y)
  {
    var result := Wrap(t, x - y);
    AddWraps(t, x - y);
    if y > 0 then
      if result > x then Overflow else Value(result)
    else if result < x then Overflow
    else Value(result)
  }

  /** A sum or difference leaves the range by less than one modulus. */
  lemma AddWraps(t: Ty, v: int)
    requires IsTy(t) && Min(t) - 2 * t.half <= v <= Max(t) + 2 * t.half
    ensures Wrap(t, v) == if v < Min(t) then v + 2 * t.half else if v > Max(t) then v - 2 * t.half else v
  {
    WrapIs(t, v, if v < Min(t) then -1 else if v > Max(t) then 1 else 0);
  }

  // ----- multiplication ---------------------------------------------------------------------------

  function SafeMul(t: Ty, x: int, y: int): Result
    requires IsTy(t) && Fits(t, x) && Fits(t, y)
  {
    if x == 0 || y == 0 then Value(0)
    else
      var result := Wrap(t, x * y);
      if Quotient(t, result, x) != y then Overflow else Value(result)
  }

  /** The pair for which the division back wraps around as well. */
  predicate BackWraps(t: Ty, x: int, y: int) { t.signed && x == -1 && y == Min(t) }

  lemma TruncDivExact(a: int, b: int)
    requires b != 0
    ensures TruncDiv(b * a, b) == a
  {
    assert Abs(b * a) == Abs(b) * Abs(a) by {
      AbsProduct(b, a);
    }
    ModIs(Abs(b) * Abs(a), Abs(b), Abs(a));
    if a != 0 {
      SignProduct(b, a);
    }
  }

  lemma AbsProduct(a: int, b: int)
    ensures Abs(a * b) == Abs(a) * Abs(b)
  {
    if a >= 0 && b >= 0 {
      assert a * b >= 0;
    } else if a < 0 && b < 0 {
      assert a * b == (-a) * (-b) >= 0;
    } else if a < 0 {
      assert (-a) * b >= 0 && a * b == -((-a) * b);
    } else {
      assert a * (-b) >= 0 && a * b == -(a * (-b));
    }
  }

  lemma SignProduct(a: int, b: int)
    requires a != 0 && b != 0
    ensures (a * b > 0) == ((a > 0) == (b > 0)) && a * b != 0
  {
    if a > 0 && b > 0 {
      assert a * b > 0;
    } else if a < 0 && b < 0 {
      assert a * b == (-a) * (-b) > 0;
    } else if a < 0 {
      assert (-a) * b > 0 && a * b == -((-a) * b);
    } else {
      assert a * (-b) > 0 && a * b == -(a * (-b));
    }
  }

  /** If dividing back by x gives y, the product is less than |x| away from the dividend. */
  lemma DividesBack(a: int, x: int)
    requires x != 0
    ensures Abs(a - x * TruncDiv(a, x)) < Abs(x)
  {
    DivMod(Abs(a), Abs(x));
    Signed(a, x, Abs(a) / Abs(x), Abs(a) % Abs(x));
  }

  lemma Signed(a: int, x: int, q: int, r: int)
    requires x != 0 && Abs(a) == Abs(x) * q + r && 0 <= r < Abs(x)
    ensures Abs(a - x * (if (a >= 0) == (x > 0) then q else -q)) < Abs(x)
  {
    assert x * -q == -(x * q) && -x * q == -(x * q);
  }

  /** SafeMul is exact, except for -1 times the minimum of a signed type. */
  lemma SafeMulExact(t: Ty, x: int, y: int)
    requires IsTy(t) && Fits(t, x) && Fits(t, y)
    ensures SafeMul(t, x, y) == Exact(t, x * y) <==> !BackWraps(t, x, y)
  {
    if x != 0 && y != 0 {
      var k := WrapSome(t, x * y);
      var result := Wrap(t, x * y);
      if BackWraps(t, x, y) {
        assert x * y == t.half;
        WrapIs(t, x * y, 1);
        assert TruncDiv(-t.half, -1) == t.half;
        WrapIs(t, t.half, 1);
      } else if k == 0 {
        TruncDivExact(y, x);
        WrapIs(t, y, 0);
      } else {
        MulDetected(t, x, y, k);
      }
    }
  }

  lemma MulDetected(t: Ty, x: int, y: int, k: int)
    requires IsTy(t) && Fits(t, x) && Fits(t, y) && x != 0 && y != 0 && k != 0 && !BackWraps(t, x, y)
    requires Wrap(t, x * y) == x * y - 2 * t.half * k && Fits(t, Wrap(t, x * y))
    ensures Quotient(t, Wrap(t, x * y), x) != y
  {
    var m, result := 2 * t.half, Wrap(t, x * y);
    var q := TruncDiv(result, x);
    DividesBack(result, x);
    if q == y {
      NonZeroProduct(m, k);
    } else {
      QuotientFits(t, result, x);
    }
  }

  /** A quotient fits, unless it is that of the minimum by -1. */
  lemma QuotientFits(t: Ty, a: int, x: int)
    requires IsTy(t) && Fits(t, a) && Fits(t, x) && x != 0
    ensures Quotient(t, a, x) == if t.signed && a == Min(t) && x == -1 then Min(t) else TruncDiv(a, x)
  {
    var q := TruncDiv(a, x);
    DivSmaller(Abs(a), Abs(x));
    if t.signed && a == Min(t) && x == -1 {
      assert q == t.half;
      WrapIs(t, q, 1);
    } else {
      WrapIs(t, q, 0);
    }
  }

  lemma DivSmaller(a: int, b: int)
    requires a >= 0 && b > 0
    ensures 0 <= a / b <= a && (b > 1 ==> 2 * (a / b) <= a)
  {
    DivMod(a, b);
    Smaller(a, b, a / b, a % b);
  }

  lemma Smaller(a: int, b: int, q: int, r: int)
    requires a == b * q + r && a >= 0 && b > 0 && 0 <= r < b
    ensures 0 <= q <= a && (b > 1 ==> 2 * q <= a)
  {
    if q >= 0 {
      assert (b - 1) * q >= 0;
      if b > 1 {
        assert (b - 2) * q >= 0;
      }
    }
  }

  /** The exception at work: the minimum comes back as if it were the product. */
  lemma SafeMulMisses(t: Ty)
    requires IsTy(t) && t.signed
    ensures Fits(t, -1) && Fits(t, Min(t)) && !Fits(t, -1 * Min(t)) && SafeMul(t, -1, Min(t)) == Value(Min(t))
  {
    WrapIs(t, t.half, 1);
    assert TruncDiv(-t.half, -1) == t.half;
  }

  // ----- 64 bits ------------------------------------------------------------------------------------

  const Two64: int := 0x1_0000_0000_0000_0000
  const Uint64 := Ty(false, 0x8000_0000_0000_0000)
  const Int64 := Ty(true, 0x8000_0000_0000_0000)

  /** bits.Mul64: the product in two words. */
  function Mul64(x: int, y: int): (r: (int, int))
    requires Fits(Uint64, x) && Fits(Uint64, y)
    ensures r.0 * Two64 + r.1 == x * y && Fits(Uint64, r.1) && r.0 >= 0
  {
    Nonnegative(x, y);
    DivMod(x * y, Two64);
    (x * y / Two64, x * y % Two64)
  }

  lemma Nonnegative(x: int, y: int)
    requires x >= 0 && y >= 0
    ensures x * y >= 0
  {
  }

  function SafeMulUint64(x: int, y: int): (r: Result)
    requires Fits(Uint64, x) && Fits(Uint64, y)
    ensures r == Exact(Uint64, x * y)
  {
    if x == 0 || y == 0 then Value(0)
    else
      var (hi, lo) := Mul64(x, y);
      if hi != 0 then Overflow else Value(lo)
  }

  /** SafeMulInt64: the sign is taken apart and the magnitudes are multiplied in 128 bits. */
  function SafeMulInt64(x: int, y: int): (r: Result)
    requires Fits(Int64, x) && Fits(Int64, y)
    ensures r == Exact(Int64, x * y)
  {
    if x == 0 || y == 0 then Value(0)
    else
      var resultIsPositive := !((x < 0 && y > 0) || (y < 0 && x > 0));
      var resultSign := if resultIsPositive then 1 else -1;
      var x' := if x < 0 then Wrap(Int64, -x) else x;
      var y' := if y < 0 then Wrap(Int64, -y) else y;
      Magnitude(x);
      Magnitude(y);
      AbsProduct(x, y);
      SignProduct(x, y);
      var (hi, lo) := Mul64(Wrap(Uint64, x'), Wrap(Uint64, y'));
      if hi != 0 then Overflow
      else
        var loSigned := Wrap(Int64, Wrap(Int64, lo) * resultSign);
        SignedLow(lo, resultSign);
        var signBitSet := loSigned < 0;
        if resultIsPositive then
          if signBitSet then Overflow else Value(loSigned)
        else if !signBitSet then Overflow
        else Value(loSigned)
  }

  /** Negating and converting to unsigned gives the magnitude, of the minimum as well. */
  lemma Magnitude(x: int)
    requires Fits(Int64, x)
    ensures Wrap(Uint64, if x < 0 then Wrap(Int64, -x) else x) == Abs(x)
  {
    if x == Min(Int64) {
      WrapIs(Int64, -x, 1);
      WrapIs(Uint64, x, -1);
    } else {
      WrapIs(Int64, -x, 0);
      WrapIs(Uint64, Abs(x), 0);
    }
  }

  lemma SignedLow(lo: int, sign: int)
    requires Fits(Uint64, lo) && (sign == 1 || sign == -1)
    ensures Wrap(Int64, Wrap(Int64, lo) * sign) ==
      if Fits(Int64, lo * sign) then lo * sign else lo * sign - sign * Two64
  {
    var half := 0x8000_0000_0000_0000;
    WrapIs(Int64, lo, if lo < half then 0 else 1);
    var v := Wrap(Int64, lo) * sign;
    WrapIs(Int64, v, if v == half then 1 else 0);
  }

  /** bits.Div64 of a two-word dividend; it needs the high word below the divisor. */
  function Safe64MulDiv(x: int, y: int, div: int): (r: Result)
    requires Fits(Uint64, x) && Fits(Uint64, y) && Fits(Uint64, div)
    ensures r == if div == 0 then DivisionByZero else Exact(Uint64, x * y / div)
  {
    if div == 0 then DivisionByZero
    else
      var (prodHi, prodLo) := Mul64(x, y);
      HighWord(x * y, prodHi, prodLo, div);
      if div <= prodHi then Overflow
      else Value((prodHi * Two64 + prodLo) / div)
  }

  /** The quotient needs more than one word exactly when the high word reaches the divisor. */
  lemma HighWord(p: int, hi: int, lo: int, div: int)
    requires p == hi * Two64 + lo && p >= 0 && Fits(Uint64, lo) && div > 0
    ensures p / div >= 0 && (p / div < Two64 <==> hi < div)
  {
    DivMod(p, div);
    Words(hi, lo, div, p / div, p % div);
  }

  lemma Words(hi: int, lo: int, div: int, q: int, r: int)
    requires hi * Two64 + lo == div * q + r && 0 <= lo < Two64 && 0 <= r < div && hi * Two64 + lo >= 0
    ensures q >= 0 && (q < Two64 <==> hi < div)
  {
    if q < 0 {
      NonZeroProduct(div, q);
      ProductOrder(div, q, 0);
    } else if q < Two64 {
      ProductOrder(div, q, Two64 - 1);
    } else {
      ProductOrder(div, Two64, q);
    }
  }

  lemma ProductOrder(m: int, a: int, b: int)
    requires m > 0 && a <= b
    ensures m * a <= m * b
  {
  }
}

