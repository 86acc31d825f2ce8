/** Rust's `i64` arithmetic in a debug build: results are exact or the
    operation panics (overflow, or a zero divisor). Division and remainder
    truncate toward zero. */
module I64 {

  import opened Wrappers

  const MIN: int := -0x8000_0000_0000_0000
  const MAX: int := 0x7fff_ffff_ffff_ffff

  predicate InRange(x: int) {
    MIN <= x <= MAX
  }

  /** Why an operation panicked. */
  datatype ArithError = Overflow | DivideByZero

  function Abs(x: int): nat {
    if x < 0 then -x else x
  }

  /** Division truncating toward zero: the magnitude is that of the
      magnitudes' quotient, and a nonzero quotient is negative exactly when
      the operands' signs differ. */
  function TruncDiv(a: int, b: int): (q: int)
    requires b != 0
    ensures Abs(q) == Abs(a) / Abs(b)
    ensures q != 0 ==> ((q < 0) <==> ((a < 0) != (b < 0)))
  {
    var m := Abs(a) / Abs(b);
    DivNonnegative(Abs(a), Abs(b));
    if (a < 0) == (b < 0) then m else -m
  }

  /** The quotient of naturals is a natural. */
  lemma DivNonnegative(x: nat, y: nat)
    requires y > 0
    ensures x / y >= 0
  {
    DivBounds(x, y);
  }

  /** The truncated quotient's magnitude brackets the dividend's. */
  lemma TruncDivBrackets(a: int, b: int)
    requires b != 0
    ensures Abs(TruncDiv(a, b)) * Abs(b) <= Abs(a) < (Abs(TruncDiv(a, b)) + 1) * Abs(b)
  {
    DivBounds(Abs(a), Abs(b));
  }

  /** Euclidean division of naturals brackets the dividend. */
  lemma DivBounds(x: nat, y: nat)
    requires y > 0
    ensures (x / y) * y <= x < (x / y + 1) * y
  {
    var q, r := x / y, x % y;
    assert x == q * y + r;
    assert (q + 1) * y == q * y + y;
  }

  /** The remainder that goes with `TruncDiv`: `a == q * b + r`, it is
      smaller than the divisor and takes the dividend's sign. */
  function TruncRem(a: int, b: int): (r: int)
    requires b != 0
    ensures a == TruncDiv(a, b) * b + r
    ensures Abs(r) < Abs(b)
    ensures r != 0 ==> ((r < 0) <==> (a < 0))
  {
    var m := Abs(a) % Abs(b);
    if a < 0 then -m else m
  }

  function Checked(x: int): (r: Result<int, ArithError>)
    ensures r.Ok? <==> InRange(x)
    ensures r.Ok? ==> r.value == x
    ensures r.Err? ==> r.error == Overflow
  {
    if InRange(x) then Ok(x) else Err(Overflow)
  }

  function Add(a: int, b: int): (r: Result<int, ArithError>)
    ensures r.Ok? <==> InRange(a + b)
    ensures r.Ok? ==> r.value == a + b
  {
    Checked(a + b)
  }

  function Sub(a: int, b: int): (r: Result<int, ArithError>)
    ensures r.Ok? <==> InRange(a - b)
    ensures r.Ok? ==> r.value == a - b
  {
    Checked(a - b)
  }

  function Mul(a: int, b: int): (r: Result<int, ArithError>)
    ensures r.Ok? <==> InRange(a * b)
    ensures r.Ok? ==> r.value == a * b
  {
    Checked(a * b)
  }

  /** `/`: panics on a zero divisor, and on `MIN / -1`, the only quotient
      of two `i64`s that does not fit. */
  function Div(a: int, b: int): (r: Result<int, ArithError>)
    requires InRange(a) && InRange(b)
    ensures r == Err(DivideByZero) <==> b == 0
    ensures r == Err(Overflow) <==> a == MIN && b == -1
    ensures r.Ok? ==> InRange(r.value) && r.value == TruncDiv(a, b)
  {
    if b == 0 then Err(DivideByZero)
    else if a == MIN && b == -1 then Err(Overflow)
    else
      QuotientFits(a, b);
      Ok(TruncDiv(a, b))
  }

  lemma QuotientFits(a: int, b: int)
    requires InRange(a) && InRange(b) && b != 0 && !(a == MIN && b == -1)
    ensures InRange(TruncDiv(a, b))
  {
    var x, y := Abs(a), Abs(b);
    if y == 1 {
      assert x / y == x;
    } else {
      DivHalf(x, y);
    }
  }

  /** A divisor of at least two at least halves the dividend. */
  lemma DivHalf(x: nat, y: nat)
    requires y >= 2
    ensures 2 * (x / y) <= x
  {
    var q := x / y;
    DivBounds(x, y);
    assert q * 2 <= q * y;
  }

  /** `%`: panics exactly where `/` does. */
  function Rem(a: int, b: int): (r: Result<int, ArithError>)
    requires InRange(a) && InRange(b)
    ensures r == Err(DivideByZero) <==> b == 0
    ensures r == Err(Overflow) <==> a == MIN && b == -1
    ensures r.Ok? ==> InRange(r.value) && r.value == TruncRem(a, b)
  {
    if b == 0 then Err(DivideByZero)
    else if a == MIN && b == -1 then Err(Overflow)
    else Ok(TruncRem(a, b))
  }

  function Pow2(n: nat): (r: nat)
    ensures r >= 1
  {
    if n == 0 then 1 else 2 * Pow2(n - 1)
  }

  lemma {:induction false} Pow2Monotone(m: nat, n: nat)
    requires m <= n
    ensures Pow2(m) <= Pow2(n)
    decreases n - m
  {
    if m < n {
      Pow2Monotone(m + 1, n);
    }
  }

  /** `2_i64.pow(n)`: fits exactly for exponents up to 62. */
  function CheckedPow2(n: nat): (r: Result<int, ArithError>)
    ensures r.Ok? <==> n < 63
    ensures r.Ok? ==> r.value == Pow2(n) && InRange(r.value)
    ensures r.Err? ==> r.error == Overflow
  {
    assert Pow2(62) == 0x4000_0000_0000_0000 && Pow2(63) == MAX + 1 by {
      Pow2Value();
    }
    if n < 63 then
      Pow2Monotone(n, 62);
      Ok(Pow2(n))
    else
      Pow2Monotone(63, n);
      Err(Overflow)
  }

  lemma {:induction false} Pow2Add(a: nat, b: nat)
    ensures Pow2(a + b) == Pow2(a) * Pow2(b)
  {
    if a > 0 {
      Pow2Add(a - 1, b);
    }
  }

  lemma Pow2Value()
    ensures Pow2(62) == 0x4000_0000_0000_0000 && Pow2(63) == 0x8000_0000_0000_0000
  {
    Pow2Of60();
    Pow2Add(60, 2);
  }

  lemma Pow2Of60()
    ensures Pow2(60) == 0x1000_0000_0000_0000
  {
    Pow2Of48();
    Pow2Add(48, 12);
  }

  lemma Pow2Of48()
    ensures Pow2(12) == 0x1000 && Pow2(48) == 0x1_0000_0000_0000
  {
    Pow2Of32();
    Pow2Add(32, 16);
  }

  lemma Pow2Of32()
    ensures Pow2(12) == 0x1000 && Pow2(16) == 0x1_0000 && Pow2(32) == 0x1_0000_0000
  {
    Pow2Of16();
    Pow2Add(16, 16);
  }

  lemma Pow2Of16()
    ensures Pow2(12) == 0x1000 && Pow2(16) == 0x1_0000
  {
    assert Pow2(2) == 4 by {
      assert Pow2(1) == 2;
    }
    assert Pow2(4) == 16 by {
      Pow2Add(2, 2);
    }
    assert Pow2(8) == 256 by {
      Pow2Add(4, 4);
    }
    Pow2Add(8, 4);
    Pow2Add(8, 8);
  }

  /** `as u32` on a length: keeps the low 32 bits. */
  function AsU32(n: nat): (r: nat)
    ensures r < 0x1_0000_0000
    ensures n < 0x1_0000_0000 ==> r == n
  {
    n % 0x1_0000_0000
  }
}
