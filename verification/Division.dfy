/** Unsigned 64-bit division by shifting and subtracting. */
module Division {
  import opened Bits

  const WIDE: nat := 0x1_0000_0000_0000_0000
  const TOP: nat := 0x8000_0000_0000_0000

  /** `a << 1` in 64 bits. */
  function Shl(a: nat): nat { 2 * a % WIDE }

  /** `a >> 63`. */
  function High(a: nat): nat { a / TOP }

  /** Where the loop stands: `top` are the bits of the dividend shifted into the remainder, `low` those still to come, `p`
      and `q` the powers of two that belong to them. */
  ghost predicate Split(dividend: nat, a: nat, top: nat, low: nat, p: nat, q: nat) {
    dividend == top * p + low && low < p && p * q == WIDE && a == low * q
  }

  /** The next bit of the dividend, what is left of it, and no carry lost. */
  lemma Step(dividend: nat, a: nat, top: nat, low: nat, half: nat, q: nat)
    requires Split(dividend, a, top, low, 2 * half, q) && half > 0 && dividend < WIDE
    ensures var bit := High(a);
            && bit <= 1 && bit * half <= low && Shl(a) < WIDE
            && Split(dividend, Shl(a), 2 * top + bit, low - bit * half, half, 2 * q)
            && 2 * top + bit <= dividend
  {
    assert half * q == TOP;
    Bit(a, low, half, q);
    var bit := High(a);
    var rest := low - bit * half;
    Left(a, low, half, q, bit);
    Digits(dividend, top, low, half, bit);
  }

  lemma Bit(a: nat, low: nat, half: nat, q: nat)
    requires a == low * q && low < 2 * half && half * q == TOP && half > 0
    ensures High(a) == if low >= half then 1 else 0
  {
    if low >= half {
      assert low * q >= half * q;
      assert low * q < 2 * half * q;
    } else {
      assert low * q < half * q;
    }
  }

  lemma Left(a: nat, low: nat, half: nat, q: nat, bit: nat)
    requires a == low * q && half * q == TOP && bit == (if low >= half then 1 else 0) && low < 2 * half
    ensures Shl(a) == (low - bit * half) * (2 * q) && half * (2 * q) == WIDE
  {
    var rest := low - bit * half;
    assert rest * (2 * q) == 2 * (low * q) - bit * (2 * (half * q));
    assert 0 <= rest < half;
    assert rest * q < half * q;
  }

  lemma Digits(dividend: nat, top: nat, low: nat, half: nat, bit: nat)
    requires dividend == top * (2 * half) + low && bit * half <= low && half > 0
    ensures dividend == (2 * top + bit) * half + (low - bit * half) && 2 * top + bit <= dividend
  {
    assert (2 * top + bit) * half == 2 * top * half + bit * half;
    assert 2 * top * half == top * (2 * half);
    Grows(2 * top + bit, half);
  }

  lemma Grows(x: nat, half: nat)
    requires half > 0
    ensures x * half >= x
  {
  }

  /** One digit of the quotient. */
  lemma Digit(top: nat, bit: nat, b: nat, quotient: nat, rem: nat)
    requires top == quotient * b + rem && rem < b && bit <= 1
    ensures var r := 2 * rem + bit;
            && r < 2 * b && r <= 2 * top + bit
            && 2 * top + bit == (if r >= b then (2 * quotient + 1) * b + (r - b) else 2 * quotient * b + r)
  {
  }

  lemma Width()
    ensures Pow2(64) == WIDE
  {
    assert Pow2(4) == 16;
    Pow2Add(4, 4);
    Pow2Add(8, 8);
    Pow2Add(16, 16);
    Pow2Add(32, 32);
  }

  lemma Begin(dividend: nat)
    requires dividend < WIDE
    ensures Split(dividend, dividend, 0, dividend, WIDE, 1)
  {
  }

  lemma End(dividend: nat, a: nat, top: nat, low: nat, q: nat)
    requires Split(dividend, a, top, low, 1, q)
    ensures top == dividend
  {
  }

  /** Nothing is shifted out of the remainder or the quotient. */
  lemma NoneLost(dividend: nat, top: nat, bit: nat, b: nat, quotient: nat, rem: nat)
    requires top == quotient * b + rem && b > 0 && 2 * top + bit <= dividend < WIDE
    ensures Shl(rem) == 2 * rem && Shl(quotient) == 2 * quotient && quotient <= top
  {
    assert quotient * b >= quotient;
  }

  /** `divandmod64`.  The remainder is shifted in 64 bits too; no bit of it is ever lost, because it never exceeds the part
      of the dividend seen so far. */
  method DivAndMod64(dividend: nat, b: nat) returns (result: nat, rem: nat)
    requires dividend < WIDE && b < WIDE
    ensures b == 0 ==> result == 0 && rem == 0
    ensures b > 0 ==> result == dividend / b && rem == dividend % b
  {
    hide Split, High, Shl, Pow2;
    result, rem := 0, 0;
    if b == 0 {
      return;
    }
    if dividend < b {
      rem := dividend;
      DivUnique(dividend, b, 0, rem);
      return;
    }
    var a, steps := dividend, 64;
    ghost var top: nat, low: nat, q: nat := 0, dividend, 1;
    Begin(dividend);
    Width();
    while steps > 0
      invariant 0 <= steps <= 64 && Split(dividend, a, top, low, Pow2(steps), q)
      invariant top == result * b + rem && rem < b
      decreases steps
    {
      ghost var bit, half := High(a), Pow2(steps - 1);
      Pow2Step(steps);
      Step(dividend, a, top, low, half, q);
      NoneLost(dividend, top, bit, b, result, rem);
      Digit(top, bit, b, result, rem);
      rem := Shl(rem) + High(a);
      result := Shl(result);
      if rem >= b {
        rem := rem - b;
        result := result + 1;
      }
      a := Shl(a);
      top, low, q := 2 * top + bit, low - bit * half, 2 * q;
      steps := steps - 1;
    }
    Pow2Step(0);
    End(dividend, a, top, low, q);
    DivUnique(dividend, b, result, rem);
  }
}
