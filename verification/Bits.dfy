/** Powers of two, and the reversal of the low bits of a number.  The decoder reads Huffman codes
    least significant bit first, so table indices are reversed codes. */
module Bits {

  function Pow2(n: nat): (p: nat)
    ensures p >= 1
  {
    if n == 0 then 1 else 2 * Pow2(n - 1)
  }

  lemma Pow2Step(n: nat)
    ensures Pow2(0) == 1 && (n > 0 ==> Pow2(n) == 2 * Pow2(n - 1))
  {
  }

  lemma {:induction false} Pow2Add(a: nat, b: nat)
    ensures Pow2(a + b) == Pow2(a) * Pow2(b)
  {
    if b > 0 {
      Pow2Add(a, b - 1);
      calc {
        Pow2(a + b);
        2 * Pow2(a + (b - 1));
        2 * (Pow2(a) * Pow2(b - 1));
        Pow2(a) * (2 * Pow2(b - 1));
        Pow2(a) * Pow2(b);
      }
    }
  }

  lemma {:induction false} Pow2Mono(a: nat, b: nat)
    requires a <= b
    ensures Pow2(a) <= Pow2(b)
    ensures a < b ==> 2 * Pow2(a) <= Pow2(b)
    decreases b
  {
    if a < b { Pow2Mono(a, b - 1); }
  }

  /** The low `n` bits of `v`, in the opposite order. */
  function Rev(n: nat, v: nat): nat {
    if n == 0 then 0 else (v % 2) * Pow2(n - 1) + Rev(n - 1, v / 2)
  }

  lemma {:induction false} RevBound(n: nat, v: nat)
    ensures Rev(n, v) < Pow2(n)
  {
    if n > 0 { RevBound(n - 1, v / 2); }
  }

  lemma {:induction false} RevZero(n: nat)
    ensures Rev(n, 0) == 0
  {
    if n > 0 { RevZero(n - 1); }
  }

  // ---------- Division by a positive number ----------

  lemma MulMono(x: int, y: int, m: nat)
    requires x <= y
    ensures x * m <= y * m
  {
  }

  lemma DivUnique(v: int, m: int, q: int, r: int)
    requires m > 0 && 0 <= r < m
    requires v == q * m + r
    ensures v / m == q && v % m == r
  {
    var q', r' := v / m, v % m;
    assert v == m * q' + r';
    assert (q' - q) * m == r - r' by { assert (q' - q) * m == q' * m - q * m; }
    if q' > q { MulMono(1, q' - q, m); assert false; }
    if q' < q { MulMono(q' - q, -1, m); assert false; }
  }

  lemma DivFacts(v: nat, m: nat)
    requires m > 0
    ensures v == (v / m) * m + v % m && 0 <= v % m < m && v / m >= 0
  {
  }

  lemma DivNat(v: nat, m: nat)
    requires m > 0
    ensures v / m >= 0
  {
  }

  lemma DivLt(v: nat, q: nat, m: nat)
    requires m > 0
    requires v < q * m
    ensures v / m < q
  {
    DivFacts(v, m);
    if v / m >= q { MulMono(q, v / m, m); }
  }

  lemma QuotRange(v: nat, p: nat, n: nat, count: nat)
    requires p > 0 && n * p <= v < n * p + count * p
    ensures n <= v / p < n + count
  {
    var q := v / p;
    DivFacts(v, p);
    if q < n { MulMono(q + 1, n, p); }
    assert (n + count) * p == n * p + count * p;
    if q >= n + count { MulMono(n + count, q, p); }
  }

  lemma BlockRange(n: nat, count: nat, cd: nat, p: nat, v: nat)
    requires p > 0 && n <= cd < n + count
    requires cd * p <= v < (cd + 1) * p
    ensures n * p <= v < n * p + count * p
    ensures v / p == cd
  {
    MulMono(n, cd, p);
    MulMono(cd + 1, n + count, p);
    assert (n + count) * p == n * p + count * p;
    assert (cd + 1) * p == cd * p + p;
    DivUnique(v, p, cd, v - cd * p);
  }

  function Quot(v: nat, m: nat): nat
    requires m > 0
  {
    DivNat(v, m);
    v / m
  }

  lemma QuotFacts(v: nat, m: nat)
    requires m > 0
    ensures v == Quot(v, m) * m + v % m && 0 <= v % m < m
    ensures Quot(v, m) == v / m
  {
    DivFacts(v, m);
  }

  lemma ScaledRange(r: nat, n: nat, q: nat)
    requires r < n && q > 0
    ensures 0 <= r * q && r * q + q <= n * q
  {
    MulMono(r + 1, n, q);
    assert (r + 1) * q == r * q + q;
  }

  lemma MultipleOfProduct(v: nat, m: nat, n: nat)
    requires m > 0 && n > 0 && m * n > 0 && v % (m * n) == 0
    ensures v % n == 0
  {
    var q := v / (m * n);
    assert v == (q * m) * n by {
      DivFacts(v, m * n);
      assert q * (m * n) == (q * m) * n;
    }
    DivUnique(v, n, q * m, 0);
  }

  /** The distance between two multiples of `p` is a multiple of `p`. */
  lemma Distance(lo: nat, hi: nat, p: nat)
    requires p > 0 && lo <= hi && lo % p == 0 && hi % p == 0
    ensures (hi - lo) % p == 0
    ensures hi == lo + Quot(hi - lo, p) * p
  {
    var a, b := lo / p, hi / p;
    DivFacts(lo, p);
    DivFacts(hi, p);
    assert b * p - a * p == (b - a) * p;
    DivUnique(hi - lo, p, b - a, 0);
  }

  /** Adding less than `m` to a multiple of `m` keeps the quotient. */
  lemma SameBlock(lo: nat, hi: nat, m: nat)
    requires m > 0 && lo % m == 0 && lo <= hi < lo + m
    ensures hi / m == lo / m && hi % m == hi - lo
  {
    DivFacts(lo, m);
    DivUnique(hi, m, lo / m, hi - lo);
  }

  lemma NextMultiple(lo: nat, m: nat)
    requires m > 0 && lo % m == 0
    ensures (lo + m) % m == 0 && (lo + m) / m == lo / m + 1
  {
    DivFacts(lo, m);
    assert (lo / m + 1) * m == (lo / m) * m + m;
    DivUnique(lo + m, m, lo / m + 1, 0);
  }

  // ---------- Reversal of concatenations ----------

  lemma HalfOfSum(x: nat, y: nat, p: nat)
    ensures (x * (2 * p) + y) % 2 == y % 2
    ensures (x * (2 * p) + y) / 2 == x * p + y / 2
  {
    assert x * (2 * p) == 2 * (x * p);
  }

  lemma Distribute(p: int, bit: int, q: int, t: int)
    ensures p * (bit * q + t) == bit * (p * q) + p * t
  {
    assert p * (bit * q + t) == p * (bit * q) + p * t;
    assert p * (bit * q) == bit * (p * q);
  }

  lemma {:induction false} RevConcat(a: nat, b: nat, x: nat, y: nat)
    requires y < Pow2(b)
    ensures Rev(a + b, x * Pow2(b) + y) == Rev(a, x) + Pow2(a) * Rev(b, y)
    decreases b
  {
    if b == 0 {
      assert x * Pow2(b) + y == x;
    } else {
      var v, t := x * Pow2(b) + y, Rev(b - 1, y / 2);
      HalfOfSum(x, y, Pow2(b - 1));
      calc {
        Rev(a + b, v);
        (v % 2) * Pow2(a + (b - 1)) + Rev(a + (b - 1), v / 2);
        { Pow2Add(a, b - 1); RevConcat(a, b - 1, x, y / 2); }
        (y % 2) * (Pow2(a) * Pow2(b - 1)) + Rev(a, x) + Pow2(a) * t;
        { Distribute(Pow2(a), y % 2, Pow2(b - 1), t); }
        Rev(a, x) + Pow2(a) * ((y % 2) * Pow2(b - 1) + t);
        Rev(a, x) + Pow2(a) * Rev(b, y);
      }
    }
  }

  lemma RevStep(n: nat, v: nat)
    requires n > 0
    ensures Rev(n, v) == (v % 2) * Pow2(n - 1) + Rev(n - 1, v / 2)
  {
  }

  lemma RevOne(bit: nat)
    requires bit < 2
    ensures Rev(1, bit) == bit && Pow2(1) == 2
  {
    RevStep(1, bit);
  }

  lemma {:induction false} RevRev(n: nat, v: nat)
    requires v < Pow2(n)
    ensures Rev(n, Rev(n, v)) == v
  {
    if n > 0 {
      var bit, r := v % 2, Rev(n - 1, v / 2);
      RevRev(n - 1, v / 2);
      assert Rev(n, v) == bit * Pow2(n - 1) + r && r < Pow2(n - 1) by { RevBound(n - 1, v / 2); }
      assert Rev(n, bit * Pow2(n - 1) + r) == Rev(1, bit) + Pow2(1) * Rev(n - 1, r) by {
        hide *;
        RevConcat(1, n - 1, bit, r);
      }
      RevOne(bit);
    }
  }

  /** The first `a` bits of a reversed string are the reversal of its leading part. */
  lemma RevLow(a: nat, b: nat, v: nat)
    requires v < Pow2(a + b)
    ensures Rev(a + b, v) % Pow2(a) == Rev(a, Quot(v, Pow2(b)))
    ensures Rev(a + b, v) / Pow2(a) == Rev(b, v % Pow2(b))
  {
    hide *;
    var x, y := Quot(v, Pow2(b)), v % Pow2(b);
    assert v == x * Pow2(b) + y && y < Pow2(b) by { QuotFacts(v, Pow2(b)); }
    assert Rev(a + b, v) == Rev(b, y) * Pow2(a) + Rev(a, x) by { RevConcat(a, b, x, y); }
    RevBound(a, x);
    DivUnique(Rev(a + b, v), Pow2(a), Rev(b, y), Rev(a, x));
  }

  /** Padding a code with zero bits does not change its reversal. */
  lemma RevPad(k: nat, g: nat, cd: nat)
    requires k <= g
    ensures Rev(g, cd * Pow2(g - k)) == Rev(k, cd)
  {
    RevConcat(k, g - k, cd, 0);
    RevZero(g - k);
  }
}
