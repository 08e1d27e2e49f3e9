/** Sequence numbers: unsigned 32-bit numbers compared by the sign of their difference. */
module TcpSeq {

  const MOD: int := 0x1_0000_0000
  const HALF: int := 0x8000_0000

  /** Queues and windows stay far below half the sequence space. */
  const LIMIT: int := 0x4000_0000

  type seqno = x: int | 0 <= x < MOD

  /** The distance forward from `base` to `a`. */
  function Off(a: int, base: int): (d: seqno) {
    (a - base) % MOD
  }

  function Add(a: seqno, n: int): (r: seqno) {
    (a + n) % MOD
  }

  predicate SeqLt(a: seqno, b: seqno) { Off(a, b) >= HALF }

  predicate SeqLeq(a: seqno, b: seqno) { Off(a, b) >= HALF || a == b }

  predicate SeqGt(a: seqno, b: seqno) { 0 < Off(a, b) < HALF }

  predicate SeqGeq(a: seqno, b: seqno) { Off(a, b) < HALF }

  /** Near a common base the cyclic comparisons are those of the distances. */
  lemma Compare(a: seqno, b: seqno, base: seqno, x: int, y: int)
    requires a == Add(base, x) && b == Add(base, y) && -HALF < x - y < HALF
    ensures SeqLt(a, b) <==> x < y
    ensures SeqLeq(a, b) <==> x <= y
    ensures SeqGt(a, b) <==> x > y
    ensures SeqGeq(a, b) <==> x >= y
    ensures a == b <==> x == y
  {
    Difference(a, b, base, x, y);
  }

  lemma Difference(a: seqno, b: seqno, base: seqno, x: int, y: int)
    requires a == Add(base, x) && b == Add(base, y) && -HALF < x - y < HALF
    ensures Off(a, b) == if x >= y then x - y else x - y + MOD
  {
    hide Off, Add;
    OffOf(base, x, y);
    Small(x - y);
  }

  lemma Small(v: int)
    requires -MOD < v < MOD
    ensures v % MOD == if v < 0 then v + MOD else v
  {
  }

  lemma OffOf(una: seqno, x: int, y: int)
    ensures Off(Add(una, x), Add(una, y)) == (x - y) % MOD
  {
    hide Off, Add;
    OffMod(una, x, y);
    ModDiff(una + x, una + y);
  }

  lemma OffMod(una: seqno, x: int, y: int)
    ensures Off(Add(una, x), Add(una, y)) == ((una + x) % MOD - (una + y) % MOD) % MOD
  {
  }

  lemma ModDiff(a: int, b: int)
    ensures (a % MOD - b % MOD) % MOD == (a - b) % MOD
  {
  }

  lemma OffAdd(a: seqno, base: seqno)
    ensures a == Add(base, Off(a, base))
  {
  }

  lemma AddAdd(a: seqno, m: int, n: int)
    ensures Add(Add(a, m), n) == Add(a, m + n)
  {
  }

  lemma AddZero(a: seqno)
    ensures Add(a, 0) == a
  {
  }

  lemma OffOfAdd(base: seqno, n: int)
    requires 0 <= n < MOD
    ensures Off(Add(base, n), base) == n
  {
  }

  /** Moving the base forward shortens distances by as much. */
  lemma OffRebase(a: seqno, base: seqno, n: int)
    requires 0 <= n <= Off(a, base)
    ensures Off(a, Add(base, n)) == Off(a, base) - n
  {
  }
}
