/** Canonical Huffman codes as section 3.2.2 of RFC 1951 defines them, and the view the table builder
    needs: with `g` the longest code length, a code of `k` bits owns `2^(g-k)` consecutive positions of
    `0 .. 2^g`, and the codes in canonical order tile that range from the bottom. */
module HuffmanCode {
  import opened Bits

  const BMAX: nat := 16
  const N_MAX: nat := 288

  ghost predicate ValidLengths(b: seq<nat>) {
    forall i :: 0 <= i < |b| ==> b[i] <= BMAX
  }

  // ---------- RFC 1951, section 3.2.2 ----------

  /** bl_count: how many symbols have code length `k`. */
  function Count(b: seq<nat>, k: nat): (r: nat)
    ensures r <= |b|
  {
    if b == [] then 0 else Count(b[..|b| - 1], k) + (if b[|b| - 1] == k then 1 else 0)
  }

  function Counts(b: seq<nat>): (c: seq<nat>)
    ensures |c| == BMAX + 1
  {
    seq(BMAX + 1, k requires 0 <= k => Count(b, k))
  }

  /** next_code: the first code of length `k`. */
  function NextCode(c: seq<nat>, k: nat): nat
    requires k <= |c|
  {
    if k <= 1 then 0 else 2 * (NextCode(c, k - 1) + c[k - 1])
  }

  /** The code of a symbol: codes of one length are handed out in symbol order. */
  function Canon(b: seq<nat>, sym: nat): nat
    requires sym < |b| && b[sym] <= BMAX
  {
    NextCode(Counts(b), b[sym]) + Count(b[..sym], b[sym])
  }

  /** The Kraft sum of the lengths, in units of `2^-16`. */
  function Kraft(b: seq<nat>): nat
    requires ValidLengths(b)
  {
    if b == [] then 0
    else
      var len := b[|b| - 1];
      Kraft(b[..|b| - 1]) + (if len == 0 then 0 else Pow2(BMAX - len))
  }

  ghost predicate AllZero(b: seq<nat>) {
    forall i :: 0 <= i < |b| ==> b[i] == 0
  }

  /** The longest code length. */
  function MaxLen(b: seq<nat>): (g: nat)
    ensures forall i :: 0 <= i < |b| ==> b[i] <= g
    ensures b != [] ==> g in b
  {
    if b == [] then 0
    else
      var g, len := MaxLen(b[..|b| - 1]), b[|b| - 1];
      assert b == b[..|b| - 1] + [len];
      if len > g then len else g
  }

  /** The shortest nonzero code length; 0 if there is none. */
  function MinLen(b: seq<nat>): (k: nat)
    ensures k == 0 <==> AllZero(b)
    ensures k > 0 ==> k in b && forall i :: 0 <= i < |b| && b[i] != 0 ==> b[i] >= k
  {
    if b == [] then 0
    else
      var k, len := MinLen(b[..|b| - 1]), b[|b| - 1];
      assert b == b[..|b| - 1] + [len];
      if k == 0 || (len != 0 && len < k) then len else k
  }

  /** The requested table width, bounded by the shortest and the longest length. */
  function Width(b: seq<nat>, m: nat): nat {
    var l := if m < MinLen(b) then MinLen(b) else m;
    if l > MaxLen(b) then MaxLen(b) else l
  }

  // ---------- The tiling ----------

  /** Number of codes shorter than `k` bits, that is, the index of the first code of `k` bits. */
  function Offset(c: seq<nat>, k: nat): nat
    requires k <= |c|
  {
    if k <= 1 then 0 else Offset(c, k - 1) + c[k - 1]
  }

  /** Positions owned by the codes of at most `k` bits. */
  function Filled(c: seq<nat>, g: nat, k: nat): nat
    requires k <= g < |c|
  {
    if k == 0 then 0 else Filled(c, g, k - 1) + c[k] * Pow2(g - k)
  }

  /** The counts of a code set, longest length `g`, with the table width `l`.  The builder completes
      the counts, so the codes always tile the whole range. */
  datatype Shape = Shape(c: seq<nat>, g: nat, l: nat) {
    ghost predicate Valid() {
      && |c| == BMAX + 1
      && 1 <= l <= g <= BMAX
      && c[g] > 0
      && Filled(c, g, g) == Pow2(g)
      && Filled(c, g, l) > 0
    }

    function Total(): nat
      requires |c| == BMAX + 1 && g <= BMAX
    {
      Offset(c, g + 1)
    }
  }

  lemma {:induction false} FilledMono(c: seq<nat>, g: nat, j: nat, k: nat)
    requires j <= k <= g < |c|
    ensures Filled(c, g, j) <= Filled(c, g, k)
    decreases k
  {
    if j < k { FilledMono(c, g, j, k - 1); }
  }

  lemma {:induction false} NextCodeFilled(c: seq<nat>, g: nat, k: nat)
    requires 1 <= k <= g < |c|
    ensures NextCode(c, k) * Pow2(g - k) == Filled(c, g, k - 1)
    decreases k
  {
    if k > 1 {
      NextCodeFilled(c, g, k - 1);
      var p := Pow2(g - k);
      assert Pow2(g - (k - 1)) == 2 * p;
      calc {
        NextCode(c, k) * p;
        (2 * (NextCode(c, k - 1) + c[k - 1])) * p;
        (NextCode(c, k - 1) + c[k - 1]) * (2 * p);
        NextCode(c, k - 1) * (2 * p) + c[k - 1] * (2 * p);
        Filled(c, g, k - 1);
      }
    } else {
      assert NextCode(c, k) * Pow2(g - k) == 0;
    }
  }

  /** The length of the code that owns position `pos`. */
  function LenUpTo(c: seq<nat>, g: nat, pos: nat, k: nat): (r: nat)
    requires k <= g < |c| && pos < Filled(c, g, k)
    ensures 1 <= r <= k && Filled(c, g, r - 1) <= pos < Filled(c, g, r)
  {
    if pos < Filled(c, g, k - 1) then LenUpTo(c, g, pos, k - 1) else k
  }

  ghost function LenAt(sh: Shape, pos: nat): (k: nat)
    requires sh.Valid() && pos < Pow2(sh.g)
    ensures 1 <= k <= sh.g && Filled(sh.c, sh.g, k - 1) <= pos < Filled(sh.c, sh.g, k)
  {
    LenUpTo(sh.c, sh.g, pos, sh.g)
  }

  lemma LenAtUnique(sh: Shape, pos: nat, k: nat)
    requires sh.Valid() && pos < Pow2(sh.g)
    requires 1 <= k <= sh.g && Filled(sh.c, sh.g, k - 1) <= pos < Filled(sh.c, sh.g, k)
    ensures LenAt(sh, pos) == k
  {
    var r := LenAt(sh, pos);
    if r < k { FilledMono(sh.c, sh.g, r, k - 1); }
    if k < r { FilledMono(sh.c, sh.g, k, r - 1); }
  }

  /** The code that owns `pos`: its first `LenAt` bits. */
  ghost function CodeAt(sh: Shape, pos: nat): nat
    requires sh.Valid() && pos < Pow2(sh.g)
  {
    var p := Pow2(sh.g - LenAt(sh, pos));
    DivNat(pos, p);
    pos / p
  }

  lemma CodeAtRange(sh: Shape, pos: nat)
    requires sh.Valid() && pos < Pow2(sh.g)
    ensures var k := LenAt(sh, pos);
            NextCode(sh.c, k) <= CodeAt(sh, pos) < NextCode(sh.c, k) + sh.c[k]
  {
    var k := LenAt(sh, pos);
    NextCodeFilled(sh.c, sh.g, k);
    QuotRange(pos, Pow2(sh.g - k), NextCode(sh.c, k), sh.c[k]);
  }

  /** The index, in canonical order, of the code that owns `pos`. */
  ghost function IndexAt(sh: Shape, pos: nat): nat
    requires sh.Valid() && pos < Pow2(sh.g)
  {
    CodeAtRange(sh, pos);
    var k := LenAt(sh, pos);
    Offset(sh.c, k) + (CodeAt(sh, pos) - NextCode(sh.c, k))
  }

  /** All positions of one code have its length, its value and its index. */
  lemma OneCode(sh: Shape, k: nat, cd: nat, pos: nat)
    requires sh.Valid() && 1 <= k <= sh.g
    requires NextCode(sh.c, k) <= cd < NextCode(sh.c, k) + sh.c[k]
    requires cd * Pow2(sh.g - k) <= pos < (cd + 1) * Pow2(sh.g - k)
    ensures pos < Pow2(sh.g) && LenAt(sh, pos) == k && CodeAt(sh, pos) == cd
    ensures IndexAt(sh, pos) == Offset(sh.c, k) + (cd - NextCode(sh.c, k))
  {
    hide Pow2, Filled, NextCode, Offset;
    var p := Pow2(sh.g - k);
    NextCodeFilled(sh.c, sh.g, k);
    BlockRange(NextCode(sh.c, k), sh.c[k], cd, p, pos);
    FilledStep(sh.c, sh.g, k);
    FilledMono(sh.c, sh.g, k, sh.g);
    LenAtUnique(sh, pos, k);
  }

  lemma FilledStep(c: seq<nat>, g: nat, k: nat)
    requires 1 <= k <= g < |c|
    ensures Filled(c, g, k) == Filled(c, g, k - 1) + c[k] * Pow2(g - k)
  {
  }
}
