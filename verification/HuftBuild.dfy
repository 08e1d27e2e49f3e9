/** `huft_build`: from code lengths to decoding tables. */
module HuftBuild {
  import opened Bits
  import opened Octets
  import opened BitStream
  import opened HuffmanCode
  import opened HuftTables
  import opened HuftLoop
  import opened HuftWalk

  // ---------- Counting lengths ----------

  lemma CountSnoc(b: seq<nat>, i: nat, k: nat)
    requires i < |b|
    ensures Count(b[..i + 1], k) == Count(b[..i], k) + (if b[i] == k then 1 else 0)
  {
    assert b[..i + 1][..i] == b[..i];
  }

  lemma {:induction false} CountMono(b: seq<nat>, i: nat, j: nat, k: nat)
    requires i <= j <= |b|
    ensures Count(b[..i], k) <= Count(b[..j], k)
    decreases j
  {
    if i < j {
      CountMono(b, i, j - 1, k);
      CountSnoc(b, j - 1, k);
    }
  }

  /** The rank of a symbol among those of its length is below their number. */
  lemma RankBelow(b: seq<nat>, sym: nat, j: nat)
    requires sym < j <= |b|
    ensures Count(b[..sym], b[sym]) < Count(b[..j], b[sym])
    ensures j == |b| ==> Count(b[..sym], b[sym]) < Count(b, b[sym])
  {
    CountSnoc(b, sym, b[sym]);
    CountMono(b, sym + 1, j, b[sym]);
    assert b[..|b|] == b;
  }

  /** Every rank below the number of symbols of a length belongs to one of them. */
  lemma {:induction false} RankTaken(b: seq<nat>, j: nat, k: nat, r: nat) returns (sym: nat)
    requires j <= |b| && r < Count(b[..j], k)
    ensures sym < j && b[sym] == k && Count(b[..sym], k) == r
    decreases j
  {
    CountSnoc(b, j - 1, k);
    if b[j - 1] == k && Count(b[..j - 1], k) == r {
      sym := j - 1;
    } else {
      sym := RankTaken(b, j - 1, k, r);
    }
  }

  lemma {:induction false} CountNone(b: seq<nat>, k: nat)
    ensures Count(b, k) == 0 <==> forall i :: 0 <= i < |b| ==> b[i] != k
  {
    if b != [] { CountNone(b[..|b| - 1], k); }
  }

  method CountLengths(b: seq<nat>) returns (c: array<nat>)
    requires ValidLengths(b)
    ensures fresh(c) && c[..] == Counts(b)
  {
    c := new nat[BMAX + 1](_ => 0);
    var i := 0;
    while i < |b|
      invariant 0 <= i <= |b|
      invariant forall k :: 0 <= k <= BMAX ==> c[k] == Count(b[..i], k)
    {
      forall k | 0 <= k <= BMAX ensures Count(b[..i + 1], k) == Count(b[..i], k) + (if b[i] == k then 1 else 0) {
        CountSnoc(b, i, k);
      }
      c[b[i]] := c[b[i]] + 1;
      i := i + 1;
    }
    assert b[..i] == b;
  }

  // ---------- Sums over the counts ----------

  lemma {:induction false} OffsetBump(c: seq<nat>, x: nat, n: nat, k: nat)
    requires x < |c| && k <= |c|
    ensures Offset(c[x := c[x] + n], k) == Offset(c, k) + (if 1 <= x < k then n else 0)
    decreases k
  {
    if k > 1 { OffsetBump(c, x, n, k - 1); }
  }

  lemma {:induction false} FilledBump(c: seq<nat>, g: nat, x: nat, n: nat, k: nat)
    requires x < |c| && k <= g < |c|
    ensures Filled(c[x := c[x] + n], g, k) == Filled(c, g, k) + (if 1 <= x <= k then n * Pow2(g - x) else 0)
    decreases k
  {
    if k > 0 {
      FilledBump(c, g, x, n, k - 1);
      if k == x { assert (c[x] + n) * Pow2(g - x) == c[x] * Pow2(g - x) + n * Pow2(g - x); }
    }
  }

  lemma {:induction false} NextCodeBump(c: seq<nat>, x: nat, n: nat, k: nat)
    requires x < |c| && k <= |c| && k <= x
    ensures NextCode(c[x := c[x] + n], k) == NextCode(c, k)
    decreases k
  {
    if k > 1 { NextCodeBump(c, x, n, k - 1); }
  }

  lemma CountsSnoc(b: seq<nat>)
    requires b != [] && b[|b| - 1] <= BMAX
    ensures var c, x := Counts(b[..|b| - 1]), b[|b| - 1];
            Counts(b) == c[x := c[x] + 1]
  {
  }

  /** Codes of all lengths together with the unused symbols are all symbols. */
  lemma {:induction false} OffsetTotal(b: seq<nat>)
    requires ValidLengths(b)
    ensures Offset(Counts(b), BMAX + 1) + Count(b, 0) == |b|
  {
    if b == [] {
      NoCodes(Counts(b), BMAX + 1);
    } else {
      var b', x := b[..|b| - 1], b[|b| - 1];
      OffsetTotal(b');
      CountsSnoc(b);
      OffsetBump(Counts(b'), x, 1, BMAX + 1);
    }
  }

  lemma {:induction false} NoCodes(c: seq<nat>, k: nat)
    requires k <= |c| && forall j :: 1 <= j < k ==> c[j] == 0
    ensures Offset(c, k) == 0
  {
    if k > 1 { NoCodes(c, k - 1); }
  }

  lemma {:induction false} NothingFilled(c: seq<nat>, g: nat, k: nat)
    requires k <= g < |c| && forall j :: 1 <= j <= k ==> c[j] == 0
    ensures Filled(c, g, k) == 0
    decreases k
  {
    if k > 0 {
      NothingFilled(c, g, k - 1);
      assert c[k] * Pow2(g - k) == 0;
    }
  }

  /** The Kraft sum over the symbols is the sum over the lengths. */
  lemma {:induction false} KraftByLength(b: seq<nat>)
    requires ValidLengths(b)
    ensures Kraft(b) == Filled(Counts(b), BMAX, BMAX)
  {
    if b == [] {
      NothingFilled(Counts(b), BMAX, BMAX);
    } else {
      var b', x := b[..|b| - 1], b[|b| - 1];
      KraftByLength(b');
      CountsSnoc(b);
      FilledBump(Counts(b'), BMAX, x, 1, BMAX);
    }
  }

  lemma {:induction false} FilledScale(c: seq<nat>, g: nat, k: nat)
    requires |c| == BMAX + 1 && k <= g <= BMAX
    ensures Filled(c, BMAX, k) == Filled(c, g, k) * Pow2(BMAX - g)
    decreases k
  {
    if k > 0 {
      FilledScale(c, g, k - 1);
      Pow2Add(g - k, BMAX - g);
      Rescale(Filled(c, g, k - 1), c[k], Pow2(g - k), Pow2(BMAX - g));
    }
  }

  lemma Rescale(f: nat, c: nat, p: nat, q: nat)
    ensures (f + c * p) * q == f * q + c * (p * q)
  {
    assert (f + c * p) * q == f * q + (c * p) * q;
    assert (c * p) * q == c * (p * q);
  }

  lemma {:induction false} FilledEmptyTop(c: seq<nat>, g: nat, k: nat)
    requires |c| == BMAX + 1 && g <= k <= BMAX && forall j :: g < j <= BMAX ==> c[j] == 0
    ensures Filled(c, BMAX, k) == Filled(c, BMAX, g)
    decreases k
  {
    if k > g {
      FilledEmptyTop(c, g, k - 1);
      assert 0 * Pow2(BMAX - k) == 0;
    }
  }

  // ---------- Completing the code set ----------

  /** `y` patterns of `j` bits are free after the codes of at most `j` bits (negative: too many codes). */
  ghost predicate Free(c: seq<nat>, j: nat, y: int) {
    |c| == BMAX + 1 && j <= BMAX && y * Pow2(BMAX - j) == Pow2(BMAX) - Filled(c, BMAX, j)
  }

  lemma FreeStart(c: seq<nat>, j: nat)
    requires |c| == BMAX + 1 && 1 <= j <= BMAX && forall k :: 1 <= k < j ==> c[k] == 0
    ensures Free(c, j - 1, Pow2(j - 1))
  {
    NothingFilled(c, BMAX, j - 1);
    Pow2Add(j - 1, BMAX - (j - 1));
  }

  lemma FreeStep(c: seq<nat>, j: nat, y: int)
    requires 1 <= j <= BMAX && Free(c, j - 1, y)
    ensures Free(c, j, 2 * y - c[j])
  {
    HalveCell(y, c[j], Pow2(BMAX - j));
  }

  lemma HalveCell(y: int, c: nat, p: nat)
    ensures (2 * y - c) * p == y * (2 * p) - c * p
  {
    assert (2 * y - c) * p == (2 * y) * p - c * p;
    assert (2 * y) * p == y * (2 * p);
  }

  lemma FreeSign(c: seq<nat>, j: nat, y: int)
    requires Free(c, j, y)
    ensures y < 0 <==> Filled(c, BMAX, j) > Pow2(BMAX)
    ensures y == 0 <==> Filled(c, BMAX, j) == Pow2(BMAX)
  {
    var p := Pow2(BMAX - j);
    if y < 0 { MulMono(y, -1, p); }
    if y > 0 { MulMono(1, y, p); }
  }

  /** Counts the codes of the longest length that are missing from a complete set; negative if the set has
      too many codes. */
  method MissingCodes(c: seq<nat>, k: nat, g: nat) returns (y: int)
    requires |c| == BMAX + 1 && 1 <= k <= g <= BMAX && forall j :: 1 <= j < k ==> c[j] == 0
    ensures y < 0 <==> Filled(c, BMAX, g) > Pow2(BMAX)
    ensures y >= 0 ==> Free(c, g, y)
  {
    hide Free, Filled, Pow2;
    var j := k;
    FreeStart(c, k);
    ghost var y0 := Pow2(k - 1);
    Pow2Step(k);
    y := Pow2(k);
    while j < g
      invariant k <= j <= g && y == 2 * y0 && Free(c, j - 1, y0)
    {
      FreeStep(c, j, y0);
      y := y - c[j];
      FreeSign(c, j, y);
      if y < 0 {
        FilledMono(c, BMAX, j, g);
        return;
      }
      y0 := y;
      j := j + 1;
      y := 2 * y;
    }
    FreeStep(c, g, y0);
    y := y - c[g];
    FreeSign(c, g, y);
  }

  // ---------- Symbols in canonical order ----------

  /** The index of a symbol in canonical order. */
  function Index(b: seq<nat>, sym: nat): nat
    requires sym < |b| && b[sym] <= BMAX
  {
    Offset(Counts(b), b[sym]) + Count(b[..sym], b[sym])
  }

  /** Each coded symbol stands at the index of its code. */
  ghost predicate Sorted(b: seq<nat>, v: seq<nat>, upto: nat)
    requires ValidLengths(b) && upto <= |b|
  {
    forall sym :: 0 <= sym < upto && b[sym] > 0 ==> Index(b, sym) < |v| && v[Index(b, sym)] == sym
  }

  lemma {:induction false} OffsetMono(c: seq<nat>, j: nat, k: nat)
    requires j <= k <= |c|
    ensures Offset(c, j) <= Offset(c, k)
    ensures 1 <= j < k ==> Offset(c, j) + c[j] <= Offset(c, k)
    decreases k
  {
    if 1 < k && j < k { OffsetMono(c, j, k - 1); }
  }

  /** Different symbols have different indices. */
  lemma IndexInjective(b: seq<nat>, sym: nat, j: nat)
    requires ValidLengths(b) && sym < j < |b| && b[sym] > 0 && b[j] > 0
    ensures Index(b, sym) != Index(b, j)
  {
    var c := Counts(b);
    RankBelow(b, sym, |b|);
    RankBelow(b, j, |b|);
    if b[sym] == b[j] {
      RankBelow(b, sym, j);
    } else if b[sym] < b[j] {
      OffsetMono(c, b[sym], b[j]);
    } else {
      OffsetMono(c, b[j], b[sym]);
    }
  }

  /** The index of a symbol is below the number of coded symbols. */
  lemma IndexBound(b: seq<nat>, sym: nat)
    requires ValidLengths(b) && sym < |b| && b[sym] > 0
    ensures Index(b, sym) < |b| - Count(b, 0)
  {
    RankBelow(b, sym, |b|);
    OffsetMono(Counts(b), b[sym], BMAX + 1);
    OffsetTotal(b);
  }

  method Offsets(c: seq<nat>, g: nat) returns (x: array<nat>)
    requires |c| == BMAX + 1 && 1 <= g <= BMAX
    ensures fresh(x) && x.Length == BMAX + 1
    ensures forall k :: 1 <= k <= g ==> x[k] == Offset(c, k)
  {
    x := new nat[BMAX + 1](_ => 0);
    var j := 0;
    x[1] := 0;
    var k := 2;
    while k <= g
      invariant 2 <= k <= BMAX + 1 && j == Offset(c, k - 1)
      invariant forall i :: 1 <= i < k && i <= g ==> x[i] == Offset(c, i)
    {
      j := j + c[k - 1];
      x[k] := j;
      k := k + 1;
    }
  }

  /** Lists the coded symbols in order of code length; the rest of the array keeps whatever was there. */
  method SortValues(b: seq<nat>, c: seq<nat>, g: nat) returns (v: array<nat>)
    requires ValidLengths(b) && |b| <= N_MAX && 1 <= g <= BMAX
    requires forall i :: 0 <= i < |b| ==> b[i] <= g
    requires |c| == BMAX + 1 && forall k :: 1 <= k < g ==> c[k] == Counts(b)[k]
    ensures fresh(v) && v.Length == N_MAX && Sorted(b, v[..], |b|)
  {
    hide Index, Count, Counts, Offset;
    var x := Offsets(c, g);
    forall k | 1 <= k <= g ensures Offset(c, k) == Offset(Counts(b), k) + Count(b[..0], k) {
      SameOffset(c, Counts(b), k);
      CountNone(b[..0], k);
    }
    v := new nat[N_MAX];
    var i := 0;
    while i < |b|
      invariant 0 <= i <= |b|
      invariant forall k :: 1 <= k <= g ==> x[k] == Offset(Counts(b), k) + Count(b[..i], k)
      invariant Sorted(b, v[..], i)
    {
      var j := b[i];
      forall k | 1 <= k <= g ensures Count(b[..i + 1], k) == Count(b[..i], k) + (if j == k then 1 else 0) {
        CountSnoc(b, i, k);
      }
      if j != 0 {
        SortStep(b, v[..], i);
        assert v[..][x[j] := i] == v[..x[j]] + [i] + v[x[j] + 1..];
        v[x[j]] := i;
        x[j] := x[j] + 1;
      }
      i := i + 1;
    }
  }

  lemma SortStep(b: seq<nat>, v: seq<nat>, i: nat)
    requires ValidLengths(b) && i < |b| && |b| <= |v| && b[i] > 0 && Sorted(b, v, i)
    ensures Index(b, i) == Offset(Counts(b), b[i]) + Count(b[..i], b[i]) < |v|
    ensures Sorted(b, v[Index(b, i) := i], i + 1)
  {
    IndexBound(b, i);
    hide Count, Counts, Offset;
    forall sym | 0 <= sym < i && b[sym] > 0 ensures Index(b, sym) != Index(b, i) { IndexInjective(b, sym, i); }
  }

  lemma {:induction false} SameOffset(c: seq<nat>, c': seq<nat>, k: nat)
    requires k <= |c| == |c'| && forall j :: 1 <= j < k ==> c[j] == c'[j]
    ensures Offset(c, k) == Offset(c', k)
  {
    if k > 1 { SameOffset(c, c', k - 1); }
  }

  // ---------- Decoding symbols ----------

  /** The canonical code of `sym` stands at position `pos` of the stream. */
  ghost predicate CodeIsAt(b: seq<nat>, sym: nat, data: seq<byte>, pos: nat)
    requires data != []
  {
    sym < |b| && 0 < b[sym] <= BMAX && Msb(data, pos, b[sym]) == Canon(b, sym)
  }

  /** The lookup found the entry of `sym`, and its bits end where the code of `len` bits ends. */
  ghost predicate FoundSymbol(r: Found, lists: Lists, sym: nat, pos: nat, len: nat) {
    r.Found? && pos <= r.at < pos + len && r.h == lists.Entry(sym, pos + len - r.at)
  }

  ghost predicate FoundInvalid(r: Found) {
    r.Found? && r.h.Code? && r.h.e == 99
  }

  ghost predicate DecodesAt(b: seq<nat>, lists: Lists, tables: seq<Table>, l: nat, data: seq<byte>, pos: nat)
    requires data != []
  {
    var r := Walk(tables, 0, l, data, pos);
    && (forall sym: nat :: CodeIsAt(b, sym, data, pos) ==> FoundSymbol(r, lists, sym, pos, b[sym]))
    && ((forall sym: nat :: !CodeIsAt(b, sym, data, pos)) && 0 !in b ==> FoundInvalid(r))
    && (l == MaxLen(b) && !AllZero(b) ==> AtRoot(tables, 0, l, data, pos))
  }

  /** The tables decode exactly the canonical code of the lengths: at every position of every stream they find
      the symbol whose code stands there, and use up its bits; where no code stands they report an invalid
      code, unless some symbols are unused. */
  ghost predicate Decodes(b: seq<nat>, lists: Lists, tables: seq<Table>, l: nat) {
    forall data: seq<byte>, pos: nat :: data != [] ==> DecodesAt(b, lists, tables, l, data, pos)
  }

  /** Table widths for which lookups are sound. */
  ghost predicate Sound(b: seq<nat>, l: nat)
    requires ValidLengths(b)
  {
    MaxLen(b) <= 2 * l || (Kraft(b) == Pow2(BMAX) && |b| <= Pow2(l))
  }

  /** `sh` holds the counts of `b`, completed with `y` codes of the longest length. */
  ghost predicate Completes(sh: Shape, b: seq<nat>, y: nat) {
    && sh.Valid() && ValidLengths(b) && sh.g == MaxLen(b)
    && sh.c == Counts(b)[sh.g := Counts(b)[sh.g] + y]
  }

  lemma SymbolPosition(sh: Shape, b: seq<nat>, y: nat, sym: nat, data: seq<byte>, pos: nat)
    requires Completes(sh, b, y) && data != [] && CodeIsAt(b, sym, data, pos)
    ensures var p := Msb(data, pos, sh.g);
            p < Pow2(sh.g) && LenAt(sh, p) == b[sym] && IndexAt(sh, p) == Index(b, sym)
  {
    hide Count, Filled, LenAt, IndexAt, Msb, Kraft, MaxLen;
    var k, cd, p := b[sym], Canon(b, sym), Msb(data, pos, sh.g);
    MaxLenBounds(b, sym);
    MsbSplit(data, pos, k, sh.g - k);
    MsbBound(data, pos + k, sh.g - k);
    NextCodeBump(Counts(b), sh.g, y, k);
    OffsetBump(Counts(b), sh.g, y, k);
    RankBelow(b, sym, |b|);
    InCodeRange(cd, Pow2(sh.g - k), p, Msb(data, pos + k, sh.g - k));
    OneCode(sh, k, cd, p);
  }

  lemma InCodeRange(cd: nat, size: nat, p: nat, low: nat)
    requires p == cd * size + low && low < size
    ensures cd * size <= p < (cd + 1) * size
  {
    assert (cd + 1) * size == cd * size + size;
  }

  lemma MaxLenBounds(b: seq<nat>, sym: nat)
    requires sym < |b|
    ensures b[sym] <= MaxLen(b)
  {
  }

  /** A position whose code is one of the original ones has a symbol. */
  lemma PositionSymbol(sh: Shape, b: seq<nat>, y: nat, data: seq<byte>, pos: nat) returns (sym: nat)
    requires Completes(sh, b, y) && data != [] && Msb(data, pos, sh.g) < Pow2(sh.g)
    requires IndexAt(sh, Msb(data, pos, sh.g)) < |b| - Count(b, 0)
    ensures CodeIsAt(b, sym, data, pos)
  {
    hide Msb, Kraft, MaxLen, LenAt, Filled;
    var p := Msb(data, pos, sh.g);
    var k, cd := LenAt(sh, p), CodeAt(sh, p);
    CodeAtRange(sh, p);
    NextCodeBump(Counts(b), sh.g, y, k);
    OffsetBump(Counts(b), sh.g, y, k);
    MsbSplit(data, pos, k, sh.g - k);
    MsbBound(data, pos + k, sh.g - k);
    DivUnique(p, Pow2(sh.g - k), Msb(data, pos, k), Msb(data, pos + k, sh.g - k));
    var r := cd - NextCode(sh.c, k);
    OriginalCode(sh, b, y, k, r);
    assert b[..|b|] == b;
    sym := RankTaken(b, |b|, k, r);
  }

  lemma OriginalCode(sh: Shape, b: seq<nat>, y: nat, k: nat, r: nat)
    requires Completes(sh, b, y) && 1 <= k <= sh.g && r < sh.c[k]
    requires Offset(Counts(b), k) + r < |b| - Count(b, 0)
    ensures r < Count(b, k)
  {
    hide Shape.Valid, Kraft;
    if k == sh.g {
      OffsetTotal(b);
      NoLongerCodes(b, sh.g + 1);
    }
  }

  lemma {:induction false} NoLongerCodes(b: seq<nat>, k: nat)
    requires ValidLengths(b) && MaxLen(b) < k <= BMAX + 1
    ensures Offset(Counts(b), BMAX + 1) == Offset(Counts(b), k)
    decreases BMAX + 1 - k
  {
    if k < BMAX + 1 {
      CountNone(b, k);
      NoLongerCodes(b, k + 1);
    }
  }

  /** Finished tables of a completed set decode the original symbols. */
  lemma TablesDecode(sh: Shape, b: seq<nat>, y: nat, vals: Values, info: seq<Info>, tables: seq<Table>)
    requires Completes(sh, b, y) && Complete(sh, vals, info, tables) && Fits(sh)
    requires vals.n == |b| && Sorted(b, vals.v, |b|)
    ensures Decodes(b, vals.lists, tables, sh.l)
  {
    hide Completes, Complete, DecodesAt, Shape.Valid, Fits, Sorted;
    forall data: seq<byte>, pos: nat | data != [] ensures DecodesAt(b, vals.lists, tables, sh.l, data, pos) {
      TablesDecodeAt(sh, b, y, vals, info, tables, data, pos);
    }
  }

  lemma TablesDecodeAt(sh: Shape, b: seq<nat>, y: nat, vals: Values, info: seq<Info>, tables: seq<Table>,
                       data: seq<byte>, pos: nat)
    requires Completes(sh, b, y) && Complete(sh, vals, info, tables) && Fits(sh) && data != []
    requires vals.n == |b| && Sorted(b, vals.v, |b|)
    ensures DecodesAt(b, vals.lists, tables, sh.l, data, pos)
  {
    hide Shape.Valid, Fits, Complete, Walk, AtRoot, Msb, LenAt, IndexAt, Index, Canon, Count;
    var w := WalkDecodes(sh, vals, info, tables, data, pos);
    var p := Msb(data, pos, sh.g);
    forall sym: nat | CodeIsAt(b, sym, data, pos)
      ensures FoundSymbol(Walk(tables, 0, sh.l, data, pos), vals.lists, sym, pos, b[sym])
    {
      SymbolPosition(sh, b, y, sym, data, pos);
      IndexBound(b, sym);
    }
    if (forall sym: nat :: !CodeIsAt(b, sym, data, pos)) && 0 !in b {
      CountNone(b, 0);
      if IndexAt(sh, p) < |b| { var sym := PositionSymbol(sh, b, y, data, pos); assert false; }
    }
  }

  // ---------- huft_build ----------

  /** The shape of a code set that is not oversubscribed. */
  lemma ShapeValid(b: seq<nat>, l: nat, y: nat)
    requires ValidLengths(b) && !AllZero(b) && MinLen(b) <= l <= MaxLen(b)
    requires Free(Counts(b), MaxLen(b), y)
    ensures var g := MaxLen(b); Completes(Shape(Counts(b)[g := Counts(b)[g] + y], g, l), b, y)
  {
    hide Count, MinLen, MaxLen, Kraft, Filled, Pow2;
    var c, g := Counts(b), MaxLen(b);
    var sh := Shape(c[g := c[g] + y], g, l);
    SomeLengths(b);
    FilledScale(c, g, g);
    Pow2Add(g, BMAX - g);
    CompletesFilled(Filled(c, g, g), y, Pow2(g), Pow2(BMAX - g));
    Pow2Step(0);
    FilledBump(c, g, g, y, g);
    SomeFilled(sh.c, g, MinLen(b), l);
  }

  lemma SomeLengths(b: seq<nat>)
    requires ValidLengths(b) && !AllZero(b)
    ensures 1 <= MinLen(b) <= MaxLen(b) <= BMAX
    ensures Counts(b)[MinLen(b)] > 0 && Counts(b)[MaxLen(b)] > 0
    ensures forall k :: 1 <= k < MinLen(b) ==> Counts(b)[k] == 0
    ensures forall k :: MaxLen(b) < k <= BMAX ==> Counts(b)[k] == 0
  {
    forall k | 0 <= k <= BMAX ensures Count(b, k) == 0 <==> k !in b { CountNone(b, k); }
  }

  lemma CompletesFilled(f: nat, y: nat, n: nat, p: nat)
    requires p > 0 && y * p == n * p - f * p
    ensures f + y == n
  {
    assert (f + y) * p == f * p + y * p;
    if f + y < n { ScaledRange(f + y, n, p); }
    if f + y > n { ScaledRange(n, f + y, p); }
  }

  lemma SomeFilled(c: seq<nat>, g: nat, k: nat, l: nat)
    requires 1 <= k <= l <= g < |c| && c[k] > 0
    ensures Filled(c, g, l) > 0
  {
    MulMono(1, c[k], Pow2(g - k));
    FilledMono(c, g, k, l);
  }

  lemma SoundFits(sh: Shape, b: seq<nat>, y: nat)
    requires Completes(sh, b, y) && Sound(b, sh.l)
    requires y == 0 || Kraft(b) != Pow2(BMAX)
    ensures Fits(sh)
  {
    hide Filled, Kraft, MaxLen, Count;
    if sh.g > 2 * sh.l {
      OffsetBump(Counts(b), sh.g, y, sh.g + 1);
      OffsetMono(Counts(b), sh.g + 1, BMAX + 1);
      OffsetTotal(b);
    }
  }

  lemma KraftFree(b: seq<nat>, y: int)
    requires ValidLengths(b) && !AllZero(b)
    ensures Filled(Counts(b), BMAX, MaxLen(b)) == Kraft(b)
    ensures Free(Counts(b), MaxLen(b), y) ==> (y == 0 <==> Kraft(b) == Pow2(BMAX))
  {
    hide Count, MaxLen, MinLen;
    SomeLengths(b);
    KraftByLength(b);
    FilledEmptyTop(Counts(b), MaxLen(b), BMAX);
    if Free(Counts(b), MaxLen(b), y) { FreeSign(Counts(b), MaxLen(b), y); }
  }

  /** Given a list of code lengths and a maximum table width `m`, makes tables that decode the canonical code of
      those lengths.  Returns 0 for a complete set (or a single code of one bit), 1 for an incomplete set, 2 for
      too many codes. */
  method Build(b: seq<nat>, lists: Lists, m: nat) returns (r: nat, tables: seq<Table>, l: nat)
    requires 1 <= |b| <= N_MAX && ValidLengths(b)
    ensures AllZero(b) ==> r == 0 && tables == [] && l == 0 && Decodes(b, lists, tables, l)
    ensures !AllZero(b) ==> (r == 2 <==> Kraft(b) > Pow2(BMAX))
    ensures !AllZero(b) ==> (r == 1 <==> Kraft(b) < Pow2(BMAX) && MaxLen(b) != 1)
    ensures r <= 2
    ensures !AllZero(b) && r < 2 ==> l == Width(b, m)
    ensures !AllZero(b) && r < 2 && Sound(b, l) ==> Decodes(b, lists, tables, l)
  {
    hide Kraft, Filled, Count, Decodes, Free, Completes, Complete, Sorted, Shape.Valid, Fits, Sound, MinLen, MaxLen,
         Pow2, Offset;
    var counts := CountLengths(b);
    var c := counts[..];
    assert c == Counts(b);
    ZeroCount(b);
    if c[0] == |b| {
      NoTables(b, lists);
      return 0, [], 0;
    }
    SomeLengths(b);
    l := m;
    var j := 1;
    while j <= BMAX && c[j] == 0
      invariant 1 <= j <= MinLen(b)
    {
      j := j + 1;
    }
    var k := j;
    if l < j {
      l := j;
    }
    var g := BMAX;
    while g > 0 && c[g] == 0
      invariant MaxLen(b) <= g <= BMAX
    {
      g := g - 1;
    }
    if l > g {
      l := g;
    }
    assert k == MinLen(b) && g == MaxLen(b) && l == Width(b, m);
    var y := MissingCodes(c, k, g);
    KraftFree(b, y);
    if y < 0 {
      return 2, [], l;
    }
    ShapeValid(b, l, y);
    c := c[g := c[g] + y];
    var v := SortValues(b, c, g);
    var sh, vals := Shape(c, g, l), Values(v[..], |b|, lists);
    ghost var info;
    ReadyToBuild(sh, b, y);
    tables, info := BuildTables(sh, vals, k);
    if Sound(b, l) {
      SoundFits(sh, b, y);
      TablesDecode(sh, b, y, vals, info, tables);
    }
    r := if y != 0 && g != 1 then 1 else 0;
  }

  /** Without any code there is nothing to decode. */
  lemma NoTables(b: seq<nat>, lists: Lists)
    requires b != [] && AllZero(b)
    ensures Decodes(b, lists, [], 0)
  {
    hide Msb, Canon;
    assert b[0] == 0;
  }

  lemma ZeroCount(b: seq<nat>)
    ensures Counts(b)[0] == |b| <==> AllZero(b)
  {
    CountAll(b);
  }

  lemma {:induction false} CountAll(b: seq<nat>)
    ensures Count(b, 0) == |b| <==> AllZero(b)
  {
    if b != [] { CountAll(b[..|b| - 1]); }
  }

  lemma ReadyToBuild(sh: Shape, b: seq<nat>, y: nat)
    requires Completes(sh, b, y) && !AllZero(b) && MinLen(b) <= sh.l
    ensures sh.Valid() && |sh.c| == BMAX + 1 && MinLen(b) <= BMAX && sh.g <= BMAX
    ensures 1 <= MinLen(b) <= sh.g && sh.c[MinLen(b)] > 0
    ensures Filled(sh.c, sh.g, MinLen(b) - 1) == 0 && Offset(sh.c, MinLen(b)) == 0
  {
    hide Count, MinLen, MaxLen, Kraft;
    SomeLengths(b);
    NoCodes(sh.c, MinLen(b));
    NothingFilled(sh.c, sh.g, MinLen(b) - 1);
  }
}
