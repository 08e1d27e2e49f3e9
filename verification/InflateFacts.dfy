/** What the specification itself guarantees: codes are unambiguous, complete sets decode everything, and the step
    allowance does not matter once it suffices.  And what the tables hold where no code is defined. */
module InflateFacts {
  import opened Bits
  import opened Octets
  import opened BitStream
  import opened HuffmanCode
  import opened HuftTables
  import opened HuftLoop
  import opened HuftWalk
  import opened HuftBuild
  import opened InflateSpec

  /** The completed counts of any code set that is not oversubscribed. */
  lemma ShapeOf(b: seq<nat>) returns (sh: Shape, y: nat)
    requires ValidLengths(b) && !AllZero(b) && Kraft(b) <= Pow2(BMAX)
    ensures Completes(sh, b, y) && (y == 0 <==> Kraft(b) == Pow2(BMAX))
  {
    hide Kraft, Filled, Count, Free, Completes, MinLen, MaxLen, Pow2;
    var c, g := Counts(b), MaxLen(b);
    SomeLengths(b);
    KraftFree(b, 0);
    y := FreeValue(c, g);
    KraftFree(b, y);
    ShapeValid(b, g, y);
    sh := Shape(c[g := c[g] + y], g, g);
  }

  /** Free patterns come in whole numbers. */
  lemma FreeValue(c: seq<nat>, g: nat) returns (y: nat)
    requires |c| == BMAX + 1 && g <= BMAX && Filled(c, BMAX, g) <= Pow2(BMAX)
    ensures Free(c, g, y)
  {
    hide Filled, Pow2;
    FilledScale(c, g, g);
    Pow2Add(g, BMAX - g);
    var p, f, n := Pow2(BMAX - g), Filled(c, g, g), Pow2(g);
    assert f <= n by { if f > n { ScaledRange(n, f, p); } }
    y := n - f;
    assert y * p == n * p - f * p;
  }

  /** At any position of any stream at most one symbol of a code set stands. */
  lemma Unambiguous(b: seq<nat>, data: seq<byte>, pos: nat, sym1: nat, sym2: nat)
    requires ValidLengths(b) && Kraft(b) <= Pow2(BMAX) && data != []
    requires CodeIsAt(b, sym1, data, pos) && CodeIsAt(b, sym2, data, pos)
    ensures sym1 == sym2
  {
    hide Kraft, Msb, Canon, Index, Completes, Shape.Valid, IndexAt, LenAt, Pow2;
    assert b[sym1] > 0;
    var sh, y := ShapeOf(b);
    SymbolPosition(sh, b, y, sym1, data, pos);
    SymbolPosition(sh, b, y, sym2, data, pos);
    if sym1 < sym2 { IndexInjective(b, sym1, sym2); }
    if sym2 < sym1 { IndexInjective(b, sym2, sym1); }
  }

  /** With a complete code set some symbol stands at every position of every stream. */
  lemma AlwaysDecodes(b: seq<nat>, data: seq<byte>, pos: nat)
    requires ValidLengths(b) && Kraft(b) == Pow2(BMAX) && data != []
    ensures Decode(b, data, pos).Sym?
  {
    hide Kraft, Msb, Canon, Shape.Valid, IndexAt, LenAt, Pow2, Filled, Count, MaxLen, MinLen, CodeIsAt;
    NotAllZero(b);
    var sh, y := ShapeOf(b);
    MsbBound(data, pos, sh.g);
    IndexInRange(sh, b, Msb(data, pos, sh.g));
    var sym := PositionSymbol(sh, b, 0, data, pos);
  }

  lemma {:induction false} NotAllZero(b: seq<nat>)
    requires ValidLengths(b) && Kraft(b) > 0
    ensures !AllZero(b)
  {
    if b != [] && b[|b| - 1] == 0 {
      NotAllZero(b[..|b| - 1]);
    }
  }

  /** In a complete set every index belongs to a coded symbol. */
  lemma IndexInRange(sh: Shape, b: seq<nat>, p: nat)
    requires Completes(sh, b, 0) && p < Pow2(sh.g)
    ensures IndexAt(sh, p) < |b| - Count(b, 0)
  {
    hide Kraft, Filled, Count, MaxLen, MinLen;
    CodeAtRange(sh, p);
    OffsetBump(Counts(b), sh.g, 0, sh.g + 1);
    OffsetMono(sh.c, LenAt(sh, p), BMAX + 1);
    OffsetTotal(b);
    assert sh.c == Counts(b);
  }

  /** The table entry of the first missing code of an incomplete set is the one with the index after the coded symbols.
      That is the invalid-code marker exactly when every symbol has a code; otherwise it is the entry of whatever symbol
      number the value list happens to hold there, which the builder never writes. */
  lemma FirstMissingCode(sh: Shape, b: seq<nat>, y: nat, vals: Values, info: seq<Info>, tables: seq<Table>,
                         data: seq<byte>, pos: nat) returns (w: nat)
    requires vals.n == |b| <= |vals.v| && data != [] && y > 0
    requires Completes(sh, b, y) && Complete(sh, vals, info, tables) && Fits(sh)
    requires Msb(data, pos, sh.g) + y == Pow2(sh.g)
    ensures w < sh.g
    ensures Walk(tables, 0, sh.l, data, pos) == Found(vals.Entry(|b| - Count(b, 0), sh.g - w), pos + w)
    ensures |b| - Count(b, 0) >= vals.n <==> 0 !in b
  {
    hide Walk, Msb, Complete, Fits, Lsb, Filled, Count, MaxLen, IndexAt, LenAt, Shape.Valid;
    CountNone(b, 0);
    w := WalkDecodes(sh, vals, info, tables, data, pos);
    MissingIndex(sh, b, y);
  }

  lemma MissingIndex(sh: Shape, b: seq<nat>, y: nat)
    requires Completes(sh, b, y) && y > 0
    ensures y <= Pow2(sh.g) && LenAt(sh, Pow2(sh.g) - y) == sh.g
    ensures IndexAt(sh, Pow2(sh.g) - y) == |b| - Count(b, 0)
  {
    hide Kraft, Count, MaxLen, MinLen, LenAt, IndexAt, CodeAt, Offset, Filled, Pow2, NextCode;
    var g, c := sh.g, Counts(b);
    var cd := NextCode(sh.c, g) + c[g];
    LastCodes(sh);
    OneCode(sh, g, cd, cd);
    OffsetBump(c, g, y, g);
    CodesOfMaxLen(b);
  }

  /** Codes of the longest length own one position each. */
  lemma LastCodes(sh: Shape)
    requires sh.Valid()
    ensures Pow2(sh.g - sh.g) == 1 && NextCode(sh.c, sh.g) + sh.c[sh.g] == Pow2(sh.g)
  {
    NextCodeFilled(sh.c, sh.g, sh.g);
  }

  lemma CodesOfMaxLen(b: seq<nat>)
    requires ValidLengths(b) && 1 <= MaxLen(b) <= BMAX
    ensures Offset(Counts(b), MaxLen(b)) + Counts(b)[MaxLen(b)] == |b| - Count(b, 0)
  {
    hide MaxLen, Count;
    OffsetTotal(b);
    NoLongerCodes(b, MaxLen(b) + 1);
  }

  // ---------- The allowance of steps ----------

  /** More steps do not change a result that was reached. */
  lemma {:induction false} CodesFuel(lit: seq<nat>, dist: seq<nat>, data: seq<byte>, pos: nat, out: seq<byte>,
                                     fuel: nat, more: nat)
    requires data != [] && |out| >= WSIZE && fuel <= more
    requires Codes(lit, dist, data, pos, out, fuel) != More
    ensures Codes(lit, dist, data, pos, out, more) == Codes(lit, dist, data, pos, out, fuel)
    decreases fuel
  {
    hide Decode, Match;
    match Decode(lit, data, pos)
    case Garbage =>
    case Invalid =>
    case Sym(s) =>
      SymInRange(lit, data, pos);
      if s < 256 {
        CodesFuel(lit, dist, data, pos + lit[s], out + [s as byte], fuel - 1, more - 1);
      } else if s > 256 {
        var m := Match(dist, data, pos + lit[s], s, out);
        if m.Ok? { CodesFuel(lit, dist, data, m.pos, m.out, fuel - 1, more - 1); }
      }
  }

  lemma SymInRange(b: seq<nat>, data: seq<byte>, pos: nat)
    requires data != []
    ensures Decode(b, data, pos).Sym? ==> Decode(b, data, pos).sym < |b|
  {
  }

  lemma BlockFuel(data: seq<byte>, pos: nat, out: seq<byte>, fuel: nat, more: nat)
    requires data != [] && |out| >= WSIZE && fuel <= more && Block(data, pos, out, fuel) != More
    ensures Block(data, pos, out, more) == Block(data, pos, out, fuel)
  {
    hide Lsb, Codes, FixedLit, FixedDist, Verdict, ReadLens, ClLens;
    var p := pos + 3;
    if Lsb(data, pos + 1, 2) == 1 {
      CodesFuel(FixedLit(), FixedDist(), data, p, out, fuel, more);
    } else if Lsb(data, pos + 1, 2) == 2 {
      var nl, nd, nb := 257 + Lsb(data, p, 5), 1 + Lsb(data, p + 5, 5), 4 + Lsb(data, p + 10, 4);
      var lens := ReadLens(ClLens(data, p + 14, nb), data, p + 14 + 3 * nb, nl + nd, [], 0);
      if lens.Lens? && Codes(lens.lens[..nl], lens.lens[nl..], data, lens.pos, out, fuel) != More {
        CodesFuel(lens.lens[..nl], lens.lens[nl..], data, lens.pos, out, fuel, more);
      }
    }
  }

  /** The meaning of a stream does not depend on the allowances, once they suffice. */
  lemma {:induction false} BlocksFuel(data: seq<byte>, pos: nat, out: seq<byte>, blocks: nat, fuel: nat,
                                      blocks': nat, fuel': nat)
    requires data != [] && |out| >= WSIZE && blocks <= blocks' && fuel <= fuel'
    requires Blocks(data, pos, out, blocks, fuel) != More
    ensures Blocks(data, pos, out, blocks', fuel') == Blocks(data, pos, out, blocks, fuel)
    decreases blocks
  {
    hide Lsb, Block;
    var r := Block(data, pos, out, fuel);
    BlockFuel(data, pos, out, fuel, fuel');
    if r.Ok? && Lsb(data, pos, 1) == 0 {
      BlocksFuel(data, r.pos, r.out, blocks - 1, fuel, blocks' - 1, fuel');
    }
  }
}
