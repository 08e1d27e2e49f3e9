/** An encoder for compressed data: literals and matches in the canonical codes of two code sets.  What it writes decodes to
    what it was given, and nothing else decodes. */
module TokenEncode {
  import opened Bits
  import opened Octets
  import opened BitStream
  import opened HuffmanCode
  import opened HuftBuild
  import opened InflateSpec
  import opened InflateFacts
  import opened BitWrite

  // ---------- Codes ----------

  /** A code set that is not oversubscribed. */
  ghost predicate Codable(b: seq<nat>) { ValidLengths(b) && Kraft(b) <= Pow2(BMAX) }

  predicate HasCode(b: seq<nat>, s: nat) { s < |b| && 0 < b[s] <= BMAX }

  function CodeBits(b: seq<nat>, s: nat): (r: seq<bit>)
    requires HasCode(b, s)
    ensures |r| == b[s]
  {
    HighFirst(Canon(b, s), b[s])
  }

  /** Canonical codes fit in their lengths. */
  lemma CanonBound(b: seq<nat>, s: nat)
    requires Codable(b) && HasCode(b, s)
    ensures Canon(b, s) < Pow2(b[s])
  {
    hide Count, Filled, LenAt, IndexAt, Kraft, MaxLen, Pow2, NextCode, Offset;
    assert b[s] > 0;
    var sh, y := ShapeOf(b);
    var k, cd := b[s], Canon(b, s);
    MaxLenBounds(b, s);
    NextCodeBump(Counts(b), sh.g, y, k);
    RankBelow(b, s, |b|);
    var p := Pow2(sh.g - k);
    assert cd * p < (cd + 1) * p by { assert (cd + 1) * p == cd * p + p; }
    OneCode(sh, k, cd, cd * p);
    Pow2Add(k, sh.g - k);
    if cd >= Pow2(k) { MulMono(Pow2(k), cd, p); }
  }

  /** A symbol is decoded exactly where its code stands. */
  lemma DecodeAt(b: seq<nat>, s: nat, data: seq<byte>, pos: nat)
    requires Codable(b) && HasCode(b, s) && data != []
    ensures Decode(b, data, pos) == Sym(s) <==> At(data, pos, CodeBits(b, s))
  {
    hide At, Kraft, Canon, Msb, HighFirst, Pow2, Codable;
    assert ValidLengths(b) && Kraft(b) <= Pow2(BMAX) by { CodableIs(b); }
    CanonBound(b, s);
    MsbAt(data, pos, Canon(b, s), b[s]);
    if At(data, pos, CodeBits(b, s)) {
      assert CodeIsAt(b, s, data, pos);
      Unambiguous(b, data, pos, Decode(b, data, pos).sym, s);
    }
  }

  lemma CodableIs(b: seq<nat>)
    requires Codable(b)
    ensures ValidLengths(b) && Kraft(b) <= Pow2(BMAX)
  {
  }

  lemma DecodedHasCode(b: seq<nat>, data: seq<byte>, pos: nat)
    requires data != [] && Decode(b, data, pos).Sym?
    ensures HasCode(b, Decode(b, data, pos).sym)
  {
  }

  // ---------- Tokens ----------

  /** Code lengths for literals, lengths and the end of block, and for distances. */
  datatype CodePair = CodePair(lit: seq<nat>, dist: seq<nat>) {
    ghost predicate Valid() { Codable(lit) && Codable(dist) && HasCode(lit, 256) }
  }

  /** A literal, or a match by its length symbol `257 + i`, distance symbol `t` and their extra bits. */
  datatype Token = Literal(b: byte) | Copy(i: nat, e: nat, t: nat, x: nat)

  predicate InRange(k: Token) {
    k.Copy? ==> k.i < 29 && k.e < Pow2(LenExtra(k.i)) && k.t < 30 && k.x < Pow2(DistExtra(k.t))
  }

  predicate TokenOk(c: CodePair, k: Token) {
    && InRange(k)
    && match k
       case Literal(b) => HasCode(c.lit, b as nat)
       case Copy(i, e, t, x) => HasCode(c.lit, 257 + i) && HasCode(c.dist, t)
  }

  function TokenBits(c: CodePair, k: Token): seq<bit>
    requires TokenOk(c, k)
  {
    match k
    case Literal(b) => CodeBits(c.lit, b as nat)
    case Copy(i, e, t, x) => CodeBits(c.lit, 257 + i) + CopyBits(c, k)
  }

  function CopyBits(c: CodePair, k: Token): seq<bit>
    requires TokenOk(c, k) && k.Copy?
  {
    LowFirst(k.e, LenExtra(k.i)) + CodeBits(c.dist, k.t) + LowFirst(k.x, DistExtra(k.t))
  }

  /** What a token adds to the history. */
  function Extended(h: seq<byte>, k: Token): (r: seq<byte>)
    requires |h| >= WSIZE && InRange(k)
    ensures h <= r
  {
    match k
    case Literal(b) => h + [b]
    case Copy(i, e, t, x) =>
      DistanceTable(t);
      CopyOut(h, LenBase(i) + e, DistBase(t) + x)
  }

  ghost predicate TokensOk(c: CodePair, ks: seq<Token>) {
    forall j :: 0 <= j < |ks| ==> TokenOk(c, ks[j])
  }

  /** The tokens and the end of block. */
  function DataBits(c: CodePair, ks: seq<Token>): seq<bit>
    requires TokensOk(c, ks) && HasCode(c.lit, 256)
  {
    if ks == [] then CodeBits(c.lit, 256) else TokenBits(c, ks[0]) + DataBits(c, ks[1..])
  }

  ghost predicate AllInRange(ks: seq<Token>) {
    forall j :: 0 <= j < |ks| ==> InRange(ks[j])
  }

  function Meaning(h: seq<byte>, ks: seq<Token>): (r: seq<byte>)
    requires |h| >= WSIZE && AllInRange(ks)
    ensures h <= r
    decreases |ks|
  {
    if ks == [] then h else Meaning(Extended(h, ks[0]), ks[1..])
  }

  lemma TokensInRange(c: CodePair, ks: seq<Token>)
    requires TokensOk(c, ks)
    ensures AllInRange(ks)
  {
    hide InRange;
  }

  // ---------- Decoding what was written ----------

  /** A match is decoded where its bits stand. */
  lemma MatchAt(c: CodePair, data: seq<byte>, pos: nat, k: Token, h: seq<byte>)
    requires data != [] && |h| >= WSIZE && c.Valid() && TokenOk(c, k) && k.Copy? && At(data, pos, CopyBits(c, k))
    ensures Match(c.dist, data, pos, 257 + k.i, h) == Ok(pos + |CopyBits(c, k)|, Extended(h, k))
  {
    hide At, Lsb, Decode, CodeBits, LowFirst, Pow2, LenExtra, DistExtra, LenBase, DistBase, CopyOut, Codable;
    var a, b, d := LowFirst(k.e, LenExtra(k.i)), CodeBits(c.dist, k.t), LowFirst(k.x, DistExtra(k.t));
    AtConcat(data, pos, a + b, d);
    AtConcat(data, pos, a, b);
    LsbAt(data, pos, k.e, LenExtra(k.i));
    DecodeAt(c.dist, k.t, data, pos + LenExtra(k.i));
    LsbAt(data, pos + LenExtra(k.i) + c.dist[k.t], k.x, DistExtra(k.t));
  }

  /** One step of decoding. */
  lemma CodesStep(lit: seq<nat>, dist: seq<nat>, data: seq<byte>, pos: nat, h: seq<byte>, fuel: nat, s: nat)
    requires data != [] && |h| >= WSIZE && fuel > 0 && Decode(lit, data, pos) == Sym(s)
    ensures s < |lit|
    ensures Codes(lit, dist, data, pos, h, fuel) ==
            if s < 256 then Codes(lit, dist, data, pos + lit[s], h + [s as byte], fuel - 1)
            else if s == 256 then Ok(pos + lit[s], h)
            else
              var m := Match(dist, data, pos + lit[s], s, h);
              if m.Ok? then Codes(lit, dist, data, m.pos, m.out, fuel - 1) else m
  {
    hide Match;
    SymInRange(lit, data, pos);
  }

  lemma EndDecodes(c: CodePair, data: seq<byte>, pos: nat, h: seq<byte>, fuel: nat)
    requires data != [] && |h| >= WSIZE && c.Valid() && At(data, pos, CodeBits(c.lit, 256)) && fuel > 0
    ensures Codes(c.lit, c.dist, data, pos, h, fuel) == Ok(pos + c.lit[256], h)
  {
    hide At, Decode, Match, CodeBits, Codes, Codable;
    DecodeAt(c.lit, 256, data, pos);
    CodesStep(c.lit, c.dist, data, pos, h, fuel, 256);
  }

  lemma LiteralDecodes(c: CodePair, data: seq<byte>, pos: nat, b: byte, h: seq<byte>, fuel: nat)
    requires data != [] && |h| >= WSIZE && c.Valid() && HasCode(c.lit, b as nat) && fuel > 0
    requires At(data, pos, CodeBits(c.lit, b as nat))
    ensures Codes(c.lit, c.dist, data, pos, h, fuel) ==
            Codes(c.lit, c.dist, data, pos + c.lit[b as nat], h + [b], fuel - 1)
  {
    hide At, Decode, Match, CodeBits, Codes, Codable;
    DecodeAt(c.lit, b as nat, data, pos);
    CodesStep(c.lit, c.dist, data, pos, h, fuel, b as nat);
  }

  lemma CopyDecodes(c: CodePair, data: seq<byte>, pos: nat, k: Token, h: seq<byte>, fuel: nat)
    requires data != [] && |h| >= WSIZE && c.Valid() && TokenOk(c, k) && k.Copy? && fuel > 0
    requires At(data, pos, TokenBits(c, k))
    ensures Codes(c.lit, c.dist, data, pos, h, fuel) ==
            Codes(c.lit, c.dist, data, pos + |TokenBits(c, k)|, Extended(h, k), fuel - 1)
  {
    hide At, Decode, Match, CodeBits, Codes, Codable, CopyBits, Extended, InRange;
    var s := 257 + k.i;
    AtConcat(data, pos, CodeBits(c.lit, s), CopyBits(c, k));
    DecodeAt(c.lit, s, data, pos);
    CodesStep(c.lit, c.dist, data, pos, h, fuel, s);
    MatchAt(c, data, pos + c.lit[s], k, h);
  }

  lemma TokenDecodes(c: CodePair, data: seq<byte>, pos: nat, k: Token, h: seq<byte>, fuel: nat)
    requires data != [] && |h| >= WSIZE && c.Valid() && TokenOk(c, k) && At(data, pos, TokenBits(c, k)) && fuel > 0
    ensures Codes(c.lit, c.dist, data, pos, h, fuel) ==
            Codes(c.lit, c.dist, data, pos + |TokenBits(c, k)|, Extended(h, k), fuel - 1)
  {
    hide At, Codes, CodeBits, CodePair.Valid, LenExtra, DistExtra, Pow2, CopyOut;
    if k.Literal? {
      LiteralDecodes(c, data, pos, k.b, h, fuel);
    } else {
      CopyDecodes(c, data, pos, k, h, fuel);
    }
  }

  /** Tokens with the end of block behind them decode to what they mean. */
  lemma {:induction false} TokensDecode(c: CodePair, data: seq<byte>, pos: nat, ks: seq<Token>, h: seq<byte>, fuel: nat)
    requires data != [] && |h| >= WSIZE && c.Valid() && TokensOk(c, ks) && At(data, pos, DataBits(c, ks)) && fuel > |ks|
    ensures AllInRange(ks) && Codes(c.lit, c.dist, data, pos, h, fuel) == Ok(pos + |DataBits(c, ks)|, Meaning(h, ks))
    decreases |ks|
  {
    hide At, TokenBits, CodeBits, Codes, Extended, Codable, TokenOk, InRange;
    TokensInRange(c, ks);
    if ks == [] {
      EndDecodes(c, data, pos, h, fuel);
    } else {
      assert TokenOk(c, ks[0]) && InRange(ks[0]);
      AtConcat(data, pos, TokenBits(c, ks[0]), DataBits(c, ks[1..]));
      TokenDecodes(c, data, pos, ks[0], h, fuel);
      TokensDecode(c, data, pos + |TokenBits(c, ks[0])|, ks[1..], Extended(h, ks[0]), fuel - 1);
    }
  }

  // ---------- Nothing else decodes ----------

  /** Data that ends well is a sequence of tokens, and its result is what they mean. */
  lemma {:induction false} DecodedTokens(c: CodePair, data: seq<byte>, pos: nat, h: seq<byte>, fuel: nat)
    returns (ks: seq<Token>)
    requires data != [] && |h| >= WSIZE && c.Valid() && Codes(c.lit, c.dist, data, pos, h, fuel).Ok?
    ensures TokensOk(c, ks) && AllInRange(ks) && |ks| < fuel && At(data, pos, DataBits(c, ks))
    ensures Codes(c.lit, c.dist, data, pos, h, fuel) == Ok(pos + |DataBits(c, ks)|, Meaning(h, ks))
    decreases fuel
  {
    hide At, TokenBits, CodeBits, Codes, Extended, Codable, TokenOk, InRange;
    SomeSymbol(c, data, pos, h, fuel);
    var s := Decode(c.lit, data, pos).sym;
    if s == 256 {
      ks := [];
      DecodeAt(c.lit, 256, data, pos);
      EndDecodes(c, data, pos, h, fuel);
    } else {
      var k := DecodedToken(c, data, pos, h, fuel);
      TokenDecodes(c, data, pos, k, h, fuel);
      var rest := DecodedTokens(c, data, pos + |TokenBits(c, k)|, Extended(h, k), fuel - 1);
      ks := [k] + rest;
      assert ks[1..] == rest;
      AtConcat(data, pos, TokenBits(c, k), DataBits(c, rest));
    }
  }

  lemma SomeSymbol(c: CodePair, data: seq<byte>, pos: nat, h: seq<byte>, fuel: nat)
    requires data != [] && |h| >= WSIZE && Codes(c.lit, c.dist, data, pos, h, fuel).Ok?
    ensures fuel > 0 && Decode(c.lit, data, pos).Sym? && HasCode(c.lit, Decode(c.lit, data, pos).sym)
  {
    hide Match, Decode;
    DecodedHasCode(c.lit, data, pos);
  }

  lemma DecodedToken(c: CodePair, data: seq<byte>, pos: nat, h: seq<byte>, fuel: nat) returns (k: Token)
    requires data != [] && |h| >= WSIZE && c.Valid() && Codes(c.lit, c.dist, data, pos, h, fuel).Ok? && fuel > 0
    requires Decode(c.lit, data, pos).Sym? && Decode(c.lit, data, pos).sym != 256
    ensures TokenOk(c, k) && InRange(k) && At(data, pos, TokenBits(c, k))
  {
    hide At, CodeBits, Codes, Decode, Match, CopyBits, Codable, LenExtra, DistExtra, Pow2;
    var s := Decode(c.lit, data, pos).sym;
    DecodedHasCode(c.lit, data, pos);
    DecodeAt(c.lit, s, data, pos);
    CodesStep(c.lit, c.dist, data, pos, h, fuel, s);
    if s < 256 {
      k := Literal(s as byte);
    } else {
      k := DecodedCopy(c, data, pos + c.lit[s], s, h);
      AtConcat(data, pos, CodeBits(c.lit, s), CopyBits(c, k));
    }
  }

  lemma DecodedCopy(c: CodePair, data: seq<byte>, p: nat, s: nat, h: seq<byte>) returns (k: Token)
    requires data != [] && |h| >= WSIZE && c.Valid() && s >= 257 && HasCode(c.lit, s)
    requires Match(c.dist, data, p, s, h).Ok?
    ensures TokenOk(c, k) && k.Copy? && k.i == s - 257 && At(data, p, CopyBits(c, k))
  {
    hide At, CodeBits, Decode, Match, LowFirst, Lsb, Pow2, LenExtra, DistExtra, Codable;
    var i := s - 257;
    MatchParts(c, data, p, s, h);
    var q := p + LenExtra(i);
    var t := Decode(c.dist, data, q).sym;
    DecodedHasCode(c.dist, data, q);
    var u := q + c.dist[t];
    var e, x := Lsb(data, p, LenExtra(i)), Lsb(data, u, DistExtra(t));
    LsbBound(data, p, LenExtra(i));
    LsbBound(data, u, DistExtra(t));
    k := Copy(i, e, t, x);
    LsbAt(data, p, e, LenExtra(i));
    DecodeAt(c.dist, t, data, q);
    LsbAt(data, u, x, DistExtra(t));
    AtConcat(data, p, LowFirst(e, LenExtra(i)), CodeBits(c.dist, t));
    AtConcat(data, p, LowFirst(e, LenExtra(i)) + CodeBits(c.dist, t), LowFirst(x, DistExtra(t)));
  }

  lemma MatchParts(c: CodePair, data: seq<byte>, pos: nat, s: nat, h: seq<byte>)
    requires data != [] && |h| >= WSIZE && s >= 257 && Match(c.dist, data, pos, s, h).Ok?
    ensures s - 257 < 29
    ensures var r := Decode(c.dist, data, pos + LenExtra(s - 257)); r.Sym? && r.sym < 30
  {
    hide Decode, CopyOut, Lsb;
  }

  // ---------- Literals ----------

  /** A byte string as literals. */
  function Literals(w: seq<byte>): (ks: seq<Token>)
    ensures |ks| == |w| && AllInRange(ks) && forall j :: 0 <= j < |w| ==> ks[j] == Literal(w[j])
  {
    if w == [] then [] else [Literal(w[0])] + Literals(w[1..])
  }

  lemma {:induction false} LiteralsMean(h: seq<byte>, w: seq<byte>)
    requires |h| >= WSIZE
    ensures Meaning(h, Literals(w)) == h + w
    decreases |w|
  {
    hide Meaning, InRange, AllInRange;
    if w == [] {
      MeansNothing(h);
      assert h + w == h;
    } else {
      assert Literals(w) == [Literal(w[0])] + Literals(w[1..]);
      LiteralFirst(h, w[0], Literals(w[1..]));
      LiteralsMean(h + [w[0]], w[1..]);
      assert h + [w[0]] + w[1..] == h + w;
    }
  }

  lemma MeansNothing(h: seq<byte>)
    requires |h| >= WSIZE
    ensures Meaning(h, []) == h
  {
  }

  lemma LiteralFirst(h: seq<byte>, b: byte, ks: seq<Token>)
    requires |h| >= WSIZE && AllInRange(ks) && AllInRange([Literal(b)] + ks)
    ensures Meaning(h, [Literal(b)] + ks) == Meaning(h + [b], ks)
  {
    hide InRange, AllInRange;
    assert ([Literal(b)] + ks)[1..] == ks;
  }

  // ---------- Matches by length and distance ----------

  /** `m` as `r * 2^k + e` with the smallest `k` for which `r` is below `2 * q`. */
  function Scaled(m: nat, q: nat): (nat, nat, nat)
    requires q > 0
  {
    if m < 2 * q then (0, m, 0)
    else
      var (k, r, e) := Scaled(m / 2, q);
      (k + 1, r, 2 * e + m % 2)
  }

  lemma {:induction false} ScaledIs(m: nat, q: nat)
    requires q > 0
    ensures var (k, r, e) := Scaled(m, q);
            m == r * Pow2(k) + e && e < Pow2(k) && r < 2 * q && (k > 0 ==> r >= q)
  {
    if m >= 2 * q {
      ScaledIs(m / 2, q);
      var (k, r, e) := Scaled(m / 2, q);
      DoubleProduct(r, Pow2(k));
    }
  }

  lemma {:induction false} ScaledBound(m: nat, q: nat, j: nat)
    requires q > 0 && m < 2 * q * Pow2(j)
    ensures Scaled(m, q).0 <= j
    decreases j
  {
    if m >= 2 * q {
      assert j > 0;
      assert 2 * q * Pow2(j) == 2 * (2 * q * Pow2(j - 1));
      ScaledBound(m / 2, q, j - 1);
    }
  }

  /** The token of a match: 258 has a code of its own. */
  function MatchToken(len: nat, dist: nat): (t: Token)
    requires 3 <= len <= 258 && 1 <= dist <= WSIZE
    ensures t.Copy?
  {
    var (k, r, e) := Scaled(len - 3, 4);
    var (j, s, x) := Scaled(dist - 1, 2);
    if len == 258 then Copy(28, 0, 2 * j + s, x) else Copy(4 * k + r, e, 2 * j + s, x)
  }

  /** Every match has a token. */
  lemma MatchTokenOk(len: nat, dist: nat, h: seq<byte>)
    requires 3 <= len <= 258 && 1 <= dist <= WSIZE && |h| >= WSIZE
    ensures InRange(MatchToken(len, dist)) && Extended(h, MatchToken(len, dist)) == CopyOut(h, len, dist)
  {
    hide CopyOut, Pow2, LenBase, DistBase, LenExtra, DistExtra, MatchToken;
    LengthParts(len, dist);
    DistanceParts(len, dist);
  }

  lemma DistanceParts(len: nat, dist: nat)
    requires 3 <= len <= 258 && 1 <= dist <= WSIZE
    ensures var t := MatchToken(len, dist);
            t.t < 30 && t.x < Pow2(DistExtra(t.t)) && DistBase(t.t) + t.x == dist
  {
    hide Pow2, DistBase, DistExtra, Scaled;
    var (j, s, x) := Scaled(dist - 1, 2);
    SmallPowers();
    ScaledIs(dist - 1, 2);
    ScaledBound(dist - 1, 2, 13);
    DistanceExtraForm(2 * j + s);
    DistanceForm(2 * j + s);
  }

  lemma LengthParts(len: nat, dist: nat)
    requires 3 <= len <= 258 && 1 <= dist <= WSIZE
    ensures var t := MatchToken(len, dist);
            t.i < 29 && t.e < Pow2(LenExtra(t.i)) && LenBase(t.i) + t.e == len
  {
    hide Pow2, LenBase, LenExtra, Scaled;
    var (k, r, e) := Scaled(len - 3, 4);
    SmallPowers();
    LengthTable(27);
    if len < 258 {
      ScaledIs(len - 3, 4);
      ScaledBound(len - 3, 4, 5);
      LengthExtraForm(4 * k + r);
      LengthForm(4 * k + r);
    } else {
      LastLength();
    }
  }

  lemma LastLength()
    ensures LenExtra(28) == 0 && Pow2(0) == 1
  {
  }
}
