/** What a DEFLATE stream means, after sections 3.2.3 to 3.2.7 of RFC 1951: positions are bit positions of the
    input, and `out` is the whole history, that is, the window the decoder started with followed by everything
    produced so far. */
module InflateSpec {
  import opened Bits
  import opened Octets
  import opened BitStream
  import opened HuffmanCode
  import opened HuftBuild

  const WSIZE: nat := 32768

  // ---------- Tables ----------

  const CplExtra: seq<nat> := [
    0, 0, 0, 0, 0, 0, 0, 0, 1, 1, 1, 1, 2, 2, 2, 2,
    3, 3, 3, 3, 4, 4, 4, 4, 5, 5, 5, 5, 0, 99, 99]
  const CplBase: seq<nat> := [
    3, 4, 5, 6, 7, 8, 9, 10, 11, 13, 15, 17, 19, 23, 27, 31,
    35, 43, 51, 59, 67, 83, 99, 115, 131, 163, 195, 227, 258, 0, 0]
  const CpdBase: seq<nat> := [
    1, 2, 3, 4, 5, 7, 9, 13, 17, 25, 33, 49, 65, 97, 129, 193,
    257, 385, 513, 769, 1025, 1537, 2049, 3073, 4097, 6145,
    8193, 12289, 16385, 24577]
  const CpdExtra: seq<nat> := [
    0, 0, 0, 0, 1, 1, 2, 2, 3, 3, 4, 4, 5, 5, 6, 6,
    7, 7, 8, 8, 9, 9, 10, 10, 11, 11, 12, 12, 13, 13]
  const Border: seq<nat> := [16, 17, 18, 0, 8, 7, 9, 6, 10, 5, 11, 4, 12, 3, 13, 2, 14, 1, 15]

  /** Base length and extra bits of length symbol `257 + i`. */
  function LenBase(i: nat): nat { if i < |CplBase| then CplBase[i] else 0 }

  function LenExtra(i: nat): nat { if i < |CplExtra| then CplExtra[i] else 0 }

  /** Base distance and extra bits of distance symbol `t`. */
  function DistBase(t: nat): nat { if t < |CpdBase| then CpdBase[t] else 0 }

  function DistExtra(t: nat): nat { if t < |CpdExtra| then CpdExtra[t] else 0 }

  // ---------- Results ----------

  /** The outcome of decoding: the position and history reached; an error code; `Undef` where the decoder reads
      tables that were never filled; `More` when the allowance of steps is used up. */
  datatype Outcome = Ok(pos: nat, out: seq<byte>) | Fail(code: nat) | Undef | More

  datatype Symbol = Sym(sym: nat) | Invalid | Garbage

  /** The symbol whose code stands at `pos`.  A missing code is reported, unless some symbols have no code: then
      the decoder's table entry for it is left over memory. */
  ghost function Decode(b: seq<nat>, data: seq<byte>, pos: nat): (r: Symbol)
    requires data != []
    ensures r.Sym? ==> CodeIsAt(b, r.sym, data, pos)
  {
    if exists sym: nat :: CodeIsAt(b, sym, data, pos) then
      var sym: nat :| CodeIsAt(b, sym, data, pos);
      Sym(sym)
    else if 0 in b then Garbage
    else Invalid
  }

  // ---------- The history ----------

  /** `n` bytes copied one at a time from `dist` bytes back. */
  function CopyOut(h: seq<byte>, n: nat, dist: nat): (r: seq<byte>)
    requires 1 <= dist <= |h|
    ensures |r| == |h| + n && h <= r
    decreases n
  {
    if n == 0 then h else CopyOut(h + [h[|h| - dist]], n - 1, dist)
  }

  // ---------- Compressed data ----------

  /** A match: length symbol `s`, already decoded, extra length bits, distance code, extra distance bits. */
  ghost function Match(dist: seq<nat>, data: seq<byte>, pos: nat, s: nat, out: seq<byte>): (r: Outcome)
    requires data != [] && |out| >= WSIZE && s >= 257
    ensures r.Ok? ==> out <= r.out && |out| + 3 <= |r.out| <= |out| + 258
  {
    if s - 257 >= 29 then Fail(1)
    else
      LengthRange(data, pos, s - 257);
      var n := LenBase(s - 257) + Lsb(data, pos, LenExtra(s - 257));
      MatchFrom(dist, data, pos + LenExtra(s - 257), n, out)
  }

  ghost function MatchFrom(dist: seq<nat>, data: seq<byte>, pos: nat, n: nat, out: seq<byte>): (r: Outcome)
    requires data != [] && |out| >= WSIZE
    ensures r.Ok? ==> out <= r.out && |r.out| == |out| + n
  {
    match Decode(dist, data, pos)
    case Garbage => Undef
    case Invalid => Fail(1)
    case Sym(t) =>
      if t >= 30 then Undef
      else
        var p := pos + dist[t];
        DistanceRange(data, p, t);
        Ok(p + DistExtra(t), CopyOut(out, n, DistBase(t) + Lsb(data, p, DistExtra(t))))
  }

  /** Literals and matches up to the end-of-block code, at most `fuel` of them. */
  ghost function Codes(lit: seq<nat>, dist: seq<nat>, data: seq<byte>, pos: nat, out: seq<byte>, fuel: nat): (r: Outcome)
    requires data != [] && |out| >= WSIZE
    ensures r.Ok? ==> |r.out| >= WSIZE
    decreases fuel
  {
    if fuel == 0 then More
    else
      match Decode(lit, data, pos)
      case Garbage => Undef
      case Invalid => Fail(1)
      case Sym(s) =>
        if s < 256 then Codes(lit, dist, data, pos + lit[s], out + [s as byte], fuel - 1)
        else if s == 256 then Ok(pos + lit[s], out)
        else
          var m := Match(dist, data, pos + lit[s], s, out);
          if m.Ok? then Codes(lit, dist, data, m.pos, m.out, fuel - 1) else m
  }

  /** Distances reach back at most one window. */
  lemma DistanceRange(data: seq<byte>, pos: nat, t: nat)
    requires data != [] && t < 30
    ensures 1 <= DistBase(t) + Lsb(data, pos, DistExtra(t)) <= WSIZE
  {
    hide Lsb;
    LsbBound(data, pos, DistExtra(t));
    DistanceTable(t);
  }

  /** The distance codes tile 1..32768 without gap or overlap. */
  lemma DistanceTable(t: nat)
    requires t < 30
    ensures DistBase(0) == 1 && DistExtra(t) <= 13
    ensures DistBase(t) + Pow2(DistExtra(t)) == if t == 29 then WSIZE + 1 else DistBase(t + 1)
    ensures 1 <= DistBase(t) && DistBase(t) + Pow2(DistExtra(t)) <= WSIZE + 1
  {
    SmallPowers();
  }

  lemma SmallPowers()
    ensures Pow2(0) == 1 && Pow2(1) == 2 && Pow2(2) == 4 && Pow2(3) == 8 && Pow2(4) == 16 && Pow2(5) == 32
    ensures Pow2(6) == 64 && Pow2(7) == 128 && Pow2(8) == 256 && Pow2(9) == 512 && Pow2(10) == 1024
    ensures Pow2(11) == 2048 && Pow2(12) == 4096 && Pow2(13) == 8192
    ensures Pow2(14) == 16384 && Pow2(15) == 32768 && Pow2(16) == 65536
  {
  }

  /** The length codes tile 3..258; the last value has a code of its own. */
  lemma LengthTable(i: nat)
    requires i < 28
    ensures LenBase(0) == 3 && LenBase(28) == 258 && LenExtra(i) <= 5
    ensures LenBase(i) + Pow2(LenExtra(i)) == if i == 27 then LenBase(28) + 1 else LenBase(i + 1)
  {
    SmallPowers();
  }

  /** How many extra bits: none for the first eight length codes, then one more after every four. */
  lemma LengthExtraForm(i: nat)
    requires i < 28
    ensures LenExtra(i) == if i < 8 then 0 else i / 4 - 1
  {
  }

  /** The length codes in closed form: `3 + r * 2^k` with `k` extra bits, `r` below eight. */
  lemma {:induction false} LengthForm(i: nat)
    requires i < 28
    ensures var k := LenExtra(i);
            0 <= i - 4 * k < 8 && LenBase(i) == 3 + (i - 4 * k) * Pow2(k)
  {
    hide LenBase, LenExtra, Pow2;
    LengthExtraForm(i);
    LengthTable(i);
    if i > 0 {
      LengthForm(i - 1);
      LengthExtraForm(i - 1);
      LengthTable(i - 1);
      Pow2Step(LenExtra(i));
      NextBase(i - 1 - 4 * LenExtra(i - 1), Pow2(LenExtra(i - 1)));
    }
  }

  lemma NextBase(r: nat, p: nat)
    ensures r * p + p == (r + 1) * p && (r % 2 == 1 ==> (r + 1) * p == (r + 1) / 2 * (2 * p))
  {
    if r % 2 == 1 {
      var h := (r + 1) / 2;
      assert r + 1 == 2 * h;
      assert (2 * h) * p == h * (2 * p);
    }
  }

  /** The same for distances: none for the first four codes, then one more after every two. */
  lemma DistanceExtraForm(t: nat)
    requires t < 30
    ensures DistExtra(t) == if t < 4 then 0 else t / 2 - 1
  {
  }

  /** The distance codes in closed form: `1 + r * 2^k` with `k` extra bits, `r` below four. */
  lemma {:induction false} DistanceForm(t: nat)
    requires t < 30
    ensures var k := DistExtra(t);
            0 <= t - 2 * k < 4 && DistBase(t) == 1 + (t - 2 * k) * Pow2(k)
  {
    hide DistBase, DistExtra, Pow2;
    DistanceExtraForm(t);
    DistanceTable(t);
    if t > 0 {
      DistanceForm(t - 1);
      DistanceExtraForm(t - 1);
      DistanceTable(t - 1);
      Pow2Step(DistExtra(t));
      NextBase(t - 1 - 2 * DistExtra(t - 1), Pow2(DistExtra(t - 1)));
    }
  }

  /** Matches have 3 to 258 bytes. */
  lemma LengthRange(data: seq<byte>, pos: nat, i: nat)
    requires data != [] && i < 29
    ensures 3 <= LenBase(i) + Lsb(data, pos, LenExtra(i)) <= 258
  {
    hide Lsb;
    LsbBound(data, pos, LenExtra(i));
    SmallPowers();
    if i < 28 { LengthTable(i); }
  }

  // ---------- Stored blocks ----------

  function NextByte(pos: nat): nat { (pos + 7) / 8 * 8 }

  function Stored(data: seq<byte>, pos: nat, out: seq<byte>): Outcome
    requires data != []
  {
    var p := NextByte(pos);
    var n := Lsb(data, p, 16);
    if n + Lsb(data, p + 16, 16) != 65535 then Fail(1)
    else Ok(p + 32 + 8 * n, out + Bytes(data, (p + 32) / 8, n))
  }

  function Bytes(data: seq<byte>, i: nat, n: nat): (r: seq<byte>)
    requires data != []
    ensures |r| == n
  {
    if n == 0 then [] else Bytes(data, i, n - 1) + [ByteAt(data, i + n - 1) as byte]
  }

  // ---------- Blocks with Huffman codes ----------

  function Run(len: nat, n: nat): (r: seq<nat>)
    ensures |r| == n
    ensures forall i :: 0 <= i < n ==> r[i] == len
  {
    seq(n, _ => len)
  }

  /** The code lengths of a fixed block. */
  function FixedLit(): seq<nat> { Run(8, 144) + Run(9, 112) + Run(7, 24) + Run(8, 8) }

  function FixedDist(): seq<nat> { Run(5, 30) }

  /** Which code sets the builder accepts: 2 for too many codes, 1 for an incomplete set other than a single code
      of one bit. */
  ghost function Verdict(b: seq<nat>): nat
    requires ValidLengths(b)
  {
    if AllZero(b) then 0
    else if Kraft(b) > Pow2(BMAX) then 2
    else if Kraft(b) < Pow2(BMAX) && MaxLen(b) != 1 then 1
    else 0
  }

  datatype Lens = Lens(pos: nat, lens: seq<nat>) | LensFail(code: nat) | LensUndef

  /** The code lengths of a dynamic block, run-length coded with the code `cl`, until there are `n` of them. */
  ghost function ReadLens(cl: seq<nat>, data: seq<byte>, pos: nat, n: nat, acc: seq<nat>, last: nat): (r: Lens)
    requires data != [] && |acc| <= n && last <= 15 && (forall i :: 0 <= i < |acc| ==> acc[i] <= 15)
    ensures r.Lens? ==> |r.lens| == n && forall i :: 0 <= i < n ==> r.lens[i] <= 15
    decreases n - |acc|
  {
    if |acc| == n then Lens(pos, acc)
    else
      match Decode(cl, data, pos)
      case Garbage => LensUndef
      case Invalid => LensUndef
      case Sym(j) =>
        var p := pos + cl[j];
        if j < 16 then ReadLens(cl, data, p, n, acc + [j], j)
        else
          var extra := if j == 16 then 2 else if j == 17 then 3 else 7;
          var rep := (if j == 18 then 11 else 3) + Lsb(data, p, extra);
          var len := if j == 16 then last else 0;
          if j > 18 then LensUndef
          else if |acc| + rep > n then LensFail(1)
          else ReadLens(cl, data, p + extra, n, acc + Run(len, rep), len)
  }

  /** The `i`-th of the code lengths for the length code: three bits each, in the order `Border`, `nb` of them. */
  function ClLen(data: seq<byte>, pos: nat, nb: nat, sym: nat): nat
    requires data != []
  {
    var j := BorderIndex(sym, 0);
    if j < nb then Lsb(data, pos + 3 * j, 3) else 0
  }

  function BorderAt(i: nat): (sym: nat)
    ensures sym < 19
  {
    if i < |Border| then Border[i] else 0
  }

  /** The order in closed form: the repeat codes and zero, then outwards from eight. */
  lemma BorderForm(j: nat)
    requires j < 19
    ensures BorderAt(j) == if j < 3 then 16 + j else if j == 3 then 0
                           else if j % 2 == 0 then 8 + (j - 4) / 2 else 8 - (j - 3) / 2
  {
  }

  function BorderIndex(sym: nat, from: nat): (j: nat)
    requires from <= |Border|
    ensures from <= j <= |Border|
    ensures j < |Border| ==> Border[j] == sym
    ensures forall i :: from <= i < j ==> Border[i] != sym
    decreases |Border| - from
  {
    if from == |Border| || Border[from] == sym then from else BorderIndex(sym, from + 1)
  }

  function ClLens(data: seq<byte>, pos: nat, nb: nat): (r: seq<nat>)
    requires data != []
    ensures |r| == 19
  {
    seq(19, sym requires 0 <= sym => ClLen(data, pos, nb, sym))
  }

  lemma ClLensBound(data: seq<byte>, pos: nat, nb: nat)
    requires data != []
    ensures forall i :: 0 <= i < 19 ==> ClLens(data, pos, nb)[i] <= 7
  {
    forall i | 0 <= i < 19 ensures ClLens(data, pos, nb)[i] <= 7 {
      LsbBound(data, pos + 3 * BorderIndex(i, 0), 3);
      SmallPowers();
    }
  }

  /** The compressed data of a dynamic block, once its code lengths are known. */
  ghost function WithCodes(lit: seq<nat>, dist: seq<nat>, data: seq<byte>, pos: nat, out: seq<byte>, fuel: nat)
    : (r: Outcome)
    requires data != [] && |out| >= WSIZE && ValidLengths(lit) && ValidLengths(dist)
    ensures r.Ok? ==> |r.out| >= WSIZE
  {
    if Verdict(lit) != 0 then Fail(Verdict(lit))
    else if Verdict(dist) != 0 then Fail(Verdict(dist))
    else Codes(lit, dist, data, pos, out, fuel)
  }

  lemma ClLensValid(data: seq<byte>, pos: nat, nb: nat)
    requires data != []
    ensures ValidLengths(ClLens(data, pos, nb))
  {
    ClLensBound(data, pos, nb);
  }

  lemma SplitValid(lens: seq<nat>, nl: nat)
    requires nl <= |lens| && forall i :: 0 <= i < |lens| ==> lens[i] <= 15
    ensures ValidLengths(lens[..nl]) && ValidLengths(lens[nl..])
  {
  }

  /** A dynamic block after its three counts: `nl` literal/length codes, `nd` distance codes, and `nb` lengths for the
      length code. */
  ghost function DynamicBody(data: seq<byte>, pos: nat, nl: nat, nd: nat, nb: nat, out: seq<byte>, fuel: nat): (r: Outcome)
    requires data != [] && |out| >= WSIZE
    ensures r.Ok? ==> |r.out| >= WSIZE
  {
    var cl := ClLens(data, pos, nb);
    ClLensValid(data, pos, nb);
    if Verdict(cl) != 0 then Fail(Verdict(cl))
    else
      match ReadLens(cl, data, pos + 3 * nb, nl + nd, [], 0)
      case LensFail(code) => Fail(code)
      case LensUndef => Undef
      case Lens(p, lens) =>
        SplitValid(lens, nl);
        WithCodes(lens[..nl], lens[nl..], data, p, out, fuel)
  }

  ghost function Dynamic(data: seq<byte>, pos: nat, out: seq<byte>, fuel: nat): (r: Outcome)
    requires data != [] && |out| >= WSIZE
    ensures r.Ok? ==> |r.out| >= WSIZE
  {
    var nl := 257 + Lsb(data, pos, 5);
    var nd := 1 + Lsb(data, pos + 5, 5);
    var nb := 4 + Lsb(data, pos + 10, 4);
    if nl > 286 || nd > 30 then Fail(1) else DynamicBody(data, pos + 14, nl, nd, nb, out, fuel)
  }

  /** One block: last-block bit, two type bits, contents. */
  ghost function Block(data: seq<byte>, pos: nat, out: seq<byte>, fuel: nat): (r: Outcome)
    requires data != [] && |out| >= WSIZE
    ensures r.Ok? ==> |r.out| >= WSIZE
  {
    match Lsb(data, pos + 1, 2)
    case 0 => Stored(data, pos + 3, out)
    case 1 => Codes(FixedLit(), FixedDist(), data, pos + 3, out, fuel)
    case 2 => Dynamic(data, pos + 3, out, fuel)
    case _ => Fail(2)
  }

  /** Blocks up to the last one: at most `blocks` of them, each of at most `fuel` symbols. */
  ghost function Blocks(data: seq<byte>, pos: nat, out: seq<byte>, blocks: nat, fuel: nat): (r: Outcome)
    requires data != [] && |out| >= WSIZE
    ensures r.Ok? ==> |r.out| >= WSIZE
    decreases blocks
  {
    if blocks == 0 then More
    else
      var r := Block(data, pos, out, fuel);
      if r.Ok? && Lsb(data, pos, 1) == 0 then Blocks(data, r.pos, r.out, blocks - 1, fuel) else r
  }
}
