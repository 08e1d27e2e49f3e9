/** An encoder for whole streams: stored blocks, blocks with the fixed codes, and blocks with codes of their own, which are
    sent run-length coded.  Every stream it writes decodes to what its blocks mean. */
module DeflateEncode {
  import opened Bits
  import opened Octets
  import opened BitStream
  import opened HuffmanCode
  import opened InflateSpec
  import opened InflateFacts
  import opened Inflate
  import opened BitWrite
  import opened FixedEncode
  import opened TokenEncode

  // ---------- Code lengths ----------

  /** An item of the code lengths: one length, the previous one again, or zeros. */
  datatype Item = One(len: nat) | Again(n: nat) | Zeroes(n: nat)

  predicate ItemInRange(it: Item) {
    match it
    case One(len) => len <= 15
    case Again(n) => 3 <= n <= 6
    case Zeroes(n) => 3 <= n <= 138
  }

  function ItemSym(it: Item): nat {
    match it
    case One(len) => len
    case Again(_) => 16
    case Zeroes(n) => if n <= 10 then 17 else 18
  }

  predicate ItemOk(cl: seq<nat>, it: Item) { ItemInRange(it) && |cl| == 19 && HasCode(cl, ItemSym(it)) }

  function ItemBits(cl: seq<nat>, it: Item): seq<bit>
    requires ItemOk(cl, it)
  {
    CodeBits(cl, ItemSym(it)) + ItemExtra(it)
  }

  function ItemExtra(it: Item): seq<bit>
    requires ItemInRange(it)
  {
    match it
    case One(_) => []
    case Again(n) => LowFirst(n - 3, 2)
    case Zeroes(n) => if n <= 10 then LowFirst(n - 3, 3) else LowFirst(n - 11, 7)
  }

  /** The lengths after an item; the last one is the one that is repeated. */
  function Expanded(acc: seq<nat>, last: nat, it: Item): (r: seq<nat>)
    requires ItemInRange(it)
    ensures |r| > |acc|
  {
    match it
    case One(len) => acc + [len]
    case Again(n) => acc + Run(last, n)
    case Zeroes(n) => acc + Run(0, n)
  }

  function LastOf(last: nat, it: Item): nat {
    match it
    case One(len) => len
    case Again(_) => last
    case Zeroes(_) => 0
  }

  ghost predicate ItemsInRange(its: seq<Item>) {
    forall j :: 0 <= j < |its| ==> ItemInRange(its[j])
  }

  function ExpandedAll(acc: seq<nat>, last: nat, its: seq<Item>): (r: seq<nat>)
    requires ItemsInRange(its)
    ensures |r| >= |acc| && (its != [] ==> |r| > |acc|)
    decreases |its|
  {
    if its == [] then acc else ExpandedAll(Expanded(acc, last, its[0]), LastOf(last, its[0]), its[1..])
  }

  ghost predicate ItemsOk(cl: seq<nat>, its: seq<Item>) {
    forall j :: 0 <= j < |its| ==> ItemOk(cl, its[j])
  }

  function ItemsBits(cl: seq<nat>, its: seq<Item>): seq<bit>
    requires ItemsOk(cl, its)
  {
    if its == [] then [] else ItemBits(cl, its[0]) + ItemsBits(cl, its[1..])
  }

  ghost predicate SmallLens(acc: seq<nat>) { forall i :: 0 <= i < |acc| ==> acc[i] <= 15 }

  lemma ExpandedSmall(acc: seq<nat>, last: nat, it: Item)
    requires ItemInRange(it) && SmallLens(acc) && last <= 15
    ensures SmallLens(Expanded(acc, last, it)) && LastOf(last, it) <= 15
  {
  }

  /** An item is read where its bits stand. */
  lemma ItemReads(cl: seq<nat>, data: seq<byte>, pos: nat, n: nat, acc: seq<nat>, last: nat, it: Item)
    requires data != [] && Codable(cl) && ItemOk(cl, it) && At(data, pos, ItemBits(cl, it))
    requires SmallLens(acc) && last <= 15 && |Expanded(acc, last, it)| <= n
    ensures SmallLens(Expanded(acc, last, it)) && LastOf(last, it) <= 15
    ensures ReadLens(cl, data, pos, n, acc, last) ==
            ReadLens(cl, data, pos + |ItemBits(cl, it)|, n, Expanded(acc, last, it), LastOf(last, it))
  {
    hide At, CodeBits, Codable, Decode, Lsb, LowFirst, ReadLens, Run, Pow2;
    ExpandedSmall(acc, last, it);
    var s := ItemSym(it);
    AtConcat(data, pos, CodeBits(cl, s), ItemExtra(it));
    DecodeAt(cl, s, data, pos);
    if it.One? {
      LensOne(cl, data, pos, n, acc, last, s);
    } else {
      SmallPowers();
      LensMore(cl, data, pos, n, acc, last, s);
      if it.Again? {
        LsbAt(data, pos + cl[s], it.n - 3, 2);
      } else if it.n <= 10 {
        LsbAt(data, pos + cl[s], it.n - 3, 3);
      } else {
        LsbAt(data, pos + cl[s], it.n - 11, 7);
      }
    }
  }

  lemma LensOne(cl: seq<nat>, data: seq<byte>, pos: nat, n: nat, acc: seq<nat>, last: nat, j: nat)
    requires data != [] && |acc| < n && SmallLens(acc) && last <= 15 && Decode(cl, data, pos) == Sym(j) && j < 16 <= |cl|
    ensures SmallLens(acc + [j])
    ensures ReadLens(cl, data, pos, n, acc, last) == ReadLens(cl, data, pos + cl[j], n, acc + [j], j)
  {
    hide Lsb, Decode;
  }

  lemma LensMore(cl: seq<nat>, data: seq<byte>, pos: nat, n: nat, acc: seq<nat>, last: nat, j: nat)
    requires data != [] && |acc| < n && SmallLens(acc) && last <= 15 && Decode(cl, data, pos) == Sym(j)
    requires 16 <= j < |cl| == 19
    ensures var p := pos + cl[j];
            var extra := if j == 16 then 2 else if j == 17 then 3 else 7;
            var rep := (if j == 18 then 11 else 3) + Lsb(data, p, extra);
            var len := if j == 16 then last else 0;
            |acc| + rep <= n ==>
              && SmallLens(acc + Run(len, rep))
              && ReadLens(cl, data, pos, n, acc, last) == ReadLens(cl, data, p + extra, n, acc + Run(len, rep), len)
  {
    hide Lsb, Decode;
  }

  /** Items are read as the lengths they expand to. */
  lemma {:induction false} ItemsRead(cl: seq<nat>, data: seq<byte>, pos: nat, n: nat, acc: seq<nat>, last: nat,
                                     its: seq<Item>)
    requires data != [] && Codable(cl) && ItemsOk(cl, its) && ItemsInRange(its) && At(data, pos, ItemsBits(cl, its))
    requires SmallLens(acc) && last <= 15 && |ExpandedAll(acc, last, its)| == n
    ensures ReadLens(cl, data, pos, n, acc, last) ==
            Lens(pos + |ItemsBits(cl, its)|, ExpandedAll(acc, last, its))
    decreases |its|
  {
    hide At, Codable, Decode, ReadLens, ItemBits, Expanded, LastOf, ItemOk, ItemInRange, SmallLens;
    if its == [] {
      LensDone(cl, data, pos, acc, last);
    } else {
      var it := its[0];
      assert ItemOk(cl, it) && ItemInRange(it);
      AtConcat(data, pos, ItemBits(cl, it), ItemsBits(cl, its[1..]));
      ItemReads(cl, data, pos, n, acc, last, it);
      ItemsRead(cl, data, pos + |ItemBits(cl, it)|, n, Expanded(acc, last, it), LastOf(last, it), its[1..]);
    }
  }

  lemma LensDone(cl: seq<nat>, data: seq<byte>, pos: nat, acc: seq<nat>, last: nat)
    requires data != [] && SmallLens(acc) && last <= 15
    ensures ReadLens(cl, data, pos, |acc|, acc, last) == Lens(pos, acc)
  {
  }

  // ---------- The code for the code lengths ----------

  /** The first `nb` lengths of it, in their order of transmission. */
  function ClBits(cl: seq<nat>, nb: nat): (s: seq<bit>)
    requires |cl| == 19
    ensures |s| == 3 * nb
  {
    if nb == 0 then [] else ClBits(cl, nb - 1) + LowFirst(cl[BorderAt(nb - 1)], 3)
  }

  lemma {:induction false} ClAt(cl: seq<nat>, data: seq<byte>, pos: nat, nb: nat, j: nat)
    requires data != [] && |cl| == 19 && (forall s :: 0 <= s < 19 ==> cl[s] <= 7) && At(data, pos, ClBits(cl, nb)) && j < nb
    ensures Lsb(data, pos + 3 * j, 3) == cl[BorderAt(j)]
  {
    hide At, Lsb, BorderAt, LowFirst, Pow2;
    AtConcat(data, pos, ClBits(cl, nb - 1), LowFirst(cl[BorderAt(nb - 1)], 3));
    if j < nb - 1 {
      ClAt(cl, data, pos, nb - 1, j);
    } else {
      SmallPowers();
      LsbAt(data, pos + 3 * j, cl[BorderAt(j)], 3);
    }
  }

  /** Lengths that are not sent are zero. */
  ghost predicate ClOk(cl: seq<nat>, nb: nat) {
    && |cl| == 19 && nb <= 19 && (forall s :: 0 <= s < 19 ==> cl[s] <= 7)
    && (forall j :: nb <= j < 19 ==> cl[BorderAt(j)] == 0)
  }

  lemma ClReads(cl: seq<nat>, data: seq<byte>, pos: nat, nb: nat)
    requires data != [] && ClOk(cl, nb) && At(data, pos, ClBits(cl, nb))
    ensures ClLens(data, pos, nb) == cl
  {
    hide At, Lsb, BorderAt, BorderIndex, ClBits;
    forall s | 0 <= s < 19 ensures ClLens(data, pos, nb)[s] == cl[s] {
      var j := BorderIndex(s, 0);
      BorderFound(s);
      if j < nb { ClAt(cl, data, pos, nb, j); }
    }
  }

  // ---------- Blocks ----------

  /** Bytes as they are; tokens in the fixed codes; or tokens in codes of their own, whose lengths are sent as items in the
      code `cl`, of which `nb` lengths are sent. */
  datatype Piece = StoredPiece(w: seq<byte>)
                 | FixedPiece(ks: seq<Token>)
                 | DynamicPiece(c: CodePair, cl: seq<nat>, nb: nat, its: seq<Item>, ks: seq<Token>)

  function FixedCodes(): CodePair { CodePair(FixedLit(), FixedDist()) }

  /** The counts are in range, all three code sets are ones the decoder accepts, and the items expand to the lengths. */
  ghost predicate HeaderOk(c: CodePair, cl: seq<nat>, nb: nat, its: seq<Item>) {
    && 257 <= |c.lit| <= 286 && 1 <= |c.dist| <= 30 && 4 <= nb && ClOk(cl, nb)
    && Accepted(c.lit) && Accepted(c.dist) && Accepted(cl) && HasCode(c.lit, 256)
    && ItemsOk(cl, its) && ItemsInRange(its) && ExpandedAll([], 0, its) == c.lit + c.dist
  }

  ghost predicate Accepted(b: seq<nat>) { ValidLengths(b) && Verdict(b) == 0 }

  ghost predicate PieceOk(b: Piece) {
    match b
    case StoredPiece(w) => |w| < 0x1_0000
    case FixedPiece(ks) => TokensOk(FixedCodes(), ks)
    case DynamicPiece(c, cl, nb, its, ks) => HeaderOk(c, cl, nb, its) && TokensOk(c, ks)
  }

  /** The bytes of a stored block. */
  function ByteStream(w: seq<byte>): (s: seq<bit>)
    ensures |s| == 8 * |w|
  {
    if w == [] then [] else ByteStream(w[..|w| - 1]) + LowFirst(w[|w| - 1] as nat, 8)
  }

  function ZeroBits(n: nat): (s: seq<bit>)
    ensures |s| == n
  {
    seq(n, i => 0)
  }

  function StoredBits(w: seq<byte>, pos: nat): seq<bit>
    requires |w| < 0x1_0000
  {
    ZeroBits(NextByte(pos) - pos) + StoredTail(w)
  }

  function HeaderBits(c: CodePair, cl: seq<nat>, nb: nat, its: seq<Item>): seq<bit>
    requires |c.lit| >= 257 && |c.dist| >= 1 && nb >= 4 && |cl| == 19 && ItemsOk(cl, its)
  {
    LowFirst(|c.lit| - 257, 5) + LowFirst(|c.dist| - 1, 5) + LowFirst(nb - 4, 4) + ClBits(cl, nb) + ItemsBits(cl, its)
  }

  /** The contents of a block that start at bit `pos`. */
  ghost function BodyBits(b: Piece, pos: nat): seq<bit>
    requires PieceOk(b)
  {
    match b
    case StoredPiece(w) => StoredBits(w, pos)
    case FixedPiece(ks) => FixedHasEnd(); DataBits(FixedCodes(), ks)
    case DynamicPiece(c, cl, nb, its, ks) => HeaderBits(c, cl, nb, its) + DataBits(c, ks)
  }

  function TypeBits(b: Piece): (s: seq<bit>)
    ensures |s| == 2
  {
    match b
    case StoredPiece(_) => [0, 0]
    case FixedPiece(_) => [1, 0]
    case DynamicPiece(_, _, _, _, _) => [0, 1]
  }

  ghost function BlockBits(b: Piece, last: bit, pos: nat): seq<bit>
    requires PieceOk(b)
  {
    [last] + TypeBits(b) + BodyBits(b, pos + 3)
  }

  /** What a block adds to the history. */
  ghost function PieceMeaning(h: seq<byte>, b: Piece): (r: seq<byte>)
    requires |h| >= WSIZE && PieceOk(b)
    ensures h <= r
  {
    match b
    case StoredPiece(w) => h + w
    case FixedPiece(ks) => TokensInRange(FixedCodes(), ks); Meaning(h, ks)
    case DynamicPiece(c, _, _, _, ks) => TokensInRange(c, ks); Meaning(h, ks)
  }

  function Size(b: Piece): nat {
    match b
    case StoredPiece(_) => 0
    case FixedPiece(ks) => |ks| + 1
    case DynamicPiece(_, _, _, _, ks) => |ks| + 1
  }

  // ---------- Stored blocks ----------

  lemma {:induction false} BytesAt(data: seq<byte>, i: nat, w: seq<byte>)
    requires data != [] && At(data, 8 * i, ByteStream(w))
    ensures Bytes(data, i, |w|) == w
    decreases |w|
  {
    hide At, Lsb, LowFirst, ByteAt, Pow2, Bytes;
    BytesStep(data, i, |w|);
    if w != [] {
      var n := |w| - 1;
      var v := w[..n];
      AtConcat(data, 8 * i, ByteStream(v), LowFirst(w[n] as nat, 8));
      BytesAt(data, i, v);
      SmallPowers();
      LsbAt(data, 8 * (i + n), w[n] as nat, 8);
      ByteBits(data, i + n);
      assert w == v + [w[n]];
    }
  }

  /** What follows the padding. */
  function StoredTail(w: seq<byte>): seq<bit>
    requires |w| < 0x1_0000
  {
    LowFirst(|w|, 16) + LowFirst(0xFFFF - |w|, 16) + ByteStream(w)
  }

  lemma StoredDecodes(data: seq<byte>, pos: nat, w: seq<byte>, h: seq<byte>)
    requires data != [] && |w| < 0x1_0000 && At(data, NextByte(pos), StoredTail(w))
    ensures Stored(data, pos, h) == Ok(NextByte(pos) + |StoredTail(w)|, h + w)
  {
    hide At, Lsb, LowFirst, ByteStream, Bytes, Pow2;
    var p := NextByte(pos);
    var b, c := LowFirst(|w|, 16), LowFirst(0xFFFF - |w|, 16);
    AtConcat(data, p, b + c, ByteStream(w));
    AtConcat(data, p, b, c);
    SmallPowers();
    LsbAt(data, p, |w|, 16);
    LsbAt(data, p + 16, 0xFFFF - |w|, 16);
    var i := (p + 32) / 8;
    assert 8 * i == p + 32;
    BytesAt(data, i, w);
  }

  // ---------- Blocks with codes ----------

  lemma FixedHasEnd()
    ensures HasCode(FixedLit(), 256)
  {
    FixedBefore(256);
  }

  lemma FixedValid()
    ensures FixedCodes().Valid()
  {
    hide Kraft, Pow2, MaxLen, FixedLit, FixedDist;
    FixedSets();
    FixedHasEnd();
  }

  /** The canonical codes of the fixed lengths are those of the table. */
  lemma FixedIs(s: nat)
    requires s < 288
    ensures HasCode(FixedLit(), s) && CodeBits(FixedLit(), s) == SymBits(s)
  {
    hide Count, NextCode, Counts, HighFirst, FixedLit;
    FixedBefore(s);
    FixedNext();
  }

  lemma AcceptedCodable(b: seq<nat>)
    requires Accepted(b)
    ensures Codable(b)
  {
    hide Kraft, Pow2, MaxLen;
    if Kraft(b) > 0 { NotAllZero(b); }
  }

  lemma HeaderReads(data: seq<byte>, pos: nat, c: CodePair, cl: seq<nat>, nb: nat, its: seq<Item>, h: seq<byte>, fuel: nat)
    requires data != [] && |h| >= WSIZE && HeaderOk(c, cl, nb, its) && At(data, pos, HeaderBits(c, cl, nb, its))
    ensures ValidLengths(c.lit) && ValidLengths(c.dist)
    ensures Dynamic(data, pos, h, fuel) ==
            Codes(c.lit, c.dist, data, pos + |HeaderBits(c, cl, nb, its)|, h, fuel)
  {
    hide At, Lsb, LowFirst, ClBits, ItemsBits, Codes, Pow2, ReadLens, ClLens, Verdict, ExpandedAll, ClOk, ItemsOk,
         ItemsInRange;
    ClFits(cl, nb);
    var x, y, z := LowFirst(|c.lit| - 257, 5), LowFirst(|c.dist| - 1, 5), LowFirst(nb - 4, 4);
    AtConcat(data, pos, x + y + z + ClBits(cl, nb), ItemsBits(cl, its));
    AtConcat(data, pos, x + y + z, ClBits(cl, nb));
    AtConcat(data, pos, x + y, z);
    AtConcat(data, pos, x, y);
    SmallPowers();
    LsbAt(data, pos, |c.lit| - 257, 5);
    LsbAt(data, pos + 5, |c.dist| - 1, 5);
    LsbAt(data, pos + 10, nb - 4, 4);
    ClReads(cl, data, pos + 14, nb);
    AcceptedCodable(cl);
    NoLens();
    ItemsRead(cl, data, pos + 14 + 3 * nb, |c.lit| + |c.dist|, [], 0, its);
    assert (c.lit + c.dist)[..|c.lit|] == c.lit && (c.lit + c.dist)[|c.lit|..] == c.dist;
  }

  lemma ClFits(cl: seq<nat>, nb: nat)
    requires ClOk(cl, nb)
    ensures nb <= 19 && |cl| == 19
  {
  }

  lemma NoLens()
    ensures SmallLens([])
  {
  }

  /** The block stands at `pos`.  What a stored block is padded with does not matter. */
  ghost predicate StandsAt(data: seq<byte>, pos: nat, b: Piece)
    requires data != [] && PieceOk(b)
  {
    && Lsb(data, pos + 1, 2) == TypeBits(b)[0] as nat + 2 * (TypeBits(b)[1] as nat)
    && match b
       case StoredPiece(w) =>
         At(data, NextByte(pos + 3), StoredTail(w))
       case _ => At(data, pos + 3, BodyBits(b, pos + 3))
  }

  /** The end of the block that stands at `pos`. */
  ghost function EndOf(b: Piece, pos: nat): nat
    requires PieceOk(b)
  {
    match b
    case StoredPiece(w) => NextByte(pos + 3) + |StoredTail(w)|
    case _ => pos + 3 + |BodyBits(b, pos + 3)|
  }

  /** A block is decoded where it stands. */
  lemma StandingDecodes(data: seq<byte>, pos: nat, b: Piece, h: seq<byte>, fuel: nat)
    requires data != [] && |h| >= WSIZE && PieceOk(b) && StandsAt(data, pos, b) && fuel >= Size(b)
    ensures Block(data, pos, h, fuel) == Ok(EndOf(b, pos), PieceMeaning(h, b))
  {
    hide At, Lsb, Codes, DataBits, StoredTail, StoredBits, HeaderBits, Stored, Dynamic, HeaderOk, TokensOk, Meaning, FixedLit,
         FixedDist, CodePair.Valid;
    match b
    case StoredPiece(w) => StoredDecodes(data, pos + 3, w, h);
    case FixedPiece(ks) =>
      FixedHasEnd();
      FixedValid();
      TokensDecode(FixedCodes(), data, pos + 3, ks, h, fuel);
    case DynamicPiece(c, cl, nb, its, ks) =>
      HeaderHasEnd(c, cl, nb, its);
      AtConcat(data, pos + 3, HeaderBits(c, cl, nb, its), DataBits(c, ks));
      HeaderReads(data, pos + 3, c, cl, nb, its, h, fuel);
      TokensDecode(c, data, pos + 3 + |HeaderBits(c, cl, nb, its)|, ks, h, fuel);
  }

  /** What the encoder writes stands there. */
  lemma BlockStands(data: seq<byte>, pos: nat, b: Piece, last: bit)
    requires data != [] && PieceOk(b) && At(data, pos, BlockBits(b, last, pos))
    ensures StandsAt(data, pos, b) && Lsb(data, pos, 1) == last && EndOf(b, pos) == pos + |BlockBits(b, last, pos)|
  {
    hide At, Lsb, DataBits, StoredTail, HeaderBits, HeaderOk, TokensOk, FixedLit, FixedDist, BitAt;
    AtConcat(data, pos, [last] + TypeBits(b), BodyBits(b, pos + 3));
    HeadBits(data, pos, last, TypeBits(b));
    if b.StoredPiece? {
      AtConcat(data, pos + 3, ZeroBits(NextByte(pos + 3) - (pos + 3)), StoredTail(b.w));
    }
  }

  lemma HeaderHasEnd(c: CodePair, cl: seq<nat>, nb: nat, its: seq<Item>)
    requires HeaderOk(c, cl, nb, its)
    ensures |c.lit| >= 257 && |c.dist| >= 1 && nb >= 4 && |cl| == 19 && ItemsOk(cl, its) && c.Valid() && HasCode(c.lit, 256)
  {
    hide Verdict, ItemsOk, ExpandedAll, Kraft, Pow2;
    AcceptedCodable(c.lit);
    AcceptedCodable(c.dist);
  }

  lemma HeadBits(data: seq<byte>, pos: nat, last: bit, t: seq<bit>)
    requires data != [] && |t| == 2 && At(data, pos, [last] + t)
    ensures Lsb(data, pos, 1) == last && Lsb(data, pos + 1, 2) == t[0] as nat + 2 * (t[1] as nat)
  {
    hide BitAt;
    var s := [last] + t;
    assert s[0] == last && s[1] == t[0] && s[2] == t[1];
    assert BitAt(data, pos + 0) == s[0] && BitAt(data, pos + 1) == s[1] && BitAt(data, pos + 2) == s[2];
    assert Lsb(data, pos + 2, 1) == BitAt(data, pos + 2) + 2 * Lsb(data, pos + 3, 0);
  }

  // ---------- Nothing else decodes ----------

  lemma {:induction false} BytesStand(data: seq<byte>, i: nat, n: nat)
    requires data != []
    ensures At(data, 8 * i, ByteStream(Bytes(data, i, n)))
  {
    hide At, Lsb, LowFirst, ByteAt, Pow2, Bytes;
    BytesStep(data, i, n);
    if n == 0 {
      AtNone(data, 8 * i);
    } else {
      var w, v := Bytes(data, i, n), Bytes(data, i, n - 1);
      BytesStand(data, i, n - 1);
      ByteRange(data, i + n - 1);
      ByteBits(data, i + n - 1);
      SmallPowers();
      LsbAt(data, 8 * (i + n - 1), w[n - 1] as nat, 8);
      assert w[..n - 1] == v;
      AtConcat(data, 8 * i, ByteStream(v), LowFirst(w[n - 1] as nat, 8));
    }
  }

  lemma StoredStands(data: seq<byte>, pos: nat, h: seq<byte>) returns (w: seq<byte>)
    requires data != [] && Stored(data, pos, h).Ok?
    ensures |w| < 0x1_0000 && At(data, NextByte(pos), StoredTail(w))
  {
    hide At, Lsb, LowFirst, Bytes, ByteStream, Pow2;
    var p := NextByte(pos);
    var n := Lsb(data, p, 16);
    LsbBound(data, p, 16);
    SmallPowers();
    var i := (p + 32) / 8;
    assert 8 * i == p + 32;
    w := Bytes(data, i, n);
    BytesStand(data, i, n);
    LsbAt(data, p, n, 16);
    LsbAt(data, p + 16, 0xFFFF - n, 16);
    AtConcat(data, p, LowFirst(n, 16), LowFirst(0xFFFF - n, 16));
    AtConcat(data, p, LowFirst(n, 16) + LowFirst(0xFFFF - n, 16), ByteStream(w));
  }

  /** Code lengths that are read stand there as items. */
  lemma {:induction false} ItemsStand(cl: seq<nat>, data: seq<byte>, pos: nat, n: nat, acc: seq<nat>, last: nat)
    returns (its: seq<Item>)
    requires data != [] && Codable(cl) && |cl| == 19 && |acc| <= n && SmallLens(acc) && last <= 15
    requires ReadLens(cl, data, pos, n, acc, last).Lens?
    ensures ItemsOk(cl, its) && ItemsInRange(its) && At(data, pos, ItemsBits(cl, its))
    ensures ReadLens(cl, data, pos, n, acc, last) == Lens(pos + |ItemsBits(cl, its)|, ExpandedAll(acc, last, its))
    decreases n - |acc|
  {
    hide At, Codable, ReadLens, ItemBits, Expanded, LastOf, ItemOk, ItemInRange, SmallLens;
    if |acc| == n {
      its := [];
      LensDone(cl, data, pos, acc, last);
      AtNone(data, pos);
    } else {
      var it := ItemStands(cl, data, pos, n, acc, last);
      ItemReads(cl, data, pos, n, acc, last, it);
      var rest := ItemsStand(cl, data, pos + |ItemBits(cl, it)|, n, Expanded(acc, last, it), LastOf(last, it));
      its := [it] + rest;
      assert its[1..] == rest;
      AtConcat(data, pos, ItemBits(cl, it), ItemsBits(cl, rest));
    }
  }

  lemma ItemStands(cl: seq<nat>, data: seq<byte>, pos: nat, n: nat, acc: seq<nat>, last: nat) returns (it: Item)
    requires data != [] && Codable(cl) && |cl| == 19 && |acc| < n && SmallLens(acc) && last <= 15
    requires ReadLens(cl, data, pos, n, acc, last).Lens?
    ensures ItemOk(cl, it) && ItemInRange(it) && At(data, pos, ItemBits(cl, it)) && |Expanded(acc, last, it)| <= n
  {
    hide At, CodeBits, Codable, Decode, Lsb, LowFirst, ReadLens, Run, Pow2;
    LensSym(cl, data, pos, n, acc, last);
    var s := Decode(cl, data, pos).sym;
    DecodedHasCode(cl, data, pos);
    DecodeAt(cl, s, data, pos);
    if s < 16 {
      it := One(s);
      AtNone(data, pos + cl[s]);
    } else {
      var extra := if s == 16 then 2 else if s == 17 then 3 else 7;
      var v := Lsb(data, pos + cl[s], extra);
      LsbBound(data, pos + cl[s], extra);
      SmallPowers();
      LsbAt(data, pos + cl[s], v, extra);
      it := if s == 16 then Again(3 + v) else if s == 17 then Zeroes(3 + v) else Zeroes(11 + v);
    }
    AtConcat(data, pos, CodeBits(cl, s), ItemExtra(it));
  }

  lemma LensSym(cl: seq<nat>, data: seq<byte>, pos: nat, n: nat, acc: seq<nat>, last: nat)
    requires data != [] && |cl| == 19 && |acc| < n && SmallLens(acc) && last <= 15
    requires ReadLens(cl, data, pos, n, acc, last).Lens?
    ensures Decode(cl, data, pos).Sym? && Decode(cl, data, pos).sym < 19
    ensures var s := Decode(cl, data, pos).sym;
            s >= 16 ==> |acc| + (if s == 18 then 11 else 3) +
                        Lsb(data, pos + cl[s], if s == 16 then 2 else if s == 17 then 3 else 7) <= n
  {
    hide Lsb, Decode;
    SymInRange(cl, data, pos);
  }

  lemma {:induction false} ClStand(cl: seq<nat>, data: seq<byte>, pos: nat, nb: nat)
    requires data != [] && |cl| == 19 && nb <= 19 && (forall s :: 0 <= s < 19 ==> cl[s] <= 7)
    requires forall j :: 0 <= j < nb ==> Lsb(data, pos + 3 * j, 3) == cl[BorderAt(j)]
    ensures At(data, pos, ClBits(cl, nb))
  {
    hide At, Lsb, BorderAt, LowFirst, Pow2;
    if nb == 0 {
      AtNone(data, pos);
    } else {
      ClStand(cl, data, pos, nb - 1);
      SmallPowers();
      LsbAt(data, pos + 3 * (nb - 1), cl[BorderAt(nb - 1)], 3);
      AtConcat(data, pos, ClBits(cl, nb - 1), LowFirst(cl[BorderAt(nb - 1)], 3));
    }
  }

  lemma ClLensStand(data: seq<byte>, pos: nat, nb: nat)
    requires data != [] && nb <= 19
    ensures var cl := ClLens(data, pos, nb); ClOk(cl, nb) && At(data, pos, ClBits(cl, nb))
  {
    hide At, Lsb, BorderAt, BorderIndex, ClBits;
    var cl := ClLens(data, pos, nb);
    ClLensBound(data, pos, nb);
    forall j | 0 <= j < 19 ensures cl[BorderAt(j)] == if j < nb then Lsb(data, pos + 3 * j, 3) else 0 { OwnIndex(j); }
    ClStand(cl, data, pos, nb);
  }

  lemma OwnIndex(j: nat)
    requires j < 19
    ensures BorderIndex(BorderAt(j), 0) == j
  {
    hide BorderAt, BorderIndex;
    var i := BorderIndex(BorderAt(j), 0);
    BorderFound(BorderAt(j));
    BorderValues();
  }

  /** Data that ends well has a code for the end. */
  lemma {:induction false} EndHasCode(lit: seq<nat>, dist: seq<nat>, data: seq<byte>, pos: nat, h: seq<byte>, fuel: nat)
    requires data != [] && |h| >= WSIZE && Codes(lit, dist, data, pos, h, fuel).Ok?
    ensures HasCode(lit, 256)
    decreases fuel
  {
    hide Match, Decode, HasCode;
    SymInRange(lit, data, pos);
    var s := Decode(lit, data, pos).sym;
    if s < 256 {
      EndHasCode(lit, dist, data, pos + lit[s], h + [s as byte], fuel - 1);
    } else if s == 256 {
      DecodedHasCode(lit, data, pos);
    } else {
      var m := Match(dist, data, pos + lit[s], s, h);
      EndHasCode(lit, dist, data, m.pos, m.out, fuel - 1);
    }
  }

  lemma DynamicStands(data: seq<byte>, pos: nat, h: seq<byte>, fuel: nat) returns (b: Piece)
    requires data != [] && |h| >= WSIZE && Dynamic(data, pos, h, fuel).Ok?
    ensures b.DynamicPiece? && HeaderOk(b.c, b.cl, b.nb, b.its) && |b.cl| == 19 && ItemsOk(b.cl, b.its)
    ensures TokensOk(b.c, b.ks) && |b.ks| < fuel
    ensures At(data, pos, HeaderBits(b.c, b.cl, b.nb, b.its) + DataBits(b.c, b.ks))
  {
    hide At, Lsb, ReadLens, ClLens, Codes, Verdict, HeaderBits, DataBits, Meaning, ItemsOk, TokensOk, AllInRange, Pow2,
         ExpandedAll, ItemsInRange, ClOk, ItemsBits, ClBits;
    var nl, nd, nb := 257 + Lsb(data, pos, 5), 1 + Lsb(data, pos + 5, 5), 4 + Lsb(data, pos + 10, 4);
    LsbBound(data, pos + 10, 4);
    SmallPowers();
    var cl := ClLens(data, pos + 14, nb);
    ClLensStand(data, pos + 14, nb);
    ClLensValid(data, pos + 14, nb);
    AcceptedCodable(cl);
    NoLens();
    var r := ReadLens(cl, data, pos + 14 + 3 * nb, nl + nd, [], 0);
    var its := ItemsStand(cl, data, pos + 14 + 3 * nb, nl + nd, [], 0);
    var c := CodePair(r.lens[..nl], r.lens[nl..]);
    SplitValid(r.lens, nl);
    AcceptedCodable(c.lit);
    AcceptedCodable(c.dist);
    EndHasCode(c.lit, c.dist, data, r.pos, h, fuel);
    var ks := DecodedTokens(c, data, r.pos, h, fuel);
    assert c.lit + c.dist == r.lens;
    b := DynamicPiece(c, cl, nb, its, ks);
    ClFits(cl, nb);
    HeaderStands(data, pos, c, cl, nb, its);
    AtConcat(data, pos, HeaderBits(c, cl, nb, its), DataBits(c, ks));
    HeaderLength(c, cl, nb, its);
  }

  lemma HeaderLength(c: CodePair, cl: seq<nat>, nb: nat, its: seq<Item>)
    requires |c.lit| >= 257 && |c.dist| >= 1 && nb >= 4 && |cl| == 19 && ItemsOk(cl, its)
    ensures |HeaderBits(c, cl, nb, its)| == 14 + 3 * nb + |ItemsBits(cl, its)|
  {
    hide LowFirst, ClBits, ItemsBits, ItemsOk;
  }

  lemma HeaderStands(data: seq<byte>, pos: nat, c: CodePair, cl: seq<nat>, nb: nat, its: seq<Item>)
    requires data != [] && |c.lit| == 257 + Lsb(data, pos, 5) && |c.dist| == 1 + Lsb(data, pos + 5, 5)
    requires nb == 4 + Lsb(data, pos + 10, 4) && |cl| == 19 && ItemsOk(cl, its)
    requires At(data, pos + 14, ClBits(cl, nb)) && At(data, pos + 14 + 3 * nb, ItemsBits(cl, its))
    ensures At(data, pos, HeaderBits(c, cl, nb, its))
  {
    hide At, Lsb, LowFirst, ClBits, ItemsBits, ItemsOk, Pow2;
    var x, y, z := LowFirst(|c.lit| - 257, 5), LowFirst(|c.dist| - 1, 5), LowFirst(nb - 4, 4);
    LsbBound(data, pos, 5);
    LsbBound(data, pos + 5, 5);
    LsbBound(data, pos + 10, 4);
    LsbAt(data, pos, |c.lit| - 257, 5);
    LsbAt(data, pos + 5, |c.dist| - 1, 5);
    LsbAt(data, pos + 10, nb - 4, 4);
    AtConcat(data, pos, x, y);
    AtConcat(data, pos, x + y, z);
    AtConcat(data, pos, x + y + z, ClBits(cl, nb));
    AtConcat(data, pos, x + y + z + ClBits(cl, nb), ItemsBits(cl, its));
  }

  /** Decoding succeeds exactly where some block stands that the allowance suffices for; what it gives is in
      `StandingDecodes`. */
  lemma BlockExactly(data: seq<byte>, pos: nat, h: seq<byte>, fuel: nat)
    requires data != [] && |h| >= WSIZE
    ensures Block(data, pos, h, fuel).Ok? <==> exists b: Piece :: PieceOk(b) && StandsAt(data, pos, b) && Size(b) <= fuel
  {
    hide Block, PieceOk, StandsAt, Size;
    if Block(data, pos, h, fuel).Ok? {
      var b := DecodedBlock(data, pos, h, fuel);
    }
    if b: Piece :| PieceOk(b) && StandsAt(data, pos, b) && Size(b) <= fuel {
      StandingDecodes(data, pos, b, h, fuel);
    }
  }

  /** A block that is decoded stands there. */
  lemma DecodedBlock(data: seq<byte>, pos: nat, h: seq<byte>, fuel: nat) returns (b: Piece)
    requires data != [] && |h| >= WSIZE && Block(data, pos, h, fuel).Ok?
    ensures PieceOk(b) && StandsAt(data, pos, b) && Size(b) <= fuel
  {
    hide At, Lsb, Codes, DataBits, StoredBits, HeaderBits, Stored, Dynamic, HeaderOk, TokensOk, Meaning, FixedLit, FixedDist,
         CodePair.Valid, AllInRange, StoredTail;
    match Lsb(data, pos + 1, 2)
    case 0 =>
      var w := StoredStands(data, pos + 3, h);
      b := StoredPiece(w);
    case 1 =>
      FixedHasEnd();
      FixedValid();
      var ks := DecodedTokens(FixedCodes(), data, pos + 3, h, fuel);
      b := FixedPiece(ks);
    case 2 =>
      b := DynamicStands(data, pos + 3, h, fuel);
    case _ =>
      b := StoredPiece([]);
  }

  // ---------- Whole streams ----------

  ghost predicate PiecesOk(bs: seq<Piece>) { forall j :: 0 <= j < |bs| ==> PieceOk(bs[j]) }

  function LastBit(bs: seq<Piece>): bit { if |bs| == 1 then 1 else 0 }

  /** The blocks from bit `pos` on, the last one marked. */
  ghost function StreamBits(bs: seq<Piece>, pos: nat): seq<bit>
    requires PiecesOk(bs)
    decreases |bs|
  {
    if bs == [] then []
    else
      var s := BlockBits(bs[0], LastBit(bs), pos);
      s + StreamBits(bs[1..], pos + |s|)
  }

  ghost function StreamMeaning(h: seq<byte>, bs: seq<Piece>): (r: seq<byte>)
    requires |h| >= WSIZE && PiecesOk(bs)
    decreases |bs|
  {
    if bs == [] then h else StreamMeaning(PieceMeaning(h, bs[0]), bs[1..])
  }

  lemma {:induction false} BlocksDecode(data: seq<byte>, pos: nat, bs: seq<Piece>, h: seq<byte>, fuel: nat)
    requires data != [] && |h| >= WSIZE && bs != [] && PiecesOk(bs) && At(data, pos, StreamBits(bs, pos))
    requires forall j :: 0 <= j < |bs| ==> Size(bs[j]) <= fuel
    ensures Blocks(data, pos, h, |bs|, fuel) == Ok(pos + |StreamBits(bs, pos)|, StreamMeaning(h, bs))
    decreases |bs|
  {
    hide At, BlockBits, PieceMeaning, PieceOk, Block, Lsb, Size, StandsAt, EndOf;
    var last := LastBit(bs);
    var s, b, rest := BlockBits(bs[0], last, pos), bs[0], bs[1..];
    AtConcat(data, pos, s, StreamBits(rest, pos + |s|));
    BlockStands(data, pos, b, last);
    StandingDecodes(data, pos, b, h, fuel);
    if |bs| > 1 { BlocksDecode(data, pos + |s|, rest, PieceMeaning(h, b), fuel); }
  }

  /** A stream in bytes. */
  ghost function Encode(bs: seq<Piece>): seq<byte>
    requires PiecesOk(bs)
  {
    Pack(StreamBits(bs, 0))
  }

  /** Every stream of blocks, whatever the window held before, decodes to what the blocks mean. */
  lemma RoundTrip(bs: seq<Piece>, h: seq<byte>, fuel: nat)
    requires bs != [] && PiecesOk(bs) && |h| >= WSIZE && forall j :: 0 <= j < |bs| ==> Size(bs[j]) <= fuel
    ensures Encode(bs) != []
    ensures Blocks(Encode(bs), 0, h, |bs|, fuel) == Ok(|StreamBits(bs, 0)|, StreamMeaning(h, bs))
  {
    hide At, PieceOk, Blocks, StreamMeaning, Pack, Size, BlockBits;
    var data := Encode(bs);
    SomeBits(bs[0], LastBit(bs));
    assert data[0..] == data;
    PackedAt(data, 0, StreamBits(bs, 0));
    BlocksDecode(data, 0, bs, h, fuel);
  }

  lemma SomeBits(b: Piece, last: bit)
    requires PieceOk(b)
    ensures |BlockBits(b, last, 0)| >= 3
  {
    hide PieceOk, BodyBits;
  }

  // ---------- The fixed codes from their table ----------

  /** A token in the bits of the table, apart from code lengths. */
  function TableToken(k: Token): seq<bit>
    requires InRange(k)
  {
    match k
    case Literal(b) => SymBits(b as nat)
    case Copy(i, e, t, x) =>
      SymBits(257 + i) + (LowFirst(e, LenExtra(i)) + HighFirst(t, 5) + LowFirst(x, DistExtra(t)))
  }

  function TableBits(ks: seq<Token>): seq<bit>
    requires AllInRange(ks)
  {
    if ks == [] then SymBits(256) else TableToken(ks[0]) + TableBits(ks[1..])
  }

  lemma DistanceIs(t: nat)
    requires t < 30
    ensures HasCode(FixedDist(), t) && CodeBits(FixedDist(), t) == HighFirst(t, 5)
  {
    hide Count, NextCode, HighFirst;
    DistanceCode(t);
  }

  lemma TokenIs(k: Token)
    requires InRange(k)
    ensures TokenOk(FixedCodes(), k) && TokenBits(FixedCodes(), k) == TableToken(k)
  {
    hide SymBits, CodeBits, HighFirst, LowFirst, FixedLit, FixedDist, LenExtra, DistExtra, Pow2;
    match k
    case Literal(b) => FixedIs(b as nat);
    case Copy(i, e, t, x) =>
      FixedIs(257 + i);
      DistanceIs(t);
  }

  lemma {:induction false} TableIs(ks: seq<Token>)
    requires AllInRange(ks)
    ensures TokensOk(FixedCodes(), ks) && HasCode(FixedLit(), 256) && DataBits(FixedCodes(), ks) == TableBits(ks)
  {
    hide SymBits, CodeBits, TokenBits, TableToken, FixedLit, FixedDist, TokenOk, InRange;
    FixedIs(256);
    forall j | 0 <= j < |ks| ensures TokenOk(FixedCodes(), ks[j]) { TokenIs(ks[j]); }
    if ks != [] {
      TokenIs(ks[0]);
      TableIs(ks[1..]);
    }
  }

  /** One last block written from the table: the last-block bit, the two bits of the type, the tokens and the end. */
  function TableEncode(ks: seq<Token>): (d: seq<byte>)
    requires AllInRange(ks)
    ensures d != []
  {
    Pack([1, 1, 0] + TableBits(ks))
  }

  /** Literals and matches written from the table decode to what they mean. */
  lemma TableRoundTrip(ks: seq<Token>, h: seq<byte>)
    requires AllInRange(ks) && |h| >= WSIZE
    ensures Blocks(TableEncode(ks), 0, h, 1, |ks| + 1) == Ok(3 + |TableBits(ks)|, Meaning(h, ks))
  {
    hide Blocks, Meaning, DataBits, TableBits, Pack, FixedLit, FixedDist, CodeBits, TokensOk, AllInRange, HasCode;
    TableIs(ks);
    var b := FixedPiece(ks);
    assert [b][1..] == [];
    assert StreamBits([b], 0) == [1, 1, 0] + TableBits(ks);
    RoundTrip([b], h, |ks| + 1);
  }

  /** Every byte string written as literals comes back; so does every short one from a stored block. */
  lemma BytesRoundTrip(w: seq<byte>, h: seq<byte>)
    requires |h| >= WSIZE
    ensures Blocks(TableEncode(Literals(w)), 0, h, 1, |w| + 1) == Ok(3 + |TableBits(Literals(w))|, h + w)
    ensures |w| < 0x1_0000 ==> var d := Encode([StoredPiece(w)]);
                               d != [] && Blocks(d, 0, h, 1, 0) == Ok(|StreamBits([StoredPiece(w)], 0)|, h + w)
  {
    hide Encode, Blocks, Meaning, StreamBits, TableBits;
    TableRoundTrip(Literals(w), h);
    LiteralsMean(h, w);
    if |w| < 0x1_0000 {
      assert [StoredPiece(w)][1..] == [];
      RoundTrip([StoredPiece(w)], h, 0);
    }
  }
}
