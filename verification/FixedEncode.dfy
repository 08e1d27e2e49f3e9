/** The fixed codes as section 3.2.6 of RFC 1951 writes them down, range by range, apart from code lengths and canonical
    codes. */
module FixedEncode {
  import opened Bits
  import opened Octets
  import opened BitStream
  import opened HuffmanCode
  import opened HuftBuild
  import opened InflateSpec
  import opened InflateFacts
  import opened Inflate
  import opened BitWrite

  // ---------- The codes ----------

  /** The table of section 3.2.6: 8 bits from 00110000 on, 9 bits from 110010000 on, 7 bits from 0000000 on, 8 bits from
      11000000 on. */
  function SymBits(s: nat): seq<bit>
    requires s < 288
  {
    if s < 144 then HighFirst(0x30 + s, 8)
    else if s < 256 then HighFirst(0x190 + (s - 144), 9)
    else if s < 280 then HighFirst(s - 256, 7)
    else HighFirst(0xC0 + (s - 280), 8)
  }

  lemma {:induction false} CountRun(a: seq<nat>, len: nat, n: nat, k: nat)
    ensures Count(a + Run(len, n), k) == Count(a, k) + if k == len then n else 0
  {
    hide Run;
    RunSnoc(a, len, n);
    if n > 0 {
      CountRun(a, len, n - 1, k);
      CountSnoc(a + Run(len, n - 1), len, k);
    }
  }

  lemma CountSnoc(a: seq<nat>, x: nat, k: nat)
    ensures Count(a + [x], k) == Count(a, k) + if x == k then 1 else 0
  {
    assert (a + [x])[..|a|] == a;
  }

  lemma CountNone(k: nat)
    ensures Count([], k) == 0
  {
  }

  /** How many symbols there are of each length, and before each symbol. */
  lemma FixedCounts(k: nat)
    ensures Count(FixedLit(), k) == if k == 7 then 24 else if k == 8 then 152 else if k == 9 then 112 else 0
  {
    hide Count, Run;
    var e: seq<nat> := [];
    CountNone(k);
    CountRun(e, 8, 144, k);
    CountRun(e + Run(8, 144), 9, 112, k);
    CountRun(e + Run(8, 144) + Run(9, 112), 7, 24, k);
    CountRun(e + Run(8, 144) + Run(9, 112) + Run(7, 24), 8, 8, k);
    assert e + Run(8, 144) + Run(9, 112) + Run(7, 24) + Run(8, 8) == FixedLit();
  }

  lemma FixedBefore(s: nat)
    requires s < 288
    ensures |FixedLit()| == 288
    ensures FixedLit()[s] == if s < 144 then 8 else if s < 256 then 9 else if s < 280 then 7 else 8
    ensures Count(FixedLit()[..s], FixedLit()[s]) ==
            if s < 144 then s else if s < 256 then s - 144 else if s < 280 then s - 256 else s - 136
  {
    hide Count;
    var e: seq<nat> := [];
    var b, k := FixedLit(), FixedLit()[s];
    CountNone(k);
    if s < 144 {
      assert b[..s] == e + Run(8, s);
      CountRun(e, 8, s, k);
    } else {
      CountRun(e, 8, 144, k);
      var a := e + Run(8, 144);
      if s < 256 {
        assert b[..s] == a + Run(9, s - 144);
        CountRun(a, 9, s - 144, k);
      } else {
        CountRun(a, 9, 112, k);
        var c := a + Run(9, 112);
        if s < 280 {
          assert b[..s] == c + Run(7, s - 256);
          CountRun(c, 7, s - 256, k);
        } else {
          CountRun(c, 7, 24, k);
          assert b[..s] == c + Run(7, 24) + Run(8, s - 280);
          CountRun(c + Run(7, 24), 8, s - 280, k);
        }
      }
    }
  }

  lemma FixedNext()
    ensures NextCode(Counts(FixedLit()), 7) == 0 && NextCode(Counts(FixedLit()), 8) == 0x30
    ensures NextCode(Counts(FixedLit()), 9) == 0x190
  {
    hide Count, FixedLit;
    var c := Counts(FixedLit());
    forall k | 0 <= k <= BMAX ensures c[k] == Count(FixedLit(), k) { }
    FixedCounts(1); FixedCounts(2); FixedCounts(3); FixedCounts(4); FixedCounts(5); FixedCounts(6); FixedCounts(7);
    FixedCounts(8);
    assert NextCode(c, 3) == 0;
    assert NextCode(c, 5) == 0;
    assert NextCode(c, 7) == 0;
  }

  /** The canonical codes of the fixed lengths are those of the table. */
  lemma FixedCanon(s: nat, data: seq<byte>, pos: nat)
    requires data != [] && s < 288
    ensures |FixedLit()| == 288 && |SymBits(s)| == FixedLit()[s]
    ensures CodeIsAt(FixedLit(), s, data, pos) <==> At(data, pos, SymBits(s))
  {
    hide Count, NextCode, Counts, At, Msb, HighFirst, FixedLit, Pow2;
    FixedBefore(s);
    FixedNext();
    SmallPowers();
    if s < 144 {
      MsbAt(data, pos, 0x30 + s, 8);
    } else if s < 256 {
      MsbAt(data, pos, 0x190 + (s - 144), 9);
    } else if s < 280 {
      MsbAt(data, pos, s - 256, 7);
    } else {
      MsbAt(data, pos, 0xC0 + (s - 280), 8);
    }
  }

  /** A literal or length symbol is decoded exactly where its bits stand. */
  lemma DecodeFixed(s: nat, data: seq<byte>, pos: nat)
    requires data != []
    ensures Decode(FixedLit(), data, pos) == Sym(s) <==> s < 288 && At(data, pos, SymBits(s))
  {
    hide At, CodeIsAt, FixedLit, SymBits, Kraft, Pow2;
    FixedSets();
    var r := Decode(FixedLit(), data, pos);
    if r.Sym? {
      InSet(FixedLit(), r.sym, data, pos);
      FixedCanon(r.sym, data, pos);
    }
    if s < 288 {
      FixedCanon(s, data, pos);
      if At(data, pos, SymBits(s)) {
        assert CodeIsAt(FixedLit(), s, data, pos);
        Unambiguous(FixedLit(), data, pos, r.sym, s);
      }
    }
  }

  lemma InSet(b: seq<nat>, s: nat, data: seq<byte>, pos: nat)
    requires data != [] && CodeIsAt(b, s, data, pos)
    ensures s < |b|
  {
  }

  /** A distance symbol is decoded exactly where its five bits stand. */
  lemma DecodeDistance(t: nat, data: seq<byte>, pos: nat)
    requires data != []
    ensures Decode(FixedDist(), data, pos) == Sym(t) <==> t < 30 && At(data, pos, HighFirst(t, 5))
  {
    hide At, CodeIsAt, FixedDist, HighFirst, Kraft, Pow2;
    FixedSets();
    var r := Decode(FixedDist(), data, pos);
    if r.Sym? {
      InSet(FixedDist(), r.sym, data, pos);
      DistanceCanon(r.sym, data, pos);
    }
    if t < 30 {
      DistanceCanon(t, data, pos);
      if At(data, pos, HighFirst(t, 5)) {
        assert CodeIsAt(FixedDist(), t, data, pos);
        Unambiguous(FixedDist(), data, pos, r.sym, t);
      }
    }
  }

  lemma DistanceCanon(t: nat, data: seq<byte>, pos: nat)
    requires data != [] && t < 30
    ensures CodeIsAt(FixedDist(), t, data, pos) <==> At(data, pos, HighFirst(t, 5))
  {
    hide At, Msb, HighFirst, Pow2, Canon;
    DistanceCode(t);
    SmallPowers();
    MsbAt(data, pos, t, 5);
  }

  lemma DistanceCode(t: nat)
    requires t < 30
    ensures |FixedDist()| == 30 && FixedDist()[t] == 5 && Canon(FixedDist(), t) == t
  {
    hide Count, NextCode;
    var e: seq<nat> := [];
    var b := FixedDist();
    assert b[..t] == e + Run(5, t);
    CountRun(e, 5, t, 5);
    CountNone(5);
    DistanceNext();
  }

  lemma DistanceNext()
    ensures NextCode(Counts(FixedDist()), 5) == 0
  {
    hide Count, Run;
    var e: seq<nat> := [];
    var c := Counts(FixedDist());
    forall k | 1 <= k < 5 ensures c[k] == 0 {
      CountNone(k);
      CountRun(e, 5, 30, k);
      assert e + Run(5, 30) == FixedDist();
    }
    assert NextCode(c, 3) == 0;
  }
}
