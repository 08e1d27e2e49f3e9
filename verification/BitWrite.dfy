/** Writing bits: the order in which codes and extra bits are packed, and bits into bytes.  What is written is what the stream
    of the bytes holds. */
module BitWrite {
  import opened Bits
  import opened Octets
  import opened BitStream
  import opened InflateSpec

  type bit = n: nat | n < 2

  // ---------- Bits ----------

  /** The `n` low bits of a number, most significant first: how codes are packed. */
  function HighFirst(v: nat, n: nat): (s: seq<bit>)
    ensures |s| == n
  {
    if n == 0 then [] else HighFirst(v / 2, n - 1) + [v % 2]
  }

  /** The same with the least significant bit first: how extra bits are packed. */
  function LowFirst(v: nat, n: nat): (s: seq<bit>)
    ensures |s| == n
  {
    if n == 0 then [] else [v % 2] + LowFirst(v / 2, n - 1)
  }

  /** The number with these bits, least significant first. */
  function Low(s: seq<bit>): nat {
    if s == [] then 0 else s[0] + 2 * Low(s[1..])
  }

  lemma {:induction false} LowBound(s: seq<bit>)
    ensures Low(s) < Pow2(|s|)
  {
    if s != [] { LowBound(s[1..]); }
  }

  /** These bits stand at `pos`. */
  ghost predicate At(data: seq<byte>, pos: nat, s: seq<bit>)
    requires data != []
  {
    forall k :: 0 <= k < |s| ==> BitAt(data, pos + k) == s[k]
  }

  lemma AtConcat(data: seq<byte>, pos: nat, a: seq<bit>, b: seq<bit>)
    requires data != []
    ensures At(data, pos, a + b) <==> At(data, pos, a) && At(data, pos + |a|, b)
  {
    hide BitAt;
    var s := a + b;
    if At(data, pos, s) {
      forall k | 0 <= k < |a| ensures BitAt(data, pos + k) == a[k] { assert s[k] == a[k]; }
      forall k | 0 <= k < |b| ensures BitAt(data, pos + |a| + k) == b[k] {
        assert s[|a| + k] == b[k];
        assert BitAt(data, pos + (|a| + k)) == s[|a| + k];
      }
    }
    if At(data, pos, a) && At(data, pos + |a|, b) {
      forall k | 0 <= k < |s| ensures BitAt(data, pos + k) == s[k] {
        if k >= |a| { assert BitAt(data, pos + |a| + (k - |a|)) == b[k - |a|]; }
      }
    }
  }

  lemma AtOne(data: seq<byte>, pos: nat, b: bit)
    requires data != []
    ensures At(data, pos, [b]) <==> BitAt(data, pos) == b
  {
    hide BitAt;
    if At(data, pos, [b]) { assert BitAt(data, pos + 0) == [b][0]; }
  }

  /** A number read first bit most significant is `v` exactly when its bits stand there. */
  lemma {:induction false} MsbAt(data: seq<byte>, pos: nat, v: nat, n: nat)
    requires data != [] && v < Pow2(n)
    ensures Msb(data, pos, n) == v <==> At(data, pos, HighFirst(v, n))
  {
    hide BitAt, At;
    if n == 0 {
      AtNone(data, pos);
    } else {
      MsbAt(data, pos, v / 2, n - 1);
      AtConcat(data, pos, HighFirst(v / 2, n - 1), [v % 2]);
      AtOne(data, pos + n - 1, v % 2);
    }
  }

  lemma AtNone(data: seq<byte>, pos: nat)
    requires data != []
    ensures At(data, pos, [])
  {
  }

  lemma {:induction false} LsbAt(data: seq<byte>, pos: nat, v: nat, n: nat)
    requires data != [] && v < Pow2(n)
    ensures Lsb(data, pos, n) == v <==> At(data, pos, LowFirst(v, n))
    decreases n
  {
    hide BitAt, At;
    if n == 0 {
      AtNone(data, pos);
    } else {
      LsbAt(data, pos + 1, v / 2, n - 1);
      AtConcat(data, pos, [v % 2], LowFirst(v / 2, n - 1));
      AtOne(data, pos, v % 2);
    }
  }

  // ---------- Bytes ----------

  /** Bits in bytes, least significant first, with zeros behind them. */
  function Pack(s: seq<bit>): (d: seq<byte>)
    ensures |d| == (|s| + 7) / 8
    decreases |s|
  {
    if s == [] then []
    else if |s| <= 8 then
      LowByte(s);
      [Low(s) as byte]
    else
      LowByte(s[..8]);
      [Low(s[..8]) as byte] + Pack(s[8..])
  }

  lemma LowByte(s: seq<bit>)
    requires |s| <= 8
    ensures Low(s) < 256
  {
    LowBound(s);
    Pow2Mono(|s|, 8);
    SmallPowers();
  }

  /** A number whose low bits are those of `s`, and no more, has them in the stream. */
  lemma {:induction false} LowAt(data: seq<byte>, pos: nat, s: seq<bit>, n: nat)
    requires data != [] && |s| <= n && Lsb(data, pos, n) == Low(s)
    ensures At(data, pos, s)
    decreases n
  {
    hide BitAt, At;
    if s == [] {
      AtNone(data, pos);
    } else {
      LowAt(data, pos + 1, s[1..], n - 1);
      AtOne(data, pos, s[0]);
      AtConcat(data, pos, [s[0]], s[1..]);
      assert s == [s[0]] + s[1..];
    }
  }

  lemma PackStep(s: seq<bit>)
    requires s != []
    ensures var n := if |s| < 8 then |s| else 8;
            Low(s[..n]) < 256 && Pack(s) == [Low(s[..n]) as byte] + Pack(s[n..])
  {
    hide Low;
    LowByte(s[..if |s| < 8 then |s| else 8]);
    if |s| <= 8 { assert s[..|s|] == s; }
  }

  /** Packed behind `i` bytes, the bits stand there. */
  lemma {:induction false} PackedAt(data: seq<byte>, i: nat, s: seq<bit>)
    requires data != [] && i <= |data| && data[i..] == Pack(s)
    ensures At(data, 8 * i, s)
    decreases |s|
  {
    hide At, Lsb, Low, Pack;
    if s == [] {
      AtNone(data, 8 * i);
    } else {
      var n := if |s| < 8 then |s| else 8;
      PackStep(s);
      assert i < |data| && data[i] == data[i..][0] && data[i + 1..] == data[i..][1..];
      ByteIs(data, i);
      LowAt(data, 8 * i, s[..n], 8);
      PackedAt(data, i + 1, s[n..]);
      if n == 8 {
        AtConcat(data, 8 * i, s[..8], s[8..]);
        assert s == s[..8] + s[8..];
      } else {
        assert s == s[..n];
      }
    }
  }

  lemma ByteIs(data: seq<byte>, i: nat)
    requires i < |data|
    ensures Lsb(data, 8 * i, 8) == data[i] as nat
  {
    hide Lsb;
    ByteBits(data, i);
    assert i % |data| == i;
  }
}
