/** The compressed input as a stream of bits, least significant bit of each byte first.  When the input
    runs out `fill_inbuf` reports an error and starts again at the first byte, so the stream the decoder
    sees is the input repeated for ever. */
module BitStream {
  import opened Bits
  import opened Octets

  function ByteAt(data: seq<byte>, i: nat): nat
    requires data != []
  {
    data[i % |data|] as nat
  }

  function BitAt(data: seq<byte>, p: nat): (bit: nat)
    requires data != []
    ensures bit < 2
  {
    Quot(ByteAt(data, p / 8), Pow2(p % 8)) % 2
  }

  /** `n` bits as a number, first bit least significant: how extra bits and table indices are read. */
  function Lsb(data: seq<byte>, pos: nat, n: nat): (v: nat)
    requires data != []
    decreases n
  {
    if n == 0 then 0 else BitAt(data, pos) + 2 * Lsb(data, pos + 1, n - 1)
  }

  /** `n` bits as a number, first bit most significant: how Huffman codes are packed. */
  function Msb(data: seq<byte>, pos: nat, n: nat): (v: nat)
    requires data != []
  {
    if n == 0 then 0 else 2 * Msb(data, pos, n - 1) + BitAt(data, pos + n - 1)
  }

  lemma {:induction false} MsbBound(data: seq<byte>, pos: nat, n: nat)
    requires data != []
    ensures Msb(data, pos, n) < Pow2(n)
  {
    hide BitAt;
    if n > 0 { MsbBound(data, pos, n - 1); }
  }

  lemma {:induction false} LsbBound(data: seq<byte>, pos: nat, n: nat)
    requires data != []
    ensures Lsb(data, pos, n) < Pow2(n)
    decreases n
  {
    hide BitAt;
    if n > 0 { LsbBound(data, pos + 1, n - 1); }
  }

  lemma MsbStep(data: seq<byte>, pos: nat, n: nat)
    requires data != []
    ensures Msb(data, pos, n) == if n == 0 then 0 else 2 * Msb(data, pos, n - 1) + BitAt(data, pos + n - 1)
  {
  }

  lemma LsbStep(data: seq<byte>, pos: nat, n: nat)
    requires data != []
    ensures Lsb(data, pos, n) == if n == 0 then 0 else BitAt(data, pos) + 2 * Lsb(data, pos + 1, n - 1)
  {
  }

  lemma {:induction false} MsbSplit(data: seq<byte>, pos: nat, a: nat, b: nat)
    requires data != []
    ensures Msb(data, pos, a + b) == Msb(data, pos, a) * Pow2(b) + Msb(data, pos + a, b)
    decreases b
  {
    hide *;
    MsbStep(data, pos, a + b);
    MsbStep(data, pos + a, b);
    Pow2Step(b);
    if b > 0 {
      MsbSplit(data, pos, a, b - 1);
      DoubleProduct(Msb(data, pos, a), Pow2(b - 1));
    }
  }

  lemma {:induction false} LsbSplit(data: seq<byte>, pos: nat, a: nat, b: nat)
    requires data != []
    ensures Lsb(data, pos, a + b) == Lsb(data, pos, a) + Pow2(a) * Lsb(data, pos + a, b)
    decreases a
  {
    hide *;
    LsbStep(data, pos, a + b);
    LsbStep(data, pos, a);
    Pow2Step(a);
    if a > 0 {
      LsbSplit(data, pos + 1, a - 1, b);
      DoubleProduct(Lsb(data, pos + a, b), Pow2(a - 1));
    }
  }

  lemma DoubleProduct(m: nat, p: nat)
    ensures m * (2 * p) == 2 * (m * p) && (2 * p) * m == 2 * (p * m)
  {
  }

  /** Reading the same bits in the two orders gives reversed numbers. */
  lemma {:induction false} MsbOfLsb(data: seq<byte>, pos: nat, n: nat)
    requires data != []
    ensures Rev(n, Lsb(data, pos, n)) == Msb(data, pos, n)
    decreases n
  {
    hide *;
    MsbStep(data, pos, 0);
    LsbStep(data, pos, n);
    if n > 0 {
      var bit, rest := BitAt(data, pos), Lsb(data, pos + 1, n - 1);
      MsbOfLsb(data, pos + 1, n - 1);
      MsbSplit(data, pos, 1, n - 1);
      MsbStep(data, pos, 1);
      RevStep(n, bit + 2 * rest);
    } else {
      RevZero(0);
    }
  }

  /** Eight bits from a byte boundary on are the byte. */
  lemma ByteBits(data: seq<byte>, i: nat)
    requires data != []
    ensures Lsb(data, 8 * i, 8) == ByteAt(data, i)
  {
    BitsOfByte(data, i, 8);
  }

  lemma {:induction false} BitsOfByte(data: seq<byte>, i: nat, n: nat)
    requires data != [] && n <= 8
    ensures Lsb(data, 8 * i + (8 - n), n) == Quot(ByteAt(data, i), Pow2(8 - n))
    decreases n
  {
    var v, p := ByteAt(data, i), 8 * i + (8 - n);
    assert Pow2(8) == 256;
    if n == 0 {
      DivUnique(v, 256, 0, v);
    } else {
      assert p / 8 == i && p % 8 == 8 - n;
      BitsOfByte(data, i, n - 1);
      HalveQuot(v, Pow2(8 - n));
    }
  }

  lemma HalveQuot(v: nat, p: nat)
    requires p > 0
    ensures Quot(v, p) == Quot(v, p) % 2 + 2 * Quot(v, 2 * p)
  {
    var q, r := Quot(v, p), v % p;
    QuotFacts(v, p);
    var h, bit := q / 2, q % 2;
    assert q * p == h * (2 * p) + bit * p by {
      assert q == 2 * h + bit;
      assert (2 * h + bit) * p == (2 * h) * p + bit * p;
      assert (2 * h) * p == h * (2 * p);
    }
    assert bit * p + r < 2 * p by { MulMono(bit, 1, p); }
    DivUnique(v, 2 * p, h, bit * p + r);
  }
}
