/** The Internet checksum (RFC 1071) over memory, over buffer chains and with a pseudo header.  16-bit words are read in
    little-endian order and the accumulator has 32 bits. */
module Checksum {
  import opened Octets

  const WORD: int := 0x1_0000
  const LONG: int := 0x1_0000_0000

  // ---------- One's complement sums ----------

  /** The 16-bit one's complement value of a sum: end-around carries added in; zero only for zero. */
  function Norm(x: nat): (r: nat)
    ensures r < WORD && (r == 0 <==> x == 0)
  {
    if x == 0 then 0 else if x % 65535 == 0 then 65535 else x % 65535
  }

  /** One round of adding the carries. */
  function Fold(x: nat): nat { x / WORD + x % WORD }

  function Swap(x: nat): nat { x % 256 * 256 + x / 256 % 256 }

  lemma ModPlus(k: nat, r: nat)
    ensures (65535 * k + r) % 65535 == r % 65535
  {
  }

  /** Values that differ by a multiple of 65535 and are both zero or both not have the same one's complement value. */
  lemma NormSame(x: nat, y: nat, k: nat)
    requires x == 65535 * k + y && (x == 0 <==> y == 0)
    ensures Norm(x) == Norm(y)
  {
    ModPlus(k, y);
  }

  lemma NormSmall(x: nat)
    requires x < WORD
    ensures Norm(x) == x
  {
  }

  lemma NormSplit(x: nat) returns (k: nat)
    ensures x == 65535 * k + Norm(x)
  {
    k := if x == 0 then 0 else (x - 1) / 65535;
  }

  lemma NormFold(x: nat)
    ensures Norm(Fold(x)) == Norm(x)
  {
    NormSame(x, Fold(x), x / WORD);
  }

  lemma NormAdd(x: nat, y: nat)
    ensures Norm(Norm(x) + y) == Norm(x + y)
  {
    var k := NormSplit(x);
    NormSame(x + y, Norm(x) + y, k);
  }

  lemma NormTimes(x: nat)
    ensures Norm(256 * Norm(x)) == Norm(256 * x)
  {
    var k := NormSplit(x);
    NormSame(256 * x, 256 * Norm(x), 256 * k);
  }

  /** Swapping the bytes multiplies by 256. */
  lemma SwapIs(x: nat)
    requires x < WORD
    ensures Swap(x) < WORD && Swap(x) == Norm(256 * x)
  {
    NormSame(256 * x, Swap(x), x / 256);
    NormSmall(Swap(x));
  }

  // ---------- Sums of bytes ----------

  /** The sum of the 16-bit words of a byte string that starts at an even address, an odd last byte counting as the low
      byte of a word; and of one that starts at an odd address. */
  function Sum(d: seq<byte>): nat {
    if d == [] then 0 else d[0] as nat + OddSum(d[1..])
  }

  function OddSum(d: seq<byte>): nat {
    if d == [] then 0 else 256 * d[0] as nat + Sum(d[1..])
  }

  lemma {:induction false} SumConcat(a: seq<byte>, b: seq<byte>)
    ensures Sum(a + b) == Sum(a) + if |a| % 2 == 0 then Sum(b) else OddSum(b)
    ensures OddSum(a + b) == OddSum(a) + if |a| % 2 == 0 then OddSum(b) else Sum(b)
  {
    if a == [] {
      assert a + b == b;
    } else {
      assert (a + b)[1..] == a[1..] + b;
      SumConcat(a[1..], b);
    }
  }

  /** Shifting a string by one address multiplies its sum by 256, up to a multiple of 65535. */
  lemma {:induction false} OddIs(d: seq<byte>) returns (k: nat, m: nat)
    ensures 256 * Sum(d) == OddSum(d) + 65535 * k
    ensures 256 * OddSum(d) == Sum(d) + 65535 * m
  {
    if d == [] {
      k, m := 0, 0;
    } else {
      var k', m' := OddIs(d[1..]);
      k, m := m', d[0] as nat + k';
    }
  }

  lemma {:induction false} SumZero(d: seq<byte>)
    ensures Sum(d) == 0 <==> forall i :: 0 <= i < |d| ==> d[i] == 0
    ensures OddSum(d) == 0 <==> forall i :: 0 <= i < |d| ==> d[i] == 0
  {
    if d != [] {
      SumZero(d[1..]);
      assert d == [d[0]] + d[1..];
    }
  }

  lemma NormOdd(d: seq<byte>, x: nat)
    ensures Norm(x + OddSum(d)) == Norm(x + 256 * Sum(d))
    ensures Norm(256 * (x + OddSum(d))) == Norm(256 * x + Sum(d))
  {
    var k, m := OddIs(d);
    SumZero(d);
    NormSame(x + 256 * Sum(d), x + OddSum(d), k);
    NormSame(256 * (x + OddSum(d)), 256 * x + Sum(d), m);
  }

  /** The accumulator cannot overflow on up to 131074 bytes. */
  lemma {:induction false} SumBound(d: seq<byte>)
    ensures 2 * Sum(d) <= 65535 * (|d| + 1) && 2 * OddSum(d) <= 65535 * (|d| + 1)
    ensures |d| % 2 == 0 ==> 2 * Sum(d) <= 65535 * |d|
    ensures |d| <= 131074 ==> Sum(d) < LONG
  {
    Bound(d);
  }

  lemma {:induction false} Bound(d: seq<byte>)
    ensures Sum(d) <= 255 * ((|d| + 1) / 2) + 65280 * (|d| / 2)
    ensures OddSum(d) <= 65280 * ((|d| + 1) / 2) + 255 * (|d| / 2)
  {
    if d != [] { Bound(d[1..]); }
  }

  // ---------- The code ----------

  /** `chksum`: the words are added in 32 bits, then the carries. */
  method Chksum(data: seq<byte>) returns (acc: nat)
    ensures acc == Norm(Sum(data) % LONG)
  {
    hide Sum, Norm;
    var i := 0;
    acc := 0;
    assert data[..0] == [];
    EmptySum();
    while |data| - i > 1
      invariant 0 <= i <= |data| && i % 2 == 0 && acc == Sum(data[..i]) % LONG
    {
      SumWord(data, i);
      AddMod(Sum(data[..i]), data[i] as nat + 256 * data[i + 1] as nat);
      acc := (acc + data[i] as nat + 256 * data[i + 1] as nat) % LONG;
      i := i + 2;
    }
    if |data| - i == 1 {
      SumByte(data, i);
      AddMod(Sum(data[..i]), data[i] as nat);
      acc := (acc + data[i] as nat) % LONG;
    } else {
      assert data[..i] == data;
    }
    FoldTwice(acc);
    acc := Fold(acc);
    if acc / WORD != 0 {
      acc := Fold(acc);
    }
  }

  lemma EmptySum()
    ensures Sum([]) == 0 && OddSum([]) == 0
  {
  }

  lemma SumWord(data: seq<byte>, i: nat)
    requires i + 1 < |data| && i % 2 == 0
    ensures Sum(data[..i + 2]) == Sum(data[..i]) + data[i] as nat + 256 * data[i + 1] as nat
  {
    assert data[..i + 2] == data[..i] + [data[i], data[i + 1]];
    SumConcat(data[..i], [data[i], data[i + 1]]);
    TwoBytes(data[i], data[i + 1]);
  }

  lemma TwoBytes(x: byte, y: byte)
    ensures Sum([x, y]) == x as nat + 256 * y as nat
  {
    assert [x, y][1..] == [y] && [y][1..] == [];
    assert OddSum([y]) == 256 * y as nat + Sum([]);
  }

  lemma SumByte(data: seq<byte>, i: nat)
    requires i + 1 == |data| && i % 2 == 0
    ensures Sum(data) == Sum(data[..i]) + data[i] as nat
  {
    assert data == data[..i] + [data[i]];
    SumConcat(data[..i], [data[i]]);
    assert [data[i]][1..] == [];
  }

  lemma AddMod(x: nat, y: nat)
    ensures (x % LONG + y) % LONG == (x + y) % LONG
  {
  }

  lemma FoldTwice(x: nat)
    requires x < LONG
    ensures Fold(x) < WORD ==> Fold(x) == Norm(x)
    ensures Fold(Fold(x)) < WORD && Fold(Fold(x)) == Norm(x)
  {
    hide Norm, Fold;
    FoldSize(x);
    NormFold(x);
    NormFold(Fold(x));
    if Fold(x) < WORD { NormSmall(Fold(x)); }
    NormSmall(Fold(Fold(x)));
  }

  lemma FoldSize(x: nat)
    requires x < LONG
    ensures Fold(x) < 2 * WORD - 1 && Fold(Fold(x)) < WORD
  {
    var y := Fold(x);
    assert y < 2 * WORD - 1;
    assert y >= WORD ==> y / WORD == 1 && y % WORD == y - WORD;
    assert y < WORD ==> y / WORD == 0 && y % WORD == y;
  }

  /** Where the 32-bit accumulator overflows the checksum is wrong, unless the lost carries make up a multiple of
      65535. */
  lemma ChksumExact(d: seq<byte>)
    ensures Norm(Sum(d) % LONG) == Norm(Sum(d)) <==>
            Sum(d) / LONG % 65535 == 0 && (Sum(d) % LONG == 0 ==> Sum(d) == 0)
    ensures Sum(d) < LONG ==> Sum(d) % LONG == Sum(d)
  {
    Overflow(Sum(d), Sum(d) / LONG, Sum(d) % LONG);
  }

  function Ones(n: nat): (d: seq<byte>)
    ensures |d| == n
  {
    seq(n, i => 0xFF)
  }

  lemma {:induction false} OnesSum(n: nat)
    ensures Sum(Ones(n)) == 255 * ((n + 1) / 2) + 65280 * (n / 2)
    ensures OddSum(Ones(n)) == 65280 * ((n + 1) / 2) + 255 * (n / 2)
  {
    if n > 0 {
      assert Ones(n)[1..] == Ones(n - 1);
      OnesSum(n - 1);
    }
  }

  /** One byte more than `SumBound` allows, all of them 0xFF: the accumulator overflows and the carry is lost. */
  lemma LostCarry()
    ensures |Ones(131075)| == 131075 && Sum(Ones(131075)) == LONG + 254
    ensures Norm(Sum(Ones(131075)) % LONG) != Norm(Sum(Ones(131075)))
  {
    hide Ones, Sum, Norm;
    OnesSum(131075);
    ChksumExact(Ones(131075));
  }

  lemma Overflow(x: nat, q: nat, r: nat)
    requires x == LONG * q + r && r < LONG
    ensures Norm(r) == Norm(x) <==> q % 65535 == 0 && (r == 0 ==> x == 0)
  {
    assert LONG == 65535 * 65537 + 1;
    ModPlus(65537 * q, q + r);
    assert x % 65535 == (q + r) % 65535;
    var k := q / 65535;
    assert q == 65535 * k + q % 65535;
    ModPlus(k, q % 65535 + r);
    Residues(q % 65535, r);
  }

  lemma Residues(q: nat, r: nat)
    requires q < 65535
    ensures (q + r) % 65535 == r % 65535 <==> q == 0
  {
  }

  /** Adds carries until none is left. */
  method FoldAll(x: nat) returns (acc: nat)
    ensures acc == Norm(x)
  {
    hide Norm;
    acc := x;
    while acc / WORD != 0
      invariant Norm(acc) == Norm(x)
      decreases acc
    {
      NormFold(acc);
      acc := Fold(acc);
    }
    NormSmall(acc);
  }

  /** `inet_chksum`. */
  method InetChksum(data: seq<byte>) returns (c: nat)
    ensures c == 65535 - Norm(Sum(data) % LONG)
  {
    hide Norm, Sum;
    var acc := Chksum(data);
    NormSmall(acc);
    acc := FoldAll(acc);
    c := 65535 - acc % WORD;
  }

  /** The bytes of a buffer chain. */
  function Flat(chain: seq<seq<byte>>): seq<byte> {
    if chain == [] then [] else chain[0] + Flat(chain[1..])
  }

  lemma {:induction false} FlatConcat(a: seq<seq<byte>>, b: seq<seq<byte>>)
    ensures Flat(a + b) == Flat(a) + Flat(b)
  {
    if a == [] {
      assert a + b == b;
    } else {
      assert (a + b)[1..] == a[1..] + b;
      FlatConcat(a[1..], b);
    }
  }

  lemma FlatSnoc(chain: seq<seq<byte>>, k: nat)
    requires k < |chain|
    ensures Flat(chain[..k + 1]) == Flat(chain[..k]) + chain[k]
  {
    assert chain[..k + 1] == chain[..k] + [chain[k]];
    FlatConcat(chain[..k], [chain[k]]);
    assert [chain[k]][1..] == [];
    assert Flat([chain[k]]) == chain[k];
  }

  /** No buffer of the chain overflows the accumulator. */
  predicate Fits(chain: seq<seq<byte>>) {
    forall i :: 0 <= i < |chain| ==> Sum(chain[i]) < LONG
  }

  /** What is accumulated after some buffers: the sum so far, its bytes swapped while the length so far is odd. */
  function Acc(d: seq<byte>, swapped: bool): nat {
    Norm(if swapped then 256 * Sum(d) else Sum(d))
  }

  /** One more buffer. */
  lemma AccStep(d: seq<byte>, b: seq<byte>)
    ensures var odd := |d| % 2 != 0;
            var acc := Norm(Acc(d, odd) + Norm(Sum(b)));
            Acc(d + b, |d + b| % 2 != 0) == if |b| % 2 != 0 then Swap(acc) else acc
  {
    hide Norm, Sum, OddSum;
    var odd := |d| % 2 != 0;
    var x := if odd then 256 * Sum(d) else Sum(d);
    SumConcat(d, b);
    NormOdd(b, Sum(d));
    NormAdd(x, Norm(Sum(b)));
    NormAdd(Sum(b), x);
    var acc := Norm(x + Sum(b));
    SwapIs(acc);
    NormTimes(x + Sum(b));
    if odd && |b| % 2 != 0 {
      TwiceSwapped(d, b);
    }
  }

  lemma TwiceSwapped(d: seq<byte>, b: seq<byte>)
    ensures Norm(256 * (256 * Sum(d) + Sum(b))) == Norm(Sum(d) + OddSum(b))
  {
    hide Norm, Sum, OddSum;
    NormOdd(b, Sum(d));
    ZeroSum(256 * Sum(d) + Sum(b), Sum(d) + Sum(b));
    NormSame(256 * (256 * Sum(d) + Sum(b)), Sum(d) + 256 * Sum(b), Sum(d));
  }

  lemma ZeroSum(x: nat, y: nat)
    ensures 256 * x == 0 <==> x == 0
  {
  }

  /** The buffers of a chain one after the other. */
  method Accumulate(chain: seq<seq<byte>>) returns (acc: nat)
    ensures acc < WORD && (Fits(chain) ==> acc == Norm(Sum(Flat(chain))))
  {
    hide Norm, Sum, OddSum, Swap;
    var k, swapped := 0, false;
    acc := 0;
    assert chain[..0] == [];
    EmptySum();
    while k < |chain|
      invariant 0 <= k <= |chain| && acc < WORD && swapped == (|Flat(chain[..k])| % 2 != 0)
      invariant Fits(chain) ==> acc == Acc(Flat(chain[..k]), swapped)
    {
      var c := Chksum(chain[k]);
      ChksumExact(chain[k]);
      AccStep(Flat(chain[..k]), chain[k]);
      FlatSnoc(chain, k);
      acc := FoldAll(acc + c);
      SwapIs(acc);
      if |chain[k]| % 2 != 0 {
        swapped := !swapped;
        acc := Swap(acc);
      }
      k := k + 1;
    }
    assert chain[..k] == chain;
    SwapIs(acc);
    SwapBack(Flat(chain));
    if swapped {
      acc := Swap(acc);
    }
  }

  lemma SwapBack(d: seq<byte>)
    ensures Swap(Norm(256 * Sum(d))) == Norm(Sum(d))
  {
    hide Norm, Sum, Swap;
    SwapIs(Norm(256 * Sum(d)));
    NormTimes(256 * Sum(d));
    NormSame(65536 * Sum(d), Sum(d), Sum(d));
  }

  /** `inet_chksum_pbuf` of a chain, split anywhere, is `inet_chksum` of its bytes. */
  method InetChksumPbuf(chain: seq<seq<byte>>) returns (c: nat)
    ensures c < WORD && (Fits(chain) ==> c == 65535 - Norm(Sum(Flat(chain))))
  {
    hide Norm, Sum;
    var acc := Accumulate(chain);
    c := 65535 - acc % WORD;
  }

  // ---------- The pseudo header ----------

  /** Source and destination address as stored, a zero byte, the protocol, and the length in network order. */
  function PseudoHeader(src: seq<byte>, dest: seq<byte>, proto: byte, len: nat): seq<byte>
    requires |src| == |dest| == 4 && len < WORD
  {
    src + dest + [0, proto, (len / 256) as byte, (len % 256) as byte]
  }

  /** A 32-bit number from its bytes in memory. */
  function Addr(a: seq<byte>): nat
    requires |a| == 4
  {
    a[0] as nat + 256 * a[1] as nat + 65536 * a[2] as nat + 16777216 * a[3] as nat
  }

  /** `inet_chksum_pseudo` is the checksum of the pseudo header followed by the bytes of the chain. */
  method InetChksumPseudo(chain: seq<seq<byte>>, src: seq<byte>, dest: seq<byte>, proto: byte, len: nat)
    returns (c: nat)
    requires |src| == |dest| == 4 && len < WORD
    ensures c < WORD
    ensures Fits(chain) ==> c == 65535 - Norm(Sum(PseudoHeader(src, dest, proto, len) + Flat(chain)))
  {
    hide Norm, Sum, Swap, Addr;
    var acc := Accumulate(chain);
    var s, d := Addr(src), Addr(dest);
    var words := s % WORD + s / WORD % WORD + d % WORD + d / WORD % WORD + Swap(proto as nat) + Swap(len);
    PseudoSum(src, dest, proto, len, Flat(chain));
    NormAdd(Sum(Flat(chain)), words);
    acc := FoldAll(acc + words);
    c := 65535 - acc % WORD;
  }

  lemma PseudoSum(src: seq<byte>, dest: seq<byte>, proto: byte, len: nat, d: seq<byte>)
    requires |src| == |dest| == 4 && len < WORD
    ensures Sum(PseudoHeader(src, dest, proto, len) + d) ==
            Addr(src) % WORD + Addr(src) / WORD % WORD + Addr(dest) % WORD + Addr(dest) / WORD % WORD +
            Swap(proto as nat) + Swap(len) + Sum(d)
  {
    hide Norm, Swap, Addr;
    var tail := [0, proto, (len / 256) as byte, (len % 256) as byte];
    SumConcat(PseudoHeader(src, dest, proto, len), d);
    SumConcat(src + dest, tail);
    SumConcat(src, dest);
    FourBytes(src);
    FourBytes(dest);
    FourBytes(tail);
    SwapBytes(proto, len);
  }

  lemma SwapBytes(proto: byte, len: nat)
    requires len < WORD
    ensures Swap(proto as nat) == 256 * proto as nat && Swap(len) == len / 256 + 256 * (len % 256)
  {
  }

  lemma FourBytes(a: seq<byte>)
    requires |a| == 4
    ensures Sum(a) == a[0] as nat + 256 * a[1] as nat + a[2] as nat + 256 * a[3] as nat
    ensures Addr(a) % WORD + Addr(a) / WORD % WORD == Sum(a)
  {
    hide Norm;
    assert [a[0], a[1], a[2], a[3]] == a;
    SumWord(a, 0);
    SumWord(a, 2);
    assert a[..0] == [] && a[..2 + 2] == a && a[..0 + 2] == a[..2];
    EmptySum();
    AddrHalves(a[0] as nat + 256 * a[1] as nat, a[2] as nat + 256 * a[3] as nat);
  }

  lemma AddrHalves(lo: nat, hi: nat)
    requires lo < WORD && hi < WORD
    ensures (lo + 65536 * hi) % WORD == lo && (lo + 65536 * hi) / WORD % WORD == hi
  {
  }

  // ---------- Verification of a stored checksum ----------

  /** The two bytes at `at` replaced by a word. */
  function Stored(d: seq<byte>, at: nat, c: nat): seq<byte>
    requires at + 1 < |d| && c < WORD
  {
    d[at := (c % 256) as byte][at + 1 := (c / 256) as byte]
  }

  function WordAt(d: seq<byte>, at: nat): nat
    requires at + 1 < |d|
  {
    d[at] as nat + 256 * d[at + 1] as nat
  }

  lemma SumStored(d: seq<byte>, at: nat, c: nat)
    requires at + 1 < |d| && at % 2 == 0 && c < WORD
    ensures Sum(Stored(d, at, c)) == Sum(d) - WordAt(d, at) + c && WordAt(Stored(d, at, c), at) == c
    ensures Sum(d) >= WordAt(d, at)
  {
    hide Norm, Sum;
    var e := Stored(d, at, c);
    SumAround(d, at);
    SumAround(e, at);
    assert e[..at] == d[..at] && e[at + 2..] == d[at + 2..];
  }

  lemma SumAround(d: seq<byte>, at: nat)
    requires at + 1 < |d| && at % 2 == 0
    ensures Sum(d) == Sum(d[..at]) + WordAt(d, at) + Sum(d[at + 2..])
  {
    hide Norm, Sum;
    assert d == d[..at + 2] + d[at + 2..];
    SumConcat(d[..at + 2], d[at + 2..]);
    SumWord(d, at);
  }

  /** A checksum stored in a zeroed field at an even offset makes the checksum of the whole come out as zero. */
  lemma StoredVerifies(d: seq<byte>, at: nat)
    requires at + 1 < |d| && at % 2 == 0 && WordAt(d, at) == 0
    ensures 65535 - Norm(Sum(Stored(d, at, 65535 - Norm(Sum(d))))) == 0
  {
    hide Sum, Stored, WordAt;
    SumStored(d, at, 65535 - Norm(Sum(d)));
    Complement(Sum(d));
  }

  lemma Complement(x: nat)
    ensures Norm(x + 65535 - Norm(x)) == 65535
  {
    var k := NormSplit(x);
    NormSame(x + 65535 - Norm(x), 65535, k);
  }
}
