/** Run lists of NTFS attributes: where the clusters of a non-resident attribute are on disk. */
module NtfsRuns {
  import opened Octets

  /** Some clusters in a row: a hole, or clusters on disk from `lcn` on. */
  datatype Run = Run(len: nat, hole: bool, lcn: int)

  /** The cluster number the cursor holds: zero stands for a hole. */
  function Cnum(r: Run): int { if r.hole then 0 else r.lcn }

  // ---------- Decoding ----------

  /** A little-endian number of `n` bytes. */
  function Little(d: seq<byte>, p: nat, n: nat): nat
    requires p + n <= |d|
    decreases n
  {
    if n == 0 then 0 else d[p] as nat + 256 * Little(d, p + 1, n - 1)
  }

  function Pow256(n: nat): nat { if n == 0 then 1 else 256 * Pow256(n - 1) }

  /** The same as a two's complement number. */
  function Signed(d: seq<byte>, p: nat, n: nat): int
    requires p + n <= |d|
  {
    if n > 0 && Little(d, p, n) >= Pow256(n) / 2 then Little(d, p, n) - Pow256(n) else Little(d, p, n)
  }

  function LenBytes(t: byte): nat { t as nat % 16 }

  function OffBytes(t: byte): nat { t as nat / 16 }

  /** A run is encoded at `p`: fields of at most three bytes, and a positive length. */
  predicate RunHere(d: seq<byte>, p: nat) {
    && p < |d| && LenBytes(d[p]) <= 3 && OffBytes(d[p]) <= 3
    && p + 1 + LenBytes(d[p]) + OffBytes(d[p]) <= |d| && Little(d, p + 1, LenBytes(d[p])) > 0
  }

  function After(d: seq<byte>, p: nat): nat
    requires RunHere(d, p)
  {
    p + 1 + LenBytes(d[p]) + OffBytes(d[p])
  }

  /** Each cluster number is given relative to the one before; holes give none. */
  function Base(d: seq<byte>, p: nat, base: int): int
    requires RunHere(d, p)
  {
    base + Signed(d, p + 1 + LenBytes(d[p]), OffBytes(d[p]))
  }

  function RunAt(d: seq<byte>, p: nat, base: int): Run
    requires RunHere(d, p)
  {
    Run(Little(d, p + 1, LenBytes(d[p])), OffBytes(d[p]) == 0, if OffBytes(d[p]) == 0 then 0 else Base(d, p, base))
  }

  /** The bytes at `p` encode these runs. */
  ghost predicate Encodes(d: seq<byte>, p: nat, base: int, runs: seq<Run>)
    decreases |runs|
  {
    runs == [] ||
    (RunHere(d, p) && runs[0] == RunAt(d, p, base) && Encodes(d, After(d, p), Base(d, p, base), runs[1..]))
  }

  /** Where reading stands after some of the runs. */
  ghost function Place(d: seq<byte>, p: nat, base: int, runs: seq<Run>, k: nat): (nat, int)
    requires Encodes(d, p, base, runs) && k <= |runs|
    decreases k
  {
    if k == 0 then (p, base) else Place(d, After(d, p), Base(d, p, base), runs[1..], k - 1)
  }

  lemma {:induction false} PlaceStep(d: seq<byte>, p: nat, base: int, runs: seq<Run>, k: nat)
    requires Encodes(d, p, base, runs) && k < |runs|
    ensures var (q, b) := Place(d, p, base, runs, k);
            && RunHere(d, q) && runs[k] == RunAt(d, q, b) && runs[k].len > 0
            && Place(d, p, base, runs, k + 1) == (After(d, q), Base(d, q, b))
    decreases k
  {
    if k > 0 { PlaceStep(d, After(d, p), Base(d, p, base), runs[1..], k - 1); }
  }

  // ---------- Encoding ----------

  /** A number in three bytes, least significant first; negative ones in two's complement. */
  function Three(v: int): (d: seq<byte>)
    ensures |d| == 3
  {
    var u := v % 0x100_0000;
    [(u % 256) as byte, (u / 256 % 256) as byte, (u / 65536) as byte]
  }

  /** Runs that three bytes per field can hold, each cluster number relative to the one before. */
  predicate Fitting(runs: seq<Run>, base: int)
    decreases |runs|
  {
    runs == [] ||
    (var r := runs[0];
     && 0 < r.len < 0x100_0000
     && if r.hole then r.lcn == 0 && Fitting(runs[1..], base)
        else -0x80_0000 <= r.lcn - base < 0x80_0000 && Fitting(runs[1..], r.lcn))
  }

  /** A run list: the sizes of the fields in one byte, the length, and unless it is a hole the distance to the last run. */
  function Encode(runs: seq<Run>, base: int): seq<byte>
    decreases |runs|
  {
    if runs == [] then []
    else if runs[0].hole then [0x03] + Three(runs[0].len) + Encode(runs[1..], base)
    else [0x33] + Three(runs[0].len) + Three(runs[0].lcn - base) + Encode(runs[1..], runs[0].lcn)
  }

  lemma ThreeLittle(d: seq<byte>, p: nat, v: int)
    requires p + 3 <= |d| && d[p..p + 3] == Three(v)
    ensures Little(d, p, 3) == v % 0x100_0000
  {
    var u := v % 0x100_0000;
    assert d[p] == Three(v)[0] && d[p + 1] == Three(v)[1] && d[p + 2] == Three(v)[2];
    assert Little(d, p + 2, 1) == d[p + 2] as nat + 256 * Little(d, p + 3, 0);
    assert Little(d, p + 1, 2) == d[p + 1] as nat + 256 * Little(d, p + 2, 1);
  }

  lemma ThreeSigned(d: seq<byte>, p: nat, v: int)
    requires p + 3 <= |d| && d[p..p + 3] == Three(v) && -0x80_0000 <= v < 0x80_0000
    ensures Signed(d, p, 3) == v
  {
    hide Little, Three;
    ThreeLittle(d, p, v);
    assert Pow256(1) == 256 && Pow256(3) == 0x100_0000;
  }

  /** What is encoded is read back. */
  lemma {:induction false} RoundTrip(d: seq<byte>, p: nat, runs: seq<Run>, base: int)
    requires Fitting(runs, base) && p + |Encode(runs, base)| <= |d| && d[p..p + |Encode(runs, base)|] == Encode(runs, base)
    ensures Encodes(d, p, base, runs)
    decreases |runs|
  {
    hide RunHere, RunAt, After, Base, Three;
    if runs != [] {
      var r, e := runs[0], Encode(runs, base);
      if r.hole {
        Part(d, p, [0x03], Three(r.len) + Encode(runs[1..], base), e);
        Part(d, p + 1, Three(r.len), Encode(runs[1..], base), Three(r.len) + Encode(runs[1..], base));
        HoleHere(d, p, r, base);
        RoundTrip(d, p + 4, runs[1..], base);
      } else {
        var rest := Encode(runs[1..], r.lcn);
        Part(d, p, [0x33], Three(r.len) + (Three(r.lcn - base) + rest), e);
        Part(d, p + 1, Three(r.len), Three(r.lcn - base) + rest, Three(r.len) + (Three(r.lcn - base) + rest));
        Part(d, p + 4, Three(r.lcn - base), rest, Three(r.lcn - base) + rest);
        DataHere(d, p, r, base);
        RoundTrip(d, p + 7, runs[1..], r.lcn);
      }
    }
  }

  lemma Part(d: seq<byte>, p: nat, a: seq<byte>, b: seq<byte>, e: seq<byte>)
    requires e == a + b && p + |e| <= |d| && d[p..p + |e|] == e
    ensures d[p..p + |a|] == a && d[p + |a|..p + |a| + |b|] == b && (|a| == 1 ==> d[p] == a[0])
  {
    assert d[p..p + |a|] == d[p..p + |e|][..|a|];
    assert d[p + |a|..p + |a| + |b|] == d[p..p + |e|][|a|..];
    if |a| == 1 { assert d[p..p + 1][0] == a[0]; }
  }

  lemma HoleHere(d: seq<byte>, p: nat, r: Run, base: int)
    requires p + 4 <= |d| && d[p] == 0x03 && d[p + 1..p + 4] == Three(r.len) && r.hole && r.lcn == 0 && 0 < r.len < 0x100_0000
    ensures RunHere(d, p) && RunAt(d, p, base) == r && After(d, p) == p + 4 && Base(d, p, base) == base
  {
    hide Little;
    ThreeLittle(d, p + 1, r.len);
    NoneLittle(d, p + 4);
  }

  lemma DataHere(d: seq<byte>, p: nat, r: Run, base: int)
    requires p + 7 <= |d| && d[p] == 0x33 && d[p + 1..p + 4] == Three(r.len) && d[p + 4..p + 7] == Three(r.lcn - base)
    requires !r.hole && 0 < r.len < 0x100_0000 && -0x80_0000 <= r.lcn - base < 0x80_0000
    ensures RunHere(d, p) && RunAt(d, p, base) == r && After(d, p) == p + 7 && Base(d, p, base) == r.lcn
  {
    hide Little, Signed;
    ThreeLittle(d, p + 1, r.len);
    ThreeSigned(d, p + 4, r.lcn - base);
  }

  lemma NoneLittle(d: seq<byte>, p: nat)
    requires p <= |d|
    ensures Little(d, p, 0) == 0
  {
  }

  // ---------- Expansion ----------

  function Total(runs: seq<Run>): nat {
    if runs == [] then 0 else runs[0].len + Total(runs[1..])
  }

  lemma {:induction false} TotalStep(runs: seq<Run>, k: nat)
    requires k < |runs|
    ensures Total(runs[..k + 1]) == Total(runs[..k]) + runs[k].len && Total(runs[..k + 1]) <= Total(runs)
  {
    if k == 0 {
      assert runs[..1] == [runs[0]] && runs[..0] == [];
      assert [runs[0]][1..] == [];
    } else {
      assert runs[..k + 1][1..] == runs[1..][..k] && runs[..k][1..] == runs[1..][..k - 1];
      TotalStep(runs[1..], k - 1);
    }
  }

  /** The run that holds cluster `v` of the attribute. */
  function Find(runs: seq<Run>, v: nat): (k: nat)
    requires v < Total(runs)
    ensures k < |runs|
  {
    if v < runs[0].len then 0 else 1 + Find(runs[1..], v - runs[0].len)
  }

  lemma {:induction false} FindIs(runs: seq<Run>, v: nat, k: nat)
    requires k < |runs| && Total(runs[..k]) <= v < Total(runs[..k]) + runs[k].len
    ensures v < Total(runs) && Find(runs, v) == k
  {
    TotalStep(runs, k);
    if k == 0 {
      assert runs[..0] == [];
    } else {
      assert runs[..k][1..] == runs[1..][..k - 1];
      FindIs(runs[1..], v - runs[0].len, k - 1);
    }
  }

  lemma {:induction false} FindRange(runs: seq<Run>, v: nat)
    requires v < Total(runs)
    ensures var k := Find(runs, v); Total(runs[..k]) <= v < Total(runs[..k]) + runs[k].len
  {
    var k := Find(runs, v);
    if k == 0 {
      assert runs[..0] == [];
    } else {
      FindRange(runs[1..], v - runs[0].len);
      assert runs[..k][1..] == runs[1..][..k - 1];
    }
  }

  /** Cluster on disk of cluster `v` as the code gives it, and how many follow in the run. */
  function Cluster(runs: seq<Run>, v: nat): int
    requires v < Total(runs)
  {
    var k := Find(runs, v);
    if Cnum(runs[k]) == 0 then 0 else Cnum(runs[k]) + v - Total(runs[..k])
  }

  function Left(runs: seq<Run>, v: nat): int
    requires v < Total(runs)
  {
    var k := Find(runs, v); Total(runs[..k]) + runs[k].len - v
  }

  // ---------- The cursor ----------

  /** Reads a number of `n` bytes, at most three, and the power of 256 that follows. */
  method ReadNumber(d: seq<byte>, p: nat, n: nat) returns (c: nat, v: nat)
    requires p + n <= |d| && n <= 3
    ensures c == Little(d, p, n) && v == Pow256(n) && c < v <= 0x100_0000
  {
    c, v := 0, 1;
    var i := 0;
    while i < n
      invariant 0 <= i <= n && v == Pow256(i) && c + v * Little(d, p + i, n - i) == Little(d, p, n) && c < v
    {
      ReadStep(c, v, d[p + i] as nat, Little(d, p + i + 1, n - i - 1));
      c := c + v * d[p + i] as nat;
      v := 256 * v;
      i := i + 1;
    }
    assert Pow256(1) == 256 && Pow256(2) == 65536 && Pow256(3) == 0x100_0000;
  }

  lemma ReadStep(c: nat, v: nat, b: nat, rest: nat)
    ensures c + v * (b + 256 * rest) == c + v * b + 256 * v * rest
    ensures b < 256 && c < v ==> c + v * b < 256 * v
  {
    if b < 256 && c < v { assert v * b <= v * 255; }
  }

  /** Reads one run. */
  method ReadRun(d: seq<byte>, p: nat, base: int) returns (len: nat, base': int, cnum: int, q: nat)
    requires RunHere(d, p)
    ensures len == RunAt(d, p, base).len && cnum == Cnum(RunAt(d, p, base)) && base' == Base(d, p, base) && q == After(d, p)
  {
    hide Little, Pow256;
    var t := d[p];
    var v;
    len, v := ReadNumber(d, p + 1, LenBytes(t));
    q := p + 1 + LenBytes(t);
    base', cnum := base, 0;
    if OffBytes(t) == 0 {
      NoBytes(d, q);
    } else {
      var c;
      c, v := ReadNumber(d, q, OffBytes(t));
      base' := base' + c;
      if c >= v / 2 {
        base' := base' - v;
      }
      cnum := base';
    }
    q := q + OffBytes(t);
  }

  lemma NoBytes(d: seq<byte>, p: nat)
    requires p <= |d|
    ensures Little(d, p, 0) == 0
  {
  }

  class RunList {
    const data: seq<byte>
    const start: nat
    const svcn: int
    const evcn: int
    var ptr: nat
    var vcn: int
    var cnum0: int
    var cnum: int
    var clen: nat
    ghost const runs: seq<Run>
    ghost var k: nat           // runs read

    /** The run list covers the clusters from `svcn` to `evcn`, and the cursor stands on the last run read. */
    ghost predicate Valid()
      reads this
    {
      && Encodes(data, start, 0, runs) && k <= |runs| && evcn < svcn + Total(runs)
      && (ptr, cnum0) == Place(data, start, 0, runs, k)
      && (k == 0 ==> vcn == svcn && clen == 0)
      && (k > 0 ==> vcn == svcn + Total(runs[..k - 1]) && clen == runs[k - 1].len && cnum == Cnum(runs[k - 1]))
    }

    constructor (data: seq<byte>, start: nat, svcn: int, evcn: int, ghost runs: seq<Run>)
      requires Encodes(data, start, 0, runs) && evcn < svcn + Total(runs)
      ensures Valid() && this.data == data && this.start == start && this.svcn == svcn && this.evcn == evcn
      ensures this.runs == runs && k == 0
    {
      this.data, this.start, this.svcn, this.evcn, this.runs := data, start, svcn, evcn, runs;
      vcn, ptr, cnum0, cnum, clen, k := svcn, start, 0, 0, 0, 0;
    }

    /** `rewind_run_list`. */
    method Rewind()
      requires Valid()
      modifies this`ptr, this`vcn, this`cnum0, this`cnum, this`clen, this`k
      ensures Valid() && k == 0
    {
      vcn, ptr, cnum0, cnum, clen, k := svcn, start, 0, 0, 0, 0;
    }

    /** `get_next_run`: the next run, unless the end is passed. */
    method GetNextRun() returns (ok: bool)
      requires Valid()
      modifies this`ptr, this`vcn, this`cnum0, this`cnum, this`clen, this`k
      ensures ok <==> old(vcn) + old(clen) <= evcn
      ensures ok ==> Valid() && k == old(k) + 1
    {
      hide Encodes, Place, Total, RunHere, RunAt, After, Base;
      Reached(runs, k);
      vcn := vcn + clen;
      if vcn > evcn {
        return false;
      }
      PlaceStep(data, start, 0, runs, k);
      clen, cnum0, cnum, ptr := ReadRun(data, ptr, cnum0);
      k := k + 1;
      ok := true;
    }

    /** `get_run`: what the stateless expansion of the list gives, wherever earlier calls left the cursor. */
    method GetRun(v: int) returns (ok: bool, cl: int, len: int)
      requires Valid() && svcn <= v
      modifies this`ptr, this`vcn, this`cnum0, this`cnum, this`clen, this`k
      ensures Valid() && (ok <==> v <= evcn)
      ensures ok ==> cl == Cluster(runs, v - svcn) && len == Left(runs, v - svcn) && len > 0
    {
      hide Encodes, Place, Total;
      cl, len := 0, 0;
      if evcn < v {
        return false, 0, 0;
      }
      if vcn > v {
        Rewind();
        Reached(runs, 0);
        ok := GetNextRun();
      }
      while vcn + clen <= v
        invariant Valid() && vcn <= v
        decreases |runs| - k
      {
        Reached(runs, k);
        ok := GetNextRun();
        if !ok {
          return;
        }
      }
      Reached(runs, k);
      FindIs(runs, v - svcn, k - 1);
      cl := if cnum == 0 then 0 else cnum + v - vcn;
      len := clen - v + vcn;
      ok := true;
    }
  }

  lemma Reached(runs: seq<Run>, k: nat)
    requires k <= |runs|
    ensures Total(runs[..k]) <= Total(runs) && (k == |runs| ==> Total(runs[..k]) == Total(runs)) && Total(runs[..0]) == 0
    ensures k > 0 ==> Total(runs[..k]) == Total(runs[..k - 1]) + runs[k - 1].len
  {
    assert runs[..0] == [];
    assert runs[..|runs|] == runs;
    if k > 0 { TotalStep(runs, k - 1); }
  }
}
