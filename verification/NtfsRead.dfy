/** Reading an attribute: through its run list, or from the record when it is resident. */
module NtfsRead {
  import opened Octets
  import opened NtfsRuns
  import opened Bits

  /** The disk as the code addresses it: sectors of 512 bytes, clusters of a multiple of that. */
  ghost predicate Sizes(cs: nat) { cs > 0 && cs % 512 == 0 }

  /** `devread`: `n` bytes from byte `off` of a sector on, or a failure. */
  method DevRead(disk: seq<byte>, sector: int, off: nat, n: nat) returns (ok: bool, d: seq<byte>)
    ensures ok <==> OnDisk(disk, 512 * sector + off, n)
    ensures ok ==> d == disk[512 * sector + off..512 * sector + off + n]
  {
    ok := 0 <= 512 * sector + off && 512 * sector + off + n <= |disk|;
    d := if ok then disk[512 * sector + off..512 * sector + off + n] else [];
  }

  predicate OnDisk(disk: seq<byte>, at: int, n: nat) { 0 <= at && at + n <= |disk| }

  // ---------- The flat attribute ----------

  /** Byte `i` of the attribute as the code reads it: a run that starts at cluster zero counts as a hole. */
  function FlatByte(disk: seq<byte>, runs: seq<Run>, cs: nat, i: nat): byte
    requires cs > 0 && i / cs < Total(runs)
  {
    var at := Cluster(runs, i / cs) * cs + i % cs;
    if IsHole(runs, i / cs) || !(0 <= at < |disk|) then 0 else disk[at]
  }

  predicate IsHole(runs: seq<Run>, v: nat)
    requires v < Total(runs)
  {
    Cnum(runs[Find(runs, v)]) == 0
  }

  /** Byte `i` of the attribute as the run list means it. */
  function TrueByte(disk: seq<byte>, runs: seq<Run>, cs: nat, i: nat): byte
    requires cs > 0 && i / cs < Total(runs)
  {
    var k := Find(runs, i / cs);
    var at := (runs[k].lcn + i / cs - Total(runs[..k])) * cs + i % cs;
    if runs[k].hole || !(0 <= at < |disk|) then 0 else disk[at]
  }

  /** The code reads what the run list means, except the bytes of a run at cluster zero, which come out as zero. */
  lemma ReadsTrue(disk: seq<byte>, runs: seq<Run>, cs: nat, i: nat)
    requires cs > 0 && i / cs < Total(runs)
    ensures var r := runs[Find(runs, i / cs)];
            FlatByte(disk, runs, cs, i) == TrueByte(disk, runs, cs, i) <==>
            r.hole || r.lcn != 0 || TrueByte(disk, runs, cs, i) == 0
  {
  }

  /** A file in the first cluster of the volume, such as the boot sector, reads as zeros. */
  lemma FirstCluster()
    ensures var runs, disk := [Run(1, false, 0)], [1 as byte];
            && Total(runs) == 1 && TrueByte(disk, runs, 512, 0) == 1 && FlatByte(disk, runs, 512, 0) == 0
  {
    var runs := [Run(1, false, 0)];
    assert runs[1..] == [] && Total([]) == 0 && Total(runs) == 1;
    assert runs[..0] == [];
    assert 0 / 512 == 0 && 0 % 512 == 0;
  }

  /** These are the bytes of the attribute from `from` on. */
  ghost predicate IsSlice(d: seq<byte>, disk: seq<byte>, runs: seq<Run>, cs: nat, from: nat) {
    cs > 0 && forall j :: 0 <= j < |d| ==> ByteIs(d[j], disk, runs, cs, from + j)
  }

  ghost predicate ByteIs(b: byte, disk: seq<byte>, runs: seq<Run>, cs: nat, i: nat)
    requires cs > 0
  {
    i / cs < Total(runs) && b == FlatByte(disk, runs, cs, i)
  }

  /** These are the bytes the run list means. */
  ghost predicate IsTrueSlice(d: seq<byte>, disk: seq<byte>, runs: seq<Run>, cs: nat, from: nat) {
    cs > 0 && forall j :: 0 <= j < |d| ==> TrueByteIs(d[j], disk, runs, cs, from + j)
  }

  ghost predicate TrueByteIs(b: byte, disk: seq<byte>, runs: seq<Run>, cs: nat, i: nat)
    requires cs > 0
  {
    i / cs < Total(runs) && b == TrueByte(disk, runs, cs, i)
  }

  predicate Covers(runs: seq<Run>, cs: nat, i: nat)
    requires cs > 0
  {
    i / cs < Total(runs)
  }

  /** Byte `i` lies in a run that starts at cluster zero. */
  predicate AtZero(runs: seq<Run>, cs: nat, i: nat)
    requires cs > 0
  {
    i / cs < Total(runs) && var r := runs[Find(runs, i / cs)]; !r.hole && r.lcn == 0
  }

  /** What is read is what the run list means, for every disk, exactly when no run of the range starts at cluster zero. */
  lemma ReadsTruly(runs: seq<Run>, cs: nat, from: nat, n: nat)
    requires cs > 0 && forall i :: from <= i < from + n ==> Covers(runs, cs, i)
    ensures (forall disk: seq<byte>, d: seq<byte> :: |d| == n && IsSlice(d, disk, runs, cs, from) ==>
               IsTrueSlice(d, disk, runs, cs, from)) <==>
            (forall i :: from <= i < from + n ==> !AtZero(runs, cs, i))
  {
    hide IsSlice, IsTrueSlice, Covers, AtZero;
    if i :| from <= i < from + n && AtZero(runs, cs, i) {
      var disk := ZeroRunDisk(runs, cs, i);
      var d := SliceOf(disk, runs, cs, from, n);
      NotTrue(d, disk, runs, cs, from, i);
    } else {
      forall disk: seq<byte>, d: seq<byte> | |d| == n && IsSlice(d, disk, runs, cs, from)
        ensures IsTrueSlice(d, disk, runs, cs, from)
      {
        SliceIsTrue(d, disk, runs, cs, from);
      }
    }
  }

  lemma SliceIsTrue(d: seq<byte>, disk: seq<byte>, runs: seq<Run>, cs: nat, from: nat)
    requires cs > 0 && IsSlice(d, disk, runs, cs, from) && forall i :: from <= i < from + |d| ==> !AtZero(runs, cs, i)
    ensures IsTrueSlice(d, disk, runs, cs, from)
  {
    hide Find, Total, FlatByte, TrueByte;
    forall j | 0 <= j < |d| ensures TrueByteIs(d[j], disk, runs, cs, from + j) {
      assert ByteIs(d[j], disk, runs, cs, from + j) && !AtZero(runs, cs, from + j);
      ReadsTrue(disk, runs, cs, from + j);
    }
  }

  lemma {:induction false} SliceOf(disk: seq<byte>, runs: seq<Run>, cs: nat, from: nat, n: nat) returns (d: seq<byte>)
    requires cs > 0 && forall i :: from <= i < from + n ==> Covers(runs, cs, i)
    ensures |d| == n && IsSlice(d, disk, runs, cs, from)
  {
    hide Find, Total, FlatByte;
    if n == 0 {
      d := [];
    } else {
      d := SliceOf(disk, runs, cs, from, n - 1);
      assert Covers(runs, cs, from + n - 1);
      d := d + [FlatByte(disk, runs, cs, from + n - 1)];
    }
  }

  lemma NotTrue(d: seq<byte>, disk: seq<byte>, runs: seq<Run>, cs: nat, from: nat, i: nat)
    requires cs > 0 && IsSlice(d, disk, runs, cs, from) && from <= i < from + |d| && Covers(runs, cs, i)
    requires FlatByte(disk, runs, cs, i) != TrueByte(disk, runs, cs, i)
    ensures !IsTrueSlice(d, disk, runs, cs, from)
  {
    hide Find, Total, FlatByte, TrueByte;
    var j := i - from;
    assert from + j == i;
    assert ByteIs(d[j], disk, runs, cs, from + j);
    assert !TrueByteIs(d[j], disk, runs, cs, from + j);
  }

  /** A disk on which such a byte is not zero. */
  lemma ZeroRunDisk(runs: seq<Run>, cs: nat, i: nat) returns (disk: seq<byte>)
    requires cs > 0 && AtZero(runs, cs, i)
    ensures Covers(runs, cs, i) && FlatByte(disk, runs, cs, i) != TrueByte(disk, runs, cs, i)
  {
    hide Find, Total;
    var v := i / cs;
    FindRange(runs, v);
    var at := (v - Total(runs[..Find(runs, v)])) * cs + i % cs;
    MulMono(0, v - Total(runs[..Find(runs, v)]), cs);
    disk := seq(at + 1, k => 1);
    assert disk[at] == 1;
  }

  /** A byte further on in the same run is as much further on on disk. */
  lemma SameRun(runs: seq<Run>, cs: nat, v: nat, x: nat, i: nat)
    requires v < Total(runs) && cs > 0 && x < Left(runs, v) * cs && i == v * cs + x
    ensures i / cs < Total(runs) && Find(runs, i / cs) == Find(runs, v) && (IsHole(runs, i / cs) <==> IsHole(runs, v))
    ensures !IsHole(runs, v) ==> Cluster(runs, i / cs) * cs + i % cs == Cluster(runs, v) * cs + x
  {
    hide Total, Find;
    var k := Find(runs, v);
    var q := Cells(v, x, cs, Left(runs, v));
    FindRange(runs, v);
    FindIs(runs, v + q, k);
    if !IsHole(runs, v) { Linear(Cluster(runs, v), q, cs); }
  }

  /** Whole clusters in `x` bytes. */
  lemma Cells(v: nat, x: nat, cs: nat, left: int) returns (q: nat)
    requires cs > 0 && x < left * cs
    ensures q < left && x == q * cs + x % cs && (v * cs + x) / cs == v + q && (v * cs + x) % cs == x % cs
  {
    DivFacts(x, cs);
    q := x / cs;
    if q >= left { MulMono(left, q, cs); }
    Linear(v, q, cs);
    DivUnique(v * cs + x, cs, v + q, x % cs);
  }

  lemma Linear(v: int, q: int, cs: nat)
    ensures (v + q) * cs == v * cs + q * cs
  {
  }

  /** The sector and the byte in it that the code computes are those of the cluster and the byte in it. */
  lemma Address(cl: int, cs: nat, off: nat)
    requires Sizes(cs)
    ensures 512 * (cl * (cs / 512) + off / 512) + off % 512 == cl * cs + off
  {
    var m := cs / 512;
    assert cs == 512 * m;
    assert cl * cs == 512 * (cl * m) by { assert cl * (512 * m) == 512 * (cl * m); }
  }

  /** A chunk read within one run. */
  lemma ChunkOk(d: seq<byte>, disk: seq<byte>, runs: seq<Run>, cs: nat, v: nat, off: nat)
    requires v < Total(runs) && cs > 0 && off + |d| <= Left(runs, v) * cs
    requires if IsHole(runs, v) then forall j :: 0 <= j < |d| ==> d[j] == 0
             else var at := Cluster(runs, v) * cs + off; OnDisk(disk, at, |d|) && d == disk[at..at + |d|]
    ensures IsSlice(d, disk, runs, cs, v * cs + off)
  {
    hide Total, Left, Cluster, IsHole;
    forall j | 0 <= j < |d| ensures ByteIs(d[j], disk, runs, cs, v * cs + off + j) {
      SameRun(runs, cs, v, off + j, v * cs + off + j);
    }
  }

  lemma SliceJoin(a: seq<byte>, b: seq<byte>, disk: seq<byte>, runs: seq<Run>, cs: nat, from: nat)
    requires IsSlice(a, disk, runs, cs, from) && IsSlice(b, disk, runs, cs, from + |a|)
    ensures IsSlice(a + b, disk, runs, cs, from)
  {
    hide ByteIs;
    var c := a + b;
    forall j | 0 <= j < |c| ensures ByteIs(c[j], disk, runs, cs, from + j) {
      if j >= |a| { assert ByteIs(b[j - |a|], disk, runs, cs, from + |a| + (j - |a|)); }
    }
  }

  // ---------- The code ----------

  /** Why reading stops at byte `pos` of the attribute: its end, a hole where none is accepted, or the disk fails. */
  ghost predicate Stops(disk: seq<byte>, runs: seq<Run>, cs: nat, evcn: int, pos: nat, left: nat, strict: bool)
    requires cs > 0
  {
    var v := pos / cs;
    || v > evcn
    || (v < Total(runs) && strict && Cluster(runs, v) == 0)
    || (v < Total(runs) && Cluster(runs, v) != 0 &&
        !OnDisk(disk, Cluster(runs, v) * cs + pos % cs, Chunk(Left(runs, v), cs, pos % cs, left)))
  }

  /** The cluster at which reading from cluster `from` on enters the run of cluster `v`. */
  function Entry(runs: seq<Run>, from: nat, v: nat): nat
    requires v < Total(runs)
  {
    var start := Total(runs[..Find(runs, v)]);
    if start < from then from else start
  }

  /** Byte `i` can be read, from cluster `from` on: its run is entered before the end, it is on disk, or it is in a hole and
      holes are accepted. */
  ghost predicate Readable(disk: seq<byte>, runs: seq<Run>, cs: nat, evcn: int, from: nat, strict: bool, i: nat)
    requires cs > 0
  {
    var v := i / cs;
    && v < Total(runs) && Entry(runs, from, v) <= evcn
    && if IsHole(runs, v) then !strict else OnDisk(disk, Cluster(runs, v) * cs + i % cs, 1)
  }

  ghost predicate AllReadable(disk: seq<byte>, runs: seq<Run>, cs: nat, evcn: int, from: nat, strict: bool, a: nat, b: nat)
    requires cs > 0
  {
    forall i :: a <= i < b ==> Readable(disk, runs, cs, evcn, from, strict, i)
  }

  /** How much is read at once. */
  function Chunk(clusters: int, cs: nat, off: nat, left: nat): nat {
    if clusters * cs - off > left then left else if clusters * cs - off < 0 then 0 else clusters * cs - off
  }

  /** No run lies at a negative cluster number. */
  ghost predicate Forward(runs: seq<Run>) {
    forall k :: 0 <= k < |runs| ==> runs[k].lcn >= 0
  }

  /** The next chunk, from byte `off` of cluster `vcn` on. */
  method ReadChunk(rl: RunList, disk: seq<byte>, cs: nat, vcn: nat, off: nat, left: nat, strict: bool)
    returns (ok: bool, d: seq<byte>, clen: int)
    requires rl.Valid() && rl.svcn == 0 && Sizes(cs) && off < cs && left > 0 && Forward(rl.runs)
    modifies rl`ptr, rl`vcn, rl`cnum0, rl`cnum, rl`clen, rl`k
    ensures rl.Valid() && (ok <==> !Stops(disk, rl.runs, cs, rl.evcn, Position(vcn, cs, off), left, strict))
    ensures ok ==> vcn < Total(rl.runs) && clen == Left(rl.runs, vcn) > 0 && 0 < |d| == Chunk(clen, cs, off, left) &&
                   IsSlice(d, disk, rl.runs, cs, Position(vcn, cs, off))
  {
    hide RunList.Valid, Total, Left, Cluster, IsHole, IsSlice, Find, Forward;
    DivUnique(vcn * cs + off, cs, vcn, off);
    d := [];
    var cl;
    ok, cl, clen := rl.GetRun(vcn);
    if !ok {
      return;
    }
    InList(rl, vcn);
    if cl == 0 && strict {
      return false, d, clen;
    }
    HoleIs(rl.runs, vcn);
    ChunkSize(clen, cs, off, left);
    var n := clen * cs - off;
    if n > left {
      n := left;
    }
    if cl == 0 {
      d := seq(n, _ => 0 as byte);
    } else {
      Address(cl, cs, off);
      ok, d := DevRead(disk, cl * (cs / 512) + off / 512, off % 512, n);
      if !ok {
        return;
      }
    }
    ChunkOk(d, disk, rl.runs, cs, vcn, off);
  }

  /** `read_attribute` of a non-resident attribute that one run list describes: the bytes asked for, as far as nothing stops
      the reading.  `strict` is the reading through a given run list, which accepts no holes. */
  method ReadRuns(rl: RunList, disk: seq<byte>, cs: nat, offset: nat, buf: array<byte>, len: nat, strict: bool)
    returns (done: nat)
    requires rl.Valid() && rl.svcn == 0 && Sizes(cs) && len <= buf.Length && Forward(rl.runs)
    modifies rl`ptr, rl`vcn, rl`cnum0, rl`cnum, rl`clen, rl`k, buf
    ensures rl.Valid() && done <= len && IsSlice(buf[..done], disk, rl.runs, cs, offset)
    ensures buf[done..] == old(buf[..])[done..]
    ensures done < len ==> Stops(disk, rl.runs, cs, rl.evcn, offset + done, len - done, strict)
    ensures done == len <==> AllReadable(disk, rl.runs, cs, rl.evcn, InCluster(offset, cs), strict, offset, offset + len)
  {
    hide RunList.Valid, IsSlice, Stops, Forward, Sizes, Chunk, Later, Position, AllReadable, Enters, Left, Total, InCluster;
    Begin(offset, cs);
    var vcn: nat, off: nat, left: nat := InCluster(offset, cs), offset % cs, len;
    done := 0;
    ghost var was, from := buf[..], vcn;
    NoSlice(disk, rl.runs, cs, offset);
    FirstEnters(rl.runs, from);
    NoneReadable(disk, rl.runs, cs, rl.evcn, from, strict, offset);
    assert buf[..0] == [];
    while left > 0
      invariant rl.Valid() && done + left == len && off < cs
      invariant left > 0 ==> Position(vcn, cs, off) == offset + done && from <= vcn && Enters(rl.runs, from, vcn)
      invariant AllReadable(disk, rl.runs, cs, rl.evcn, from, strict, offset, offset + done)
      invariant IsSlice(buf[..done], disk, rl.runs, cs, offset) && buf[done..] == was[done..]
      decreases left
    {
      var ok, d, clen := ReadChunk(rl, disk, cs, vcn, off, left, strict);
      if !ok {
        RunsRight(rl, vcn);
        StopUnreadable(disk, rl.runs, cs, rl.evcn, from, strict, vcn, off, left, offset);
        return;
      }
      Advance(disk, rl.runs, cs, rl.evcn, from, strict, vcn, off, left, offset, |d|);
      SliceJoin(buf[..done], d, disk, rl.runs, cs, offset);
      vcn := Later(vcn, cs, off, |d|);
      Store(buf, done, d, was);
      done := done + |d|;
      off := 0;
      left := left - |d|;
    }
  }

  function InCluster(i: nat, cs: nat): nat
    requires cs > 0
  {
    DivNat(i, cs);
    i / cs
  }

  /** Puts the bytes of a chunk behind those that are there. */
  method Store(buf: array<byte>, done: nat, d: seq<byte>, ghost was: seq<byte>)
    requires done + |d| <= buf.Length == |was| && buf[done..] == was[done..]
    modifies buf
    ensures buf[..done + |d|] == old(buf[..done]) + d && buf[done + |d|..] == was[done + |d|..]
  {
    CopyInto(buf, done, d, 0, |d|);
    assert d[0..|d|] == d && was[done..][|d|..] == was[done + |d|..];
  }

  /** After a chunk everything up to its end can be read, and if more is asked for the next run is entered there. */
  lemma Advance(disk: seq<byte>, runs: seq<Run>, cs: nat, evcn: int, from: nat, strict: bool, v: nat, off: nat, left: nat,
                a: nat, n: nat)
    requires cs > 0 && off < cs && left > 0 && Forward(runs) && v < Total(runs) && from <= v && Enters(runs, from, v)
    requires Left(runs, v) > 0 && 0 < n == Chunk(Left(runs, v), cs, off, left)
    requires !Stops(disk, runs, cs, evcn, Position(v, cs, off), left, strict)
    requires AllReadable(disk, runs, cs, evcn, from, strict, a, Position(v, cs, off))
    ensures n <= left && AllReadable(disk, runs, cs, evcn, from, strict, a, Position(v, cs, off) + n)
    ensures n < left ==> var w := Later(v, cs, off, n);
                         from <= w && Enters(runs, from, w) && Position(w, cs, 0) == Position(v, cs, off) + n
  {
    hide Stops, Forward, Chunk, Later, Position, AllReadable, Enters, Left, Total;
    ChunkReadable(disk, runs, cs, evcn, from, strict, v, off, left, a);
    NextEnters(runs, from, v);
    AfterChunk(Left(runs, v), cs, off, n, left, v);
  }

  /** The run of `v` is entered at `v`, if there is one. */
  ghost predicate Enters(runs: seq<Run>, from: nat, v: nat) {
    v < Total(runs) ==> Entry(runs, from, v) == v
  }

  lemma FirstEnters(runs: seq<Run>, from: nat)
    ensures Enters(runs, from, from)
  {
    if from < Total(runs) { FindRange(runs, from); }
  }

  /** Behind a run the next one is entered at its start. */
  lemma NextEnters(runs: seq<Run>, from: nat, v: nat)
    requires v < Total(runs) && from <= v
    ensures Enters(runs, from, v + Left(runs, v))
  {
    hide Find, Total;
    var w := v + Left(runs, v);
    if w < Total(runs) {
      FindRange(runs, v);
      FindRange(runs, w);
      var k, j := Find(runs, v), Find(runs, w);
      TotalStep(runs, k);
      TotalStep(runs, j);
      if j <= k {
        TotalMono(runs, j + 1, k + 1);
      } else {
        TotalMono(runs, k + 1, j);
      }
    }
  }

  lemma {:induction false} TotalConcat(a: seq<Run>, b: seq<Run>)
    ensures Total(a + b) == Total(a) + Total(b)
  {
    if a == [] {
      assert a + b == b;
    } else {
      assert (a + b)[1..] == a[1..] + b;
      TotalConcat(a[1..], b);
    }
  }

  lemma TotalMono(runs: seq<Run>, a: nat, b: nat)
    requires a <= b <= |runs|
    ensures Total(runs[..a]) <= Total(runs[..b])
  {
    assert runs[..b] == runs[..a] + runs[a..b];
    TotalConcat(runs[..a], runs[a..b]);
  }

  /** All bytes of a chunk that is read can be read. */
  lemma ChunkReadable(disk: seq<byte>, runs: seq<Run>, cs: nat, evcn: int, from: nat, strict: bool, v: nat, off: nat,
                      left: nat, a: nat)
    requires cs > 0 && off < cs && left > 0 && Forward(runs) && v < Total(runs) && Enters(runs, from, v)
    requires Left(runs, v) > 0 && !Stops(disk, runs, cs, evcn, Position(v, cs, off), left, strict)
    requires AllReadable(disk, runs, cs, evcn, from, strict, a, Position(v, cs, off))
    ensures AllReadable(disk, runs, cs, evcn, from, strict, a,
                        Position(v, cs, off) + Chunk(Left(runs, v), cs, off, left))
  {
    hide Find, Total, Cluster, IsHole, Left, Forward;
    DivUnique(v * cs + off, cs, v, off);
    HoleIs(runs, v);
    ChunkSize(Left(runs, v), cs, off, left);
    var pos, n := Position(v, cs, off), Chunk(Left(runs, v), cs, off, left);
    forall i | pos <= i < pos + n ensures Readable(disk, runs, cs, evcn, from, strict, i) {
      SameRun(runs, cs, v, i - v * cs, i);
    }
  }

  lemma NoneReadable(disk: seq<byte>, runs: seq<Run>, cs: nat, evcn: int, from: nat, strict: bool, a: nat)
    requires cs > 0
    ensures AllReadable(disk, runs, cs, evcn, from, strict, a, a)
  {
  }

  /** Where reading stops, some byte still asked for cannot be read. */
  lemma StopUnreadable(disk: seq<byte>, runs: seq<Run>, cs: nat, evcn: int, from: nat, strict: bool, v: nat, off: nat,
                       left: nat, a: nat)
    requires cs > 0 && off < cs && left > 0 && Forward(runs) && evcn < Total(runs) && Enters(runs, from, v)
    requires v < Total(runs) ==> Left(runs, v) > 0
    requires Stops(disk, runs, cs, evcn, Position(v, cs, off), left, strict)
    requires a <= Position(v, cs, off)
    ensures !AllReadable(disk, runs, cs, evcn, from, strict, a, Position(v, cs, off) + left)
  {
    hide Find, Total, Cluster, IsHole, Left, Forward;
    DivUnique(v * cs + off, cs, v, off);
    var i := Position(v, cs, off);
    if v < Total(runs) && v <= evcn {
      HoleIs(runs, v);
      if !IsHole(runs, v) {
        ChunkSize(Left(runs, v), cs, off, left);
        var n := Chunk(Left(runs, v), cs, off, left);
        i := i + n - 1;
        ClusterAhead(runs, cs, v);
        SameRun(runs, cs, v, off + n - 1, i);
      }
    }
    assert !Readable(disk, runs, cs, evcn, from, strict, i);
  }

  lemma ClusterAhead(runs: seq<Run>, cs: nat, v: nat)
    requires v < Total(runs) && Forward(runs)
    ensures Cluster(runs, v) * cs >= 0
  {
    FindRange(runs, v);
    MulMono(0, Cluster(runs, v), cs);
  }

  lemma NoSlice(disk: seq<byte>, runs: seq<Run>, cs: nat, from: nat)
    requires cs > 0
    ensures IsSlice([], disk, runs, cs, from)
  {
  }

  lemma InList(rl: RunList, v: int)
    requires rl.Valid() && rl.svcn == 0 <= v <= rl.evcn
    ensures v < Total(rl.runs)
  {
  }

  lemma RunsRight(rl: RunList, v: nat)
    requires rl.Valid() && rl.svcn == 0
    ensures rl.evcn < Total(rl.runs) && (v < Total(rl.runs) ==> Left(rl.runs, v) > 0)
  {
    hide Encodes, Place;
    if v < Total(rl.runs) { FindRange(rl.runs, v); }
  }

  lemma HoleIs(runs: seq<Run>, v: nat)
    requires v < Total(runs) && Forward(runs)
    ensures Cluster(runs, v) == 0 <==> IsHole(runs, v)
  {
    FindRange(runs, v);
  }

  lemma ChunkSize(clusters: int, cs: nat, off: nat, left: nat)
    requires clusters > 0 && off < cs && left > 0
    ensures clusters * cs - off > 0
    ensures Chunk(clusters, cs, off, left) == if clusters * cs - off > left then left else clusters * cs - off
  {
    MulMono(1, clusters, cs);
  }

  lemma AfterChunk(clusters: int, cs: nat, off: nat, n: nat, left: nat, vcn: nat)
    requires clusters > 0 && off < cs && 0 < n == Chunk(clusters, cs, off, left)
    ensures n <= left && (n < left ==> Later(vcn, cs, off, n) == vcn + clusters)
    ensures n < left ==> Position(Later(vcn, cs, off, n), cs, 0) == Position(vcn, cs, off) + n
  {
    if n < left {
      DivUnique(off + n, cs, clusters, 0);
      assert (vcn + clusters) * cs == vcn * cs + clusters * cs;
    }
  }

  /** Byte `off` of cluster `vcn`. */
  function Position(vcn: nat, cs: nat, off: nat): nat { vcn * cs + off }

  /** The cluster reached after `n` more bytes. */
  function Later(vcn: nat, cs: nat, off: nat, n: nat): (v: nat)
    requires cs > 0
  {
    DivNat(off + n, cs);
    vcn + (off + n) / cs
  }

  lemma Begin(offset: nat, cs: nat)
    requires Sizes(cs)
    ensures cs > 0 && 0 <= offset % cs < cs && Position(InCluster(offset, cs), cs, offset % cs) == offset
  {
    DivFacts(offset, cs);
  }

  /** `read_attribute` of a resident attribute. */
  method ReadResident(attr: seq<byte>, offset: nat, buf: array<byte>, len: nat) returns (done: nat)
    requires len <= buf.Length
    modifies buf
    ensures done == (if offset > |attr| then 0 else if offset + len > |attr| then |attr| - offset else len)
    ensures done > 0 ==> offset + done <= |attr| && buf[..done] == attr[offset..offset + done]
    ensures buf[done..] == old(buf[..])[done..]
  {
    if offset > |attr| {
      return 0;
    }
    done := if offset + len > |attr| then |attr| - offset else len;
    ghost var was := buf[..];
    CopyInto(buf, 0, attr, offset, done);
    assert was[0..][done..] == was[done..];
  }
}
