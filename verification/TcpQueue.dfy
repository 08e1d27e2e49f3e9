/** The send queue of a connection as a value: segments that follow one another without a gap in sequence space. */
module TcpQueue {
  import opened Octets
  import opened TcpSeq

  /** A segment to send: first sequence number, payload, flags, number of packet buffers, and the room left in the last
      of these (negative when there is none). */
  datatype OutSeg = OutSeg(start: seqno, data: seq<byte>, syn: bool, fin: bool, bufs: nat, spare: int)

  /** One position of the sequence space: SYN and FIN occupy one like a byte of data. */
  datatype Unit = Syn | Octet(b: byte) | Fin

  /** Sequence space a segment occupies. */
  function Len(s: OutSeg): nat { |s.data| + if s.syn || s.fin then 1 else 0 }

  function DataUnits(data: seq<byte>): (r: seq<Unit>)
    ensures |r| == |data|
  {
    seq(|data|, i requires 0 <= i < |data| => Octet(data[i]))
  }

  function Units(s: OutSeg): (r: seq<Unit>)
    ensures |r| == Len(s)
  {
    if s.syn then [Syn] + DataUnits(s.data) else if s.fin then DataUnits(s.data) + [Fin] else DataUnits(s.data)
  }

  /** What a list of segments carries, in order. */
  function Contents(q: seq<OutSeg>): seq<Unit> {
    if q == [] then [] else Units(q[0]) + Contents(q[1..])
  }

  function Bufs(q: seq<OutSeg>): nat {
    if q == [] then 0 else q[0].bufs + Bufs(q[1..])
  }

  /** The segments cover the sequence space from `from` on without gap or overlap, and none is empty. */
  predicate Chained(q: seq<OutSeg>, from: seqno) {
    q == [] || (q[0].start == from && Len(q[0]) > 0 && Chained(q[1..], Add(from, Len(q[0]))))
  }

  // ---------- Concatenation ----------

  lemma {:induction false} ContentsConcat(a: seq<OutSeg>, b: seq<OutSeg>)
    ensures Contents(a + b) == Contents(a) + Contents(b) && Bufs(a + b) == Bufs(a) + Bufs(b)
  {
    if a == [] {
      assert a + b == b;
    } else {
      assert (a + b)[1..] == a[1..] + b;
      ContentsConcat(a[1..], b);
    }
  }

  lemma {:induction false} ChainedConcat(a: seq<OutSeg>, b: seq<OutSeg>, from: seqno)
    ensures Chained(a + b, from) <==> Chained(a, from) && Chained(b, Add(from, |Contents(a)|))
  {
    if a == [] {
      assert a + b == b;
      assert Add(from, 0) == from;
    } else {
      assert (a + b)[1..] == a[1..] + b;
      ChainedConcat(a[1..], b, Add(from, Len(a[0])));
      AddAdd(from, Len(a[0]), |Contents(a[1..])|);
    }
  }

  lemma OneContents(s: OutSeg, from: seqno)
    ensures Contents([s]) == Units(s) && Bufs([s]) == s.bufs
    ensures Chained([s], from) <==> s.start == from && Len(s) > 0
  {
    assert [s][1..] == [];
  }

  // ---------- Acknowledgement ----------

  /** How many segments from the front end at or below position `a` (counted from the start of the queue). */
  function Covered(q: seq<OutSeg>, a: int): (k: nat)
    ensures k <= |q|
  {
    if q == [] || Len(q[0]) > a then 0 else 1 + Covered(q[1..], a - Len(q[0]))
  }

  /** An acknowledgement up to position `a` removes a prefix; what stays is chained from its end, and the position lies
      inside the first segment that stays. */
  lemma CoveredOk(q: seq<OutSeg>, from: seqno, a: nat)
    requires Chained(q, from) && a <= |Contents(q)|
    ensures var k := Covered(q, a);
            var d := |Contents(q[..k])|;
            && d <= a && Chained(q[k..], Add(from, d))
            && Contents(q) == Contents(q[..k]) + Contents(q[k..]) && Bufs(q) == Bufs(q[..k]) + Bufs(q[k..])
            && (k < |q| ==> a < d + Len(q[k])) && (k == |q| ==> a == d)
  {
    hide Units, Add, Covered, Contents, Bufs, Chained;
    var k := Covered(q, a);
    assert q == q[..k] + q[k..];
    ContentsConcat(q[..k], q[k..]);
    ChainedConcat(q[..k], q[k..], from);
    CoveredRange(q, a);
  }

  lemma {:induction false} CoveredRange(q: seq<OutSeg>, a: nat)
    requires a <= |Contents(q)|
    ensures var k := Covered(q, a);
            var d := |Contents(q[..k])|;
            d <= a && (k < |q| ==> a < d + Len(q[k])) && (k == |q| ==> a == d)
  {
    hide Units;
    var k := Covered(q, a);
    if q != [] && Len(q[0]) <= a {
      CoveredRange(q[1..], a - Len(q[0]));
      assert q[..k][1..] == q[1..][..k - 1];
    }
  }

  lemma CoveredSplit(a: seq<OutSeg>, b: seq<OutSeg>, n: int)
    ensures Covered(a + b, n) ==
            if Covered(a, n) < |a| then Covered(a, n) else |a| + Covered(b, n - |Contents(a)|)
  {
    if a == [] {
      assert a + b == b;
    } else {
      assert (a + b)[1..] == a[1..] + b;
      CoveredSplit(a[1..], b, n - Len(a[0]));
    }
  }
}
