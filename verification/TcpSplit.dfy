/** Cutting the caller's data into segments and joining them onto the send queue. */
module TcpSplit {
  import opened Octets
  import opened TcpSeq
  import opened TcpQueue

  /** What decides the shape of new segments: maximum segment size, route MTU, room reserved for headers, and whether
      options are sent in place of data. */
  datatype Params = Params(mss: nat, mtu: nat, hdr: nat, syn: bool, fin: bool, opt: bool)

  /** Unused bytes behind `n` bytes of payload in a new buffer.  Data buffers are made as large as a full segment; the
      room for headers is not part of the recorded buffer size. */
  function NewSpare(p: Params, n: nat): int {
    if p.opt then 0 - p.hdr
    else (if n < p.mtu then (if p.mss < p.mtu then p.mss else p.mtu) else n) - p.hdr - n
  }

  function NewSeg(p: Params, start: seqno, data: seq<byte>): OutSeg {
    OutSeg(start, data, p.syn, p.fin, 1, NewSpare(p, |data|))
  }

  /** Full segments, then the rest; one segment even for no data. */
  function Split(p: Params, start: seqno, data: seq<byte>): (q: seq<OutSeg>)
    requires p.mss > 0
    ensures q != []
    decreases |data|
  {
    if |data| <= p.mss then [NewSeg(p, start, data)]
    else [NewSeg(p, start, data[..p.mss])] + Split(p, Add(start, p.mss), data[p.mss..])
  }

  /** What the call adds to the sequence space. */
  function NewUnits(p: Params, data: seq<byte>): seq<Unit> {
    if p.syn then [Syn] + DataUnits(data) else if p.fin then DataUnits(data) + [Fin] else DataUnits(data)
  }

  lemma DataUnitsConcat(a: seq<byte>, b: seq<byte>)
    ensures DataUnits(a + b) == DataUnits(a) + DataUnits(b)
  {
  }

  /** The new segments carry exactly the caller's bytes, or the one flag, and follow one another; all but the last are
      full. */
  lemma {:induction false} SplitOk(p: Params, start: seqno, data: seq<byte>)
    requires p.mss > 0 && (p.syn || p.fin ==> data == []) && (p.syn || p.fin || data != [])
    ensures var q := Split(p, start, data);
            && Contents(q) == NewUnits(p, data) && Chained(q, start) && Bufs(q) == |q|
            && (forall i :: 0 <= i < |q| ==> |q[i].data| <= p.mss && q[i].syn == p.syn && q[i].fin == p.fin)
            && forall i :: 0 <= i < |q| - 1 ==> |q[i].data| == p.mss
    decreases |data|
  {
    hide Add, NewSpare;
    if |data| <= p.mss {
      OneContents(NewSeg(p, start, data), start);
    } else {
      var head, rest := NewSeg(p, start, data[..p.mss]), Split(p, Add(start, p.mss), data[p.mss..]);
      SplitOk(p, Add(start, p.mss), data[p.mss..]);
      assert ([head] + rest)[1..] == rest;
      assert data == data[..p.mss] + data[p.mss..];
      DataUnitsConcat(data[..p.mss], data[p.mss..]);
    }
  }

  // ---------- The end of the unsent queue ----------

  /** How many bytes go into the unused room of the last buffer. */
  function FillLen(p: Params, last: OutSeg, n: nat): (k: nat)
    ensures k <= n
  {
    if p.opt || p.syn || p.fin then 0
    else
      var room := if last.spare > n then n else last.spare;
      var room := if |last.data| + room > p.mss then p.mss - |last.data| else room;
      if room > 0 then room else 0
  }

  /** As much as there is room for: never more than the buffer or the segment holds, and unless all the data goes in one of
      the two is full. */
  lemma FillIs(p: Params, last: OutSeg, n: nat)
    requires !p.opt && !p.syn && !p.fin
    ensures var k := FillLen(p, last, n);
            && (k > 0 ==> k <= last.spare && |last.data| + k <= p.mss)
            && (k < n ==> last.spare <= k || |last.data| + k >= p.mss)
  {
  }

  /** No segment holds more than `m` bytes. */
  ghost predicate Short(q: seq<OutSeg>, m: nat) {
    forall i :: 0 <= i < |q| ==> |q[i].data| <= m
  }

  lemma ShortConcat(a: seq<OutSeg>, b: seq<OutSeg>, m: nat)
    ensures Short(a + b, m) <==> Short(a, m) && Short(b, m)
  {
    if Short(a + b, m) {
      forall i | 0 <= i < |a| ensures |a[i].data| <= m { assert (a + b)[i] == a[i]; }
      forall i | 0 <= i < |b| ensures |b[i].data| <= m { assert (a + b)[|a| + i] == b[i]; }
    }
  }

  lemma {:induction false} SplitShort(p: Params, start: seqno, data: seq<byte>)
    requires p.mss > 0
    ensures Short(Split(p, start, data), p.mss)
    decreases |data|
  {
    hide NewSpare;
    if |data| > p.mss { SplitShort(p, Add(start, p.mss), data[p.mss..]); }
  }

  function Filled(last: OutSeg, data: seq<byte>): OutSeg {
    last.(data := last.data + data, spare := last.spare - |data|)
  }

  lemma FilledUnits(last: OutSeg, data: seq<byte>)
    requires !last.fin || data == []
    ensures Units(Filled(last, data)) == Units(last) + DataUnits(data)
    ensures Len(Filled(last, data)) == Len(last) + |data|
  {
    hide DataUnits;
    DataUnitsConcat(last.data, data);
    NoUnits();
  }

  lemma NoUnits()
    ensures DataUnits([]) == []
  {
  }

  /** Whether the first new segment is chained onto the last unsent one. */
  predicate Joins(p: Params, last: OutSeg, first: OutSeg) {
    Len(last) != 0 && !last.syn && !last.fin && !p.syn && !p.fin && |last.data| + |first.data| <= p.mss
  }

  function Chain(last: OutSeg, first: OutSeg): OutSeg {
    last.(data := last.data + first.data, bufs := last.bufs + first.bufs, spare := first.spare)
  }

  /** The unsent queue with the new segments behind it. */
  function Appended(p: Params, unsent: seq<OutSeg>, q: seq<OutSeg>): seq<OutSeg> {
    if q == [] then unsent
    else if unsent != [] && Joins(p, unsent[|unsent| - 1], q[0]) then
      unsent[..|unsent| - 1] + [Chain(unsent[|unsent| - 1], q[0])] + q[1..]
    else unsent + q
  }

  /** Joining makes no segment longer than the segment size. */
  lemma AppendedShort(p: Params, unsent: seq<OutSeg>, q: seq<OutSeg>, m: nat)
    requires Short(unsent, m) && Short(q, m) && p.mss <= m
    ensures Short(Appended(p, unsent, q), m)
  {
  }

  lemma ChainUnits(last: OutSeg, first: OutSeg)
    requires !last.syn && !last.fin && !first.syn && !first.fin
    ensures Units(Chain(last, first)) == Units(last) + Units(first)
  {
    DataUnitsConcat(last.data, first.data);
  }

  /** Joining keeps contents, buffers and contiguity. */
  lemma AppendedOk(p: Params, unsent: seq<OutSeg>, q: seq<OutSeg>, from: seqno)
    requires Chained(unsent, from) && Chained(q, Add(from, |Contents(unsent)|))
    requires forall i :: 0 <= i < |q| ==> q[i].syn == p.syn && q[i].fin == p.fin
    ensures var r := Appended(p, unsent, q);
            && Contents(r) == Contents(unsent) + Contents(q) && Bufs(r) == Bufs(unsent) + Bufs(q)
            && Chained(r, from)
  {
    hide Add, Units;
    if q != [] && unsent != [] && Joins(p, unsent[|unsent| - 1], q[0]) {
      JoinedOk(unsent, q, from);
    } else if q != [] {
      ContentsConcat(unsent, q);
      ChainedConcat(unsent, q, from);
    }
  }

  lemma JoinedOk(unsent: seq<OutSeg>, q: seq<OutSeg>, from: seqno)
    requires unsent != [] && q != [] && Chained(unsent, from) && Chained(q, Add(from, |Contents(unsent)|))
    requires var last := unsent[|unsent| - 1]; !last.syn && !last.fin && !q[0].syn && !q[0].fin
    ensures var n := |unsent| - 1;
            var r := unsent[..n] + [Chain(unsent[n], q[0])] + q[1..];
            && Contents(r) == Contents(unsent) + Contents(q) && Bufs(r) == Bufs(unsent) + Bufs(q)
            && Chained(r, from)
  {
    hide Add, Units, Contents, Bufs, Chained;
    var n := |unsent| - 1;
    var last, first, init := unsent[n], q[0], unsent[..n];
    var c := Chain(last, first);
    var mid := Add(from, |Contents(init)|);
    assert unsent == init + [last];
    assert q == [first] + q[1..];
    ContentsConcat(init, [last]);
    ChainedConcat(init, [last], from);
    OneContents(last, mid);
    ContentsConcat([first], q[1..]);
    ChainedConcat([first], q[1..], Add(from, |Contents(unsent)|));
    OneContents(first, Add(from, |Contents(unsent)|));
    ChainUnits(last, first);
    OneContents(c, mid);
    ContentsConcat(init + [c], q[1..]);
    ContentsConcat(init, [c]);
    ChainedConcat(init, [c], from);
    ChainedConcat(init + [c], q[1..], from);
    AddAdd(from, |Contents(unsent)|, |Contents([first])|);
  }
}
