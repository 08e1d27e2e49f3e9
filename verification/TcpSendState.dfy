/** The state of the sending half as a value, and what each operation does to it. */
module TcpSendState {
  import opened Octets
  import opened TcpSeq
  import opened TcpQueue
  import opened TcpSplit

  /** The two queues, next byte to buffer, highest acknowledged and highest sent number, free buffer space, number of
      packet buffers; and, to explain them, the first sequence number of the queues, how much of the first segment is
      acknowledged, how far has been sent, and everything ever enqueued.  The buffer space is kept in 16 bits. */
  datatype Snd = Snd(unacked: seq<OutSeg>, unsent: seq<OutSeg>, lbb: seqno, lastack: seqno, max: seqno, buf: nat,
                     bufs: nat, una: seqno, part: nat, top: nat, history: seq<Unit>) {
    function Queue(): seq<OutSeg> { unacked + unsent }

    function Flight(): seqno { Off(lbb, lastack) }

    /** The queues are one contiguous run of sequence numbers that ends at `lbb` and carries the tail of the history. */
    ghost predicate Ok() {
      var q := Queue();
      var n := |Contents(q)|;
      && buf < 0x1_0000 && n < LIMIT && Chained(q, una) && lbb == Add(una, n) && bufs == Bufs(q)
      && n <= |history| && Contents(q) == history[|history| - n..]
      && lastack == Add(una, part) && part <= top && (q == [] ==> part == 0) && (q != [] ==> part < Len(q[0]))
      && max == Add(una, top) && |Contents(unacked)| <= top <= n
    }
  }

  // ---------- Acknowledgement ----------

  /** An acknowledgement of `d` more positions. */
  function Acked(s: Snd, d: nat): Snd {
    var a := s.part + d;
    var k := Covered(s.Queue(), a);
    var n := |Contents(s.Queue()[..k])|;
    Snd(s.unacked[Covered(s.unacked, a)..], s.unsent[Covered(s.unsent, a - |Contents(s.unacked)|)..],
        s.lbb, Add(s.lastack, d), s.max, (s.buf + d) % 0x1_0000, Bufs(s.Queue()[k..]),
        Add(s.una, n), if a >= n then a - n else 0, if s.top >= n then s.top - n else 0, s.history)
  }

  /** Both queues together lose exactly the segments that end at or below the acknowledged number. */
  lemma AckedQueue(s: Snd, d: nat)
    requires s.Ok() && s.part + d <= s.top
    ensures Acked(s, d).Queue() == s.Queue()[Covered(s.Queue(), s.part + d)..]
  {
    hide Add, Units, Contents, Bufs, Chained, Covered, Len;
    var a := s.part + d;
    ContentsConcat(s.unacked, s.unsent);
    CoveredSplit(s.unacked, s.unsent, a);
    if Covered(s.unacked, a) < |s.unacked| {
      NotCovered(s.unacked, a);
      NothingCovered(s.unsent, a - |Contents(s.unacked)|);
    }
  }

  /** A list that is not wholly covered is longer than the acknowledged part. */
  lemma {:induction false} NotCovered(q: seq<OutSeg>, a: int)
    requires Covered(q, a) < |q|
    ensures a < |Contents(q)|
  {
    if Len(q[0]) <= a { NotCovered(q[1..], a - Len(q[0])); }
  }

  lemma NothingCovered(q: seq<OutSeg>, a: int)
    requires a < 0
    ensures Covered(q, a) == 0
  {
  }

  lemma {:induction false} CoveredTail(q: seq<OutSeg>, a: int)
    ensures |Contents(q[Covered(q, a)..])| == |Contents(q)| - |Contents(q[..Covered(q, a)])|
  {
    var k := Covered(q, a);
    assert q == q[..k] + q[k..];
    ContentsConcat(q[..k], q[k..]);
  }

  /** What stays unacknowledged has been sent. */
  lemma AckedSent(s: Snd, d: nat)
    requires s.Ok() && s.part + d <= s.top
    ensures var n := |Contents(s.Queue()[..Covered(s.Queue(), s.part + d)])|;
            |Contents(s.unacked[Covered(s.unacked, s.part + d)..])| <= s.top - n
  {
    hide Add, Units, Contents, Bufs, Chained, Covered, Len;
    var a, q := s.part + d, s.Queue();
    CoveredOk(q, s.una, a);
    CoveredSplit(s.unacked, s.unsent, a);
    var k := Covered(s.unacked, a);
    if k < |s.unacked| {
      CoveredTail(s.unacked, a);
      assert q[..k] == s.unacked[..k];
    } else {
      assert s.unacked[k..] == [];
      EmptyContents();
    }
  }

  lemma EmptyContents()
    ensures Contents([]) == []
  {
  }

  /** An acknowledgement keeps the invariant and only drops a prefix of what is queued; buffer space plus flight size is
      unchanged exactly when the new buffer space fits in 16 bits. */
  lemma AckedOk(s: Snd, d: nat)
    requires s.Ok() && 0 < d && s.part + d <= s.top
    ensures Acked(s, d).Ok()
    ensures Contents(s.Queue()) == Contents(s.Queue()[..Covered(s.Queue(), s.part + d)]) + Contents(Acked(s, d).Queue())
    ensures Acked(s, d).Flight() == s.Flight() - d
    ensures Acked(s, d).buf + Acked(s, d).Flight() == s.buf + s.Flight() <==> s.buf + d < 0x1_0000
  {
    hide Add, Off, Units, Contents, Bufs, Chained, Covered, Len;
    var a, q := s.part + d, s.Queue();
    var k := Covered(q, a);
    var n := |Contents(q[..k])|;
    CoveredOk(q, s.una, a);
    AckedQueue(s, d);
    AckedSent(s, d);
    Tail(s.history, Contents(q[..k]), Contents(q[k..]));
    Shift(s.una, n, |Contents(q)|);
    Shift(s.una, n, a);
    Shift(s.una, n, s.top);
    AddAdd(s.una, s.part, d);
    Difference(s.lbb, s.lastack, s.una, |Contents(q)|, s.part);
    Difference(s.lbb, Acked(s, d).lastack, s.una, |Contents(q)|, a);
    Small16(s.buf + d);
  }

  lemma Tail(history: seq<Unit>, a: seq<Unit>, b: seq<Unit>)
    requires |a + b| <= |history| && history[|history| - |a + b|..] == a + b
    ensures history[|history| - |b|..] == b
  {
    assert history[|history| - |b|..] == history[|history| - |a + b|..][|a|..];
  }

  lemma Shift(una: seqno, n: nat, m: nat)
    requires n <= m
    ensures Add(Add(una, n), m - n) == Add(una, m)
  {
    AddAdd(una, n, m - n);
  }

  lemma Small16(d: nat)
    ensures d % 0x1_0000 == d <==> d < 0x1_0000
  {
  }

  lemma Minus16(b: nat, n: nat)
    requires b < 0x1_0000
    ensures (b - n) % 0x1_0000 == b - n <==> n <= b
  {
  }

  // ---------- Enqueueing ----------

  /** How much of the data goes into the last unsent segment. */
  function FillOf(s: Snd, p: Params, n: nat): (k: nat)
    ensures k <= n
  {
    if s.unsent == [] then 0 else FillLen(p, s.unsent[|s.unsent| - 1], n)
  }

  /** The unsent queue after that. */
  function Topped(s: Snd, p: Params, data: seq<byte>): seq<OutSeg> {
    var k, m := FillOf(s, p, |data|), |s.unsent| - 1;
    if k == 0 then s.unsent else s.unsent[..m] + [Filled(s.unsent[m], data[..k])]
  }

  /** The new segments. */
  function Fresh(s: Snd, p: Params, data: seq<byte>): seq<OutSeg>
    requires p.mss > 0
  {
    var k := FillOf(s, p, |data|);
    if k < |data| || p.opt || p.syn || p.fin then Split(p, Add(s.lbb, k), data[k..]) else []
  }

  function Enqueued(s: Snd, p: Params, data: seq<byte>): Snd
    requires p.mss > 0
  {
    var len := |data| + if p.syn || p.fin then 1 else 0;
    s.(unsent := Appended(p, Topped(s, p, data), Fresh(s, p, data)), lbb := Add(s.lbb, len),
       buf := (s.buf - len) % 0x1_0000,
       bufs := s.bufs + |Fresh(s, p, data)|, history := s.history + NewUnits(p, data))
  }

  /** When the queue gets too long the call fails, but data already put in the last segment stays there. */
  function Failed(s: Snd, p: Params, data: seq<byte>): Snd {
    s.(unsent := Topped(s, p, data))
  }

  /** What callers guarantee: a flag is sent without data, options only with a flag, and no data follows a FIN. */
  ghost predicate Callable(s: Snd, p: Params, data: seq<byte>) {
    && p.mss > 0 && (p.syn || p.fin ==> data == []) && (p.opt ==> p.syn || p.fin)
    && (data != [] && s.unsent != [] ==> !s.unsent[|s.unsent| - 1].fin)
    && |Contents(s.Queue())| + |data| + 1 < LIMIT
  }

  lemma ToppedOk(s: Snd, p: Params, data: seq<byte>, from: seqno)
    requires Chained(s.unsent, from)
    requires data != [] && s.unsent != [] ==> !s.unsent[|s.unsent| - 1].fin
    ensures var k := FillOf(s, p, |data|);
            && Contents(Topped(s, p, data)) == Contents(s.unsent) + DataUnits(data[..k])
            && Bufs(Topped(s, p, data)) == Bufs(s.unsent) && Chained(Topped(s, p, data), from)
  {
    hide Add, Units, Contents, Bufs, Chained, FillLen;
    var k := FillOf(s, p, |data|);
    assert DataUnits(data[..0]) == [];
    if k > 0 {
      var m := |s.unsent| - 1;
      var init, last := s.unsent[..m], s.unsent[m];
      assert s.unsent == init + [last];
      var last' := Filled(last, data[..k]);
      FilledUnits(last, data[..k]);
      ContentsConcat(init, [last]);
      ContentsConcat(init, [last']);
      ChainedConcat(init, [last], from);
      ChainedConcat(init, [last'], from);
      var mid := Add(from, |Contents(init)|);
      OneContents(last, mid);
      OneContents(last', mid);
    }
  }

  lemma FreshOk(s: Snd, p: Params, data: seq<byte>)
    requires Callable(s, p, data)
    ensures var k := FillOf(s, p, |data|);
            && DataUnits(data[..k]) + Contents(Fresh(s, p, data)) == NewUnits(p, data)
            && Chained(Fresh(s, p, data), Add(s.lbb, k)) && Bufs(Fresh(s, p, data)) == |Fresh(s, p, data)|
            && forall i :: 0 <= i < |Fresh(s, p, data)| ==>
                 Fresh(s, p, data)[i].syn == p.syn && Fresh(s, p, data)[i].fin == p.fin
  {
    hide Add, Units, Contents, Bufs, Chained, FillLen, Split;
    var k := FillOf(s, p, |data|);
    if k < |data| || p.opt || p.syn || p.fin {
      SplitOk(p, Add(s.lbb, k), data[k..]);
      assert data == data[..k] + data[k..];
      DataUnitsConcat(data[..k], data[k..]);
    } else {
      assert data[..k] == data;
      NothingFresh(Add(s.lbb, k));
    }
  }

  lemma NothingFresh(from: seqno)
    ensures Contents([]) == [] && Chained([], from) && Bufs([]) == 0
  {
  }

  /** A successful call appends exactly the caller's bytes, or the one flag, and keeps the invariant; buffer space plus
      flight size is unchanged exactly when there is buffer space for all of it. */
  lemma EnqueuedOk(s: Snd, p: Params, data: seq<byte>)
    requires s.Ok() && Callable(s, p, data)
    ensures var r := Enqueued(s, p, data);
            && r.Ok() && Contents(r.Queue()) == Contents(s.Queue()) + NewUnits(p, data)
            && (r.buf + r.Flight() == s.buf + s.Flight() <==> |NewUnits(p, data)| <= s.buf)
  {
    hide Add, Off, Units, Contents, Bufs, Chained, FillOf, Topped, Fresh, Appended, NewUnits;
    var r := Enqueued(s, p, data);
    EnqueuedQueue(s, p, data);
    var was, more := Contents(s.Queue()), NewUnits(p, data);
    AddAdd(s.una, |was|, |more|);
    NewLength(p, data);
    Minus16(s.buf, |more|);
    Difference(s.lbb, s.lastack, s.una, |was|, s.part);
    Difference(r.lbb, r.lastack, s.una, |was| + |more|, s.part);
    HistoryTail(s.history, was, more);
    if s.Queue() != [] {
      FirstGrows(s, p, data);
    } else if r.Queue() != [] {
      FirstNonEmpty(r.Queue(), s.una);
    }
  }

  lemma EnqueuedQueue(s: Snd, p: Params, data: seq<byte>)
    requires s.Ok() && Callable(s, p, data)
    ensures var r := Enqueued(s, p, data);
            && Contents(r.Queue()) == Contents(s.Queue()) + NewUnits(p, data)
            && Chained(r.Queue(), s.una) && r.bufs == Bufs(r.Queue())
  {
    hide Add, Off, Units, Contents, Bufs, Chained, FillOf, Topped, Fresh, Appended, NewUnits;
    var r, k := Enqueued(s, p, data), FillOf(s, p, |data|);
    var mid := Add(s.una, |Contents(s.unacked)|);
    ContentsConcat(s.unacked, s.unsent);
    ChainedConcat(s.unacked, s.unsent, s.una);
    ToppedOk(s, p, data, mid);
    FreshOk(s, p, data);
    FillEnd(s, k);
    AppendedOk(p, Topped(s, p, data), Fresh(s, p, data), mid);
    ContentsConcat(s.unacked, r.unsent);
    ChainedConcat(s.unacked, r.unsent, s.una);
    var c, u, d, f := Contents(s.unacked), Contents(s.unsent), DataUnits(data[..k]), Contents(Fresh(s, p, data));
    assert c + (u + d + f) == c + u + (d + f);
  }

  lemma FirstNonEmpty(q: seq<OutSeg>, from: seqno)
    requires q != [] && Chained(q, from)
    ensures Len(q[0]) > 0
  {
  }

  lemma FillEnd(s: Snd, k: nat)
    requires s.lbb == Add(s.una, |Contents(s.unacked)| + |Contents(s.unsent)|)
    ensures Add(Add(s.una, |Contents(s.unacked)|), |Contents(s.unsent)| + k) == Add(s.lbb, k)
  {
    hide Add, Contents;
    AddAdd(s.una, |Contents(s.unacked)|, |Contents(s.unsent)| + k);
    AddAdd(s.una, |Contents(s.unacked)| + |Contents(s.unsent)|, k);
  }

  lemma NewLength(p: Params, data: seq<byte>)
    requires p.syn || p.fin ==> data == []
    ensures |NewUnits(p, data)| == |data| + if p.syn || p.fin then 1 else 0
  {
  }

  lemma HistoryTail(history: seq<Unit>, c: seq<Unit>, more: seq<Unit>)
    requires |c| <= |history| && history[|history| - |c|..] == c
    ensures var h := history + more; h[|h| - |c + more|..] == c + more
  {
  }

  /** The first segment of the queues never gets shorter. */
  lemma FirstGrows(s: Snd, p: Params, data: seq<byte>)
    requires p.mss > 0 && s.Queue() != []
    ensures Enqueued(s, p, data).Queue() != [] && Len(Enqueued(s, p, data).Queue()[0]) >= Len(s.Queue()[0])
  {
    hide Add, FillOf, Fresh, Split;
    var r := Enqueued(s, p, data);
    if s.unacked != [] {
      assert s.Queue()[0] == s.unacked[0] && r.Queue()[0] == s.unacked[0];
    } else {
      assert s.Queue()[0] == s.unsent[0];
      assert Topped(s, p, data) != [] && Len(Topped(s, p, data)[0]) >= Len(s.unsent[0]);
      assert r.Queue()[0] == r.unsent[0];
    }
  }

  /** A failing call leaves the state as it was exactly when nothing was put in the last segment; otherwise the queues
      carry bytes that are not counted, and the invariant is lost. */
  lemma FailedOk(s: Snd, p: Params, data: seq<byte>)
    requires s.Ok() && Callable(s, p, data)
    ensures Failed(s, p, data) == s <==> FillOf(s, p, |data|) == 0
    ensures Failed(s, p, data).Ok() <==> FillOf(s, p, |data|) == 0
    ensures Contents(Failed(s, p, data).Queue()) == Contents(s.Queue()) + DataUnits(data[..FillOf(s, p, |data|)])
  {
    hide Add, Units, Contents, Bufs, Chained, FillOf;
    var r, k := Failed(s, p, data), FillOf(s, p, |data|);
    var mid := Add(s.una, |Contents(s.unacked)|);
    ContentsConcat(s.unacked, s.unsent);
    ChainedConcat(s.unacked, s.unsent, s.una);
    ToppedOk(s, p, data, mid);
    ContentsConcat(s.unacked, r.unsent);
    var n := |Contents(s.Queue())|;
    assert |Contents(r.Queue())| == n + k;
    if k > 0 { Compare(Add(s.una, n), Add(s.una, n + k), s.una, n, n + k); }
  }

  // ---------- Sending ----------

  /** A last segment of 5 bytes with room for 5 more, 30 bytes to send in segments of 10, and room for two buffers: the
      call fails and leaves 5 bytes behind. */
  lemma FillStays()
    ensures var g := OutSeg(0, Zeros(5), false, false, 1, 5);
            var s := Snd([], [g], 5, 0, 0, 1000, 1, 0, 0, 0, Contents([g]));
            var p := Params(10, 1500, 0, false, false, false);
            && s.Ok() && Callable(s, p, Zeros(30)) && s.bufs + |Fresh(s, p, Zeros(30))| > 2
            && |Contents(Failed(s, p, Zeros(30)).Queue())| == 10 && !Failed(s, p, Zeros(30)).Ok()
  {
    var g := OutSeg(0, Zeros(5), false, false, 1, 5);
    var s := Snd([], [g], 5, 0, 0, 1000, 1, 0, 0, 0, Contents([g]));
    var p := Params(10, 1500, 0, false, false, false);
    var data := Zeros(30);
    assert s.Queue() == [g] && [g][1..] == [];
    assert |Contents([g])| == 5 && Bufs([g]) == 1 && Chained([g], 0);
    assert s.history[0..] == Contents([g]);
    FailedOk(s, p, data);
    assert FillOf(s, p, 30) == 5;
    var rest := data[5..];
    assert Split(p, 5, rest) == [NewSeg(p, 5, rest[..10])] + Split(p, 15, rest[10..]);
    assert Split(p, 15, rest[10..]) == [NewSeg(p, 15, rest[10..][..10])] + Split(p, 25, rest[10..][10..]);
  }

  /** A FIN when there is no buffer space: the space becomes 65535. */
  lemma FinWithoutSpace()
    ensures var s := Snd([], [], 0, 0, 0, 0, 0, 0, 0, 0, []);
            var p := Params(10, 1500, 0, false, true, false);
            && s.Ok() && Callable(s, p, []) && Enqueued(s, p, []).buf == 65535
            && Enqueued(s, p, []).buf + Enqueued(s, p, []).Flight() != s.buf + s.Flight()
  {
    var s := Snd([], [], 0, 0, 0, 0, 0, 0, 0, 0, []);
    var p := Params(10, 1500, 0, false, true, false);
    assert s.Queue() == [];
    assert |NewUnits(p, [])| == 1;
    EnqueuedOk(s, p, []);
  }

  /** The first unsent segment goes out. */
  function Sent(s: Snd): Snd {
    if s.unsent == [] then s
    else
      var seg := s.unsent[0];
      var nxt := Add(seg.start, Len(seg));
      var end := |Contents(s.unacked + [seg])|;
      s.(unacked := s.unacked + [seg], unsent := s.unsent[1..],
         max := if SeqLt(s.max, nxt) then nxt else s.max, top := if s.top < end then end else s.top)
  }

  /** Everything not acknowledged goes back in front of the unsent queue. */
  function Requeued(s: Snd): Snd {
    s.(unacked := [], unsent := s.Queue())
  }

  /** Sending a segment moves the highest sent number to its end, unless it was sent before; the queues together stay the
      same. */
  lemma SentOk(s: Snd)
    requires s.Ok() && s.unsent != []
    ensures Sent(s).Ok() && Sent(s).Queue() == s.Queue()
    ensures SeqLt(s.max, Add(s.unsent[0].start, Len(s.unsent[0]))) <==>
            s.top < |Contents(s.unacked + [s.unsent[0]])|
  {
    hide Add, Units, SeqLt, Contents, Chained, Bufs, Len;
    var seg := s.unsent[0];
    var mid := Add(s.una, |Contents(s.unacked)|);
    assert s.unsent == [seg] + s.unsent[1..];
    assert s.unacked + s.unsent == (s.unacked + [seg]) + s.unsent[1..];
    ContentsConcat(s.unacked, s.unsent);
    ContentsConcat(s.unacked, [seg]);
    ContentsConcat([seg], s.unsent[1..]);
    ChainedConcat(s.unacked, s.unsent, s.una);
    ChainedConcat([seg], s.unsent[1..], mid);
    OneContents(seg, mid);
    AddAdd(s.una, |Contents(s.unacked)|, Len(seg));
    var end := |Contents(s.unacked + [seg])|;
    Compare(s.max, Add(s.una, end), s.una, s.top, end);
  }

  lemma RequeuedOk(s: Snd)
    requires s.Ok()
    ensures Requeued(s).Ok() && Requeued(s).Queue() == s.Queue()
  {
    hide Add, Units, Chained, Bufs, Len;
    assert [] + s.Queue() == s.Queue();
  }

  // ---------- Runs ----------

  datatype Step = Enqueue(p: Params, data: seq<byte>) | Send | Ack(d: nat) | Retransmit

  ghost predicate Enabled(s: Snd, e: Step) {
    match e
    case Enqueue(p, data) => Callable(s, p, data) && |data| <= s.buf
    case Send => s.unsent != []
    case Ack(d) => 0 < d && s.part + d <= s.top
    case Retransmit => true
  }

  ghost function After(s: Snd, e: Step): Snd
    requires Enabled(s, e)
  {
    match e
    case Enqueue(p, data) => Enqueued(s, p, data)
    case Send => Sent(s)
    case Ack(d) => Acked(s, d)
    case Retransmit => Requeued(s)
  }

  function Adds(e: Step): seq<Unit> {
    if e.Enqueue? then NewUnits(e.p, e.data) else []
  }

  ghost predicate EnabledRun(s: Snd, es: seq<Step>)
    decreases |es|
  {
    es == [] || (Enabled(s, es[0]) && EnabledRun(After(s, es[0]), es[1..]))
  }

  ghost function RunEnd(s: Snd, es: seq<Step>): Snd
    requires EnabledRun(s, es)
    decreases |es|
  {
    if es == [] then s else RunEnd(After(s, es[0]), es[1..])
  }

  function RunAdds(es: seq<Step>): seq<Unit> {
    if es == [] then [] else Adds(es[0]) + RunAdds(es[1..])
  }

  lemma StepKeeps(s: Snd, e: Step)
    requires s.Ok() && Enabled(s, e)
    ensures After(s, e).Ok() && After(s, e).history == s.history + Adds(e)
    ensures e.Send? || e.Retransmit? ==> After(s, e).Queue() == s.Queue()
  {
    hide Snd.Ok, Callable, Acked, Sent;
    match e
    case Enqueue(p, data) => EnqueuedOk(s, p, data);
    case Send => SentOk(s); SameHistory(s, 0);
    case Ack(d) => AckedOk(s, d); SameHistory(s, d);
    case Retransmit => RequeuedOk(s);
  }

  lemma SameHistory(s: Snd, d: nat)
    ensures Acked(s, d).history == s.history && Sent(s).history == s.history
  {
  }

  /** Over every run the queues are one contiguous run of sequence numbers ending at `lbb`, and they carry, in order, the
      part of everything the callers enqueued that is not yet acknowledged. */
  lemma {:induction false} RunKeeps(s: Snd, es: seq<Step>)
    requires s.Ok() && EnabledRun(s, es)
    ensures RunEnd(s, es).Ok() && RunEnd(s, es).history == s.history + RunAdds(es)
    decreases |es|
  {
    hide Snd.Ok, Enabled, After, Adds;
    if es != [] {
      StepKeeps(s, es[0]);
      RunKeeps(After(s, es[0]), es[1..]);
    }
  }

  /** No flag is enqueued while the buffer space is used up. */
  ghost predicate Roomy(s: Snd, es: seq<Step>)
    requires EnabledRun(s, es)
    decreases |es|
  {
    es == [] || ((es[0].Enqueue? ==> |Adds(es[0])| <= s.buf) && Roomy(After(s, es[0]), es[1..]))
  }

  lemma StepConserves(s: Snd, e: Step)
    requires s.Ok() && Enabled(s, e) && s.buf + s.Flight() < 0x1_0000 && (e.Enqueue? ==> |Adds(e)| <= s.buf)
    ensures After(s, e).buf + After(s, e).Flight() == s.buf + s.Flight()
  {
    hide Callable, Acked, Contents, Chained, Bufs, Len, Add, Off, Enqueued;
    match e
    case Enqueue(p, data) => EnqueuedOk(s, p, data);
    case Send =>
    case Ack(d) =>
      AckedOk(s, d);
    case Retransmit =>
  }

  /** Over every run in which a flag finds buffer space, buffer space plus flight size never changes. */
  lemma {:induction false} RunConserves(s: Snd, es: seq<Step>)
    requires s.Ok() && EnabledRun(s, es) && s.buf + s.Flight() < 0x1_0000 && Roomy(s, es)
    ensures RunEnd(s, es).buf + RunEnd(s, es).Flight() == s.buf + s.Flight()
    decreases |es|
  {
    hide Snd.Ok, Enabled, After, Adds;
    if es != [] {
      StepKeeps(s, es[0]);
      StepConserves(s, es[0]);
      RunConserves(After(s, es[0]), es[1..]);
    }
  }

  // ---------- The segment size ----------

  lemma ToppedShort(s: Snd, p: Params, data: seq<byte>, m: nat)
    requires Short(s.unsent, m) && p.mss <= m
    ensures Short(Topped(s, p, data), m)
  {
    if s.unsent != [] && !p.opt && !p.syn && !p.fin { FillIs(p, s.unsent[|s.unsent| - 1], |data|); }
  }

  /** Neither a call that succeeds nor one that fails makes a segment longer than the segment size. */
  lemma EnqueuedShort(s: Snd, p: Params, data: seq<byte>, m: nat)
    requires Short(s.Queue(), m) && 0 < p.mss <= m
    ensures Short(Enqueued(s, p, data).Queue(), m) && Short(Failed(s, p, data).Queue(), m)
  {
    hide Short, Topped, Appended, Split, FillOf, NewUnits, Add;
    ShortConcat(s.unacked, s.unsent, m);
    ToppedShort(s, p, data, m);
    ShortConcat(s.unacked, Topped(s, p, data), m);
    FreshShort(s, p, data, m);
    AppendedShort(p, Topped(s, p, data), Fresh(s, p, data), m);
    ShortConcat(s.unacked, Appended(p, Topped(s, p, data), Fresh(s, p, data)), m);
  }

  lemma FreshShort(s: Snd, p: Params, data: seq<byte>, m: nat)
    requires 0 < p.mss <= m
    ensures Short(Fresh(s, p, data), m)
  {
    hide Split, Add, FillOf;
    SplitShort(p, Add(s.lbb, FillOf(s, p, |data|)), data[FillOf(s, p, |data|)..]);
  }

  lemma AckedShort(s: Snd, d: nat, m: nat)
    requires s.Ok() && s.part + d <= s.top && Short(s.Queue(), m)
    ensures Short(Acked(s, d).Queue(), m)
  {
    hide Snd.Ok, Short, Acked, Covered;
    AckedQueue(s, d);
    var q, k := s.Queue(), Covered(s.Queue(), s.part + d);
    assert q == q[..k] + q[k..];
    ShortConcat(q[..k], q[k..], m);
  }

  lemma StepShort(s: Snd, e: Step, m: nat)
    requires s.Ok() && Enabled(s, e) && Short(s.Queue(), m) && (e.Enqueue? ==> e.p.mss <= m)
    ensures Short(After(s, e).Queue(), m)
  {
    hide Snd.Ok, Short, Enqueued, Acked, Sent;
    match e
    case Enqueue(p, data) => EnqueuedShort(s, p, data, m);
    case Send => SentOk(s);
    case Ack(d) => AckedShort(s, d, m);
    case Retransmit => RequeuedOk(s);
  }

  /** Over every run no queued segment holds more than the segment size. */
  lemma {:induction false} RunShort(s: Snd, es: seq<Step>, m: nat)
    requires s.Ok() && EnabledRun(s, es) && Short(s.Queue(), m)
    requires forall i :: 0 <= i < |es| && es[i].Enqueue? ==> es[i].p.mss <= m
    ensures Short(RunEnd(s, es).Queue(), m)
    decreases |es|
  {
    hide Snd.Ok, Enabled, After, Short, Snd.Queue;
    if es != [] {
      StepKeeps(s, es[0]);
      StepShort(s, es[0], m);
      RunShort(After(s, es[0]), es[1..], m);
    }
  }
}
