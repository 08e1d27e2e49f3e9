/** The sending half of a connection: `tcp_enqueue`, `tcp_output`, `tcp_rexmit` and the acknowledgement part of
    `tcp_receive`. */
module TcpSend {
  import opened Octets
  import opened TcpSeq
  import opened TcpQueue
  import opened TcpSplit
  import opened TcpSendState

  /** Cuts data into segments; fails as soon as the queue would hold more than `max` buffers. */
  method MakeSegments(p: Params, start: seqno, data: seq<byte>, queued: nat, max: nat)
    returns (ok: bool, q: seq<OutSeg>)
    requires p.mss > 0
    ensures ok <==> queued + |Split(p, start, data)| <= max
    ensures ok ==> q == Split(p, start, data)
  {
    hide Add, NewSeg, Split;
    q := [];
    var left, seqno, count := data, start, queued;
    ghost var all := Split(p, start, data);
    while q == [] || left != []
      invariant q == [] ==> left == data && seqno == start
      invariant q != [] && left == [] ==> q == all
      invariant q == [] || left != [] ==> q + Split(p, seqno, left) == all
      invariant count == queued + |q| && (q != [] ==> count <= max)
      decreases |left|, q == []
    {
      var n := if |left| > p.mss then p.mss else |left|;
      count := count + 1;
      SplitStep(p, seqno, left);
      assert q + [NewSeg(p, seqno, left[..n])] <= all;
      if count > max {
        return false, q;
      }
      q := q + [NewSeg(p, seqno, left[..n])];
      seqno := Add(seqno, n);
      left := left[n..];
    }
    ok := true;
  }

  lemma SplitStep(p: Params, start: seqno, data: seq<byte>)
    requires p.mss > 0
    ensures Split(p, start, data) ==
            if |data| <= p.mss then [NewSeg(p, start, data[..|data|])]
            else [NewSeg(p, start, data[..p.mss])] + Split(p, Add(start, p.mss), data[p.mss..])
    ensures |data| <= p.mss ==> data[..|data|] == data && data[|data|..] == []
  {
  }

  // ---------- Acknowledgement numbers ----------

  /** Which acknowledgement numbers the cyclic comparisons accept: those between the last one and the highest number sent,
      and, when nothing is outstanding, the one exactly half the sequence space ahead. */
  lemma AckTest(s: Snd, ackno: seqno)
    requires s.Ok()
    ensures var d := Off(ackno, s.lastack);
            SeqLt(s.lastack, ackno) && SeqLeq(ackno, s.max) <==>
            (0 < d && s.part + d <= s.top) || (d == HALF && s.top == s.part)
  {
    hide Off, Add, Contents, Chained, Bufs, Len, SeqLt, SeqLeq;
    OffAdd(ackno, s.lastack);
    AckPlace(s.una, s.part, s.top, Off(ackno, s.lastack));
  }

  /** The second case does occur: with nothing outstanding, 2^31 is accepted although nothing was sent. */
  lemma HalfSpaceAck()
    ensures var s := Snd([], [], 0, 0, 0, 0, 0, 0, 0, 0, []);
            s.Ok() && SeqLt(s.lastack, HALF) && SeqLeq(HALF, s.max) && s.part + Off(HALF, s.lastack) > s.top
  {
  }

  lemma AckPlace(una: seqno, part: nat, top: nat, d: seqno)
    requires part <= top < LIMIT
    ensures var last, ackno := Add(una, part), Add(Add(una, part), d);
            SeqLt(last, ackno) && SeqLeq(ackno, Add(una, top)) <==>
            (0 < d && part + d <= top) || (d == HALF && top == part)
  {
    hide Off, Add;
    var last, ackno := Add(una, part), Add(Add(una, part), d);
    AddAdd(una, part, d);
    OffOf(una, part, part + d);
    OffOf(una, part + d, top);
    Small(0 - d);
    Small(part + d - top);
    SameIfNoDistance(ackno, Add(una, top));
  }

  lemma SameIfNoDistance(a: seqno, b: seqno)
    ensures a == b <==> Off(a, b) == 0
  {
  }

  /** Positions of segment ends from `at` on are less than half the sequence space away from position `a`. */
  predicate Near(q: seq<OutSeg>, at: nat, a: nat) {
    a < LIMIT || q == [] || a < HALF + at + Len(q[0])
  }

  /** Removes the segments at the front that end at or below `ackno`; `at` is the position of the first one and `a` that
      of `ackno`, both counted from `una`. */
  method DropAcked(q: seq<OutSeg>, ackno: seqno, ghost una: seqno, ghost at: nat, ghost a: nat)
    returns (rest: seq<OutSeg>, freed: nat)
    requires Chained(q, Add(una, at)) && ackno == Add(una, a) && at + |Contents(q)| < LIMIT && Near(q, at, a)
    ensures rest == q[Covered(q, a - at)..] && freed == Bufs(q[..Covered(q, a - at)])
  {
    hide Add, SeqLeq, Units;
    rest, freed := q, 0;
    ghost var k, pos := 0, at;
    assert q[0..] == q && q[..0] == [];
    while rest != [] && SeqLeq(Add(rest[0].start, Len(rest[0])), ackno)
      invariant 0 <= k <= |q| && rest == q[k..] && freed == Bufs(q[..k]) && at <= pos
      invariant Chained(rest, Add(una, pos)) && pos + |Contents(rest)| < LIMIT && Near(rest, pos, a)
      invariant k + Covered(rest, a - pos) == Covered(q, a - at)
      decreases |rest|
    {
      EndTest(rest, una, pos, a);
      BufsSnoc(q, k);
      AddAdd(una, pos, Len(rest[0]));
      freed := freed + rest[0].bufs;
      pos := pos + Len(rest[0]);
      assert q[k..][1..] == q[k + 1..];
      rest := rest[1..];
      k := k + 1;
    }
    if rest != [] { EndTest(rest, una, pos, a); }
  }

  lemma EndTest(q: seq<OutSeg>, una: seqno, pos: nat, a: nat)
    requires q != [] && Chained(q, Add(una, pos)) && pos + |Contents(q)| < LIMIT && Near(q, pos, a)
    ensures SeqLeq(Add(q[0].start, Len(q[0])), Add(una, a)) <==> Len(q[0]) <= a - pos
  {
    hide Add, SeqLeq, SeqLt, SeqGt, SeqGeq, Units;
    AddAdd(una, pos, Len(q[0]));
    Compare(Add(q[0].start, Len(q[0])), Add(una, a), una, pos + Len(q[0]), a);
  }

  lemma {:induction false} BufsSnoc(q: seq<OutSeg>, k: nat)
    requires k < |q|
    ensures Bufs(q[..k + 1]) == Bufs(q[..k]) + q[k].bufs
  {
    assert q[..k + 1] == q[..k] + [q[k]];
    ContentsConcat(q[..k], [q[k]]);
    OneContents(q[k], 0);
  }

  // ---------- The connection ----------

  class Sender {
    var unsent: seq<OutSeg>
    var unacked: seq<OutSeg>
    var sndLbb: seqno         // next byte to be buffered
    var lastack: seqno        // highest acknowledged
    var sndNxt: seqno         // next to be sent
    var sndMax: seqno         // highest sent
    var sndBuf: nat           // available buffer space, 16 bits
    var queueLen: nat         // packet buffers in both queues
    const mss: nat
    const mtu: nat
    const hdr: nat
    const maxQueue: nat
    ghost var una: seqno      // first sequence number of the queues
    ghost var part: nat       // acknowledged part of the first segment
    ghost var top: nat        // distance from `una` to `sndMax`
    ghost var history: seq<Unit>  // everything ever enqueued

    ghost function Abs(): Snd
      reads this
    {
      Snd(unacked, unsent, sndLbb, lastack, sndMax, sndBuf, queueLen, una, part, top, history)
    }

    ghost predicate Valid()
      reads this
    {
      mss > 0 && Abs().Ok() && Short(Abs().Queue(), mss)
    }

    /** A connection opened with initial sequence number `iss`. */
    constructor (iss: seqno, mss: nat, mtu: nat, hdr: nat, maxQueue: nat, buf: nat)
      requires mss > 0 && buf < 0x1_0000
      ensures Valid() && Abs().Queue() == [] && history == [] && sndBuf == buf && lastack == sndLbb == iss
    {
      unsent, unacked, queueLen, sndBuf := [], [], 0, buf;
      sndLbb, lastack, sndNxt, sndMax := iss, iss, iss, iss;
      this.mss, this.mtu, this.hdr, this.maxQueue := mss, mtu, hdr, maxQueue;
      una, part, top, history := iss, 0, 0, [];
    }

    /** Buffers data, or one flag with its options, for sending.  Without buffer space or with a full queue nothing
        changes; when the queue fills up half-way the call fails too, but what went into the last segment stays. */
    method Enqueue(data: seq<byte>, syn: bool, fin: bool, opt: bool) returns (ok: bool)
      requires Valid() && Callable(Abs(), Params(mss, mtu, hdr, syn, fin, opt), data)
      modifies this`unsent, this`sndLbb, this`sndBuf, this`queueLen, this`history
      ensures var p := Params(mss, mtu, hdr, syn, fin, opt);
              var s := old(Abs());
              var refused := |data| > s.buf || s.bufs >= maxQueue;
              && (ok <==> !refused && s.bufs + |Fresh(s, p, data)| <= maxQueue)
              && Abs() == (if ok then Enqueued(s, p, data) else if refused then s else Failed(s, p, data))
              && Short(Abs().Queue(), mss)
              && (ok ==> Valid() && Contents(Abs().Queue()) == Contents(s.Queue()) + NewUnits(p, data)
                         && (Abs().buf + Abs().Flight() == s.buf + s.Flight() <==> |NewUnits(p, data)| <= s.buf))
    {
      hide Snd.Ok, Callable, FillOf, Topped, Fresh, Add, Appended, Contents, Snd.Flight, NewUnits;
      if |data| > sndBuf || queueLen >= maxQueue {
        return false;
      }
      var p := Params(mss, mtu, hdr, syn, fin, opt);
      ghost var s := Abs();
      EnqueuedOk(s, p, data);
      EnqueuedShort(s, p, data, mss);
      CallableMss(s, p, data);
      var k := TopUp(p, data);
      var q;
      ok, q := NewSegments(p, k, data, s);
      if ok {
        unsent := Appended(p, unsent, q);
        var len := |data| + if syn || fin then 1 else 0;
        sndLbb := Add(sndLbb, len);
        sndBuf := (sndBuf - len) % 0x1_0000;
        queueLen := queueLen + |q|;
        history := history + NewUnits(p, data);
      }
    }

    /** Puts what fits into the last unsent segment. */
    method TopUp(p: Params, data: seq<byte>) returns (k: nat)
      modifies this`unsent
      ensures k == FillOf(old(Abs()), p, |data|) && unsent == Topped(old(Abs()), p, data)
    {
      k := if unsent == [] then 0 else FillLen(p, unsent[|unsent| - 1], |data|);
      if k > 0 {
        var last := unsent[|unsent| - 1];
        unsent := unsent[..|unsent| - 1] + [Filled(last, data[..k])];
      }
    }

    /** Makes segments of the rest, and of a flag, unless the queue gets too long. */
    method NewSegments(p: Params, k: nat, data: seq<byte>, ghost s: Snd) returns (ok: bool, q: seq<OutSeg>)
      requires p.mss > 0 && k == FillOf(s, p, |data|) && s.lbb == sndLbb && queueLen <= maxQueue
      ensures ok <==> queueLen + |Fresh(s, p, data)| <= maxQueue
      ensures ok ==> q == Fresh(s, p, data)
    {
      hide FillOf, Split, Add;
      ok, q := true, [];
      if k < |data| || p.opt || p.syn || p.fin {
        ok, q := MakeSegments(p, Add(sndLbb, k), data[k..], queueLen, maxQueue);
      }
    }

    /** Moves the segments at the front of the unsent queue that fit in the window `wnd`, and no others, to the
        unacknowledged queue. */
    method Output(wnd: nat) returns (ghost n: nat)
      requires Valid()
      modifies this`unsent, this`unacked, this`sndNxt, this`sndMax, this`top
      ensures Valid() && Abs().Queue() == old(Abs().Queue()) && Abs() == SentTimes(old(Abs()), n)
      ensures Moved(old(unacked), old(unsent), unacked, unsent, n)
      ensures Fitting(old(unsent), n, lastack, wnd) && sndNxt == NextAfter(old(unsent), n, old(sndNxt))
    {
      hide Snd.Ok, Snd.Queue, Off, Add, SeqLt, Len, Contents;
      n := 0;
      ghost var q := unsent;
      while unsent != [] && Fits(unsent[0], lastack, wnd)
        invariant Valid() && Abs().Queue() == old(Abs().Queue()) && Abs() == SentTimes(old(Abs()), n)
        invariant Moved(old(unacked), q, unacked, unsent, n)
        invariant forall j :: 0 <= j < n ==> Fits(q[j], lastack, wnd)
        invariant sndNxt == NextAfter(q, n, old(sndNxt))
        decreases |unsent|
      {
        SentOk(Abs());
        var seg := unsent[0];
        MovedOne(old(unacked), q, unacked, unsent, n);
        unsent := unsent[1..];
        sndNxt := Add(seg.start, Len(seg));
        top := if top < |Contents(unacked + [seg])| then |Contents(unacked + [seg])| else top;
        if SeqLt(sndMax, sndNxt) {
          sndMax := sndNxt;
        }
        unacked := unacked + [seg];
        n := n + 1;
      }
    }

    /** Puts everything that is not acknowledged back in front of the unsent queue and sends again what fits. */
    method Rexmit(wnd: nat) returns (ghost n: nat)
      requires Valid()
      modifies this`unsent, this`unacked, this`sndNxt, this`sndMax, this`top
      ensures Valid() && Abs().Queue() == old(Abs().Queue())
      ensures if old(unacked) == [] then Abs() == old(Abs()) && sndNxt == old(sndNxt)
              else
                var q := old(Abs()).Queue();
                && Abs() == SentTimes(Requeued(old(Abs())), n) && Moved([], q, unacked, unsent, n)
                && Fitting(q, n, lastack, wnd) && sndNxt == NextAfter(q, n, q[0].start)
    {
      hide Snd.Ok, SentTimes, Moved, Fitting;
      n := 0;
      if unacked == [] {
        return;
      }
      RequeuedOk(Abs());
      unsent := unacked + unsent;
      unacked := [];
      sndNxt := unsent[0].start;
      n := Output(wnd);
    }

    /** An acknowledgement of new data drops the segments it covers from the front of both queues.  Buffer space grows
        by the acknowledged amount.  The number half the sequence space ahead is accepted when nothing is outstanding;
        then everything that waits to be sent is dropped. */
    method Ack(ackno: seqno) returns (accepted: bool)
      requires Valid()
      modifies this
      ensures var s, d := old(Abs()), Off(ackno, old(lastack));
              && (accepted <==> (0 < d && s.part + d <= s.top) || (d == HALF && s.top == s.part))
              && Abs() == (if accepted then Acked(s, d) else s)
              && (Valid() <==> !(d == HALF && s.top == s.part))
              && (d == HALF && accepted ==> unacked == unsent == [])
      ensures sndNxt == if accepted then Restart(old(unsent), |old(unsent)| - |unsent|, old(sndNxt)) else old(sndNxt)
    {
      hide Off, Add, SeqLt, SeqLeq, Contents, Bufs, Chained, Covered, Len, Snd.Ok, Acked, Snd.Queue, Near, Restart, Short;
      ghost var s, d := Abs(), Off(ackno, lastack);
      AckTest(s, ackno);
      accepted := SeqLt(lastack, ackno) && SeqLeq(ackno, sndMax);
      if accepted {
        AckFacts(s, d);
        if s.part + d <= s.top { AckedShort(s, d, mss); }
        AckedIs(s, d);
        OffAdd(ackno, lastack);
        TakeAck(ackno);
      }
    }

    /** Drops what is covered. */
    method TakeAck(ackno: seqno)
      requires AckSeen(Abs(), Off(ackno, lastack)) && ackno == Add(lastack, Off(ackno, lastack))
      modifies this
      ensures Abs() == Acked(old(Abs()), Off(ackno, old(lastack)))
      ensures sndNxt == Restart(old(unsent), |old(unsent)| - |unsent|, old(sndNxt))
    {
      hide Off, Add, SeqLt, SeqLeq, Contents, Bufs, Chained, Covered, Len, Acked, Snd.Queue, Near, Restart, AckSeen;
      ghost var s, d := Abs(), Off(ackno, lastack);
      SeenParts(s, d);
      AckedIs(s, d);
      ghost var a, u := part + d, |Contents(unacked)|;
      var left, freed := DropAcked(unacked, ackno, una, 0, a);
      var waiting, dropped := DropAcked(unsent, ackno, una, u, a);
      sndNxt := Restart(unsent, |unsent| - |waiting|, sndNxt);
      sndBuf, lastack := (sndBuf + Off(ackno, lastack)) % 0x1_0000, ackno;
      unacked, unsent, queueLen := left, waiting, queueLen - freed - dropped;
      una, part, top := Acked(s, d).una, Acked(s, d).part, Acked(s, d).top;
    }
  }

  /** The next number to send when `k` segments are dropped from the front of the unsent queue one by one: after each of
      them the start of the one behind it is noted, if there is one. */
  function Restart(q: seq<OutSeg>, k: nat, nxt: seqno): seqno
    requires k <= |q|
  {
    if k == 0 || (k == 1 && |q| == 1) then nxt else if k < |q| then q[k].start else q[k - 1].start
  }

  /** A segment ends within the window, which starts at the last acknowledgement. */
  predicate Fits(seg: OutSeg, lastack: seqno, wnd: nat) { Add(Off(seg.start, lastack), |seg.data|) <= wnd }

  /** The first `n` segments fit, and the next one does not. */
  ghost predicate Fitting(q: seq<OutSeg>, n: nat, lastack: seqno, wnd: nat) {
    && n <= |q| && (forall j :: 0 <= j < n ==> Fits(q[j], lastack, wnd))
    && (n < |q| ==> !Fits(q[n], lastack, wnd))
  }

  /** The first `n` segments of the second queue have gone to the end of the first. */
  ghost predicate Moved(a: seq<OutSeg>, b: seq<OutSeg>, a': seq<OutSeg>, b': seq<OutSeg>, n: nat) {
    n <= |b| && a' == a + b[..n] && b' == b[n..]
  }

  lemma MovedOne(a: seq<OutSeg>, b: seq<OutSeg>, a': seq<OutSeg>, b': seq<OutSeg>, n: nat)
    requires Moved(a, b, a', b', n) && b' != []
    ensures b'[0] == b[n] && Moved(a, b, a' + [b'[0]], b'[1..], n + 1)
  {
    assert b[..n + 1] == b[..n] + [b[n]];
  }

  /** The next number to send after `n` segments. */
  function NextAfter(q: seq<OutSeg>, n: nat, nxt: seqno): seqno
    requires n <= |q|
  {
    if n == 0 then nxt else Add(q[n - 1].start, Len(q[n - 1]))
  }

  /** Sending `n` segments. */
  function SentTimes(s: Snd, n: nat): Snd {
    if n == 0 then s else Sent(SentTimes(s, n - 1))
  }

  /** What fits, in positions: the data of segment `j` of the queue ends at most `wnd` beyond the last acknowledgement. */
  lemma FitsExactly(s: Snd, j: nat, wnd: nat)
    requires s.Ok() && j < |s.Queue()|
    ensures var at := |Contents(s.Queue()[..j])|;
            Fits(s.Queue()[j], s.lastack, wnd) <==> at + |s.Queue()[j].data| <= s.part + wnd
  {
    hide Off, Add, Contents, Bufs, Units, Snd.Queue;
    var q := s.Queue();
    var at, n := |Contents(q[..j])|, |q[j].data|;
    assert q == q[..j] + q[j..];
    ChainedConcat(q[..j], q[j..], s.una);
    ContentsConcat(q[..j], q[j..]);
    FirstLen(q[j..]);
    if j > 0 { FirstLen(q[..j]); }
    OffOf(s.una, at, s.part);
    PlusMod(at - s.part, n);
  }

  lemma PlusMod(v: int, n: nat)
    requires 0 <= v + n < MOD
    ensures Add(v % MOD, n) == v + n
  {
    Small(v + n);
    assert (v % MOD + n) % MOD == (v + n) % MOD;
  }

  lemma CallableMss(s: Snd, p: Params, data: seq<byte>)
    requires Callable(s, p, data)
    ensures p.mss > 0
  {
  }

  lemma AckedIs(s: Snd, d: nat)
    ensures var a, u, r := s.part + d, |Contents(s.unacked)|, Acked(s, d);
            && r.unacked == s.unacked[Covered(s.unacked, a)..] && r.unsent == s.unsent[Covered(s.unsent, a - u)..]
            && r.lbb == s.lbb && r.lastack == Add(s.lastack, d) && r.max == s.max && r.buf == (s.buf + d) % 0x1_0000
            && r.bufs == Bufs(s.Queue()[Covered(s.Queue(), a)..]) && r.history == s.history
  {
    hide Contents, Covered, Bufs, Add;
  }

  /** What the two loops of an acknowledgement of `d` positions rely on. */
  ghost predicate AckSeen(s: Snd, d: nat) {
    var a, u, q := s.part + d, |Contents(s.unacked)|, s.Queue();
    var i, j := Covered(s.unacked, a), Covered(s.unsent, a - u);
    && Add(s.lastack, d) == Add(s.una, a) && Near(s.unacked, 0, a) && Near(s.unsent, u, a)
    && u + |Contents(s.unsent)| < LIMIT
    && Chained(s.unacked, Add(s.una, 0)) && |Contents(s.unacked)| < LIMIT && Chained(s.unsent, Add(s.una, u))
    && s.bufs == Bufs(s.unacked[..i]) + Bufs(s.unsent[..j]) + Bufs(q[Covered(q, a)..])
  }

  lemma AckParts(s: Snd, d: nat)
    requires s.Ok() && 0 < d && s.part + d <= s.top
    ensures AckSeen(s, d)
  {
    hide Add, Units, Contents, Bufs, Chained, Covered, Len;
    var a, u, q := s.part + d, |Contents(s.unacked)|, s.Queue();
    var i, j := Covered(s.unacked, a), Covered(s.unsent, a - u);
    AddAdd(s.una, s.part, d);
    AddZero(s.una);
    ContentsConcat(s.unacked, s.unsent);
    ChainedConcat(s.unacked, s.unsent, s.una);
    CoveredOk(q, s.una, a);
    AckedQueue(s, d);
    ContentsConcat(s.unacked[i..], s.unsent[j..]);
    assert s.unacked == s.unacked[..i] + s.unacked[i..] && s.unsent == s.unsent[..j] + s.unsent[j..];
    ContentsConcat(s.unacked[..i], s.unacked[i..]);
    ContentsConcat(s.unsent[..j], s.unsent[j..]);
  }

  lemma SeenParts(s: Snd, d: nat)
    requires AckSeen(s, d)
    ensures Add(s.lastack, d) == Add(s.una, s.part + d)
    ensures Near(s.unacked, 0, s.part + d) && Chained(s.unacked, Add(s.una, 0)) && |Contents(s.unacked)| < LIMIT
    ensures var u := |Contents(s.unacked)|;
            Near(s.unsent, u, s.part + d) && Chained(s.unsent, Add(s.una, u)) && u + |Contents(s.unsent)| < LIMIT
    ensures s.bufs == Bufs(s.unacked[..Covered(s.unacked, s.part + d)])
                      + Bufs(s.unsent[..Covered(s.unsent, s.part + d - |Contents(s.unacked)|)])
                      + Bufs(s.Queue()[Covered(s.Queue(), s.part + d)..])
  {
    hide Add, Contents, Bufs, Chained, Covered, Len, Near, Snd.Queue;
  }

  /** Either way. */
  lemma AckFacts(s: Snd, d: nat)
    requires s.Ok() && ((0 < d && s.part + d <= s.top) || (d == HALF && s.top == s.part))
    ensures AckSeen(s, d)
    ensures Acked(s, d).Ok() <==> !(d == HALF && s.top == s.part)
    ensures d == HALF ==> s.top == s.part && Acked(s, d).unacked == [] && Acked(s, d).unsent == []
  {
    hide Add, Contents, Bufs, Chained, Covered, Len, Snd.Ok, Acked, Snd.Queue, Near;
    TopBound(s);
    if d == HALF && s.top == s.part {
      AckHalf(s);
    } else {
      AckedOk(s, d);
      AckParts(s, d);
    }
  }

  lemma TopBound(s: Snd)
    requires s.Ok()
    ensures s.top < LIMIT
  {
  }

  lemma {:induction false} AllCovered(q: seq<OutSeg>, a: nat)
    requires |Contents(q)| <= a
    ensures Covered(q, a) == |q|
  {
    if q != [] {
      assert Contents(q) == Units(q[0]) + Contents(q[1..]);
      AllCovered(q[1..], a - Len(q[0]));
    }
  }

  lemma FirstLen(q: seq<OutSeg>)
    ensures q != [] ==> Len(q[0]) <= |Contents(q)|
  {
    if q != [] { assert Contents(q) == Units(q[0]) + Contents(q[1..]); }
  }

  lemma FirstOf(a: seq<OutSeg>, b: seq<OutSeg>)
    ensures if a == [] then a + b == b else a + b != [] && (a + b)[0] == a[0]
  {
  }

  lemma NothingOutstanding(s: Snd)
    requires s.Ok() && s.top == s.part
    ensures s.unacked == [] && s.Queue() == s.unsent
  {
    hide Add, Units, Contents, Chained, Bufs, Len;
    FirstLen(s.unacked);
    FirstOf(s.unacked, s.unsent);
  }

  /** The same when nothing is outstanding and the number is half the sequence space ahead: all that waits is dropped and
      the invariant is lost. */
  lemma AckHalf(s: Snd)
    requires s.Ok() && s.top == s.part
    ensures Acked(s, HALF).unacked == [] && Acked(s, HALF).unsent == [] && !Acked(s, HALF).Ok() && AckSeen(s, HALF)
  {
    hide Add, Contents, Covered, Chained, Bufs, Len, Snd.Ok, AckSeen;
    NothingOutstanding(s);
    QueueBound(s);
    AllCovered(s.unsent, s.part + HALF);
    HalfSeen(s);
    assert |Contents([])| == 0 by { NoContents(); }
    assert s.unsent[|s.unsent|..] == [] && s.unsent[..|s.unsent|] == s.unsent;
    NotAtEnd(Acked(s, HALF));
  }

  lemma NoContents()
    ensures Contents([]) == []
  {
  }

  lemma QueueBound(s: Snd)
    requires s.Ok()
    ensures |Contents(s.Queue())| < LIMIT
  {
  }

  lemma NotAtEnd(s: Snd)
    requires s.Queue() == [] && s.part > 0
    ensures !s.Ok()
  {
  }

  lemma HalfSeen(s: Snd)
    requires s.Ok() && s.unacked == [] && s.Queue() == s.unsent && Covered(s.unsent, s.part + HALF) == |s.unsent|
    ensures AckSeen(s, HALF)
  {
    hide Add, Units, Covered;
    AddAdd(s.una, s.part, HALF);
    AddZero(s.una);
    assert s.unsent[..|s.unsent|] == s.unsent && s.unsent[|s.unsent|..] == [];
  }
}
