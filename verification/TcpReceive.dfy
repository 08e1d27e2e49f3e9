/** Receiving data on a connection: the data part of `tcp_receive`, for segments without FIN. */
module TcpReceive {
  import opened Octets
  import opened TcpSeq
  import opened TcpReassembly

  /** A segment whose first byte lies `at` positions from `rcv_nxt`, and whose bytes not yet received are those of the
      stream. */
  ghost predicate Incoming(s: Seg, nxt: seqno, S: Stream, abs: nat, at: int) {
    && s.start == Add(nxt, at) && |s.data| <= 0xFFFF
    && -LIMIT < at < LIMIT
    && forall j :: 0 <= j < |s.data| && at + j >= 0 ==> s.data[j] == S(abs + at + j)
  }

  /** The segment has bytes at `rcv_nxt`, and the window is open. */
  predicate InOrder(at: int, len: nat, wnd: nat) { at <= 0 < at + len && wnd > 0 }

  /** The segment starts inside the window but leaves a gap. */
  predicate OutOfOrder(at: int, len: nat, wnd: nat) { 0 < at < wnd && len > 0 }

  /** Where the accepted part of an in-order segment that ends at `end` stops: at the first queued segment it meets. */
  function Accepted(q: seq<Seg>, nxt: seqno, end: nat): nat {
    if q != [] && At(q[0], nxt) <= end then At(q[0], nxt) else end
  }

  /** The position reached after an in-order segment and the queued segments that continue it. */
  function Reached(q: seq<Seg>, nxt: seqno, end: nat): nat {
    var n := Accepted(q, nxt, end);
    n + |Payload(q[..Ready(q, nxt, n)])|
  }

  /** After such a segment the queue starts below `rcv_nxt`: what stays in front lies inside what was taken. */
  predicate Strands(q: seq<Seg>, nxt: seqno, end: nat) {
    Stranded(q, nxt, Accepted(q, nxt, end))
  }

  function Monus(a: nat, b: nat): nat { if a < b then 0 else a - b }

  lemma CompareStarts(a: Seg, b: Seg, nxt: seqno)
    requires At(a, nxt) < LIMIT && At(b, nxt) < LIMIT
    ensures SeqLt(a.start, b.start) <==> At(a, nxt) < At(b, nxt)
    ensures SeqGt(a.start, b.start) <==> At(a, nxt) > At(b, nxt)
    ensures a.start == b.start <==> At(a, nxt) == At(b, nxt)
    ensures At(a, nxt) <= At(b, nxt) ==> Off(b.start, a.start) == At(b, nxt) - At(a, nxt)
  {
    OffAdd(a.start, nxt);
    OffAdd(b.start, nxt);
    Compare(a.start, b.start, nxt, At(a, nxt), At(b, nxt));
    Difference(b.start, a.start, nxt, At(b, nxt), At(a, nxt));
  }

  lemma CompareEnd(a: Seg, b: Seg, nxt: seqno)
    requires At(a, nxt) < LIMIT && At(b, nxt) < LIMIT && |a.data| < LIMIT
    ensures SeqGt(Add(a.start, |a.data|), b.start) <==> End(a, nxt) > At(b, nxt)
    ensures SeqLeq(b.start, Add(a.start, |a.data|)) <==> At(b, nxt) <= End(a, nxt)
  {
    OffAdd(a.start, nxt);
    OffAdd(b.start, nxt);
    AddAdd(nxt, At(a, nxt), |a.data|);
    Compare(Add(a.start, |a.data|), b.start, nxt, End(a, nxt), At(b, nxt));
    Compare(b.start, Add(a.start, |a.data|), nxt, At(b, nxt), End(a, nxt));
  }

  /** Cuts `s` at the start of `b` if it reaches beyond, as the code does with cyclic comparisons. */
  method Trim(s: Seg, b: Seg, ghost nxt: seqno) returns (r: Seg)
    requires At(s, nxt) <= At(b, nxt) < LIMIT && End(s, nxt) < LIMIT
    ensures r == Trimmed(s, nxt, At(b, nxt))
  {
    hide Off, Add, SeqGt, SeqLt;
    CompareStarts(s, b, nxt);
    CompareEnd(s, b, nxt);
    r := s;
    if SeqGt(Add(s.start, |s.data|), b.start) {
      r := Seg(s.start, s.data[..Off(b.start, s.start)]);
    }
  }

  /** The result of an insertion at index `i`, case by case. */
  lemma InsertedAt(q: seq<Seg>, nxt: seqno, s: Seg, i: nat)
    requires i <= |q| && (forall j :: 0 <= j < i ==> At(q[j], nxt) < At(s, nxt))
    requires i < |q| ==> At(q[i], nxt) >= At(s, nxt)
    ensures i < |q| && At(q[i], nxt) == At(s, nxt) ==>
              Inserted(q, nxt, s) == if |s.data| > |q[i].data| then q[i := s] else q
    ensures i == 0 < |q| && At(q[0], nxt) > At(s, nxt) ==>
              Inserted(q, nxt, s) == [Trimmed(s, nxt, At(q[0], nxt))] + q
    ensures 0 < i < |q| && At(q[i], nxt) > At(s, nxt) ==>
              Inserted(q, nxt, s) ==
              q[..i - 1] + [Trimmed(q[i - 1], nxt, At(s, nxt)), Trimmed(s, nxt, At(q[i], nxt))] + q[i..]
    ensures i == |q| > 0 ==> Inserted(q, nxt, s) == q[..i - 1] + [Trimmed(q[i - 1], nxt, At(s, nxt)), s]
    ensures q == [] ==> Inserted(q, nxt, s) == [s]
  {
    hide At, Trimmed;
    BeforeUnique(q, nxt, At(s, nxt), i);
  }

  lemma StartsSmall(q: seq<Seg>, nxt: seqno, S: Stream, abs: nat)
    requires QueueOk(q, nxt, S, abs)
    ensures forall i :: 0 <= i < |q| ==> At(q[i], nxt) < LIMIT && End(q[i], nxt) < LIMIT && |q[i].data| < LIMIT
  {
    hide Off, Agrees;
  }

  /** Walks the queue to the place of the new segment. */
  method Insert(q: seq<Seg>, s: Seg, ghost nxt: seqno, ghost S: Stream, ghost abs: nat) returns (r: seq<Seg>)
    requires QueueOk(q, nxt, S, abs) && SegOk(s, nxt, S, abs)
    ensures r == Inserted(q, nxt, s)
  {
    hide At, Add, SeqGt, SeqLt, Agrees, Trimmed, Inserted, QueueOk;
    StartsSmall(q, nxt, S, abs);
    if q == [] {
      InsertedAt(q, nxt, s, 0);
      r := [s];
      return;
    }
    var i := 0;
    while true
      invariant 0 <= i < |q|
      invariant forall j :: 0 <= j < i ==> At(q[j], nxt) < At(s, nxt)
      decreases |q| - i
    {
      CompareStarts(s, q[i], nxt);
      CompareStarts(q[i], s, nxt);
      if s.start == q[i].start {
        InsertedAt(q, nxt, s, i);
        r := if |s.data| > |q[i].data| then q[i := s] else q;
        return;
      }
      if i == 0 {
        if SeqLt(s.start, q[0].start) {
          InsertedAt(q, nxt, s, 0);
          var c := Trim(s, q[0], nxt);
          r := [c] + q;
          return;
        }
      } else if SeqLt(q[i - 1].start, s.start) && SeqLt(s.start, q[i].start) {
        InsertedAt(q, nxt, s, i);
        var c := Trim(s, q[i], nxt);
        var p := Trim(q[i - 1], s, nxt);
        r := q[..i - 1] + [p, c] + q[i..];
        return;
      } else {
        CompareStarts(q[i - 1], s, nxt);
      }
      if i == |q| - 1 && SeqGt(s.start, q[i].start) {
        InsertedAt(q, nxt, s, |q|);
        var p := Trim(q[i], s, nxt);
        r := q[..i] + [p, s];
        return;
      }
      i := i + 1;
    }
  }

  lemma StartIs(s: Seg, nxt: seqno, n: nat)
    requires n < LIMIT
    ensures s.start == Add(nxt, n) <==> At(s, nxt) == n
  {
    OffAdd(s.start, nxt);
    OffOfAdd(nxt, n);
  }

  class Receiver {
    var rcvNxt: seqno
    var rcvWnd: nat
    var ooseq: seq<Seg>
    var recvData: seq<byte>
    var ackNow: bool
    var ackDelay: bool

    ghost predicate Valid(S: Stream, abs: nat)
      reads this
    {
      QueueOk(ooseq, rcvNxt, S, abs) && rcvWnd + 0xFFFF < LIMIT
    }

    /** Chains the queued segments that are in sequence now onto the data for the application. */
    method TakeReady(ghost nxt: seqno, ghost n: nat)
      requires rcvNxt == Add(nxt, n) && n + |Payload(ooseq[..Ready(ooseq, nxt, n)])| < LIMIT
      modifies this`rcvNxt, this`rcvWnd, this`ooseq, this`recvData, this`ackNow
      ensures var k := old(Ready(ooseq, nxt, n));
              var data := old(Payload(ooseq[..Ready(ooseq, nxt, n)]));
              && ooseq == old(ooseq)[k..] && recvData == old(recvData) + data
              && rcvNxt == Add(nxt, n + |data|) && rcvWnd == Monus(old(rcvWnd), |data|)
              && ackNow == (old(ackNow) || k > 0)
    {
      hide Off, Add, Ready, Payload;
      ghost var q := ooseq;
      ghost var k, data := Ready(ooseq, nxt, n), Payload(ooseq[..Ready(ooseq, nxt, n)]);
      ghost var i, got: seq<byte> := 0, [];
      assert q[0..] == q;
      ReadyEmpty(ooseq, nxt, n);
      while ooseq != [] && ooseq[0].start == rcvNxt
        invariant 0 <= i <= k && i <= |q| && ooseq == q[i..]
        invariant rcvNxt == Add(nxt, n + |got|) && recvData == old(recvData) + got
        invariant got + Payload(ooseq[..Ready(ooseq, nxt, n + |got|)]) == data
        invariant i + Ready(ooseq, nxt, n + |got|) == k
        invariant rcvWnd == Monus(old(rcvWnd), |got|) && ackNow == (old(ackNow) || i > 0)
        decreases |ooseq|
      {
        var c := ooseq[0];
        StartIs(c, nxt, n + |got|);
        ReadyStep(ooseq, nxt, n + |got|);
        AddAdd(nxt, n + |got|, |c.data|);
        rcvNxt := Add(rcvNxt, |c.data|);
        rcvWnd := if rcvWnd < |c.data| then 0 else rcvWnd - |c.data|;
        recvData := recvData + c.data;
        ooseq := ooseq[1..];
        ackNow := true;
        assert q[i..][1..] == q[i + 1..];
        i := i + 1;
        got := got + c.data;
      }
      if ooseq != [] { StartIs(ooseq[0], nxt, n + |got|); }
      ReadyEmpty(ooseq, nxt, n + |got|);
    }

    /** The part of an in-order segment before the first queued one. */
    method CutAtQueue(s: Seg, ghost S: Stream, ghost abs: nat) returns (t: Seg)
      requires Valid(S, abs) && s.start == rcvNxt && 0 < |s.data| <= 0xFFFF
      ensures t.start == s.start && t.data <= s.data && 0 < |t.data| == Accepted(ooseq, rcvNxt, |s.data|)
    {
      hide Off, Add, QueueOk, SeqLeq;
      StartsSmall(ooseq, rcvNxt, S, abs);
      OwnStart(s);
      t := s;
      if ooseq != [] {
        HeadAbove(ooseq, rcvNxt, S, abs);
        CompareEnd(s, ooseq[0], rcvNxt);
        CompareStarts(s, ooseq[0], rcvNxt);
        if SeqLeq(ooseq[0].start, Add(s.start, |s.data|)) {
          t := Seg(s.start, s.data[..Off(ooseq[0].start, s.start)]);
        }
      }
    }

    /** Takes a segment that starts at `rcv_nxt`. */
    method Accept(s: Seg, ghost S: Stream, ghost abs: nat) returns (ghost n: nat)
      requires Valid(S, abs) && s.start == rcvNxt && 0 < |s.data| <= 0xFFFF && Agrees(s.data, S, abs)
      modifies this
      ensures n == Reached(old(ooseq), old(rcvNxt), |s.data|) && 0 < n < LIMIT
      ensures rcvNxt == Add(old(rcvNxt), n) && recvData == Slice(S, abs, n) && rcvWnd == Monus(old(rcvWnd), n)
      ensures ooseq == old(ooseq)[Ready(old(ooseq), old(rcvNxt), Accepted(old(ooseq), old(rcvNxt), |s.data|))..]
      ensures Valid(S, abs + n) <==> !Strands(old(ooseq), old(rcvNxt), |s.data|)
      ensures old(Disjoint(ooseq, rcvNxt)) ==> Valid(S, abs + n) && Disjoint(ooseq, rcvNxt)
      ensures ackDelay && (old(ackNow) || old(ackDelay) ==> ackNow)
    {
      hide Off, Add, Ready, Payload, QueueOk, Disjoint, Agrees, SeqLeq, Slice;
      ghost var q, nxt := ooseq, rcvNxt;
      var t := CutAtQueue(s, S, abs);
      ghost var m := |t.data|;
      ReadyOk(q, nxt, S, abs, m);
      AgreesPrefix(s.data, S, abs, m);
      rcvNxt := Add(rcvNxt, |t.data|);
      rcvWnd := if rcvWnd < |t.data| then 0 else rcvWnd - |t.data|;
      recvData := t.data;
      TakeReady(nxt, m);
      n := Reached(q, nxt, |s.data|);
      SliceJoin(t.data, S, abs, n - m);
      Rebased(q, nxt, S, abs, Ready(q, nxt, m), n);
      if Disjoint(q, nxt) { DisjointStrandsNone(q, nxt, S, abs, m); }
      if ackDelay {
        ackNow := true;
      } else {
        ackDelay := true;
      }
    }

    /** Receives a segment: delivers what is in sequence now, queues what is early, ignores the rest. */
    method Receive(seg: Seg, ghost S: Stream, ghost abs: nat, ghost at: int) returns (ghost n: nat)
      requires Valid(S, abs) && recvData == [] && Incoming(seg, rcvNxt, S, abs, at)
      modifies this
      ensures rcvNxt == Add(old(rcvNxt), n) && recvData == Slice(S, abs, n) && rcvWnd == Monus(old(rcvWnd), n)
      ensures Valid(S, abs + n) <==>
              !(InOrder(at, |seg.data|, old(rcvWnd)) && Strands(old(ooseq), old(rcvNxt), at + |seg.data|))
      ensures old(Disjoint(ooseq, rcvNxt)) ==>
                && Valid(S, abs + n)
                && (Disjoint(ooseq, rcvNxt) <==>
                    !(OutOfOrder(at, |seg.data|, old(rcvWnd)) && ReplacesIntoNext(old(ooseq), old(rcvNxt), seg)))
      ensures InOrder(at, |seg.data|, old(rcvWnd)) ==>
                && n == Reached(old(ooseq), old(rcvNxt), at + |seg.data|) > 0
                && ooseq == old(ooseq)[Ready(old(ooseq), old(rcvNxt), Accepted(old(ooseq), old(rcvNxt), at + |seg.data|))..]
      ensures !InOrder(at, |seg.data|, old(rcvWnd)) ==> n == 0
      ensures OutOfOrder(at, |seg.data|, old(rcvWnd)) ==> ooseq == Inserted(old(ooseq), old(rcvNxt), seg) && ackNow
      ensures !InOrder(at, |seg.data|, old(rcvWnd)) && !OutOfOrder(at, |seg.data|, old(rcvWnd)) ==> ooseq == old(ooseq)
      ensures at + |seg.data| <= 0 && at < 0 ==> ackNow
    {
      hide Off, Add, Ready, Payload, QueueOk, Disjoint, Agrees, SeqLeq, SeqLt, SeqGt, SeqGeq, ReplacesIntoNext, Inserted, SegOk,
           Reached, Accepted, Slice, Strands;
      n := 0;
      SliceNone(S, abs);
      AddZero(rcvNxt);
      ComparePlace(seg, rcvNxt, rcvWnd, at, S, abs);
      if |seg.data| > 0 {
        var s := seg;
        if SeqLt(s.start, rcvNxt) {
          if SeqLt(rcvNxt, Add(s.start, |s.data|)) {
            s := Seg(rcvNxt, s.data[Off(rcvNxt, s.start)..]);
            AddZero(rcvNxt);
            ComparePlace(s, rcvNxt, rcvWnd, 0, S, abs);
          } else {
            ackNow := true;
          }
        }
        if SeqGeq(s.start, rcvNxt) && SeqLt(s.start, Add(rcvNxt, rcvWnd)) {
          if rcvNxt == s.start {
            n := Accept(s, S, abs);
          } else {
            ackNow := true;
            InsertedOk(ooseq, rcvNxt, s, S, abs);
            if Disjoint(ooseq, rcvNxt) { InsertedDisjoint(ooseq, rcvNxt, s, S, abs); }
            ooseq := Insert(ooseq, s, rcvNxt, S, abs);
          }
        }
      } else if SeqGt(rcvNxt, seg.start) || SeqGeq(seg.start, Add(rcvNxt, rcvWnd)) {
        ackNow := true;
      }
    }
  }

  /** The cyclic comparisons of a segment with the window, in positions relative to `rcv_nxt`. */
  lemma ComparePlace(s: Seg, nxt: seqno, wnd: nat, at: int, S: Stream, abs: nat)
    requires Incoming(s, nxt, S, abs, at) && wnd + 0xFFFF < LIMIT
    ensures SeqLt(s.start, nxt) <==> at < 0
    ensures SeqGt(nxt, s.start) <==> at < 0
    ensures SeqLt(nxt, Add(s.start, |s.data|)) <==> at + |s.data| > 0
    ensures SeqGeq(s.start, nxt) <==> at >= 0
    ensures SeqLt(s.start, Add(nxt, wnd)) <==> at < wnd
    ensures SeqGeq(s.start, Add(nxt, wnd)) <==> at >= wnd
    ensures s.start == nxt <==> at == 0
    ensures at < 0 ==> Off(nxt, s.start) == -at
    ensures at < 0 < at + |s.data| ==> Incoming(Seg(nxt, s.data[-at..]), nxt, S, abs, 0)
    ensures at == 0 ==> Agrees(s.data, S, abs)
    ensures 0 < at < wnd && s.data != [] ==> SegOk(s, nxt, S, abs)
  {
    hide Off, SeqLt, SeqGt, SeqGeq, SeqLeq, Add;
    AddZero(nxt);
    Compare(s.start, nxt, nxt, at, 0);
    Compare(nxt, s.start, nxt, 0, at);
    AddAdd(nxt, at, |s.data|);
    Compare(nxt, Add(s.start, |s.data|), nxt, 0, at + |s.data|);
    Compare(s.start, Add(nxt, wnd), nxt, at, wnd);
    Difference(nxt, s.start, nxt, 0, at);
    if at > 0 { OffOfAdd(nxt, at); }
  }

  lemma OwnStart(s: Seg)
    ensures At(s, s.start) == 0 && End(s, s.start) == |s.data|
  {
  }

  lemma HeadAbove(q: seq<Seg>, nxt: seqno, S: Stream, abs: nat)
    requires q != [] && QueueOk(q, nxt, S, abs)
    ensures 0 < At(q[0], nxt)
  {
    assert SegOk(q[0], nxt, S, abs);
  }

  lemma AgreesPrefix(data: seq<byte>, S: Stream, pos: nat, m: nat)
    requires Agrees(data, S, pos) && m <= |data|
    ensures Agrees(data[..m], S, pos)
  {
  }

  lemma ReadyEmpty(q: seq<Seg>, nxt: seqno, n: int)
    ensures q == [] || At(q[0], nxt) != n ==> Ready(q, nxt, n) == 0 && Payload(q[..Ready(q, nxt, n)]) == []
  {
  }
}
