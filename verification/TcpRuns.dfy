/** Whole runs of the receiver: any sequence of arriving segments and of window openings by the application. */
module TcpRuns {
  import opened Octets
  import opened TcpSeq
  import opened TcpReassembly
  import opened TcpReceive

  const TCP_WND: nat := 32 * 1460

  datatype State = State(nxt: seqno, wnd: nat, q: seq<Seg>)

  /** `Arrive` is a segment whose first byte lies `at` positions from `rcv_nxt`; `Recved` is the application reporting
      that it has processed `len` bytes. */
  datatype Event = Arrive(seg: Seg, at: int) | Recved(len: nat)

  /** The bytes a segment releases to the application. */
  function Released(s: State, seg: Seg, at: int): seq<byte> {
    if InOrder(at, |seg.data|, s.wnd) then
      var m := Accepted(s.q, s.nxt, at + |seg.data|);
      (if -at <= |seg.data| && m <= |seg.data[-at..]| then seg.data[-at..][..m] else []) +
      Payload(s.q[..Ready(s.q, s.nxt, m)])
    else []
  }

  /** `tcp_recved`: the window field has 16 bits. */
  function Opened(wnd: nat, len: nat): nat {
    var w := (wnd + len) % 0x1_0000;
    if w > TCP_WND then TCP_WND else w
  }

  /** The window opens by the processed bytes, up to its maximum, unless the sum does not fit in 16 bits and what is left
      of it lies below the maximum. */
  lemma OpenedIs(wnd: nat, len: nat)
    requires wnd <= TCP_WND
    ensures Opened(wnd, len) == (if wnd + len > TCP_WND then TCP_WND else wnd + len) <==>
            wnd + len < 0x1_0000 || (wnd + len) % 0x1_0000 >= TCP_WND
  {
    if wnd + len < 0x1_0000 { assert (wnd + len) % 0x1_0000 == wnd + len; }
  }

  /** A full window that takes back 20000 bytes more shrinks to 1184. */
  lemma ShrinkingWindow()
    ensures Opened(TCP_WND, 20000) == 1184 < TCP_WND
  {
    assert TCP_WND + 20000 == 0x1_0000 + 1184;
  }

  function Next(s: State, e: Event): State {
    match e
    case Recved(len) => State(s.nxt, Opened(s.wnd, len), s.q)
    case Arrive(seg, at) =>
      if InOrder(at, |seg.data|, s.wnd) then
        var end := at + |seg.data|;
        var n := Reached(s.q, s.nxt, end);
        State(Add(s.nxt, n), Monus(s.wnd, n), s.q[Ready(s.q, s.nxt, Accepted(s.q, s.nxt, end))..])
      else if OutOfOrder(at, |seg.data|, s.wnd) then State(s.nxt, s.wnd, Inserted(s.q, s.nxt, seg))
      else s
  }

  function Output(s: State, e: Event): seq<byte> {
    if e.Arrive? then Released(s, e.seg, e.at) else []
  }

  ghost predicate Good(s: State, S: Stream, abs: nat) {
    QueueOk(s.q, s.nxt, S, abs) && s.wnd <= TCP_WND
  }

  /** The event is possible for a peer that sends `S`. */
  ghost predicate Possible(s: State, e: Event, S: Stream, abs: nat) {
    e.Arrive? ==> Incoming(e.seg, s.nxt, S, abs, e.at)
  }

  /** The event leaves a segment behind, below the new `rcv_nxt`. */
  predicate LeavesBehind(s: State, e: Event) {
    e.Arrive? && InOrder(e.at, |e.seg.data|, s.wnd) && Strands(s.q, s.nxt, e.at + |e.seg.data|)
  }

  lemma InOrderStep(s: State, seg: Seg, at: int, S: Stream, abs: nat)
    requires Good(s, S, abs) && Incoming(seg, s.nxt, S, abs, at) && InOrder(at, |seg.data|, s.wnd)
    ensures var n := Reached(s.q, s.nxt, at + |seg.data|);
            && 0 < n < LIMIT && Released(s, seg, at) == Slice(S, abs, n)
            && (Good(Next(s, Arrive(seg, at)), S, abs + n) <==> !LeavesBehind(s, Arrive(seg, at)))
            && (Disjoint(s.q, s.nxt) ==>
                  !LeavesBehind(s, Arrive(seg, at)) && DisjointState(Next(s, Arrive(seg, at))))
  {
    hide Off, Add, Ready, Payload, QueueOk, Disjoint, Slice, Agrees;
    var end: nat := at + |seg.data|;
    var m := Accepted(s.q, s.nxt, end);
    if s.q != [] { HeadAbove(s.q, s.nxt, S, abs); }
    ReadyOk(s.q, s.nxt, S, abs, m);
    var n := Reached(s.q, s.nxt, end);
    FreshPart(seg, s.nxt, S, abs, at, m);
    SliceJoin(seg.data[-at..][..m], S, abs, n - m);
    Rebased(s.q, s.nxt, S, abs, Ready(s.q, s.nxt, m), n);
    if Disjoint(s.q, s.nxt) { DisjointStrandsNone(s.q, s.nxt, S, abs, m); }
  }

  ghost predicate DisjointState(s: State) { Disjoint(s.q, s.nxt) }

  lemma FreshPart(seg: Seg, nxt: seqno, S: Stream, abs: nat, at: int, m: nat)
    requires Incoming(seg, nxt, S, abs, at) && at <= 0 && -at <= |seg.data| && m <= at + |seg.data|
    ensures Agrees(seg.data[-at..][..m], S, abs)
  {
  }

  /** One event releases exactly the stream up to the new `rcv_nxt`, overlaps in the queue or not; it keeps the invariant
      exactly when it leaves no segment behind. */
  lemma StepOk(s: State, e: Event, S: Stream, abs: nat) returns (n: nat)
    requires Good(s, S, abs) && Possible(s, e, S, abs)
    ensures Output(s, e) == Slice(S, abs, n) && Next(s, e).nxt == Add(s.nxt, n)
    ensures Good(Next(s, e), S, abs + n) <==> !LeavesBehind(s, e)
  {
    hide Off, Add, Ready, Payload, QueueOk, Disjoint, Slice, Agrees, Inserted, SegOk, Strands;
    n := 0;
    SliceNone(S, abs);
    AddZero(s.nxt);
    match e
    case Recved(_) =>
    case Arrive(seg, at) =>
      if InOrder(at, |seg.data|, s.wnd) {
        InOrderStep(s, seg, at, S, abs);
        n := Reached(s.q, s.nxt, at + |seg.data|);
      } else if OutOfOrder(at, |seg.data|, s.wnd) {
        ComparePlace(seg, s.nxt, s.wnd, at, S, abs);
        InsertedOk(s.q, s.nxt, seg, S, abs);
      }
  }

  // ---------- Runs ----------

  ghost predicate PossibleRun(s: State, es: seq<Event>, S: Stream, abs: nat)
    decreases |es|
  {
    es == [] ||
    (Possible(s, es[0], S, abs) && PossibleRun(Next(s, es[0]), es[1..], S, abs + |Output(s, es[0])|))
  }

  function RunOutput(s: State, es: seq<Event>): seq<byte>
    decreases |es|
  {
    if es == [] then [] else Output(s, es[0]) + RunOutput(Next(s, es[0]), es[1..])
  }

  function RunState(s: State, es: seq<Event>): State
    decreases |es|
  {
    if es == [] then s else RunState(Next(s, es[0]), es[1..])
  }

  predicate NoneLeft(s: State, es: seq<Event>)
    decreases |es|
  {
    es == [] || (!LeavesBehind(s, es[0]) && NoneLeft(Next(s, es[0]), es[1..]))
  }

  /** Over every run in which no segment was left behind before the last event, the application receives the peer's stream
      from where it stood, without gap, repetition or reordering, and `rcv_nxt` has moved by as many bytes.  The receiver
      can go on exactly when the last event leaves none behind either. */
  lemma {:induction false} RunDelivers(s: State, es: seq<Event>, S: Stream, abs: nat)
    requires Good(s, S, abs) && PossibleRun(s, es, S, abs) && (es == [] || NoneLeft(s, es[..|es| - 1]))
    ensures var n := |RunOutput(s, es)|;
            && RunOutput(s, es) == Slice(S, abs, n) && RunState(s, es).nxt == Add(s.nxt, n)
            && (Good(RunState(s, es), S, abs + n) <==> NoneLeft(s, es))
    decreases |es|
  {
    hide Good, Possible, Next, Output, Slice, Add, LeavesBehind;
    if es == [] {
      SliceNone(S, abs);
      AddZero(s.nxt);
    } else {
      var n := StepOk(s, es[0], S, abs);
      SliceLen(S, abs, n);
      var t := Next(s, es[0]);
      if |es| == 1 {
        assert es[1..] == [];
      } else {
        var init := es[..|es| - 1];
        assert init[0] == es[0] && init[1..] == es[1..][..|es| - 2];
        RunDelivers(t, es[1..], S, abs + n);
        var m := |RunOutput(t, es[1..])|;
        SliceAdd(S, abs, n, m);
        AddAdd(s.nxt, n, m);
      }
    }
  }

  // ---------- Runs that leave nothing behind ----------

  /** No arrival is the replacement that leaves an overlap. */
  ghost predicate NoReplacement(s: State, es: seq<Event>)
    decreases |es|
  {
    es == [] || (!Replaces(s, es[0]) && NoReplacement(Next(s, es[0]), es[1..]))
  }

  ghost predicate Replaces(s: State, e: Event) {
    e.Arrive? && OutOfOrder(e.at, |e.seg.data|, s.wnd) && ReplacesIntoNext(s.q, s.nxt, e.seg)
  }

  lemma DisjointStep(s: State, e: Event, S: Stream, abs: nat)
    requires Good(s, S, abs) && DisjointState(s) && Possible(s, e, S, abs)
    ensures !LeavesBehind(s, e) && (DisjointState(Next(s, e)) <==> !Replaces(s, e))
  {
    hide Off, Add, Ready, Payload, QueueOk, Disjoint, Slice, Agrees, Inserted, SegOk, Strands, ReplacesIntoNext;
    if e.Arrive? {
      if InOrder(e.at, |e.seg.data|, s.wnd) {
        InOrderStep(s, e.seg, e.at, S, abs);
      } else if OutOfOrder(e.at, |e.seg.data|, s.wnd) {
        ComparePlace(e.seg, s.nxt, s.wnd, e.at, S, abs);
        InsertedDisjoint(s.q, s.nxt, e.seg, S, abs);
      }
    }
  }

  /** From a queue without overlaps, a run without such a replacement leaves nothing behind. */
  lemma {:induction false} NoReplacementNoneLeft(s: State, es: seq<Event>, S: Stream, abs: nat)
    requires Good(s, S, abs) && DisjointState(s) && PossibleRun(s, es, S, abs) && NoReplacement(s, es)
    ensures NoneLeft(s, es)
    decreases |es|
  {
    hide Good, Possible, Next, Output, Slice, Add, LeavesBehind, DisjointState, Replaces;
    if es != [] {
      var n := StepOk(s, es[0], S, abs);
      SliceLen(S, abs, n);
      DisjointStep(s, es[0], S, abs);
      NoReplacementNoneLeft(Next(s, es[0]), es[1..], S, abs + n);
    }
  }

  lemma SliceLen(S: Stream, abs: nat, n: nat)
    ensures |Slice(S, abs, n)| == n
  {
  }

  lemma SliceAdd(S: Stream, abs: nat, n: nat, m: nat)
    ensures Slice(S, abs, n) + Slice(S, abs + n, m) == Slice(S, abs, n + m)
  {
  }

  // ---------- The replacement that leaves an overlap ----------

  /** Two segments of a stream of zeros wait at 10 and 20; a longer copy of the first arrives, then the missing start.
      The application gets the first 25 bytes, and the second segment stays queued although it now lies below `rcv_nxt`:
      the length to which the next in-order segment would be cut, the distance from `rcv_nxt` to that segment, has
      wrapped around. */
  lemma StrandedSegment()
    ensures var a, a', b, first := Seg(10, Zeros(10)), Seg(10, Zeros(15)), Seg(20, Zeros(10)), Seg(0, Zeros(10));
            var s0 := State(0, 100, [a, b]);
            var s1 := Next(s0, Arrive(a', 10));
            var s2 := Next(s1, Arrive(first, 0));
            && Good(s0, _ => 0, 0) && Incoming(a', 0, _ => 0, 0, 10) && Incoming(first, 0, _ => 0, 0, 0)
            && ReplacesIntoNext(s0.q, 0, a') && LeavesBehind(s1, Arrive(first, 0))
            && s1.q == [a', b] && !Disjoint(s1.q, 0)
            && s2.nxt == 25 && s2.q == [b] && SeqLt(b.start, s2.nxt) && Off(b.start, s2.nxt) == MOD - 5
  {
    var a, a', b, first := Seg(10, Zeros(10)), Seg(10, Zeros(15)), Seg(20, Zeros(10)), Seg(0, Zeros(10));
    var q, q1 := [a, b], [a', b];
    assert End(q[0], 0) <= At(q[0 + 1], 0);
    assert End(a', 0) > At(q[0 + 1], 0);
    InsertedAt(q, 0, a', 0);
    assert q[0 := a'] == q1;
    assert End(q1[0], 0) > At(q1[0 + 1], 0);
    assert Ready(q1[1..], 0, 25) == 0;
    ReadyStep(q1, 0, 10);
    assert q1[1..] == [b];
    assert Payload(q1[..1]) == Zeros(15) by { assert q1[..1] == [a']; assert [a'][1..] == []; assert Payload([]) == []; }
  }

  /** The same overlap, healed: a segment that starts inside the longer one cuts it, and the queue is disjoint again; no
      event of the run leaves anything behind. */
  lemma HealedOverlap()
    ensures var a', b, c, first := Seg(10, Zeros(15)), Seg(20, Zeros(10)), Seg(15, Zeros(8)), Seg(0, Zeros(10));
            var s1 := State(0, 100, [a', b]);
            var s2 := Next(s1, Arrive(c, 15));
            && Good(s1, AllZeros, 0) && !Disjoint(s1.q, 0) && Incoming(c, 0, AllZeros, 0, 15)
            && s2.q == [Seg(10, Zeros(5)), Seg(15, Zeros(5)), b] && Disjoint(s2.q, 0)
            && NoneLeft(s1, [Arrive(c, 15), Arrive(first, 0)])
  {
    hide Disjoint, Next, LeavesBehind, Good, Incoming, NoneLeft;
    var a', b, c, first := Seg(10, Zeros(15)), Seg(20, Zeros(10)), Seg(15, Zeros(8)), Seg(0, Zeros(10));
    HealedQueue();
    HealedStart();
    HealedNext();
    HealedLast();
    TwoSteps(State(0, 100, [a', b]), Arrive(c, 15), Arrive(first, 0));
  }

  function AllZeros(i: nat): byte { 0 }

  lemma HealedStart()
    ensures Good(State(0, 100, [Seg(10, Zeros(15)), Seg(20, Zeros(10))]), AllZeros, 0)
    ensures Incoming(Seg(15, Zeros(8)), 0, AllZeros, 0, 15)
  {
    hide Off;
    Places();
  }

  lemma HealedNext()
    ensures var s1, e := State(0, 100, [Seg(10, Zeros(15)), Seg(20, Zeros(10))]), Arrive(Seg(15, Zeros(8)), 15);
            && Next(s1, e) == State(0, 100, [Seg(10, Zeros(5)), Seg(15, Zeros(5)), Seg(20, Zeros(10))])
            && !LeavesBehind(s1, e)
  {
    hide Disjoint, Inserted, Ready, Payload, Off;
    HealedQueue();
  }

  lemma HealedLast()
    ensures !LeavesBehind(State(0, 100, [Seg(10, Zeros(5)), Seg(15, Zeros(5)), Seg(20, Zeros(10))]),
                          Arrive(Seg(0, Zeros(10)), 0))
  {
    hide Disjoint, Ready, Off;
    var q := [Seg(10, Zeros(5)), Seg(15, Zeros(5)), Seg(20, Zeros(10))];
    HealedQueue();
    Places();
    DisjointStrandsNone(q, 0, AllZeros, 0, 10);
    assert Accepted(q, 0, 10) == 10;
  }

  lemma TwoSteps(s: State, d: Event, e: Event)
    requires !LeavesBehind(s, d) && !LeavesBehind(Next(s, d), e)
    ensures NoneLeft(s, [d, e])
  {
    hide LeavesBehind, Next;
    assert [d, e][1..] == [e] && [e][1..] == [];
    assert NoneLeft(Next(s, d), [e]);
  }

  lemma HealedQueue()
    ensures var a', b, c := Seg(10, Zeros(15)), Seg(20, Zeros(10)), Seg(15, Zeros(8));
            var q2 := [Seg(10, Zeros(5)), Seg(15, Zeros(5)), b];
            Inserted([a', b], 0, c) == q2 && Disjoint(q2, 0) && !Disjoint([a', b], 0)
  {
    var a', b, c := Seg(10, Zeros(15)), Seg(20, Zeros(10)), Seg(15, Zeros(8));
    var q1, q2 := [a', b], [Seg(10, Zeros(5)), Seg(15, Zeros(5)), b];
    assert End(q1[0], 0) > At(q1[0 + 1], 0);
    InsertedAt(q1, 0, c, 1);
    assert a'.data[..5] == Zeros(5) && c.data[..5] == Zeros(5);
    assert q1[..0] == [] && q1[1..] == [b];
  }

  lemma Places()
    ensures forall a: seqno :: Off(a, 0) == a && Add(0, a) == a
  {
  }
}
