/** What segments, calls of the application and the timer do to the control blocks. */
module TcpPcbSteps {
  import opened NoDuplicates
  import opened TcpSeq
  import opened TcpQueue
  import opened TcpReassembly
  import opened TcpPcbState

  const TCP_SYNMAXRTX: nat := 6
  const TCP_MAXRTX: nat := 32
  const SYN_RCVD_TICKS: int := 20000 / 500
  const FIN_WAIT_TICKS: int := 20000 / 500
  const TIME_WAIT_TICKS: int := 2 * 60000 / 500

  datatype Segment = Segment(src: nat, dest: nat, srcPort: nat, destPort: nat, syn: bool, ack: bool, fin: bool,
                             rst: bool, seqno: seqno, ackno: seqno, len: nat)

  function TcpLen(s: Segment): nat { s.len + if s.syn || s.fin then 1 else 0 }

  /** What the data path (receiving, enqueueing, sending again, sending) leaves in a block. */
  datatype Work = Work(sndNxt: seqno, lastack: seqno, rcvNxt: seqno, rcvWnd: nat, unsent: seq<OutSeg>,
                       unacked: seq<OutSeg>, ooseq: seq<Seg>, nrtx: nat)

  function Worked(p: Pcb, w: Work): Pcb {
    p.(sndNxt := w.sndNxt, lastack := w.lastack, rcvNxt := w.rcvNxt, rcvWnd := w.rcvWnd, unsent := w.unsent,
       unacked := w.unacked, ooseq := w.ooseq, nrtx := w.nrtx)
  }

  /** What the world decides: the data path, whether a FIN was received in sequence, whether a flag could be enqueued,
      whether a block could be allocated, whether the application accepts a connection and whether it takes the data, and
      the time. */
  datatype Env = Env(receive: Work, gotFin: bool, send: Work, sendOk: bool, memory: bool, accept: bool, reader: bool,
                     ticks: seqno)

  // ---------- Calls ----------

  function CloseStep(n: Net, i: nat, e: Env): Net
    requires i < |n.pcbs|
  {
    var p := n.pcbs[i];
    match p.state
    case Listen => Removed(n, ListenList, i)
    case SynSent => Removed(n, ActiveList, i)
    case SynRcvd => if e.sendOk then Set(n, i, Worked(p, e.send).(state := FinWait1)) else n
    case Established => if e.sendOk then Set(n, i, Worked(p, e.send).(state := FinWait1)) else n
    case CloseWait => if e.sendOk then Set(n, i, Worked(p, e.send).(state := LastAck)) else n
    case _ => n
  }

  function AbortStep(n: Net, i: nat): Net
    requires i < |n.pcbs|
  {
    Removed(n, if n.pcbs[i].state == TimeWait then TwList else ActiveList, i)
  }

  lemma CloseOk(n: Net, i: nat, e: Env)
    requires Ok(n) && i < |n.pcbs|
    ensures Ok(CloseStep(n, i, e)) && Grew(n, CloseStep(n, i, e))
  {
    hide Ok, Removed, Set, Grew;
    RemovedOk(n, ListenList, i);
    RemovedOk(n, ActiveList, i);
    GrewRefl(n);
    var q := Worked(n.pcbs[i], e.send);
    if n.pcbs[i].state == SynRcvd || n.pcbs[i].state == Established {
      SetOk(n, i, q.(state := FinWait1));
    } else if n.pcbs[i].state == CloseWait {
      SetOk(n, i, q.(state := LastAck));
    }
  }

  lemma GrewRefl(n: Net)
    ensures Grew(n, n)
  {
  }

  /** Aborting keeps the lists right exactly when the block is not in LISTEN, which is then looked for on the wrong
      list. */
  lemma AbortOk(n: Net, i: nat)
    requires Ok(n) && i < |n.pcbs|
    ensures Ok(AbortStep(n, i)) <==> n.pcbs[i].state != Listen
    ensures Grew(n, AbortStep(n, i))
  {
    hide Ok, Removed, Grew;
    RemovedOk(n, if n.pcbs[i].state == TimeWait then TwList else ActiveList, i);
  }

  /** A listening block that is aborted stays on its list. */
  lemma AbortListening()
    ensures var p := Pcb(Listen, 0, 80, 0, 0, 0, 0, 0, 0, [], [], [], false, 0, 0);
            var n := Net([p], [], [], [0], [[Closed, Listen]]);
            Ok(n) && AbortStep(n, 0).listen == [0] && AbortStep(n, 0).pcbs[0].state == Closed && !Ok(AbortStep(n, 0))
  {
    var p := Pcb(Listen, 0, 80, 0, 0, 0, 0, 0, 0, [], [], [], false, 0, 0);
    var n := Net([p], [], [], [0], [[Closed, Listen]]);
    assert Placed(n, 0);
    AbortOk(n, 0);
  }

  // ---------- An incoming segment ----------

  predicate AcceptableReset(p: Pcb, seg: Segment) {
    if p.state == Listen then false
    else if p.state == SynSent then seg.ackno == p.sndNxt
    else SeqGeq(seg.seqno, p.rcvNxt) && SeqLeq(seg.seqno, Add(p.rcvNxt, p.rcvWnd))
  }

  /** The block a listening one makes for a connection request. */
  function Child(p: Pcb, seg: Segment, e: Env): Pcb {
    Worked(Pcb(SynRcvd, seg.dest, p.localPort, seg.src, seg.srcPort, 0, 0, 0, 0, [], [], [], false, e.ticks, 0), e.send)
  }

  function NewPcb(e: Env): Pcb {
    Pcb(Closed, 0, 0, 0, 0, 0, 0, 0, 0, [], [], [], false, e.ticks, 0)
  }

  datatype Outcome = Reset | Finished | Aborted | Normal

  /** The state after a segment that is not a reset, when the block was neither listening nor aborted. */
  function NextState(p: Pcb, q: Pcb, seg: Segment): State {
    var acked := seg.ack && seg.ackno == q.sndNxt;
    match p.state
    case SynSent =>
      if (seg.ack || seg.syn) && p.unacked != [] && seg.ackno == Add(p.unacked[0].start, 1) then Established
      else SynSent
    case SynRcvd =>
      if seg.ack && SeqLt(p.lastack, seg.ackno) && SeqLeq(seg.ackno, p.sndNxt) then Established else SynRcvd
    case Established => if seg.fin then CloseWait else Established
    case CloseWait => CloseWait
    case FinWait1 =>
      if seg.fin then (if acked then TimeWait else Closing) else if acked then FinWait2 else FinWait1
    case FinWait2 => if seg.fin then TimeWait else FinWait2
    case Closing => if acked then TimeWait else Closing
    case LastAck => if acked then Closed else LastAck
    case s => s
  }

  /** Only the edges of the diagram, and none but CLOSED out of the active states without a handshake. */
  lemma NextIsEdge(p: Pcb, q: Pcb, seg: Segment)
    ensures NextState(p, q, seg) == p.state || Edge(p.state, NextState(p, q, seg))
    ensures !IsActive(p.state) ==> NextState(p, q, seg) == p.state
    ensures NextState(p, q, seg) == Closed && p.state != Closed ==> p.state == LastAck
  {
  }

  function Process(n: Net, i: nat, seg: Segment, e: Env): (Net, Outcome)
    requires i < |n.pcbs|
  {
    var p := n.pcbs[i];
    if seg.rst then (n, if AcceptableReset(p, seg) then Reset else Normal)
    else if p.state == Listen then
      if !seg.ack && seg.syn && e.memory then (Opened(Created(n, NewPcb(e)), |n.pcbs|, Child(p, seg, e)), Normal)
      else (n, Normal)
    else
      var t := p.(tmr := e.ticks);
      var q := Worked(t, e.receive).(gotFin := p.gotFin || e.gotFin);
      var s := NextState(p, q, seg);
      if p.state == Closed || p.state == TimeWait then
        (Set(n, i, if p.state == TimeWait && SeqGt(Add(seg.seqno, TcpLen(seg)), p.rcvNxt)
                   then t.(rcvNxt := Add(seg.seqno, TcpLen(seg))) else t), Normal)
      else if (p.state == SynSent || p.state == SynRcvd) && s == p.state then (Set(n, i, t), Normal)
      else if p.state == SynRcvd && !e.accept then (AbortStep(Set(n, i, t.(state := s)), i), Aborted)
      else if p.state == SynRcvd then (Set(n, i, q.(state := s)), Normal)
      else if s == TimeWait then (TimeWaited(Set(n, i, q), i), Normal)
      else if s == Closed then (Set(n, i, q.(state := s)), Finished)
      else (Set(n, i, q.(state := s)), Normal)
  }

  /** What follows: the block is removed after a reset or the last acknowledgement; without a reader, a FIN from the peer
      closes our side too. */
  function CleanUp(n: Net, i: nat, o: Outcome, e: Env): Net
    requires i < |n.pcbs|
  {
    var p := n.pcbs[i];
    if o == Aborted || p.state == Listen then n
    else if o == Reset then Removed(n, if p.state == TimeWait then TwList else ActiveList, i)
    else if o == Finished then Removed(n, ActiveList, i)
    else if p.state != TimeWait && !e.reader && p.gotFin then CloseStep(n, i, e)
    else if IsActive(p.state) then Set(n, i, Worked(p, e.send))
    else n
  }

  function Handle(n: Net, i: nat, seg: Segment, e: Env): Net
    requires i < |n.pcbs|
  {
    var (m, o) := Process(n, i, seg, e);
    CleanUp(m, i, o, e)
  }

  lemma ProcessSize(n: Net, i: nat, seg: Segment, e: Env)
    requires i < |n.pcbs|
    ensures i < |Process(n, i, seg, e).0.pcbs|
  {
  }

  lemma ListenOk(n: Net, p: Pcb, seg: Segment, e: Env)
    requires Ok(n)
    ensures var m := Opened(Created(n, NewPcb(e)), |n.pcbs|, Child(p, seg, e)); Ok(m) && Grew(n, m)
  {
    hide Ok, Grew;
    var c := Created(n, NewPcb(e));
    CreatedOk(n, NewPcb(e));
    OpenedOk(c, |n.pcbs|, Child(p, seg, e));
    GrewTrans(n, c, Opened(c, |n.pcbs|, Child(p, seg, e)));
  }

  lemma TwoSteps(n: Net, i: nat, q: Pcb, s: State)
    requires Ok(n) && i < |n.pcbs| && IsActive(n.pcbs[i].state)
    requires q.state == n.pcbs[i].state || Edge(n.pcbs[i].state, q.state)
    requires IsActive(q.state)
    ensures Ok(AbortStep(Set(n, i, q), i)) && Grew(n, AbortStep(Set(n, i, q), i))
    ensures Edge(q.state, TimeWait) ==> Ok(TimeWaited(Set(n, i, q), i)) && Grew(n, TimeWaited(Set(n, i, q), i))
  {
    hide Ok, Grew, Removed, TimeWaited;
    var m := Set(n, i, q);
    SetOk(n, i, q);
    SetIs(n, i, q);
    AbortOk(m, i);
    GrewTrans(n, m, AbortStep(m, i));
    if Edge(q.state, TimeWait) {
      TimeWaitedOk(m, i);
      GrewTrans(n, m, TimeWaited(m, i));
    }
  }

  lemma SetIs(n: Net, i: nat, q: Pcb)
    requires Ok(n) && i < |n.pcbs|
    ensures i < |Set(n, i, q).pcbs| && Set(n, i, q).pcbs[i] == q
  {
  }

  lemma SetTimeWaitOk(n: Net, i: nat, q: Pcb)
    requires Ok(n) && i < |n.pcbs| && n.pcbs[i].state == q.state == TimeWait && NoSegments(q)
    ensures Ok(Set(n, i, q)) && Grew(n, Set(n, i, q))
  {
    var m := Set(n, i, q);
    forall j: nat | j < |m.pcbs| ensures Placed(m, j) { assert Placed(n, j); }
  }

  /** Processing keeps the lists right, except that after the last acknowledgement the block still is on its list. */
  lemma ProcessOk(n: Net, i: nat, seg: Segment, e: Env)
    requires Ok(n) && i < |n.pcbs| && n.pcbs[i].state != Closed
    ensures var (m, o) := Process(n, i, seg, e);
            && i < |m.pcbs|
            && (o != Finished ==> Ok(m) && Grew(n, m))
            && (o == Reset ==> m.pcbs[i].state != Listen)
            && (o == Finished ==> exists q: Pcb :: q.state == Closed && IsActive(n.pcbs[i].state) && m == Set(n, i, q))
  {
    hide Ok, Grew, Removed, TimeWaited, Opened, Created, AbortStep, SeqLt, SeqLeq, SeqGt, SeqGeq, Add, Worked, Edge;
    var p := n.pcbs[i];
    GrewRefl(n);
    ProcessSize(n, i, seg, e);
    if !seg.rst {
      if p.state == Listen {
        ListenOk(n, p, seg, e);
      } else if p.state == TimeWait {
        TimeWaitEmpty(n, i);
        var t := p.(tmr := e.ticks);
        SetTimeWaitOk(n, i, t);
        SetTimeWaitOk(n, i, t.(rcvNxt := Add(seg.seqno, TcpLen(seg))));
      } else {
        ActiveOk(n, i, seg, e);
      }
    }
  }

  lemma TimeWaitEmpty(n: Net, i: nat)
    requires Ok(n) && i < |n.pcbs| && n.pcbs[i].state == TimeWait
    ensures NoSegments(n.pcbs[i])
  {
    assert Placed(n, i);
  }

  lemma ActiveOk(n: Net, i: nat, seg: Segment, e: Env)
    requires Ok(n) && i < |n.pcbs| && IsActive(n.pcbs[i].state) && !seg.rst
    ensures var (m, o) := Process(n, i, seg, e);
            && o != Reset && (o != Finished ==> Ok(m) && Grew(n, m))
            && (o == Finished ==> exists q: Pcb :: q.state == Closed && m == Set(n, i, q))
  {
    hide Ok, Grew, Removed, TimeWaited, Opened, Created, AbortStep, SeqLt, SeqLeq, SeqGt, SeqGeq, Add, NextState, Set;
    var p := n.pcbs[i];
    var t := p.(tmr := e.ticks);
    var q := Worked(t, e.receive).(gotFin := p.gotFin || e.gotFin);
    var s := NextState(p, q, seg);
    NextIsEdge(p, q, seg);
    if s == p.state {
      SetOk(n, i, t);
      SetOk(n, i, q);
      SetOk(n, i, q.(state := s));
    } else if s == TimeWait {
      TwoSteps(n, i, q, s);
    } else if s == Closed {
      assert q.(state := s).state == Closed;
    } else {
      NotListen(p, q, seg);
      SetOk(n, i, q.(state := s));
      TwoSteps(n, i, t.(state := s), s);
    }
  }

  lemma NotListen(p: Pcb, q: Pcb, seg: Segment)
    requires IsActive(p.state)
    ensures NextState(p, q, seg) != Listen
  {
  }

  /** Whatever a segment does to the block it is for, the lists stay right and the block moves along the diagram. */
  lemma HandleOk(n: Net, i: nat, seg: Segment, e: Env)
    requires Ok(n) && i < |n.pcbs| && n.pcbs[i].state != Closed
    ensures i < |Process(n, i, seg, e).0.pcbs| && Ok(Handle(n, i, seg, e)) && Grew(n, Handle(n, i, seg, e))
  {
    hide Ok, Grew, Removed, Process, CloseStep, Worked, Set;
    var (m, o) := Process(n, i, seg, e);
    ProcessOk(n, i, seg, e);
    if o == Finished {
      var q: Pcb :| q.state == Closed && IsActive(n.pcbs[i].state) && m == Set(n, i, q);
      FinishedOk(n, i, q);
      SetIs(n, i, q);
    } else {
      var r := CleanUp(m, i, o, e);
      RemovedOk(m, if m.pcbs[i].state == TimeWait then TwList else ActiveList, i);
      CloseOk(m, i, e);
      WorkedState(m.pcbs[i], e.send);
      if IsActive(m.pcbs[i].state) { SetOk(m, i, Worked(m.pcbs[i], e.send)); }
      GrewTrans(n, m, r);
    }
  }

  lemma WorkedState(p: Pcb, w: Work)
    ensures Worked(p, w).state == p.state
  {
  }

  // ---------- Finding the block ----------

  /** A connection is found by all four of its addresses and ports, a listener by its own port and, unless it listens on
      any address, its own address. */
  predicate Matches(p: Pcb, seg: Segment) {
    && p.localPort == seg.destPort
    && (if p.state == Listen then p.localIp == 0 || p.localIp == seg.dest
        else p.remotePort == seg.srcPort && p.remoteIp == seg.src && p.localIp == seg.dest)
  }

  /** The block made for a request gets exactly the segments of that connection. */
  lemma ChildMatches(p: Pcb, seg: Segment, e: Env, s: Segment)
    requires p.state == Listen && Matches(p, seg)
    ensures Matches(Child(p, seg, e), s) <==>
            s.src == seg.src && s.srcPort == seg.srcPort && s.dest == seg.dest && s.destPort == seg.destPort
  {
  }

  /** On a connection that is not being opened a reset is acceptable exactly within the receive window. */
  lemma ResetInWindow(p: Pcb, seg: Segment, d: int)
    requires p.state != Listen && p.state != SynSent && seg.seqno == Add(p.rcvNxt, d) && -HALF < d < HALF
    requires p.rcvWnd < HALF
    ensures AcceptableReset(p, seg) <==> 0 <= d <= p.rcvWnd
  {
    hide Off, Add, SeqLt, SeqLeq, SeqGt, SeqGeq;
    AddZero(p.rcvNxt);
    Compare(seg.seqno, p.rcvNxt, p.rcvNxt, d, 0);
    if d >= 0 { Compare(seg.seqno, Add(p.rcvNxt, p.rcvWnd), p.rcvNxt, d, p.rcvWnd); }
  }

  /** The place of the first block on a list that matches. */
  function First(pcbs: seq<Pcb>, l: seq<nat>, seg: Segment): (k: nat)
    ensures k <= |l|
    ensures k < |l| && l[k] < |pcbs| ==> Matches(pcbs[l[k]], seg)
    ensures forall j :: 0 <= j < k && l[j] < |pcbs| ==> !Matches(pcbs[l[j]], seg)
  {
    if l == [] || (l[0] < |pcbs| && Matches(pcbs[l[0]], seg)) then 0 else 1 + First(pcbs, l[1..], seg)
  }

  datatype Found = None | Some(i: nat)

  /** The block a segment is for; an active or listening one moves to the front of its list. */
  function Demux(n: Net, seg: Segment): (Net, Found) {
    var a, t, l := First(n.pcbs, n.active, seg), First(n.pcbs, n.tw, seg), First(n.pcbs, n.listen, seg);
    if a < |n.active| then (n.(active := Fronted(n.active, a)), Some(n.active[a]))
    else if t < |n.tw| then (n, Some(n.tw[t]))
    else if l < |n.listen| then (n.(listen := Fronted(n.listen, l)), Some(n.listen[l]))
    else (n, None)
  }

  function Input(n: Net, seg: Segment, e: Env): Net {
    var (m, f) := Demux(n, seg);
    if f.Some? && f.i < |m.pcbs| then Handle(m, f.i, seg, e) else m
  }

  /** The search only reorders lists.  It finds a block that matches; a connection is preferred to a listener, and nothing
      is found only when no block on a list matches. */
  lemma DemuxOk(n: Net, seg: Segment)
    requires Ok(n)
    ensures var (m, f) := Demux(n, seg);
            && Ok(m) && Grew(n, m) && m.pcbs == n.pcbs
            && (f.Some? ==> f.i < |n.pcbs| && n.pcbs[f.i].state != Closed && Matches(n.pcbs[f.i], seg))
            && (f.Some? && n.pcbs[f.i].state == Listen ==>
                  forall i :: i in n.active || i in n.tw ==> i < |n.pcbs| && !Matches(n.pcbs[i], seg))
            && (f.None? ==> forall i :: i in n.active || i in n.tw || i in n.listen ==>
                                          i < |n.pcbs| && !Matches(n.pcbs[i], seg))
  {
    hide Matches, NoDup, Placed;
    var a, t, l := First(n.pcbs, n.active, seg), First(n.pcbs, n.tw, seg), First(n.pcbs, n.listen, seg);
    FrontedOk(n.active, a);
    FrontedOk(n.listen, l);
    ReorderedOk(n, Fronted(n.active, a), n.listen);
    ReorderedOk(n, n.active, Fronted(n.listen, l));
    if a < |n.active| {
      assert n.active[a] in n.active;
      PlacedStates(n, n.active[a]);
    } else if t < |n.tw| {
      assert n.tw[t] in n.tw;
      PlacedStates(n, n.tw[t]);
    } else if l < |n.listen| {
      assert n.listen[l] in n.listen;
      PlacedStates(n, n.listen[l]);
    }
  }

  predicate ListStates(n: Net, i: nat)
    requires i < |n.pcbs|
  {
    && (i in n.active ==> n.pcbs[i].state != Closed && n.pcbs[i].state != Listen)
    && (i in n.tw ==> n.pcbs[i].state == TimeWait) && (i in n.listen ==> n.pcbs[i].state == Listen)
  }

  lemma PlacedStates(n: Net, i: nat)
    requires Ok(n) && i < |n.pcbs|
    ensures Placed(n, i) && ListStates(n, i)
  {
    assert Placed(n, i);
  }

  lemma InputOk(n: Net, seg: Segment, e: Env)
    requires Ok(n)
    ensures Ok(Input(n, seg, e)) && Grew(n, Input(n, seg, e))
  {
    hide Ok, Grew, Handle, Demux, Matches;
    DemuxOk(n, seg);
    var (m, f) := Demux(n, seg);
    if f.Some? {
      HandleOk(m, f.i, seg, e);
      GrewTrans(n, m, Input(n, seg, e));
    }
  }

  /** A segment changes no block but the one it is for, and makes at most one new one. */
  lemma InputLocal(n: Net, seg: Segment, e: Env)
    requires Ok(n)
    ensures var (m, f) := Demux(n, seg);
            var r := Input(n, seg, e);
            && |n.pcbs| <= |r.pcbs| <= |n.pcbs| + 1
            && (forall j :: 0 <= j < |n.pcbs| && f != Some(j) ==> r.pcbs[j] == n.pcbs[j])
            && (|r.pcbs| > |n.pcbs| ==>
                  && f.Some? && f.i < |n.pcbs| && n.pcbs[f.i].state == Listen && r.pcbs[f.i] == n.pcbs[f.i]
                  && r.pcbs[|n.pcbs|].state == SynRcvd)
  {
    hide Ok, Demux, Matches, Handle, Grew;
    DemuxOk(n, seg);
    SameSize(n);
    var (m, f) := Demux(n, seg);
    SameSize(m);
    if f.Some? { HandleLocal(m, f.i, seg, e); }
  }

  /** The second has the blocks of the first, but for the one at `i`. */
  ghost predicate SameBut(m: Net, n: Net, i: nat) {
    |m.pcbs| == |n.pcbs| && |m.hist| == |n.hist| && forall j :: 0 <= j < |m.pcbs| && j != i ==> n.pcbs[j] == m.pcbs[j]
  }

  lemma CallsLocal(n: Net, i: nat, l: ListName, p: Pcb, e: Env)
    requires i < |n.pcbs|
    ensures SameBut(n, Set(n, i, p), i) && SameBut(n, Removed(n, l, i), i) && SameBut(n, TimeWaited(n, i), i)
    ensures SameBut(n, AbortStep(n, i), i) && SameBut(n, CloseStep(n, i, e), i)
  {
    hide Remove, Purged, Worked;
  }

  lemma ProcessLocal(n: Net, i: nat, seg: Segment, e: Env)
    requires i < |n.pcbs| == |n.hist|
    ensures var m := Process(n, i, seg, e).0;
            SameBut(n, m, i) ||
            (n.pcbs[i].state == Listen && m == Opened(Created(n, NewPcb(e)), |n.pcbs|, Child(n.pcbs[i], seg, e)))
  {
    hide Remove, Purged, Worked, NextState, AcceptableReset, SeqGt, Add, Edge, Child, Opened, Set, AbortStep,
         TimeWaited, Removed, CloseStep;
    var p := n.pcbs[i];
    var t := p.(tmr := e.ticks);
    var q := Worked(t, e.receive).(gotFin := p.gotFin || e.gotFin);
    var s := NextState(p, q, seg);
    CallsLocal(n, i, ActiveList, t, e);
    CallsLocal(n, i, ActiveList, t.(rcvNxt := Add(seg.seqno, TcpLen(seg))), e);
    CallsLocal(n, i, ActiveList, q, e);
    CallsLocal(n, i, ActiveList, q.(state := s), e);
    CallsLocal(n, i, ActiveList, t.(state := s), e);
    CallsLocal(Set(n, i, q), i, ActiveList, q, e);
    CallsLocal(Set(n, i, t.(state := s)), i, ActiveList, q, e);
  }

  lemma HandleLocal(n: Net, i: nat, seg: Segment, e: Env)
    requires i < |n.pcbs| == |n.hist|
    ensures var r := Handle(n, i, seg, e);
            SameBut(n, r, i) ||
            (n.pcbs[i].state == Listen && r == Opened(Created(n, NewPcb(e)), |n.pcbs|, Child(n.pcbs[i], seg, e)))
    ensures var r := Opened(Created(n, NewPcb(e)), |n.pcbs|, Child(n.pcbs[i], seg, e));
            && |r.pcbs| == |n.pcbs| + 1 && r.pcbs[|n.pcbs|].state == SynRcvd
            && forall j :: 0 <= j < |n.pcbs| ==> r.pcbs[j] == n.pcbs[j]
  {
    hide Process, Removed, CloseStep, Set, Worked;
    ProcessLocal(n, i, seg, e);
    var (m, o) := Process(n, i, seg, e);
    ChildIs(n, n.pcbs[i], seg, e);
    CallsLocal(m, i, ActiveList, Worked(m.pcbs[i], e.send), e);
    CallsLocal(m, i, TwList, Worked(m.pcbs[i], e.send), e);
  }

  lemma ChildIs(n: Net, p: Pcb, seg: Segment, e: Env)
    requires |n.pcbs| == |n.hist|
    ensures var r := Opened(Created(n, NewPcb(e)), |n.pcbs|, Child(p, seg, e));
            && |r.pcbs| == |n.pcbs| + 1 && r.pcbs[|n.pcbs|].state == SynRcvd
            && forall j :: 0 <= j < |n.pcbs| ==> r.pcbs[j] == n.pcbs[j]
  {
  }

  lemma SameSize(n: Net)
    requires Ok(n)
    ensures |n.pcbs| == |n.hist|
  {
  }

  // ---------- The slow timer ----------

  /** Too many retransmissions, or too long in SYN-RECEIVED or FIN-WAIT-2. */
  predicate Expired(p: Pcb, ticks: seqno) {
    || (p.state == SynSent && p.nrtx == TCP_SYNMAXRTX) || p.nrtx == TCP_MAXRTX
    || (p.state == FinWait2 && Off(ticks, p.tmr) > FIN_WAIT_TICKS)
    || (p.state == SynRcvd && Off(ticks, p.tmr) > SYN_RCVD_TICKS)
  }

  predicate WaitedOut(p: Pcb, ticks: seqno) { Off(ticks, p.tmr) > TIME_WAIT_TICKS }

  /** One connection: removed, or sent again and trimmed as `w` says. */
  function Tick(n: Net, i: nat, w: Work, ticks: seqno): Net {
    if i >= |n.pcbs| then n
    else if Expired(n.pcbs[i], ticks) then Removed(n, ActiveList, i)
    else Set(n, i, Worked(n.pcbs[i], w))
  }

  function TickAll(n: Net, l: seq<nat>, w: nat -> Work, ticks: seqno): Net
    decreases |l|
  {
    if l == [] then n else TickAll(Tick(n, l[0], w(l[0]), ticks), l[1..], w, ticks)
  }

  function Wait(n: Net, i: nat, ticks: seqno): Net {
    if i < |n.pcbs| && WaitedOut(n.pcbs[i], ticks) then Removed(n, TwList, i) else n
  }

  function WaitAll(n: Net, l: seq<nat>, ticks: seqno): Net
    decreases |l|
  {
    if l == [] then n else WaitAll(Wait(n, l[0], ticks), l[1..], ticks)
  }

  function SlowTimer(n: Net, w: nat -> Work, ticks: seqno): Net {
    var m := TickAll(n, n.active, w, ticks);
    WaitAll(m, m.tw, ticks)
  }

  lemma TickOk(n: Net, i: nat, w: Work, ticks: seqno)
    requires Ok(n) && i < |n.pcbs| && IsActive(n.pcbs[i].state)
    ensures var m := Tick(n, i, w, ticks);
            && Ok(m) && Grew(n, m) && |m.pcbs| == |n.pcbs| && m.tw == n.tw
            && (forall j :: 0 <= j < |n.pcbs| && j != i ==> m.pcbs[j] == n.pcbs[j])
            && (m.pcbs[i].state == if Expired(n.pcbs[i], ticks) then Closed else n.pcbs[i].state)
  {
    hide Placed, Grew, Remove, Purged, Worked, Edge;
    RemovedOk(n, ActiveList, i);
    WorkedState(n.pcbs[i], w);
    SetOk(n, i, Worked(n.pcbs[i], w));
  }

  lemma {:induction false} TickAllOk(n: Net, l: seq<nat>, w: nat -> Work, ticks: seqno)
    requires Ok(n) && NoDup(l) && forall i :: i in l ==> i < |n.pcbs| && IsActive(n.pcbs[i].state)
    ensures var m := TickAll(n, l, w, ticks);
            && Ok(m) && Grew(n, m) && |m.pcbs| == |n.pcbs| && m.tw == n.tw
            && (forall j: nat :: j < |n.pcbs| && j !in l ==> m.pcbs[j] == n.pcbs[j])
            && (forall j: nat :: j in l && j < |n.pcbs| ==>
                  m.pcbs[j].state == if Expired(n.pcbs[j], ticks) then Closed else n.pcbs[j].state)
    decreases |l|
  {
    hide Ok, Grew, Tick, Expired, IsActive;
    if l == [] {
      GrewRefl(n);
    } else {
      var m := Tick(n, l[0], w(l[0]), ticks);
      assert l[0] in l;
      TickOk(n, l[0], w(l[0]), ticks);
      Tail(l);
      TickAllOk(m, l[1..], w, ticks);
      GrewTrans(n, m, TickAll(m, l[1..], w, ticks));
    }
  }

  lemma Tail(l: seq<nat>)
    requires NoDup(l) && l != []
    ensures NoDup(l[1..]) && l[0] !in l[1..] && forall i :: i in l <==> i == l[0] || i in l[1..]
  {
    var t := l[1..];
    assert forall j :: 0 <= j < |t| ==> t[j] == l[j + 1];
    assert l == [l[0]] + t;
  }

  lemma WaitOk(n: Net, i: nat, ticks: seqno)
    requires Ok(n) && i < |n.pcbs| && n.pcbs[i].state == TimeWait
    ensures var m := Wait(n, i, ticks);
            && Ok(m) && Grew(n, m) && |m.pcbs| == |n.pcbs|
            && (forall j :: 0 <= j < |n.pcbs| && j != i ==> m.pcbs[j] == n.pcbs[j])
            && (m.pcbs[i].state == if WaitedOut(n.pcbs[i], ticks) then Closed else TimeWait)
  {
    hide Placed, Grew, Remove, Purged, Edge;
    RemovedOk(n, TwList, i);
    GrewRefl(n);
  }

  lemma {:induction false} WaitAllOk(n: Net, l: seq<nat>, ticks: seqno)
    requires Ok(n) && NoDup(l) && forall i :: i in l ==> i < |n.pcbs| && n.pcbs[i].state == TimeWait
    ensures var m := WaitAll(n, l, ticks);
            && Ok(m) && Grew(n, m) && |m.pcbs| == |n.pcbs|
            && (forall j: nat :: j < |n.pcbs| && j !in l ==> m.pcbs[j] == n.pcbs[j])
            && (forall j: nat :: j in l && j < |n.pcbs| ==>
                  m.pcbs[j].state == if WaitedOut(n.pcbs[j], ticks) then Closed else TimeWait)
    decreases |l|
  {
    hide Ok, Grew, Wait, WaitedOut;
    if l == [] {
      GrewRefl(n);
    } else {
      var m := Wait(n, l[0], ticks);
      assert l[0] in l;
      WaitOk(n, l[0], ticks);
      Tail(l);
      WaitAllOk(m, l[1..], ticks);
      GrewTrans(n, m, WaitAll(m, l[1..], ticks));
    }
  }

  /** A tick removes exactly the connections that have expired and the blocks that have waited long enough, and changes
      the state of no other. */
  lemma SlowTimerOk(n: Net, w: nat -> Work, ticks: seqno)
    requires Ok(n)
    ensures var m := SlowTimer(n, w, ticks);
            && Ok(m) && Grew(n, m) && |m.pcbs| == |n.pcbs|
            && forall j: nat :: j < |n.pcbs| ==>
                 var p := n.pcbs[j];
                 m.pcbs[j].state ==
                 if (IsActive(p.state) && Expired(p, ticks)) || (p.state == TimeWait && WaitedOut(p, ticks)) then Closed
                 else p.state
  {
    hide Grew, Expired, WaitedOut, TickAll, WaitAll, NoSegments, IsPath;
    var m := TickAll(n, n.active, w, ticks);
    forall i | i in n.active ensures i < |n.pcbs| && IsActive(n.pcbs[i].state) { assert Placed(n, i); }
    TickAllOk(n, n.active, w, ticks);
    forall i | i in m.tw ensures i < |m.pcbs| && m.pcbs[i].state == TimeWait { assert Placed(m, i); }
    WaitAllOk(m, m.tw, ticks);
    var r := WaitAll(m, m.tw, ticks);
    GrewTrans(n, m, r);
    forall j: nat | j < |n.pcbs|
      ensures r.pcbs[j].state ==
              if (IsActive(n.pcbs[j].state) && Expired(n.pcbs[j], ticks)) ||
                 (n.pcbs[j].state == TimeWait && WaitedOut(n.pcbs[j], ticks)) then Closed
              else n.pcbs[j].state
    {
      assert Placed(n, j);
      assert j !in n.tw ==> r.pcbs[j] == m.pcbs[j];
      assert j !in n.active ==> m.pcbs[j] == n.pcbs[j];
    }
  }

  // ---------- Runs ----------

  datatype Event = New(e: Env) | Connect(i: nat, p: Pcb) | Open(i: nat) | Close(i: nat, e: Env) | Abort(i: nat)
                 | Arrive(seg: Segment, e: Env) | Timer(w: nat -> Work, ticks: seqno)

  predicate Known(n: Net, ev: Event) {
    match ev
    case Connect(i, p) => i < |n.pcbs| && p.state == SynSent
    case Open(i) => i < |n.pcbs|
    case Close(i, _) => i < |n.pcbs|
    case Abort(i) => i < |n.pcbs|
    case _ => true
  }

  /** Blocks are opened when they are closed; a listening block is closed and not aborted. */
  predicate Possible(n: Net, ev: Event) {
    && Known(n, ev)
    && match ev
       case Connect(i, p) => n.pcbs[i].state == Closed
       case Open(i) => n.pcbs[i].state == Closed || n.pcbs[i].state == Listen
       case Abort(i) => n.pcbs[i].state != Listen
       case _ => true
  }

  function After(n: Net, ev: Event): Net
    requires Known(n, ev)
  {
    match ev
    case New(e) => Created(n, NewPcb(e))
    case Connect(i, p) => Opened(n, i, p)
    case Open(i) => if n.pcbs[i].state == Listen then n else Opened(n, i, n.pcbs[i].(state := Listen))
    case Close(i, e) => CloseStep(n, i, e)
    case Abort(i) => AbortStep(n, i)
    case Arrive(seg, e) => Input(n, seg, e)
    case Timer(w, ticks) => SlowTimer(n, w, ticks)
  }

  /** An event keeps the invariant exactly when it is no misuse of that kind. */
  lemma StepOk(n: Net, ev: Event)
    requires Ok(n) && Known(n, ev)
    ensures Ok(After(n, ev)) <==> Possible(n, ev)
    ensures Grew(n, After(n, ev))
  {
    hide Ok, Grew, Created, Opened, CloseStep, AbortStep, Input, SlowTimer;
    GrewRefl(n);
    match ev
    case New(e) => CreatedOk(n, NewPcb(e));
    case Connect(i, p) => OpenedOk(n, i, p);
    case Open(i) => OpenedOk(n, i, n.pcbs[i].(state := Listen));
    case Close(i, e) => CloseOk(n, i, e);
    case Abort(i) => AbortOk(n, i);
    case Arrive(seg, e) => InputOk(n, seg, e);
    case Timer(w, ticks) => SlowTimerOk(n, w, ticks);
  }

  predicate PossibleRun(n: Net, evs: seq<Event>)
    decreases |evs|
  {
    evs == [] || (Possible(n, evs[0]) && PossibleRun(After(n, evs[0]), evs[1..]))
  }

  function RunEnd(n: Net, evs: seq<Event>): Net
    requires PossibleRun(n, evs)
    decreases |evs|
  {
    if evs == [] then n else RunEnd(After(n, evs[0]), evs[1..])
  }

  /** Over every run the lists are duplicate-free and disjoint and hold exactly the blocks of their states, blocks in
      TIME-WAIT hold no segments, and every block has moved along the diagram from where it was. */
  lemma {:induction false} RunOk(n: Net, evs: seq<Event>)
    requires Ok(n) && PossibleRun(n, evs)
    ensures Ok(RunEnd(n, evs)) && Grew(n, RunEnd(n, evs))
    decreases |evs|
  {
    hide Ok, Grew, After;
    GrewRefl(n);
    if evs != [] {
      var m := After(n, evs[0]);
      StepOk(n, evs[0]);
      RunOk(m, evs[1..]);
      GrewTrans(n, m, RunEnd(m, evs[1..]));
    }
  }
}
