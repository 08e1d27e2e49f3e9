/** What the state of a connection means: it is a function of whether the handshake is complete, whether our FIN was sent and
    acknowledged, and whether the peer's FIN has come, and which of the two came first. */
module TcpMeaning {
  import opened TcpSeq
  import opened TcpPcbState
  import opened TcpPcbSteps

  /** What has happened to a block: nothing, a passive open, or a connection that was opened actively or by a request.  Of a
      connection: the handshake is complete; our FIN was sent, it was acknowledged; the peer's FIN came, and it came
      before ours. */
  datatype Facts = Idle | Listening
                 | Live(active: bool, up: bool, sent: bool, acked: bool, got: bool, first: bool)

  /** An acknowledgement is of something sent, the peer cannot have been first without a FIN from both, and a connection that
      was opened actively sends no FIN before it is complete; a FIN counts once the handshake is complete or ours was sent. */
  predicate Sane(f: Facts) {
    f.Live? ==> (f.acked ==> f.sent) && (f.first ==> f.sent && f.got) && (f.active && f.sent ==> f.up) &&
                (f.got ==> f.up || f.sent)
  }

  function StateOf(f: Facts): State {
    match f
    case Idle => Closed
    case Listening => Listen
    case Live(active, up, sent, acked, got, first) =>
      if !up && !sent then (if active then SynSent else SynRcvd)
      else if !sent then (if got then CloseWait else Established)
      else if first then (if acked then Closed else LastAck)
      else if acked then (if got then TimeWait else FinWait2)
      else if got then Closing else FinWait1
  }

  /** Read the other way: each state says exactly what has happened. */
  lemma StateMeans(f: Facts)
    requires Sane(f) && f.Live? && (f.up || f.sent)
    ensures StateOf(f) == Established <==> !f.sent && !f.got
    ensures StateOf(f) == CloseWait <==> !f.sent && f.got
    ensures StateOf(f) == FinWait1 <==> f.sent && !f.acked && !f.got
    ensures StateOf(f) == FinWait2 <==> f.sent && f.acked && !f.got
    ensures StateOf(f) == Closing <==> f.sent && !f.acked && f.got && !f.first
    ensures StateOf(f) == TimeWait <==> f.sent && f.acked && f.got && !f.first
    ensures StateOf(f) == LastAck <==> f.sent && !f.acked && f.got && f.first
    ensures StateOf(f) == Closed <==> f.sent && f.acked && f.got && f.first
  {
  }

  // ---------- What an event says ----------

  /** The application closes; `ok` when the FIN could be enqueued. */
  function Closes(f: Facts, ok: bool): Facts {
    match f
    case Idle => Idle
    case Listening => Idle
    case Live(active, up, sent, acked, got, first) =>
      if active && !up then Idle
      else if sent || !ok then f
      else f.(sent := true, first := got)
  }

  /** The handshake is complete with this segment: our SYN is acknowledged. */
  predicate Completes(active: bool, p: Pcb, seg: Segment) {
    if active then (seg.ack || seg.syn) && p.unacked != [] && seg.ackno == Add(p.unacked[0].start, 1)
    else seg.ack && SeqLt(p.lastack, seg.ackno) && SeqLeq(seg.ackno, p.sndNxt)
  }

  /** A segment that is no reset; `nxt` is the next number to send after its data was processed. */
  function Hears(f: Facts, p: Pcb, seg: Segment, nxt: seqno): Facts
    requires f.Live?
  {
    if !f.up && !f.sent then f.(up := Completes(f.active, p, seg))
    else f.(acked := f.acked || (f.sent && seg.ack && seg.ackno == nxt), got := f.got || seg.fin)
  }

  /** A segment for a connection.  A reset that is acceptable ends it, so does an application that does not accept it, and so
      does the acknowledgement of our FIN after the peer's.  A reader that is gone closes our side after a FIN. */
  function HearsAll(f: Facts, p: Pcb, seg: Segment, e: Env): Facts
    requires f.Live?
  {
    if seg.rst then
      if AcceptableReset(p, seg) then Idle
      else if !e.reader && p.gotFin then Closes(f, e.sendOk) else f
    else
      var g := Hears(f, p, seg, e.receive.sndNxt);
      if !f.active && !f.up && !f.sent && g.up && !e.accept then Idle
      else if g.first && g.acked then Idle
      else if !e.reader && (p.gotFin || (e.gotFin && (g.up || g.sent))) then Closes(g, e.sendOk)
      else g
  }

  /** What event `ev` says about block `i`. */
  function Learns(f: Facts, n: Net, ev: Event, i: nat): Facts {
    match ev
    case New(e) => if i >= |n.pcbs| then Idle else f
    case Connect(j, _) => if i == j then Live(true, false, false, false, false, false) else f
    case Open(j) => if i == j then Listening else f
    case Close(j, e) => if i == j then Closes(f, e.sendOk) else f
    case Abort(j) => if i == j then Idle else f
    case Arrive(seg, e) =>
      if i >= |n.pcbs| then Live(false, false, false, false, false, false)
      else if f.Live? && Demux(n, seg).1 == Some(i) then HearsAll(f, n.pcbs[i], seg, e)
      else f
    case Timer(_, ticks) =>
      if i < |n.pcbs| && RunsOut(n.pcbs[i], ticks) then Idle else f
  }

  predicate RunsOut(p: Pcb, ticks: seqno) {
    (IsActive(p.state) && Expired(p, ticks)) || (p.state == TimeWait && WaitedOut(p, ticks))
  }

  // ---------- One segment ----------

  lemma Elementary(n: Net, i: nat, p: Pcb, l: ListName)
    requires i < |n.pcbs| == |n.hist|
    ensures Set(n, i, p).pcbs == n.pcbs[i := p] && |Set(n, i, p).hist| == |n.pcbs|
    ensures |Removed(n, l, i).pcbs| == |n.pcbs| && Removed(n, l, i).pcbs[i].state == Closed
    ensures forall j :: 0 <= j < |n.pcbs| && j != i ==> Removed(n, l, i).pcbs[j] == n.pcbs[j]
    ensures |Removed(n, l, i).hist| == |n.pcbs| == |TimeWaited(n, i).hist|
    ensures |TimeWaited(n, i).pcbs| == |n.pcbs| && TimeWaited(n, i).pcbs[i].state == TimeWait
    ensures TimeWaited(n, i).pcbs[i].gotFin == n.pcbs[i].gotFin && TimeWaited(n, i).pcbs[i].tmr == n.pcbs[i].tmr
    ensures Removed(n, l, i).pcbs[i].tmr == n.pcbs[i].tmr
  {
    hide Remove;
  }

  lemma CloseMeans(n: Net, i: nat, e: Env, f: Facts)
    requires i < |n.pcbs| == |n.hist| && n.pcbs[i].state == StateOf(f) && Sane(f) && !(f.Live? && f.first && f.acked)
    ensures |CloseStep(n, i, e).pcbs| == |n.pcbs|
    ensures CloseStep(n, i, e).pcbs[i].state == StateOf(Closes(f, e.sendOk)) && Sane(Closes(f, e.sendOk))
  {
    hide Set, Removed, Worked;
    var q := Worked(n.pcbs[i], e.send);
    Elementary(n, i, q.(state := FinWait1), ListenList);
    Elementary(n, i, q.(state := LastAck), ActiveList);
  }

  /** The transition table says what the facts say. */
  lemma NextMeans(p: Pcb, q: Pcb, seg: Segment, f: Facts)
    requires f.Live? && Sane(f) && p.state == StateOf(f) != Closed
    ensures p.state != TimeWait ==> NextState(p, q, seg) == StateOf(Hears(f, p, seg, q.sndNxt))
    ensures Sane(Hears(f, p, seg, q.sndNxt)) && (p.state == TimeWait ==> StateOf(Hears(f, p, seg, q.sndNxt)) == TimeWait)
  {
    hide SeqLt, SeqLeq, Add;
  }

  lemma ProcessMeans(n: Net, i: nat, seg: Segment, e: Env, f: Facts)
    requires i < |n.pcbs| == |n.hist| && f.Live? && Sane(f) && n.pcbs[i].state == StateOf(f) != Closed && !seg.rst
    ensures var (m, o) := Process(n, i, seg, e);
            var p, g := n.pcbs[i], Hears(f, n.pcbs[i], seg, e.receive.sndNxt);
            && |m.pcbs| == |n.pcbs| == |m.hist| && o != Reset && m.pcbs[i].tmr == e.ticks
            && (o == Aborted <==> !f.active && !f.up && !f.sent && g.up && !e.accept)
            && (o == Aborted ==> m.pcbs[i].state == Closed)
            && (o != Aborted ==> (o == Finished <==> g.first && g.acked) && m.pcbs[i].state == StateOf(g))
            && (o == Normal && m.pcbs[i].state != TimeWait ==>
                  m.pcbs[i].gotFin == (p.gotFin || (e.gotFin && (g.up || g.sent))))
  {
    hide Set, Removed, TimeWaited, SeqLt, SeqLeq, SeqGt, Add, TcpLen, NextState, Hears, Completes, AbortStep;
    var p := n.pcbs[i];
    var t := p.(tmr := e.ticks);
    var q := Worked(t, e.receive).(gotFin := p.gotFin || e.gotFin);
    var s := NextState(p, q, seg);
    NextMeans(p, q, seg, f);
    HearsKeeps(f, p, seg, e.receive.sndNxt);
    if p.state == TimeWait {
      Elementary(n, i, t, ActiveList);
      Elementary(n, i, t.(rcvNxt := Add(seg.seqno, TcpLen(seg))), ActiveList);
    } else if p.state == SynSent || p.state == SynRcvd {
      Elementary(n, i, t, ActiveList);
      Elementary(n, i, q.(state := s), ActiveList);
      Aborts(n, i, t.(state := s));
    } else {
      Elementary(n, i, q, ActiveList);
      Elementary(n, i, q.(state := s), ActiveList);
      Elementary(Set(n, i, q), i, q, ActiveList);
    }
  }

  lemma Aborts(n: Net, i: nat, p: Pcb)
    requires i < |n.pcbs| == |n.hist|
    ensures i < |Set(n, i, p).pcbs|
    ensures var m := AbortStep(Set(n, i, p), i);
            |m.pcbs| == |n.pcbs| == |m.hist| && m.pcbs[i].state == Closed && m.pcbs[i].tmr == p.tmr
  {
    hide Set, Removed;
    Elementary(n, i, p, ActiveList);
    Elementary(Set(n, i, p), i, p, ActiveList);
    Elementary(Set(n, i, p), i, p, TwList);
  }

  lemma HearsKeeps(f: Facts, p: Pcb, seg: Segment, nxt: seqno)
    requires f.Live?
    ensures var g := Hears(f, p, seg, nxt);
            && g.Live? && g.active == f.active && g.sent == f.sent && g.first == f.first
            && (f.up || f.sent ==> g.up == f.up)
  {
  }

  lemma HandleMeans(n: Net, i: nat, seg: Segment, e: Env, f: Facts)
    requires i < |n.pcbs| == |n.hist| && f.Live? && Sane(f) && n.pcbs[i].state == StateOf(f) != Closed
    ensures var r, g := Handle(n, i, seg, e), HearsAll(f, n.pcbs[i], seg, e);
            |r.pcbs| == |n.pcbs| && r.pcbs[i].state == StateOf(g) && Sane(g) && (StateOf(g) == Closed ==> g == Idle)
  {
    hide Process, Removed, CloseStep, Set, Hears, AcceptableReset;
    var (m, o) := Process(n, i, seg, e);
    if seg.rst {
      ResetProcess(n, i, seg, e);
      Tidies(n, i, o, e, f);
    } else {
      ProcessMeans(n, i, seg, e, f);
      var g := Hears(f, n.pcbs[i], seg, e.receive.sndNxt);
      HearsKeeps(f, n.pcbs[i], seg, e.receive.sndNxt);
      NextMeans(n.pcbs[i], n.pcbs[i].(sndNxt := e.receive.sndNxt), seg, f);
      if o != Aborted { Tidies(m, i, o, e, g); }
    }
  }

  lemma ResetProcess(n: Net, i: nat, seg: Segment, e: Env)
    requires i < |n.pcbs| && seg.rst
    ensures Process(n, i, seg, e) == (n, if AcceptableReset(n.pcbs[i], seg) then Reset else Normal)
  {
  }

  lemma Tidies(m: Net, i: nat, o: Outcome, e: Env, g: Facts)
    requires i < |m.pcbs| == |m.hist| && g.Live? && Sane(g) && m.pcbs[i].state == StateOf(g) && o != Aborted
    requires o != Reset ==> (o == Finished <==> g.first && g.acked)
    ensures var r := CleanUp(m, i, o, e);
            var h := if o == Reset || o == Finished then Idle
                     else if !e.reader && m.pcbs[i].gotFin then Closes(g, e.sendOk) else g;
            |r.pcbs| == |m.pcbs| && r.pcbs[i].state == StateOf(h) && Sane(h)
  {
    hide Set, Removed, CloseStep;
    if !(g.first && g.acked) { CloseMeans(m, i, e, g); }
    Elementary(m, i, Worked(m.pcbs[i], e.send), ActiveList);
    Elementary(m, i, Worked(m.pcbs[i], e.send), TwList);
  }

  // ---------- Every event, every run ----------

  /** The facts are right for block `i`, if it exists. */
  ghost predicate Knows(n: Net, i: nat, f: Facts) {
    i < |n.pcbs| ==> n.pcbs[i].state == StateOf(f) && Sane(f) && (StateOf(f) == Closed ==> f == Idle)
  }

  lemma ListenHandled(n: Net, i: nat, seg: Segment, e: Env)
    requires i < |n.pcbs| == |n.hist| && n.pcbs[i].state == Listen
    ensures i < |Handle(n, i, seg, e).pcbs| && Handle(n, i, seg, e).pcbs[i] == n.pcbs[i]
  {
    hide Opened, Created, Child, NewPcb;
    ChildIs(n, n.pcbs[i], seg, e);
  }

  lemma ArriveMeans(n: Net, seg: Segment, e: Env, i: nat, f: Facts)
    requires Ok(n) && Knows(n, i, f) && i < |Input(n, seg, e).pcbs|
    ensures Knows(Input(n, seg, e), i, Learns(f, n, Arrive(seg, e), i))
  {
    hide Ok, Demux, Matches, Handle, HearsAll, Grew;
    DemuxOk(n, seg);
    InputLocal(n, seg, e);
    var (m, found) := Demux(n, seg);
    SameSize(m);
    if found == Some(i) && i < |n.pcbs| {
      if f.Live? {
        HandleMeans(m, i, seg, e, f);
      } else {
        ListenHandled(m, i, seg, e);
      }
    }
  }

  /** After every event the state is what the facts say. */
  lemma StepMeans(n: Net, ev: Event, i: nat, f: Facts)
    requires Ok(n) && Possible(n, ev) && Knows(n, i, f) && i < |After(n, ev).pcbs|
    ensures Knows(After(n, ev), i, Learns(f, n, ev, i))
  {
    hide Ok, Demux, HearsAll, Input, SlowTimer, Grew, CloseStep, Removed, Set;
    SameSize(n);
    match ev
    case New(e) =>
    case Connect(j, p) => Elementary(n, j, p, ActiveList);
    case Open(j) => Elementary(n, j, n.pcbs[j].(state := Listen), ActiveList);
    case Close(j, e) =>
      CallsLocal(n, j, ActiveList, n.pcbs[j], e);
      if j == i { CloseMeans(n, i, e, f); }
    case Abort(j) => Elementary(n, j, n.pcbs[j], if n.pcbs[j].state == TimeWait then TwList else ActiveList);
    case Arrive(seg, e) => ArriveMeans(n, seg, e, i, f);
    case Timer(w, ticks) => SlowTimerOk(n, w, ticks);
  }

  function RunFacts(f: Facts, n: Net, evs: seq<Event>, i: nat): Facts
    requires PossibleRun(n, evs)
    decreases |evs|
  {
    if evs == [] then f else RunFacts(Learns(f, n, evs[0], i), After(n, evs[0]), evs[1..], i)
  }

  /** Over every run the state of every block is the one its facts say. */
  lemma {:induction false} RunMeans(n: Net, evs: seq<Event>, i: nat, f: Facts)
    requires Ok(n) && PossibleRun(n, evs) && Knows(n, i, f)
    ensures Knows(RunEnd(n, evs), i, RunFacts(f, n, evs, i))
    decreases |evs|
  {
    hide Ok, After, Learns, Grew, Knows;
    if evs != [] {
      var m, g := After(n, evs[0]), Learns(f, n, evs[0], i);
      StepOk(n, evs[0]);
      if i < |m.pcbs| { StepMeans(n, evs[0], i, f); } else { NotYet(m, i, g); }
      RunMeans(m, evs[1..], i, g);
    }
  }

  lemma NotYet(n: Net, i: nat, f: Facts)
    requires i >= |n.pcbs|
    ensures Knows(n, i, f)
  {
  }
}
