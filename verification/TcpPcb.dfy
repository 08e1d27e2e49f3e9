/** The control blocks of all connections and the lists they are kept on, updated in place. */
module TcpPcb {
  import opened NoDuplicates
  import opened TcpSeq
  import opened TcpPcbState
  import opened TcpPcbSteps

  /** Takes the first occurrence of `x` off a list. */
  method Unlink(l: seq<nat>, x: nat) returns (r: seq<nat>)
    ensures r == Remove(l, x)
  {
    var k := 0;
    assert l[0..] == l;
    while k < |l| && l[k] != x
      invariant 0 <= k <= |l| && Remove(l, x) == l[..k] + Remove(l[k..], x)
    {
      assert l[k..] == [l[k]] + l[k + 1..];
      assert l[..k + 1] == l[..k] + [l[k]];
      k := k + 1;
    }
    if k < |l| {
      r := l[..k] + l[k + 1..];
      assert l[k..][1..] == l[k + 1..];
    } else {
      r := l;
    }
  }

  // ---------- Ports ----------

  const PORTS: nat := 0x7FFF - 4096 + 1

  /** The port `j` places after `base`, within 4096 to 0x7FFF. */
  function Cyclic(base: nat, j: nat): int {
    4096 + (base - 4096 + j) % PORTS
  }

  lemma CyclicStep(base: nat, j: nat)
    requires 4096 <= base <= 0x7FFF
    ensures Cyclic(base, 0) == base && 4096 <= Cyclic(base, j) <= 0x7FFF
    ensures Cyclic(base, j + 1) == if Cyclic(base, j) == 0x7FFF then 4096 else Cyclic(base, j) + 1
  {
  }

  predicate OnList(pcbs: seq<Pcb>, l: seq<nat>, port: int) {
    exists k :: 0 <= k < |l| && l[k] < |pcbs| && pcbs[l[k]].localPort == port
  }

  predicate Used(n: Net, port: int) {
    OnList(n.pcbs, n.active, port) || OnList(n.pcbs, n.tw, port) || OnList(n.pcbs, n.listen, port)
  }

  class Tcp {
    var pcbs: seq<Pcb>
    var active: seq<nat>
    var tw: seq<nat>
    var listen: seq<nat>
    var nextPort: nat
    ghost var hist: seq<seq<State>>

    ghost function Abs(): Net
      reads this
    {
      Net(pcbs, active, tw, listen, hist)
    }

    ghost predicate Valid()
      reads this
    {
      Ok(Abs()) && 4096 <= nextPort <= 0x7FFF
    }

    constructor (port: nat)
      requires 4096 <= port <= 0x7FFF
      ensures Valid() && pcbs == []
    {
      pcbs, active, tw, listen, hist := [], [], [], [], [];
      nextPort := port;
    }

    method Write(i: nat, p: Pcb)
      requires i < |pcbs| == |hist|
      modifies this`pcbs, this`hist
      ensures Abs() == Set(old(Abs()), i, p)
    {
      if p.state != pcbs[i].state {
        hist := hist[i := hist[i] + [p.state]];
      }
      pcbs := pcbs[i := p];
    }

    method Purge(i: nat)
      requires i < |pcbs| == |hist|
      modifies this`pcbs, this`hist
      ensures Abs() == Set(old(Abs()), i, Purged(old(pcbs)[i])) && pcbs[i] == Purged(old(pcbs)[i])
      ensures |pcbs| == old(|pcbs|) && hist == old(hist)
    {
      var p := pcbs[i];
      if p.state != Closed && p.state != TimeWait && p.state != Listen {
        Write(i, p.(unsent := [], unacked := [], ooseq := []));
      } else {
        assert pcbs[i := p] == pcbs;
      }
    }

    /** `tcp_pcb_remove`. */
    method PcbRemove(l: ListName, i: nat)
      requires i < |pcbs| == |hist|
      modifies this`pcbs, this`hist, this`active, this`tw, this`listen
      ensures Abs() == Removed(old(Abs()), l, i)
    {
      match l {
        case ActiveList => active := Unlink(active, i);
        case TwList => tw := Unlink(tw, i);
        case ListenList => listen := Unlink(listen, i);
      }
      Purge(i);
      Write(i, pcbs[i].(state := Closed));
      assert pcbs == old(pcbs)[i := pcbs[i]];
    }

    method EnterTimeWait(i: nat)
      requires i < |pcbs| == |hist|
      modifies this`pcbs, this`hist, this`active, this`tw
      ensures Abs() == TimeWaited(old(Abs()), i)
    {
      Purge(i);
      active := Unlink(active, i);
      Write(i, pcbs[i].(state := TimeWait));
      tw := [i] + tw;
      assert pcbs == old(pcbs)[i := pcbs[i]];
    }

    method Close(i: nat, e: Env)
      requires Valid() && i < |pcbs|
      modifies this`pcbs, this`hist, this`active, this`tw, this`listen
      ensures Abs() == CloseStep(old(Abs()), i, e) && Valid()
    {
      hide Removed, Set, Worked, Placed, NoDup;
      CloseOk(Abs(), i, e);
      var p := pcbs[i];
      match p.state {
        case Listen => PcbRemove(ListenList, i);
        case SynSent => PcbRemove(ActiveList, i);
        case SynRcvd => if e.sendOk { Write(i, Worked(p, e.send).(state := FinWait1)); }
        case Established => if e.sendOk { Write(i, Worked(p, e.send).(state := FinWait1)); }
        case CloseWait => if e.sendOk { Write(i, Worked(p, e.send).(state := LastAck)); }
        case _ =>
      }
    }

    /** A listening block is taken off the wrong list, which breaks the lists. */
    method Abort(i: nat)
      requires Valid() && i < |pcbs|
      modifies this`pcbs, this`hist, this`active, this`tw, this`listen
      ensures Abs() == AbortStep(old(Abs()), i)
      ensures Valid() <==> old(pcbs)[i].state != Listen
    {
      hide Removed, Placed, NoDup;
      AbortOk(Abs(), i);
      if pcbs[i].state == TimeWait {
        PcbRemove(TwList, i);
      } else {
        PcbRemove(ActiveList, i);
      }
    }

    // ---------- An incoming segment ----------

    /** The place of the first matching block. */
    method Search(l: seq<nat>, seg: Segment) returns (k: nat)
      requires forall i :: i in l ==> i < |pcbs|
      ensures k == First(pcbs, l, seg)
    {
      k := 0;
      assert l[0..] == l;
      while k < |l| && !(assert l[k] in l; Matches(pcbs[l[k]], seg))
        invariant 0 <= k <= |l| && First(pcbs, l, seg) == k + First(pcbs, l[k..], seg)
      {
        assert l[k..][1..] == l[k + 1..];
        k := k + 1;
      }
    }

    method Find(seg: Segment) returns (f: Found)
      requires Valid()
      modifies this`active, this`listen
      ensures (Abs(), f) == Demux(old(Abs()), seg) && Valid()
    {
      hide Placed, Matches, NoDup;
      DemuxOk(Abs(), seg);
      var k := Search(active, seg);
      if k < |active| {
        f := Some(active[k]);
        active := [active[k]] + active[..k] + active[k + 1..];
        return;
      }
      k := Search(tw, seg);
      if k < |tw| {
        return Some(tw[k]);
      }
      k := Search(listen, seg);
      if k < |listen| {
        f := Some(listen[k]);
        listen := [listen[k]] + listen[..k] + listen[k + 1..];
        return;
      }
      f := None;
    }

    /** A connection request makes a new block. */
    method Spawn(i: nat, seg: Segment, e: Env)
      requires i < |pcbs| == |hist|
      modifies this`pcbs, this`hist, this`active
      ensures Abs() == Opened(Created(old(Abs()), NewPcb(e)), old(|pcbs|), Child(old(pcbs)[i], seg, e))
    {
      var child := |pcbs|;
      var c := Child(pcbs[i], seg, e);
      pcbs, hist := pcbs + [NewPcb(e)], hist + [[Closed]];
      Write(child, c);
      active := [child] + active;
    }

    /** The state machine. */
    method Process(i: nat, seg: Segment, e: Env) returns (o: Outcome)
      requires Valid() && i < |pcbs| && pcbs[i].state != Closed
      modifies this`pcbs, this`hist, this`active, this`tw, this`listen
      ensures (Abs(), o) == TcpPcbSteps.Process(old(Abs()), i, seg, e)
    {
      hide Ok, Set, Removed, TimeWaited, Opened, Created, Child, NewPcb, SeqLt, SeqLeq, SeqGt, SeqGeq, Add, TcpLen;
      SameSize(Abs());
      o := Normal;
      var p := pcbs[i];
      if seg.rst {
        if AcceptableReset(p, seg) { o := Reset; }
        return;
      }
      if p.state == Listen {
        if !seg.ack && seg.syn && e.memory { Spawn(i, seg, e); }
        return;
      }
      var t := p.(tmr := e.ticks);
      var q := Worked(t, e.receive).(gotFin := p.gotFin || e.gotFin);
      var acked := seg.ack && seg.ackno == q.sndNxt;
      match p.state {
        case SynSent =>
          if (seg.ack || seg.syn) && p.unacked != [] && seg.ackno == Add(p.unacked[0].start, 1) {
            Write(i, q.(state := Established));
          } else {
            Write(i, t);
          }
        case SynRcvd =>
          if seg.ack && SeqLt(p.lastack, seg.ackno) && SeqLeq(seg.ackno, p.sndNxt) {
            if !e.accept {
              ghost var m := Set(Abs(), i, t.(state := Established));
              SetIs(Abs(), i, t.(state := Established));
              SetOk(Abs(), i, t.(state := Established));
              SameSize(m);
              Write(i, t.(state := Established));
              PcbRemove(ActiveList, i);
              return Aborted;
            }
            Write(i, q.(state := Established));
          } else {
            Write(i, t);
          }
        case Established => Write(i, if seg.fin then q.(state := CloseWait) else q);
        case CloseWait => Write(i, q);
        case FinWait1 =>
          if seg.fin && acked {
            WriteThenWait(i, q);
          } else if seg.fin {
            Write(i, q.(state := Closing));
          } else if acked {
            Write(i, q.(state := FinWait2));
          } else {
            Write(i, q);
          }
        case FinWait2 =>
          if seg.fin {
            WriteThenWait(i, q);
          } else {
            Write(i, q);
          }
        case Closing =>
          if acked {
            WriteThenWait(i, q);
          } else {
            Write(i, q);
          }
        case LastAck =>
          if acked {
            Write(i, q.(state := Closed));
            o := Finished;
          } else {
            Write(i, q);
          }
        case TimeWait =>
          var end := Add(seg.seqno, TcpLen(seg));
          Write(i, if SeqGt(end, p.rcvNxt) then t.(rcvNxt := end) else t);
        case _ =>
      }
    }

    method WriteThenWait(i: nat, q: Pcb)
      requires i < |pcbs| == |hist|
      modifies this`pcbs, this`hist, this`active, this`tw
      ensures Abs() == TimeWaited(Set(old(Abs()), i, q), i)
    {
      hide TimeWaited;
      Write(i, q);
      EnterTimeWait(i);
    }

    /** Receives a segment. */
    method Input(seg: Segment, e: Env)
      requires Valid()
      modifies this`pcbs, this`hist, this`active, this`tw, this`listen
      ensures Abs() == TcpPcbSteps.Input(old(Abs()), seg, e) && Valid()
    {
      hide Ok, Set, Removed, Demux, TcpPcbSteps.Process, Worked, CloseStep;
      InputOk(Abs(), seg, e);
      DemuxOk(Abs(), seg);
      var f := Find(seg);
      if f == None {
        return;
      }
      var i := f.i;
      ghost var n := Abs();
      ProcessOk(n, i, seg, e);
      SameSize(n);
      var o := Process(i, seg, e);
      ProcessSizes(n, i, seg, e);
      if o == Aborted || pcbs[i].state == Listen {
        return;
      }
      var p := pcbs[i];
      if o == Reset {
        PcbRemove(if p.state == TimeWait then TwList else ActiveList, i);
      } else if o == Finished {
        PcbRemove(ActiveList, i);
      } else if p.state != TimeWait && !e.reader && p.gotFin {
        Close(i, e);
      } else if IsActive(p.state) {
        Write(i, Worked(p, e.send));
      }
    }

    // ---------- Opening ----------

    method Create(e: Env) returns (i: nat)
      requires Valid()
      modifies this`pcbs, this`hist
      ensures Abs() == Created(old(Abs()), NewPcb(e)) && Valid() && i == old(|pcbs|)
    {
      CreatedOk(Abs(), NewPcb(e));
      i := |pcbs|;
      pcbs, hist := pcbs + [NewPcb(e)], hist + [[Closed]];
    }

    method Connect(i: nat, ip: nat, port: nat, e: Env)
      requires Valid() && i < |pcbs|
      modifies this`pcbs, this`hist, this`active
      ensures var p := Worked(old(pcbs)[i], e.send).(remoteIp := ip, remotePort := port, state := SynSent);
              Abs() == if ip == 0 || port == 0 then old(Abs()) else After(old(Abs()), TcpPcbSteps.Connect(i, p))
      ensures Valid() <==> ip == 0 || port == 0 || old(pcbs)[i].state == Closed
    {
      hide Ok;
      SameSize(Abs());
      if ip == 0 || port == 0 {
        return;
      }
      var p := Worked(pcbs[i], e.send).(remoteIp := ip, remotePort := port, state := SynSent);
      OpenedOk(Abs(), i, p);
      Write(i, p);
      active := [i] + active;
    }

    method OpenPassive(i: nat)
      requires Valid() && i < |pcbs|
      modifies this`pcbs, this`hist, this`listen
      ensures Abs() == After(old(Abs()), TcpPcbSteps.Open(i))
      ensures Valid() <==> old(pcbs)[i].state == Closed || old(pcbs)[i].state == Listen
    {
      hide Ok, Set;
      SameSize(Abs());
      if pcbs[i].state == Listen {
        return;
      }
      var p := pcbs[i].(state := Listen);
      OpenedOk(Abs(), i, p);
      Write(i, p);
      listen := [i] + listen;
    }

    method PortTaken(l: seq<nat>, port: nat) returns (taken: bool)
      requires forall i :: i in l ==> i < |pcbs|
      ensures taken <==> OnList(pcbs, l, port)
    {
      var k := 0;
      while k < |l|
        invariant 0 <= k <= |l| && forall j :: 0 <= j < k ==> l[j] in l && pcbs[l[j]].localPort != port
      {
        assert l[k] in l;
        if pcbs[l[k]].localPort == port {
          return true;
        }
        k := k + 1;
      }
      return false;
    }

    /** `tcp_new_port`: the first port after the last one given out, in cyclic order, that no block on a list uses.  The
        search ends because some port is free. */
    method NewPort(ghost d: nat) returns (port: nat, ghost steps: nat)
      requires Valid() && 0 < d <= PORTS && !Used(Abs(), Cyclic(nextPort, d))
      modifies this`nextPort
      ensures port == nextPort == Cyclic(old(nextPort), steps) && 0 < steps <= d && Valid()
      ensures !Used(Abs(), port) && forall j :: 0 < j < steps ==> Used(Abs(), Cyclic(old(nextPort), j))
    {
      hide Placed, NoDup, Cyclic;
      ghost var base := nextPort;
      steps := 0;
      CyclicStep(base, 0);
      while true
        invariant nextPort == Cyclic(base, steps) && 0 <= steps < d && Valid()
        invariant forall j :: 0 < j <= steps ==> Used(Abs(), Cyclic(base, j))
        decreases d - steps
      {
        CyclicStep(base, steps);
        nextPort := nextPort + 1;
        if nextPort > 0x7FFF {
          nextPort := 4096;
        }
        steps := steps + 1;
        var a := PortTaken(active, nextPort);
        var t := PortTaken(tw, nextPort);
        var l := PortTaken(listen, nextPort);
        if !a && !t && !l {
          return nextPort, steps;
        }
      }
    }

    // ---------- The slow timer ----------

    /** Frees the block at place `k` of the active list. */
    method DropActive(k: nat)
      requires Valid() && k < |active| && active[k] < |pcbs|
      modifies this`pcbs, this`hist, this`active
      ensures Abs() == Removed(old(Abs()), ActiveList, old(active)[k]) && active == old(active)[..k] + old(active)[k + 1..]
    {
      var i := active[k];
      assert i in active;
      RemoveAt(active, k);
      Purge(i);
      active := active[..k] + active[k + 1..];
      Write(i, pcbs[i].(state := Closed));
      assert pcbs == old(pcbs)[i := pcbs[i]];
    }

    method DropWaiting(k: nat)
      requires Valid() && k < |tw| && tw[k] < |pcbs|
      modifies this`pcbs, this`hist, this`tw
      ensures Abs() == Removed(old(Abs()), TwList, old(tw)[k]) && tw == old(tw)[..k] + old(tw)[k + 1..]
    {
      var i := tw[k];
      assert i in tw;
      RemoveAt(tw, k);
      Purge(i);
      tw := tw[..k] + tw[k + 1..];
      Write(i, pcbs[i].(state := Closed));
      assert pcbs == old(pcbs)[i := pcbs[i]];
    }

    /** `tcp_slowtmr`: walks both lists, removing blocks on the way. */
    method SlowTimer(w: nat -> Work, ticks: seqno)
      requires Valid()
      modifies this`pcbs, this`hist, this`active, this`tw
      ensures Abs() == TcpPcbSteps.SlowTimer(old(Abs()), w, ticks) && Valid()
    {
      hide Ok, Tick, Wait, TickAll, WaitAll, Expired, WaitedOut, Worked, Removed, Set, IsActive;
      SlowTimerOk(Abs(), w, ticks);
      ghost var n, m := Abs(), TickAll(Abs(), active, w, ticks);
      var k := 0;
      assert active[0..] == active;
      while k < |active|
        invariant Ok(Abs()) && k <= |active| && TickAll(Abs(), active[k..], w, ticks) == m
        decreases |active| - k
      {
        var i := active[k];
        ActiveAt(Abs(), k);
        TickOk(Abs(), i, w(i), ticks);
        TickStep(Abs(), active[k..], w, ticks);
        assert active[k..][1..] == active[k + 1..];
        TickIs(Abs(), i, w(i), ticks);
        if Expired(pcbs[i], ticks) {
          ghost var rest := active[k + 1..];
          DropActive(k);
          assert active[k..] == rest;
        } else {
          Write(i, Worked(pcbs[i], w(i)));
          k := k + 1;
        }
      }
      assert active[k..] == [];
      assert Abs() == m by { TickNone(Abs(), w, ticks); }
      k := 0;
      assert tw[0..] == tw;
      while k < |tw|
        invariant Ok(Abs()) && k <= |tw| && WaitAll(Abs(), tw[k..], ticks) == WaitAll(m, m.tw, ticks)
        decreases |tw| - k
      {
        var i := tw[k];
        WaitingAt(Abs(), k);
        WaitOk(Abs(), i, ticks);
        WaitStep(Abs(), tw[k..], ticks);
        assert tw[k..][1..] == tw[k + 1..];
        WaitIs(Abs(), i, ticks);
        if WaitedOut(pcbs[i], ticks) {
          ghost var rest := tw[k + 1..];
          DropWaiting(k);
          assert tw[k..] == rest;
        } else {
          k := k + 1;
        }
      }
      assert tw[k..] == [];
      WaitNone(Abs(), ticks);
    }
  }

  lemma {:induction false} RemoveAt(l: seq<nat>, k: nat)
    requires k < |l| && l[k] !in l[..k]
    ensures Remove(l, l[k]) == l[..k] + l[k + 1..]
  {
    if k > 0 {
      assert l[..k][0] == l[0];
      assert forall x :: x in l[1..][..k - 1] ==> x in l[..k] by { assert l[..k] == [l[0]] + l[1..][..k - 1]; }
      RemoveAt(l[1..], k - 1);
    }
  }

  lemma ActiveAt(n: Net, k: nat)
    requires Ok(n) && k < |n.active|
    ensures var i := n.active[k]; i < |n.pcbs| == |n.hist| && IsActive(n.pcbs[i].state)
  {
    assert n.active[k] in n.active;
    assert Placed(n, n.active[k]);
  }

  lemma WaitingAt(n: Net, k: nat)
    requires Ok(n) && k < |n.tw|
    ensures var i := n.tw[k]; i < |n.pcbs| == |n.hist| && n.pcbs[i].state == TimeWait
  {
    assert n.tw[k] in n.tw;
    assert Placed(n, n.tw[k]);
  }

  lemma TickStep(n: Net, l: seq<nat>, w: nat -> Work, ticks: seqno)
    requires l != []
    ensures TickAll(n, l, w, ticks) == TickAll(Tick(n, l[0], w(l[0]), ticks), l[1..], w, ticks)
  {
  }

  lemma TickIs(n: Net, i: nat, w: Work, ticks: seqno)
    requires i < |n.pcbs|
    ensures Tick(n, i, w, ticks) ==
            if Expired(n.pcbs[i], ticks) then Removed(n, ActiveList, i) else Set(n, i, Worked(n.pcbs[i], w))
    ensures Set(n, i, Worked(n.pcbs[i], w)).active == n.active
  {
  }

  lemma TickNone(n: Net, w: nat -> Work, ticks: seqno)
    ensures TickAll(n, [], w, ticks) == n
  {
  }

  lemma WaitStep(n: Net, l: seq<nat>, ticks: seqno)
    requires l != []
    ensures WaitAll(n, l, ticks) == WaitAll(Wait(n, l[0], ticks), l[1..], ticks)
  {
  }

  lemma WaitIs(n: Net, i: nat, ticks: seqno)
    requires i < |n.pcbs|
    ensures Wait(n, i, ticks) == if WaitedOut(n.pcbs[i], ticks) then Removed(n, TwList, i) else n
  {
  }

  lemma WaitNone(n: Net, ticks: seqno)
    ensures WaitAll(n, [], ticks) == n
  {
  }

  lemma ProcessSizes(n: Net, i: nat, seg: Segment, e: Env)
    requires i < |n.pcbs| == |n.hist|
    ensures var m := TcpPcbSteps.Process(n, i, seg, e).0; |m.pcbs| == |m.hist|
  {
    hide TcpPcbSteps.Process;
    ProcessLocal(n, i, seg, e);
    ChildIs(n, n.pcbs[i], seg, e);
  }
}
