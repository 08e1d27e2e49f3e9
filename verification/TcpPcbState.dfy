/** Connection control blocks as values: their states, the three lists they are kept on, and what each operation does to
    both. */
module TcpPcbState {
  import opened NoDuplicates
  import opened TcpSeq
  import opened TcpQueue
  import opened TcpReassembly

  datatype State = Closed | Listen | SynSent | SynRcvd | Established | FinWait1 | FinWait2 | CloseWait | Closing
                 | LastAck | TimeWait

  /** The transitions of the diagram in section 3.2 of RFC 793, with FIN-WAIT-1 to TIME-WAIT from its section 3.9.  Any
      state may go to CLOSED: the block is removed.  A passive open takes LISTEN to SYN-RECEIVED on a new block, so that
      block starts at CLOSED. */
  predicate Edge(a: State, b: State) {
    match b
    case Closed => true
    case Listen => a == Closed
    case SynSent => a == Closed || a == Listen
    case SynRcvd => a == Closed || a == Listen || a == SynSent
    case Established => a == SynSent || a == SynRcvd
    case FinWait1 => a == SynRcvd || a == Established
    case FinWait2 => a == FinWait1
    case CloseWait => a == Established
    case Closing => a == FinWait1
    case LastAck => a == CloseWait
    case TimeWait => a == FinWait1 || a == FinWait2 || a == Closing
  }

  /** States of the connections on the active list. */
  predicate IsActive(s: State) { s != Closed && s != Listen && s != TimeWait }

  datatype Pcb = Pcb(state: State, localIp: nat, localPort: nat, remoteIp: nat, remotePort: nat, sndNxt: seqno,
                     lastack: seqno, rcvNxt: seqno, rcvWnd: nat, unsent: seq<OutSeg>, unacked: seq<OutSeg>,
                     ooseq: seq<Seg>, gotFin: bool, tmr: int, nrtx: nat)

  predicate NoSegments(p: Pcb) { p.unsent == [] && p.unacked == [] && p.ooseq == [] }

  // ---------- Lists ----------

  function Remove(l: seq<nat>, x: nat): seq<nat> {
    if l == [] then [] else if l[0] == x then l[1..] else [l[0]] + Remove(l[1..], x)
  }

  lemma {:induction false} RemoveOk(l: seq<nat>, x: nat)
    requires NoDup(l)
    ensures NoDup(Remove(l, x)) && forall y :: y in Remove(l, x) <==> y in l && y != x
  {
    if l != [] {
      var t := l[1..];
      assert l == [l[0]] + t;
      assert forall j :: 0 <= j < |t| ==> t[j] == l[j + 1];
      assert NoDup(t) && l[0] !in t;
      if l[0] != x {
        RemoveOk(t, x);
        assert l[0] !in Remove(t, x);
      }
    }
  }

  /** The element at place `k` moved to the front. */
  function Fronted(l: seq<nat>, k: nat): seq<nat> {
    if k < |l| then [l[k]] + l[..k] + l[k + 1..] else l
  }

  lemma FrontedOk(l: seq<nat>, k: nat)
    requires NoDup(l)
    ensures NoDup(Fronted(l, k)) && forall y :: y in Fronted(l, k) <==> y in l
  {
    if k < |l| { assert l == l[..k] + [l[k]] + l[k + 1..]; }
  }

  // ---------- The whole ----------

  /** All blocks ever made, addressed by their index, the three lists, and the states each block has been through. */
  datatype Net = Net(pcbs: seq<Pcb>, active: seq<nat>, tw: seq<nat>, listen: seq<nat>, hist: seq<seq<State>>)

  predicate IsPath(h: seq<State>) {
    h != [] && h[0] == Closed && forall i :: 0 < i < |h| ==> Edge(h[i - 1], h[i])
  }

  /** A block is on the list of its state and on no other; in TIME-WAIT it holds no segments; its states so far are a path
      of the diagram. */
  predicate Placed(n: Net, i: nat)
    requires i < |n.pcbs| == |n.hist|
  {
    var s := n.pcbs[i].state;
    && (i in n.active <==> IsActive(s)) && (i in n.tw <==> s == TimeWait) && (i in n.listen <==> s == Listen)
    && (s == TimeWait ==> NoSegments(n.pcbs[i]))
    && IsPath(n.hist[i]) && n.hist[i][|n.hist[i]| - 1] == s
  }

  ghost predicate Ok(n: Net) {
    && |n.hist| == |n.pcbs|
    && NoDup(n.active) && NoDup(n.tw) && NoDup(n.listen)
    && (forall i :: i in n.active || i in n.tw || i in n.listen ==> i < |n.pcbs|)
    && (forall i: nat :: i < |n.pcbs| ==> Placed(n, i))
  }

  /** What happened between two points of a run: the histories only grew. */
  ghost predicate Grew(m: Net, n: Net) {
    |m.hist| <= |n.hist| && forall i: nat :: i < |m.hist| ==> m.hist[i] <= n.hist[i]
  }

  lemma GrewTrans(a: Net, b: Net, c: Net)
    requires Grew(a, b) && Grew(b, c)
    ensures Grew(a, c)
  {
  }

  // ---------- Elementary changes ----------

  /** Writes a block; a new state enters its history. */
  function Set(n: Net, i: nat, p: Pcb): Net {
    if i < |n.pcbs| == |n.hist| then
      n.(pcbs := n.pcbs[i := p],
         hist := if p.state == n.pcbs[i].state then n.hist else n.hist[i := n.hist[i] + [p.state]])
    else n
  }

  lemma SetOk(n: Net, i: nat, p: Pcb)
    requires Ok(n) && i < |n.pcbs| && IsActive(n.pcbs[i].state) && IsActive(p.state)
    requires p.state == n.pcbs[i].state || Edge(n.pcbs[i].state, p.state)
    ensures Ok(Set(n, i, p)) && Grew(n, Set(n, i, p))
  {
    var m := Set(n, i, p);
    assert Placed(n, i);
    assert Placed(m, i);
    forall j: nat | j < |m.pcbs| && j != i ensures Placed(m, j) { assert Placed(n, j); }
  }

  datatype ListName = ActiveList | TwList | ListenList

  function Unlinked(n: Net, l: ListName, i: nat): Net {
    match l
    case ActiveList => n.(active := Remove(n.active, i))
    case TwList => n.(tw := Remove(n.tw, i))
    case ListenList => n.(listen := Remove(n.listen, i))
  }

  /** Frees the queues, except in the states that have none. */
  function Purged(p: Pcb): Pcb {
    if p.state == Closed || p.state == TimeWait || p.state == Listen then p
    else p.(unsent := [], unacked := [], ooseq := [])
  }

  /** Takes a block off a list and closes it. */
  function Removed(n: Net, l: ListName, i: nat): Net
    requires i < |n.pcbs|
  {
    Set(Unlinked(n, l, i), i, Purged(n.pcbs[i]).(state := Closed))
  }

  function ListOf(s: State): ListName {
    if s == TimeWait then TwList else if s == Listen then ListenList else ActiveList
  }

  /** Removing a block keeps the lists right exactly when the list is the one of its state. */
  lemma RemovedOk(n: Net, l: ListName, i: nat)
    requires Ok(n) && i < |n.pcbs|
    ensures Ok(Removed(n, l, i)) <==> n.pcbs[i].state == Closed || l == ListOf(n.pcbs[i].state)
    ensures Grew(n, Removed(n, l, i))
  {
    hide IsPath, NoDup, Remove, Edge, Purged;
    var m, u := Removed(n, l, i), Unlinked(n, l, i);
    RemoveOk(n.active, i);
    RemoveOk(n.tw, i);
    RemoveOk(n.listen, i);
    assert Placed(n, i);
    PathStep(n.hist[i], Closed);
    if n.pcbs[i].state == Closed || l == ListOf(n.pcbs[i].state) {
      forall j: nat | j < |m.pcbs| ensures Placed(m, j) { assert Placed(n, j); }
    } else {
      assert !Placed(m, i);
    }
  }

  lemma PathStep(h: seq<State>, s: State)
    requires IsPath(h) && Edge(h[|h| - 1], s)
    ensures IsPath(h + [s])
  {
  }

  /** After the last acknowledgement the block is closed first and taken off the active list then. */
  lemma FinishedOk(n: Net, i: nat, p: Pcb)
    requires Ok(n) && i < |n.pcbs| && IsActive(n.pcbs[i].state) && p.state == Closed
    ensures Ok(Removed(Set(n, i, p), ActiveList, i)) && Grew(n, Removed(Set(n, i, p), ActiveList, i))
  {
    hide IsPath, NoDup, Remove, Edge;
    var m := Removed(Set(n, i, p), ActiveList, i);
    RemoveOk(n.active, i);
    assert Placed(n, i);
    ClosingStep(n.hist[i]);
    forall j: nat | j < |m.pcbs| ensures Placed(m, j) { assert Placed(n, j); }
  }

  lemma ClosingStep(h: seq<State>)
    requires IsPath(h)
    ensures IsPath(h + [Closed])
  {
  }

  /** A block enters TIME-WAIT: queues freed, moved from the active to the TIME-WAIT list. */
  function TimeWaited(n: Net, i: nat): Net
    requires i < |n.pcbs|
  {
    var m := Set(Unlinked(n, ActiveList, i), i, Purged(n.pcbs[i]).(state := TimeWait));
    m.(tw := [i] + m.tw)
  }

  lemma TimeWaitedOk(n: Net, i: nat)
    requires Ok(n) && i < |n.pcbs| && Edge(n.pcbs[i].state, TimeWait)
    ensures Ok(TimeWaited(n, i)) && Grew(n, TimeWaited(n, i))
  {
    hide IsPath, Remove;
    var m := TimeWaited(n, i);
    RemoveOk(n.active, i);
    assert Placed(n, i);
    PathStep(n.hist[i], TimeWait);
    forall j: nat | j < |m.pcbs| ensures Placed(m, j) { assert Placed(n, j); }
  }

  /** A block is opened, actively or passively: it goes to the front of a list without being looked for on any. */
  function Opened(n: Net, i: nat, p: Pcb): Net {
    var m := Set(n, i, p);
    if p.state == Listen then m.(listen := [i] + m.listen) else m.(active := [i] + m.active)
  }

  /** That keeps the lists right exactly when the block was closed. */
  lemma OpenedOk(n: Net, i: nat, p: Pcb)
    requires Ok(n) && i < |n.pcbs|
    requires p.state == Listen || p.state == SynSent || p.state == SynRcvd
    ensures Ok(Opened(n, i, p)) <==> n.pcbs[i].state == Closed
    ensures Grew(n, Opened(n, i, p))
  {
    hide IsPath;
    var m := Opened(n, i, p);
    assert Placed(n, i);
    if n.pcbs[i].state == Closed {
      PathStep(n.hist[i], p.state);
      forall j: nat | j < |m.pcbs| ensures Placed(m, j) { assert Placed(n, j); }
    } else {
      OpenedTwice(n, i, p);
    }
  }

  lemma OpenedTwice(n: Net, i: nat, p: Pcb)
    requires |n.hist| == |n.pcbs| && i < |n.pcbs| && Placed(n, i) && n.pcbs[i].state != Closed
    requires p.state == Listen || p.state == SynSent || p.state == SynRcvd
    ensures !Ok(Opened(n, i, p))
  {
    hide IsPath;
    var m := Opened(n, i, p);
    if i in n.active && p.state != Listen {
      var k :| 0 <= k < |n.active| && n.active[k] == i;
      assert m.active[0] == m.active[k + 1];
    } else if i in n.listen && p.state == Listen {
      var k :| 0 <= k < |n.listen| && n.listen[k] == i;
      assert m.listen[0] == m.listen[k + 1];
    } else {
      assert !Placed(m, i);
    }
  }

  /** A new block, on no list. */
  function Created(n: Net, p: Pcb): Net {
    n.(pcbs := n.pcbs + [p], hist := n.hist + [[Closed]])
  }

  lemma CreatedOk(n: Net, p: Pcb)
    requires Ok(n) && p.state == Closed
    ensures Ok(Created(n, p)) && Grew(n, Created(n, p))
  {
    var m, k := Created(n, p), |n.pcbs|;
    assert Placed(m, k);
    forall j: nat | j < k ensures Placed(m, j) { assert Placed(n, j); }
  }

  /** Lists in another order. */
  lemma ReorderedOk(n: Net, active: seq<nat>, listen: seq<nat>)
    requires Ok(n) && NoDup(active) && NoDup(listen)
    requires forall i :: (i in active <==> i in n.active) && (i in listen <==> i in n.listen)
    ensures var m := n.(active := active, listen := listen); Ok(m) && Grew(n, m)
  {
    var m := n.(active := active, listen := listen);
    forall j: nat | j < |m.pcbs| ensures Placed(m, j) { assert Placed(n, j); }
  }
}
