/** The out-of-sequence queue of a connection, as a value.  Positions are counted from `rcv_nxt`; `S` is the byte stream
    the peer sends and `abs` the position of `rcv_nxt` in it. */
module TcpReassembly {
  import opened Octets
  import opened TcpSeq

  datatype Seg = Seg(start: seqno, data: seq<byte>)

  type Stream = nat -> byte

  function At(s: Seg, nxt: seqno): (d: seqno) { Off(s.start, nxt) }

  function End(s: Seg, nxt: seqno): int { At(s, nxt) + |s.data| }

  ghost predicate Agrees(data: seq<byte>, S: Stream, pos: nat) {
    forall j :: 0 <= j < |data| ==> data[j] == S(pos + j)
  }

  ghost function Slice(S: Stream, pos: nat, n: nat): (r: seq<byte>)
    ensures |r| == n
    ensures forall j :: 0 <= j < n ==> r[j] == S(pos + j)
  {
    seq(n, j requires 0 <= j => S(pos + j))
  }

  // ---------- Invariants ----------

  ghost predicate SegOk(s: Seg, nxt: seqno, S: Stream, abs: nat) {
    && 0 < At(s, nxt) && s.data != [] && End(s, nxt) < LIMIT
    && Agrees(s.data, S, abs + At(s, nxt))
  }

  /** Every queued segment lies above `rcv_nxt` and carries bytes of the stream; starts are strictly increasing. */
  ghost predicate QueueOk(q: seq<Seg>, nxt: seqno, S: Stream, abs: nat) {
    && (forall i :: 0 <= i < |q| ==> SegOk(q[i], nxt, S, abs))
    && (forall i, j :: 0 <= i < j < |q| ==> At(q[i], nxt) < At(q[j], nxt))
  }

  ghost predicate Disjoint(q: seq<Seg>, nxt: seqno) {
    forall i :: 0 <= i < |q| - 1 ==> End(q[i], nxt) <= At(q[i + 1], nxt)
  }

  // ---------- Inserting ----------

  /** How many queued segments start before position `o`. */
  function Before(q: seq<Seg>, nxt: seqno, o: int): (k: nat)
    ensures k <= |q|
    ensures forall i :: 0 <= i < k ==> At(q[i], nxt) < o
    ensures k < |q| ==> At(q[k], nxt) >= o
  {
    if q == [] || At(q[0], nxt) >= o then 0 else 1 + Before(q[1..], nxt, o)
  }

  /** Cuts a segment that reaches beyond position `o`. */
  function Trimmed(s: Seg, nxt: seqno, o: int): (r: Seg)
    requires At(s, nxt) <= o
    ensures r.start == s.start && r.data <= s.data
    ensures End(r, nxt) == if End(s, nxt) > o then o else End(s, nxt)
  {
    if End(s, nxt) > o then Seg(s.start, s.data[..o - At(s, nxt)]) else s
  }

  /** The queue with a segment added: at an equal start the longer one is kept; otherwise the new segment is cut at the
      start of its successor and its predecessor is cut at the start of the new one. */
  function Inserted(q: seq<Seg>, nxt: seqno, s: Seg): seq<Seg> {
    var o := At(s, nxt);
    var k := Before(q, nxt, o);
    if k < |q| && At(q[k], nxt) == o then
      if |s.data| > |q[k].data| then q[k := s] else q
    else
      (if k == 0 then [] else q[..k - 1] + [Trimmed(q[k - 1], nxt, o)]) +
      [if k == |q| then s else Trimmed(s, nxt, At(q[k], nxt))] + q[k..]
  }

  /** The one case that leaves an overlap: a longer segment replaces one with the same start and runs into the next. */
  ghost predicate ReplacesIntoNext(q: seq<Seg>, nxt: seqno, s: Seg) {
    exists k :: 0 <= k < |q| - 1 && At(q[k], nxt) == At(s, nxt) && End(s, nxt) > At(q[k + 1], nxt)
  }

  lemma TrimmedOk(s: Seg, nxt: seqno, S: Stream, abs: nat, o: int)
    requires SegOk(s, nxt, S, abs) && At(s, nxt) < o
    ensures SegOk(Trimmed(s, nxt, o), nxt, S, abs)
  {
  }

  /** Insertion keeps the queue strictly increasing and in agreement with the stream. */
  lemma InsertedOk(q: seq<Seg>, nxt: seqno, s: Seg, S: Stream, abs: nat)
    requires QueueOk(q, nxt, S, abs) && SegOk(s, nxt, S, abs)
    ensures QueueOk(Inserted(q, nxt, s), nxt, S, abs)
  {
    hide SegOk, Off, Trimmed, QueueOk;
    var o := At(s, nxt);
    var k := Before(q, nxt, o);
    if k < |q| && At(q[k], nxt) == o {
      SameStartOk(q, nxt, S, abs, k, s);
    } else {
      PieceOk(q, nxt, S, abs, 0, k);
      PieceOk(q, nxt, S, abs, k, |q|);
      assert q[0..k] == q[..k] && q[k..|q|] == q[k..];
      var pre := q[..k];
      if k > 0 {
        MemberOk(q, nxt, S, abs, k - 1);
        TrimmedOk(q[k - 1], nxt, S, abs, o);
        SameStartOk(pre, nxt, S, abs, k - 1, Trimmed(q[k - 1], nxt, o));
        pre := q[..k - 1] + [Trimmed(q[k - 1], nxt, o)];
        assert pre == q[..k][k - 1 := Trimmed(q[k - 1], nxt, o)];
      }
      var t := if k == |q| then s else Trimmed(s, nxt, At(q[k], nxt));
      if k < |q| { TrimmedOk(s, nxt, S, abs, At(q[k], nxt)); }
      OneOk(t, nxt, S, abs);
      JoinOk(pre, [t], nxt, S, abs);
      JoinOk(pre + [t], q[k..], nxt, S, abs);
    }
  }

  lemma MemberOk(q: seq<Seg>, nxt: seqno, S: Stream, abs: nat, i: nat)
    requires QueueOk(q, nxt, S, abs) && i < |q|
    ensures SegOk(q[i], nxt, S, abs)
  {
    hide SegOk, Off;
  }

  lemma OneOk(s: Seg, nxt: seqno, S: Stream, abs: nat)
    requires SegOk(s, nxt, S, abs)
    ensures QueueOk([s], nxt, S, abs)
  {
  }

  lemma PieceOk(q: seq<Seg>, nxt: seqno, S: Stream, abs: nat, a: nat, b: nat)
    requires QueueOk(q, nxt, S, abs) && a <= b <= |q|
    ensures QueueOk(q[a..b], nxt, S, abs)
  {
    hide SegOk, Off;
  }

  lemma SameStartOk(q: seq<Seg>, nxt: seqno, S: Stream, abs: nat, k: nat, s: Seg)
    requires QueueOk(q, nxt, S, abs) && SegOk(s, nxt, S, abs) && k < |q| && At(s, nxt) == At(q[k], nxt)
    ensures QueueOk(q[k := s], nxt, S, abs)
  {
    hide SegOk, Off;
  }

  lemma JoinOk(a: seq<Seg>, b: seq<Seg>, nxt: seqno, S: Stream, abs: nat)
    requires QueueOk(a, nxt, S, abs) && QueueOk(b, nxt, S, abs)
    requires a != [] && b != [] ==> At(a[|a| - 1], nxt) < At(b[0], nxt)
    ensures QueueOk(a + b, nxt, S, abs)
  {
    hide SegOk, Off;
    var q := a + b;
    forall i, j | 0 <= i < j < |q| ensures At(q[i], nxt) < At(q[j], nxt) {
      if i < |a| <= j {
        assert i < |a| - 1 ==> At(a[i], nxt) < At(a[|a| - 1], nxt);
        assert j > |a| ==> At(b[0], nxt) < At(b[j - |a|], nxt);
      }
    }
  }

  lemma BeforeUnique(q: seq<Seg>, nxt: seqno, o: int, k: nat)
    requires k <= |q| && (forall i :: 0 <= i < k ==> At(q[i], nxt) < o) && (k < |q| ==> At(q[k], nxt) >= o)
    ensures Before(q, nxt, o) == k
  {
    hide Off;
  }

  lemma ReplacesAt(q: seq<Seg>, nxt: seqno, s: Seg, S: Stream, abs: nat)
    requires QueueOk(q, nxt, S, abs)
    ensures var k := Before(q, nxt, At(s, nxt));
            ReplacesIntoNext(q, nxt, s) <==>
            k < |q| - 1 && At(q[k], nxt) == At(s, nxt) && End(s, nxt) > At(q[k + 1], nxt)
  {
    hide Off, Agrees;
    if ReplacesIntoNext(q, nxt, s) {
      var j :| 0 <= j < |q| - 1 && At(q[j], nxt) == At(s, nxt) && End(s, nxt) > At(q[j + 1], nxt);
      BeforeUnique(q, nxt, At(s, nxt), j);
    }
  }

  /** Insertion keeps the segments disjoint, except in the one case above. */
  lemma InsertedDisjoint(q: seq<Seg>, nxt: seqno, s: Seg, S: Stream, abs: nat)
    requires QueueOk(q, nxt, S, abs) && Disjoint(q, nxt) && SegOk(s, nxt, S, abs)
    ensures Disjoint(Inserted(q, nxt, s), nxt) <==> !ReplacesIntoNext(q, nxt, s)
  {
    hide Off, Agrees, ReplacesIntoNext, Disjoint, Trimmed;
    var k := Before(q, nxt, At(s, nxt));
    ReplacesAt(q, nxt, s, S, abs);
    if k < |q| && At(q[k], nxt) == At(s, nxt) {
      ReplacedDisjoint(q, nxt, s, k);
      if |s.data| <= |q[k].data| { KeptDisjoint(q, nxt, s, k); }
    } else {
      BetweenDisjoint(q, nxt, s, k);
    }
  }

  lemma KeptDisjoint(q: seq<Seg>, nxt: seqno, s: Seg, k: nat)
    requires Disjoint(q, nxt) && k < |q| && At(q[k], nxt) == At(s, nxt) && |s.data| <= |q[k].data|
    ensures k < |q| - 1 ==> End(s, nxt) <= At(q[k + 1], nxt)
  {
    hide Off;
  }

  lemma ReplacedDisjoint(q: seq<Seg>, nxt: seqno, s: Seg, k: nat)
    requires Disjoint(q, nxt) && k < |q| && At(q[k], nxt) == At(s, nxt)
    ensures Disjoint(q[k := s], nxt) <==> (k == |q| - 1 || End(s, nxt) <= At(q[k + 1], nxt))
  {
    hide Off;
    var r := q[k := s];
    if k == |q| - 1 || End(s, nxt) <= At(q[k + 1], nxt) {
      forall i | 0 <= i < |r| - 1 ensures End(r[i], nxt) <= At(r[i + 1], nxt) {
        assert End(q[i], nxt) <= At(q[i + 1], nxt);
      }
    } else {
      assert End(r[k], nxt) > At(r[k + 1], nxt);
    }
  }

  lemma BetweenDisjoint(q: seq<Seg>, nxt: seqno, s: Seg, k: nat)
    requires Disjoint(q, nxt) && k == Before(q, nxt, At(s, nxt)) && (k < |q| ==> At(q[k], nxt) > At(s, nxt))
    ensures Disjoint(Inserted(q, nxt, s), nxt)
  {
    hide Off;
    var r := Inserted(q, nxt, s);
    assert |r| == |q| + 1;
    forall i | 0 <= i < |r| - 1 ensures End(r[i], nxt) <= At(r[i + 1], nxt) {
      if i < k - 1 {
        assert r[i] == q[i] && At(r[i + 1], nxt) == At(q[i + 1], nxt);
      } else if i > k {
        assert r[i] == q[i - 1] && r[i + 1] == q[i];
        assert End(q[i - 1], nxt) <= At(q[i - 1 + 1], nxt);
      }
    }
  }

  // ---------- What is held ----------

  predicate Inside(s: Seg, nxt: seqno, x: int) { At(s, nxt) <= x < End(s, nxt) }

  /** Position `x` is in the queue. */
  predicate Holds(q: seq<Seg>, nxt: seqno, x: int) {
    exists i :: 0 <= i < |q| && Inside(q[i], nxt, x)
  }

  /** A position that insertion throws away: nothing but the predecessor holds it, beyond the end of the new segment, or
      nothing but the new segment, beyond the start of the successor. */
  ghost predicate Lost(q: seq<Seg>, nxt: seqno, s: Seg, x: int) {
    var o := At(s, nxt);
    var k := Before(q, nxt, o);
    && !(k < |q| && At(q[k], nxt) == o) && o <= x
    && (End(s, nxt) <= x || (k < |q| && At(q[k], nxt) <= x))
    && !(k > 0 && Holds(q[..k - 1], nxt, x)) && !Holds(q[k..], nxt, x)
  }

  lemma HoldsConcat(a: seq<Seg>, b: seq<Seg>, nxt: seqno, x: int)
    ensures Holds(a + b, nxt, x) <==> Holds(a, nxt, x) || Holds(b, nxt, x)
  {
    hide Inside;
    if i :| 0 <= i < |a| && Inside(a[i], nxt, x) { assert (a + b)[i] == a[i]; }
    if i :| 0 <= i < |b| && Inside(b[i], nxt, x) { assert (a + b)[|a| + i] == b[i]; }
  }

  lemma HoldsOne(s: Seg, nxt: seqno, x: int)
    ensures Holds([s], nxt, x) <==> Inside(s, nxt, x)
  {
    hide Inside;
    if Inside(s, nxt, x) { assert Inside([s][0], nxt, x); }
  }

  /** After an insertion the queue holds what it held and what the new segment holds, but for what is lost. */
  lemma InsertedHolds(q: seq<Seg>, nxt: seqno, s: Seg, x: int)
    ensures Holds(Inserted(q, nxt, s), nxt, x) <==>
            (Holds(q, nxt, x) || Inside(s, nxt, x)) && !Lost(q, nxt, s, x)
  {
    hide Holds, Off, Trimmed;
    var o := At(s, nxt);
    var k := Before(q, nxt, o);
    assert q == q[..k] + q[k..];
    HoldsConcat(q[..k], q[k..], nxt, x);
    if k < |q| { HoldsSplit(q[k..], nxt, x); }
    if k < |q| && At(q[k], nxt) == o {
      assert q[k := s] == q[..k] + ([s] + q[k + 1..]);
      HoldsConcat(q[..k], [s] + q[k + 1..], nxt, x);
      HoldsConcat([s], q[k + 1..], nxt, x);
      HoldsOne(s, nxt, x);
      assert q[k..][1..] == q[k + 1..];
    } else {
      var t := if k == |q| then s else Trimmed(s, nxt, At(q[k], nxt));
      var pre := if k == 0 then [] else q[..k - 1] + [Trimmed(q[k - 1], nxt, o)];
      HoldsConcat(pre + [t], q[k..], nxt, x);
      HoldsConcat(pre, [t], nxt, x);
      HoldsOne(t, nxt, x);
      if k > 0 {
        assert q[..k] == q[..k - 1] + [q[k - 1]];
        HoldsConcat(q[..k - 1], [q[k - 1]], nxt, x);
        HoldsOne(q[k - 1], nxt, x);
        HoldsConcat(q[..k - 1], [Trimmed(q[k - 1], nxt, o)], nxt, x);
        HoldsOne(Trimmed(q[k - 1], nxt, o), nxt, x);
      } else {
        HoldsNone(nxt, x);
      }
    }
  }

  lemma HoldsNone(nxt: seqno, x: int)
    ensures !Holds([], nxt, x)
  {
  }

  lemma HoldsSplit(q: seq<Seg>, nxt: seqno, x: int)
    requires q != []
    ensures Holds(q, nxt, x) <==> Inside(q[0], nxt, x) || Holds(q[1..], nxt, x)
  {
    hide Holds, Inside;
    assert q == [q[0]] + q[1..];
    HoldsConcat([q[0]], q[1..], nxt, x);
    HoldsOne(q[0], nxt, x);
  }

  lemma NotBefore(q: seq<Seg>, nxt: seqno, S: Stream, abs: nat, m: nat, x: int)
    requires QueueOk(q, nxt, S, abs) && Disjoint(q, nxt) && m < |q| && At(q[m], nxt) <= x
    ensures !Holds(q[..m], nxt, x)
  {
    hide SegOk, Off;
    forall i | 0 <= i < m ensures !Inside(q[..m][i], nxt, x) {
      assert End(q[i], nxt) <= At(q[i + 1], nxt);
      assert i + 1 < m ==> At(q[i + 1], nxt) < At(q[m], nxt);
    }
  }

  lemma NotAfter(q: seq<Seg>, nxt: seqno, S: Stream, abs: nat, m: nat, x: int)
    requires QueueOk(q, nxt, S, abs) && m <= |q| && (m < |q| ==> x < At(q[m], nxt))
    ensures !Holds(q[m..], nxt, x)
  {
    hide SegOk, Off;
    forall i | 0 <= i < |q[m..]| ensures !Inside(q[m..][i], nxt, x) {
      assert q[m..][i] == q[m + i];
      assert i > 0 ==> At(q[m], nxt) < At(q[m + i], nxt);
    }
  }

  /** The successors hold what the new segment holds from the first of them on. */
  ghost predicate RestHeld(q: seq<Seg>, nxt: seqno, s: Seg, k: nat) {
    k < |q| ==> forall x :: At(q[k], nxt) <= x < End(s, nxt) ==> Holds(q[k..], nxt, x)
  }

  ghost predicate Keeps(q: seq<Seg>, nxt: seqno, s: Seg) {
    forall x :: Holds(q, nxt, x) || Inside(s, nxt, x) ==> Holds(Inserted(q, nxt, s), nxt, x)
  }

  /** With disjoint segments everything is kept exactly when the new segment replaces or repeats one with the same start, or
      the predecessor does not reach beyond both its start and its end and the successors hold the rest of it. */
  lemma KeepsExactly(q: seq<Seg>, nxt: seqno, s: Seg, S: Stream, abs: nat)
    requires QueueOk(q, nxt, S, abs) && Disjoint(q, nxt) && SegOk(s, nxt, S, abs)
    ensures var o := At(s, nxt);
            var k := Before(q, nxt, o);
            Keeps(q, nxt, s) <==>
            || (k < |q| && At(q[k], nxt) == o)
            || ((k > 0 ==> End(q[k - 1], nxt) <= o || End(q[k - 1], nxt) <= End(s, nxt)) && RestHeld(q, nxt, s, k))
  {
    hide Holds, Off, Inserted, QueueOk, Disjoint, SegOk, Before;
    var o := At(s, nxt);
    var k := Before(q, nxt, o);
    if !(k < |q| && At(q[k], nxt) == o) {
      if k > 0 && End(q[k - 1], nxt) > o && End(q[k - 1], nxt) > End(s, nxt) {
        var x := End(q[k - 1], nxt) - 1;
        Overhang(q, nxt, s, S, abs, k, x);
        InsertedHolds(q, nxt, s, x);
      } else if !RestHeld(q, nxt, s, k) {
        var x :| At(q[k], nxt) <= x < End(s, nxt) && !Holds(q[k..], nxt, x);
        if k > 0 { NotBefore(q, nxt, S, abs, k - 1, x); }
        assert Lost(q, nxt, s, x);
        InsertedHolds(q, nxt, s, x);
      } else {
        forall x | Holds(q, nxt, x) || Inside(s, nxt, x) ensures Holds(Inserted(q, nxt, s), nxt, x) {
          HoldsAround(q, nxt, k, x);
          InsertedHolds(q, nxt, s, x);
        }
      }
    } else {
      forall x | Holds(q, nxt, x) || Inside(s, nxt, x) ensures Holds(Inserted(q, nxt, s), nxt, x) {
        InsertedHolds(q, nxt, s, x);
      }
    }
  }

  lemma Overhang(q: seq<Seg>, nxt: seqno, s: Seg, S: Stream, abs: nat, k: nat, x: int)
    requires QueueOk(q, nxt, S, abs) && Disjoint(q, nxt) && k == Before(q, nxt, At(s, nxt)) && k > 0
    requires !(k < |q| && At(q[k], nxt) == At(s, nxt)) && At(s, nxt) <= x && End(s, nxt) <= x < End(q[k - 1], nxt)
    ensures Holds(q, nxt, x) && Lost(q, nxt, s, x)
  {
    hide SegOk, Off, Before;
    assert At(q[k - 1], nxt) < At(s, nxt);
    assert Inside(q[k - 1], nxt, x);
    NotBefore(q, nxt, S, abs, k - 1, x);
    assert k < |q| ==> End(q[k - 1], nxt) <= At(q[k - 1 + 1], nxt);
    NotAfter(q, nxt, S, abs, k, x);
  }

  lemma HoldsAround(q: seq<Seg>, nxt: seqno, k: nat, x: int)
    requires k <= |q|
    ensures Holds(q, nxt, x) <==>
            (k > 0 && (Holds(q[..k - 1], nxt, x) || Inside(q[k - 1], nxt, x))) || Holds(q[k..], nxt, x)
  {
    hide Holds, Inside;
    assert q == q[..k] + q[k..];
    HoldsConcat(q[..k], q[k..], nxt, x);
    if k > 0 {
      assert q[..k] == q[..k - 1] + [q[k - 1]];
      HoldsConcat(q[..k - 1], [q[k - 1]], nxt, x);
      HoldsOne(q[k - 1], nxt, x);
    } else {
      HoldsNone(nxt, x);
    }
  }

  /** Three bytes that arrive again in the middle of a queued segment of twenty cost it its last fifteen. */
  lemma LostTail()
    ensures var q, s := [Seg(10, Zeros(20))], Seg(12, Zeros(3));
            && Holds(q, 0, 20) && !Holds(Inserted(q, 0, s), 0, 20)
            && Inserted(q, 0, s) == [Seg(10, Zeros(2)), Seg(12, Zeros(3))]
  {
    var q, s := [Seg(10, Zeros(20))], Seg(12, Zeros(3));
    assert Inside(q[0], 0, 20);
    assert q[1..] == [] && q[..0] == [];
    assert Before(q, 0, 12) == 1;
    assert q[0].data[..2] == Zeros(2);
  }

  // ---------- Taking segments off the queue ----------

  /** How many segments from the front continue the data that ends at position `n`, one after the other. */
  function Ready(q: seq<Seg>, nxt: seqno, n: int): (k: nat)
    ensures k <= |q|
  {
    if q == [] || At(q[0], nxt) != n then 0 else 1 + Ready(q[1..], nxt, n + |q[0].data|)
  }

  /** The bytes of a list of segments. */
  function Payload(q: seq<Seg>): seq<byte> {
    if q == [] then [] else q[0].data + Payload(q[1..])
  }

  lemma {:induction false} ReadyStep(q: seq<Seg>, nxt: seqno, n: int)
    requires q != [] && At(q[0], nxt) == n
    ensures Ready(q, nxt, n) == 1 + Ready(q[1..], nxt, n + |q[0].data|)
    ensures Payload(q[..Ready(q, nxt, n)]) == q[0].data + Payload(q[1..][..Ready(q[1..], nxt, n + |q[0].data|)])
    ensures q[Ready(q, nxt, n)..] == q[1..][Ready(q[1..], nxt, n + |q[0].data|)..]
  {
    var k := Ready(q[1..], nxt, n + |q[0].data|);
    assert q[..k + 1][1..] == q[1..][..k];
  }

  lemma QueueTail(q: seq<Seg>, nxt: seqno, S: Stream, abs: nat)
    requires q != [] && QueueOk(q, nxt, S, abs)
    ensures QueueOk(q[1..], nxt, S, abs)
  {
    hide Off, SegOk;
    assert forall i :: 0 <= i < |q| - 1 ==> q[1..][i] == q[i + 1];
  }

  lemma DisjointTail(q: seq<Seg>, nxt: seqno)
    requires q != [] && Disjoint(q, nxt)
    ensures Disjoint(q[1..], nxt)
  {
    hide Off;
    forall i | 0 <= i < |q[1..]| - 1 ensures End(q[1..][i], nxt) <= At(q[1..][i + 1], nxt) {
      assert End(q[i + 1], nxt) <= At(q[i + 1 + 1], nxt);
    }
  }

  /** Disjoint segments are taken off up to the first position that is not held. */
  lemma {:induction false} ReadyToGap(q: seq<Seg>, nxt: seqno, S: Stream, abs: nat, n: int)
    requires QueueOk(q, nxt, S, abs) && Disjoint(q, nxt) && (q != [] ==> n <= At(q[0], nxt))
    ensures var r := n + |Payload(q[..Ready(q, nxt, n)])|;
            !Holds(q, nxt, r) && forall x :: n <= x < r ==> Holds(q, nxt, x)
    decreases |q|
  {
    hide SegOk, Off, Ready, Payload, Holds;
    if q == [] || At(q[0], nxt) != n {
      NoneReady(q, nxt, n);
      assert q[0..] == q;
      NotAfter(q, nxt, S, abs, 0, n);
    } else {
      var m := n + |q[0].data|;
      ReadyStep(q, nxt, n);
      QueueTail(q, nxt, S, abs);
      DisjointTail(q, nxt);
      assert |q| > 1 ==> End(q[0], nxt) <= At(q[0 + 1], nxt);
      ReadyToGap(q[1..], nxt, S, abs, m);
      var r := m + |Payload(q[1..][..Ready(q[1..], nxt, m)])|;
      HoldsSplit(q, nxt, r);
      forall x | n <= x < r ensures Holds(q, nxt, x) { HoldsSplit(q, nxt, x); }
    }
  }

  lemma NoneReady(q: seq<Seg>, nxt: seqno, n: int)
    requires q == [] || At(q[0], nxt) != n
    ensures Ready(q, nxt, n) == 0 && Payload(q[..0]) == []
  {
  }

  /** What comes off the queue is the stream from `n` on, overlaps in the queue or not. */
  lemma {:induction false} ReadyOk(q: seq<Seg>, nxt: seqno, S: Stream, abs: nat, n: nat)
    requires QueueOk(q, nxt, S, abs) && n < LIMIT
    ensures var k := Ready(q, nxt, n);
            var m := n + |Payload(q[..k])|;
            && Payload(q[..k]) == Slice(S, abs + n, m - n) && m < LIMIT
            && (k < |q| ==> At(q[k], nxt) != m)
    decreases |q|
  {
    hide QueueOk, At, Payload, Ready, Slice, Agrees;
    ReadyNone(q, nxt, n);
    if q != [] && At(q[0], nxt) == n {
      HeadFacts(q, nxt, S, abs);
      var n', q' := n + |q[0].data|, q[1..];
      QueueTail(q, nxt, S, abs);
      ReadyOk(q', nxt, S, abs, n');
      ReadyStep(q, nxt, n);
      var m := n' + |Payload(q'[..Ready(q', nxt, n')])|;
      SliceJoin(q[0].data, S, abs + n, m - n');
    } else {
      SliceNone(S, abs + n);
    }
  }

  /** The segment that stays in front starts below the position reached: nothing will ever continue it. */
  predicate Stranded(q: seq<Seg>, nxt: seqno, n: nat) {
    var k := Ready(q, nxt, n);
    k < |q| && At(q[k], nxt) < n + |Payload(q[..k])|
  }

  /** A queue without overlaps strands nothing. */
  lemma {:induction false} DisjointStrandsNone(q: seq<Seg>, nxt: seqno, S: Stream, abs: nat, n: nat)
    requires QueueOk(q, nxt, S, abs) && Disjoint(q, nxt) && n < LIMIT && (q != [] ==> n <= At(q[0], nxt))
    ensures !Stranded(q, nxt, n)
    decreases |q|
  {
    hide QueueOk, Disjoint, At, Payload, Ready, Agrees;
    ReadyNone(q, nxt, n);
    if q != [] && At(q[0], nxt) == n {
      HeadFacts(q, nxt, S, abs);
      QueueTail(q, nxt, S, abs);
      DisjointTail(q, nxt);
      if |q| > 1 { NextAbove(q, nxt); }
      DisjointStrandsNone(q[1..], nxt, S, abs, n + |q[0].data|);
      ReadyStep(q, nxt, n);
    }
  }

  lemma ReadyNone(q: seq<Seg>, nxt: seqno, n: int)
    ensures q == [] || At(q[0], nxt) != n ==> Ready(q, nxt, n) == 0
    ensures q[..0] == [] && Payload(q[..0]) == []
  {
  }

  lemma HeadFacts(q: seq<Seg>, nxt: seqno, S: Stream, abs: nat)
    requires q != [] && QueueOk(q, nxt, S, abs)
    ensures q[0].data != [] && End(q[0], nxt) < LIMIT && Agrees(q[0].data, S, abs + At(q[0], nxt))
    ensures End(q[0], nxt) == At(q[0], nxt) + |q[0].data|
    ensures forall i :: 0 <= i < |q| ==> At(q[0], nxt) <= At(q[i], nxt)
  {
    hide Off, Agrees;
    assert SegOk(q[0], nxt, S, abs);
  }

  lemma NextAbove(q: seq<Seg>, nxt: seqno)
    requires |q| > 1 && Disjoint(q, nxt)
    ensures At(q[0], nxt) + |q[0].data| <= At(q[1..][0], nxt)
  {
    hide Off;
    var i := 0;
    assert End(q[i], nxt) <= At(q[i + 1], nxt);
  }

  lemma SliceJoin(data: seq<byte>, S: Stream, pos: nat, n: nat)
    requires Agrees(data, S, pos)
    ensures data + Slice(S, pos + |data|, n) == Slice(S, pos, |data| + n)
  {
  }

  lemma SliceNone(S: Stream, pos: nat)
    ensures Slice(S, pos, 0) == []
  {
  }

  /** Seen from the position reached, what stays is a queue again exactly when its first segment starts above. */
  lemma Rebased(q: seq<Seg>, nxt: seqno, S: Stream, abs: nat, k: nat, m: nat)
    requires QueueOk(q, nxt, S, abs) && k <= |q| && m < LIMIT && (k < |q| ==> At(q[k], nxt) != m)
    ensures QueueOk(q[k..], Add(nxt, m), S, abs + m) <==> (k < |q| ==> m < At(q[k], nxt))
    ensures Disjoint(q, nxt) && (k < |q| ==> m < At(q[k], nxt)) ==> Disjoint(q[k..], Add(nxt, m))
  {
    hide Disjoint, Off, Add, Agrees;
    if k < |q| && At(q[k], nxt) < m {
      Below(q[k].start, nxt, m);
      assert !SegOk(q[k..][0], Add(nxt, m), S, abs + m);
    } else {
      RebasedAbove(q, nxt, S, abs, k, m);
      if Disjoint(q, nxt) { RebasedDisjoint(q, nxt, S, abs, k, m); }
    }
  }

  /** A number just behind the base is far ahead of it. */
  lemma Below(a: seqno, nxt: seqno, m: nat)
    requires Off(a, nxt) < m < LIMIT
    ensures Off(a, Add(nxt, m)) >= LIMIT
  {
    OffAdd(a, nxt);
    Difference(a, Add(nxt, m), nxt, Off(a, nxt), m);
  }

  lemma RebasedAbove(q: seq<Seg>, nxt: seqno, S: Stream, abs: nat, k: nat, m: nat)
    requires QueueOk(q, nxt, S, abs) && k <= |q| && m < LIMIT && (k < |q| ==> m < At(q[k], nxt))
    ensures QueueOk(q[k..], Add(nxt, m), S, abs + m)
    ensures forall i :: 0 <= i < |q[k..]| ==> q[k..][i] == q[k + i] && At(q[k + i], Add(nxt, m)) == At(q[k + i], nxt) - m
  {
    hide Off, Add, Agrees;
    var r, nxt' := q[k..], Add(nxt, m);
    forall i | 0 <= i < |r| ensures r[i] == q[k + i] && At(r[i], nxt') == At(q[k + i], nxt) - m {
      OffRebase(q[k + i].start, nxt, m);
    }
    assert forall i :: 0 <= i < |r| ==> abs + m + At(r[i], nxt') == abs + At(q[k + i], nxt);
  }

  lemma RebasedDisjoint(q: seq<Seg>, nxt: seqno, S: Stream, abs: nat, k: nat, m: nat)
    requires QueueOk(q, nxt, S, abs) && Disjoint(q, nxt) && k <= |q| && m < LIMIT && (k < |q| ==> m < At(q[k], nxt))
    ensures Disjoint(q[k..], Add(nxt, m))
  {
    hide Off, Add, QueueOk;
    RebasedAbove(q, nxt, S, abs, k, m);
    var r, nxt' := q[k..], Add(nxt, m);
    forall i | 0 <= i < |r| - 1 ensures End(r[i], nxt') <= At(r[i + 1], nxt') {
      assert End(q[k + i], nxt) <= At(q[k + i + 1], nxt);
    }
  }
}
