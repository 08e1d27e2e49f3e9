/** Answering an echo request: the request is turned into the reply in place and its checksum adjusted. */
module IcmpEcho {
  import opened Octets
  import opened Checksum

  const ICMP_ECHO: int := 8

  datatype Outcome = Short | BadChecksum | Replied

  /** The adjusted checksum field.  The comparison value is 0xF7FF in network order. */
  function Adjusted(c: nat): nat {
    if c >= Swap(0xFFFF - ICMP_ECHO * 256) then (c + Swap(ICMP_ECHO * 256) + 1) % WORD
    else (c + Swap(ICMP_ECHO * 256)) % WORD
  }

  function ReplyTo(d: seq<byte>): seq<byte>
    requires |d| >= 4
  {
    Stored(d[0 := 0], 2, Adjusted(WordAt(d, 2)))
  }

  /** Nothing changes but the type, which becomes that of a reply, and the checksum. */
  lemma ReplyChanges(d: seq<byte>)
    requires |d| >= 4
    ensures |ReplyTo(d)| == |d| && ReplyTo(d)[0] == 0
    ensures forall i :: 0 < i < |d| && i != 2 && i != 3 ==> ReplyTo(d)[i] == d[i]
  {
    hide Adjusted;
  }

  /** An echo request of which the header, and perhaps more, is in `head`. */
  method Echo(head: array<byte>, rest: seq<seq<byte>>) returns (r: Outcome)
    requires head.Length >= 4 ==> head[0] as int == ICMP_ECHO
    requires |Flat([head[..]] + rest)| >= 8 ==> head.Length >= 4
    requires Fits([head[..]] + rest)
    modifies head
    ensures var d := old(Flat([head[..]] + rest));
            && (r == Short <==> |d| < 8) && (r == Replied <==> |d| >= 8 && 65535 - Norm(Sum(d)) == 0)
            && (r == Replied ==> head.Length >= 4 && head[..] == ReplyTo(old(head[..])))
            && (r != Replied ==> head[..] == old(head[..]))
  {
    hide Norm, Sum;
    var chain := [head[..]] + rest;
    var total := 0;
    var k := 0;
    assert chain[..0] == [];
    while k < |chain|
      invariant 0 <= k <= |chain| && total == |Flat(chain[..k])| && head[..] == old(head[..])
    {
      FlatSnoc(chain, k);
      total := total + |chain[k]|;
      k := k + 1;
    }
    assert chain[..k] == chain;
    if total < 8 {
      return Short;
    }
    var c := InetChksumPbuf(chain);
    if c != 0 {
      return BadChecksum;
    }
    ghost var d := head[..];
    var field := head[2] as nat + 256 * head[3] as nat;
    head[0] := 0;
    field := Adjusted(field);
    head[2] := (field % 256) as byte;
    head[3] := (field / 256) as byte;
    assert head[..] == ReplyTo(d);
    r := Replied;
  }

  lemma AdjustedIs(c: nat)
    requires c < WORD
    ensures Adjusted(c) == if c >= 0xFFF7 then c + 9 - 65536 else c + 8
  {
  }

  /** The sum of the reply is that of the request, or 65535 less. */
  lemma ReplySum(d: seq<byte>)
    requires |d| >= 4 && d[0] as int == ICMP_ECHO
    ensures Sum(ReplyTo(d)) == Sum(d) - if WordAt(d, 2) >= 0xFFF7 then 65535 else 0
  {
    hide Sum, Norm, Swap, Adjusted;
    var e := d[0 := 0];
    var low := d[1] as nat * 256;
    assert e == Stored(d, 0, low);
    SumStored(d, 0, low);
    AdjustedIs(WordAt(d, 2));
    SumStored(e, 2, Adjusted(WordAt(d, 2)));
  }

  /** With whatever follows the header buffer, the sum stays the same modulo 65535. */
  lemma ReplyCongruent(d: seq<byte>, rest: seq<byte>)
    requires |d| >= 4 && d[0] as int == ICMP_ECHO
    ensures Sum(ReplyTo(d) + rest) % 65535 == Sum(d + rest) % 65535
  {
    hide Sum, Norm, Swap, Adjusted;
    SumConcat(d, rest);
    SumConcat(ReplyTo(d), rest);
    ReplySum(d);
    if WordAt(d, 2) >= 0xFFF7 { ModPlus(1, Sum(ReplyTo(d) + rest)); }
  }

  /** The reply to a request with a right checksum has a right checksum, unless the reply is zero throughout: its checksum
      field then holds zero, where 0xFFFF would be right. */
  lemma ReplyVerifies(d: seq<byte>, rest: seq<byte>)
    requires |d| >= 4 && d[0] as int == ICMP_ECHO && 65535 - Norm(Sum(d + rest)) == 0
    ensures 65535 - Norm(Sum(ReplyTo(d) + rest)) == 0 <==> !OnlyTypeAndSum(d, rest)
  {
    hide Sum, Swap, Adjusted;
    ReplyCongruent(d, rest);
    SumZero(ReplyTo(d) + rest);
    ReplyZero(d, rest);
  }

  /** Every byte is zero but the type and the checksum field, which holds 0xFFF7. */
  predicate OnlyTypeAndSum(d: seq<byte>, rest: seq<byte>)
    requires |d| >= 4
  {
    && WordAt(d, 2) == 0xFFF7
    && (forall i :: 0 <= i < |d| && i != 0 && i != 2 && i != 3 ==> d[i] == 0)
    && (forall i :: 0 <= i < |rest| ==> rest[i] == 0)
  }

  lemma ReplyZero(d: seq<byte>, rest: seq<byte>)
    requires |d| >= 4
    ensures (forall i :: 0 <= i < |ReplyTo(d) + rest| ==> (ReplyTo(d) + rest)[i] == 0) <==> OnlyTypeAndSum(d, rest)
  {
    hide Sum, Norm, Swap, Adjusted;
    var e := ReplyTo(d);
    var c := WordAt(d, 2);
    AdjustedIs(c);
    assert WordAt(e, 2) == Adjusted(c);
    assert forall i :: 0 <= i < |e| ==> (e + rest)[i] == e[i];
    assert forall i :: 0 <= i < |rest| ==> (e + rest)[|e| + i] == rest[i];
    assert forall i :: 0 <= i < |d| && i != 0 && i != 2 && i != 3 ==> e[i] == d[i];
    assert e[0] == 0;
  }

  /** Such a request exists: eight bytes. */
  lemma ZeroReply()
    ensures var d: seq<byte> := [8, 0, 0xF7, 0xFF, 0, 0, 0, 0];
            && 65535 - Norm(Sum(d)) == 0 && ReplyTo(d) == [0, 0, 0, 0, 0, 0, 0, 0]
            && 65535 - Norm(Sum(ReplyTo(d))) == 65535
  {
    hide Sum, OddSum;
    var d: seq<byte> := [8, 0, 0xF7, 0xFF, 0, 0, 0, 0];
    EmptySum();
    SumZero(ReplyTo(d));
    SumWord(d, 0);
    SumWord(d, 2);
    SumWord(d, 4);
    SumWord(d, 6);
    assert d[..0] == [] && d[..8] == d;
    AdjustedIs(0xFFF7);
  }
}
