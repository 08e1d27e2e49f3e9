/** The bytes a chain of packet buffers holds. */
module PbufBytes {
  import opened NoDuplicates
  import opened Octets
  import opened PbufLists

  /** The payloads of the buffers of a chain, one after the other. */
  function Bytes(node: seq<Node>, l: seq<nat>): seq<byte> {
    if l == [] then [] else (if l[0] < |node| then node[l[0]].data else []) + Bytes(node, l[1..])
  }

  lemma {:induction false} BytesConcat(node: seq<Node>, a: seq<nat>, b: seq<nat>)
    ensures Bytes(node, a + b) == Bytes(node, a) + Bytes(node, b)
  {
    if a == [] {
      assert a + b == b;
    } else {
      assert (a + b)[1..] == a[1..] + b;
      BytesConcat(node, a[1..], b);
    }
  }

  lemma BytesOne(node: seq<Node>, x: nat)
    ensures Bytes(node, [x]) == if x < |node| then node[x].data else []
  {
    assert [x][1..] == [];
  }

  lemma BytesSplit(node: seq<Node>, l: seq<nat>, k: nat)
    requires k <= |l|
    ensures Bytes(node, l) == Bytes(node, l[..k]) + Bytes(node, l[k..])
  {
    assert l == l[..k] + l[k..];
    BytesConcat(node, l[..k], l[k..]);
  }

  lemma BytesSnoc(node: seq<Node>, l: seq<nat>, k: nat)
    requires k < |l|
    ensures Bytes(node, l[..k + 1]) == Bytes(node, l[..k]) + if l[k] < |node| then node[l[k]].data else []
  {
    hide Bytes;
    assert l[..k + 1] == l[..k] + [l[k]];
    BytesConcat(node, l[..k], [l[k]]);
    BytesOne(node, l[k]);
  }

  /** Buffers outside the chain do not matter. */
  lemma {:induction false} BytesFrame(node: seq<Node>, l: seq<nat>, m: seq<Node>)
    requires |node| <= |m| && forall i :: i in l ==> i < |node| && m[i].data == node[i].data
    ensures Bytes(m, l) == Bytes(node, l)
  {
    if l != [] {
      assert l[0] in l && forall i :: i in l[1..] ==> i in l;
      BytesFrame(node, l[1..], m);
    }
  }

  /** The head of every chain knows its length. */
  ghost predicate Lengths(node: seq<Node>, chains: seq<seq<nat>>) {
    forall c :: 0 <= c < |chains| && chains[c] != [] ==>
      chains[c][0] < |node| && node[chains[c][0]].tot == |Bytes(node, chains[c])|
  }

  /** A chain without its last buffers keeps the bytes in front. */
  lemma CutBytes(node: seq<Node>, l: seq<nat>, k: nat, size: nat)
    requires k < |l| && NoDup(l) && l[k] < |node|
    requires |Bytes(node, l[..k])| <= size <= |Bytes(node, l[..k])| + |node[l[k]].data| && size <= |Bytes(node, l)|
    ensures var rest := size - |Bytes(node, l[..k])|;
            Bytes(node[l[k] := node[l[k]].(data := node[l[k]].data[..rest])], l[..k + 1]) == Bytes(node, l)[..size]
  {
    hide Bytes, NoDup;
    var rest := size - |Bytes(node, l[..k])|;
    var m := node[l[k] := node[l[k]].(data := node[l[k]].data[..rest])];
    BytesSplit(node, l, k + 1);
    BytesSnoc(node, l, k);
    BytesSnoc(m, l, k);
    SamePrefix(node, l, k, m);
  }

  lemma {:induction false} SamePrefix(node: seq<Node>, l: seq<nat>, k: nat, m: seq<Node>)
    requires k < |l| && NoDup(l) && |m| == |node| && forall i :: 0 <= i < |node| && i != l[k] ==> m[i] == node[i]
    ensures Bytes(m, l[..k]) == Bytes(node, l[..k])
    decreases k
  {
    if k > 0 {
      assert l[..k] == [l[0]] + l[1..][..k - 1];
      assert l[..k][1..] == l[1..][..k - 1];
      assert NoDup(l[1..]) by { assert forall i :: 0 <= i < |l| - 1 ==> l[1..][i] == l[i + 1]; }
      SamePrefix(node, l[1..], k - 1, m);
    }
  }
}
