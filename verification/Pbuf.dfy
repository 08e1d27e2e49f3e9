/** The packet buffer module: a pool with two caches, chains of buffers, and copies of their bytes. */
module Pbuf {
  import opened NoDuplicates
  import opened Octets
  import opened PbufLists
  import opened PbufSteps
  import opened PbufBytes

  function Numbers(n: nat): (l: seq<nat>)
    ensures |l| == n && forall i :: 0 <= i < n ==> l[i] == i
  {
    seq(n, i => i)
  }

  lemma NumbersOnce(n: nat)
    ensures forall x: nat :: Times(Numbers(n), x) == if x < n then 1 else 0
  {
    forall x: nat ensures Times(Numbers(n), x) == if x < n then 1 else 0 {
      var l := Numbers(n);
      if x < n {
        var a, b := l[..x], l[x + 1..];
        assert l[x] == x;
        assert l == a + [x] + b;
        assert x !in a && x !in b;
      } else {
        assert x !in l;
      }
    }
  }

  /** The links of the pool, one buffer after the other. */
  method Links(n: nat) returns (next: seq<int>)
    ensures |next| == n && forall i :: 0 <= i < n ==> next[i] == if i + 1 < n then i + 1 else NIL
  {
    next := [];
    for i := 0 to n
      invariant |next| == i && forall j :: 0 <= j < i ==> next[j] == j + 1
    {
      next := next + [i + 1];
    }
    if n > 0 {
      next := next[n - 1 := NIL];
    }
  }

  class Pbufs {
    var next: seq<int>
    var node: seq<Node>
    var pool: int
    var alloc: int
    var free: int
    var used: int
    var freeLock: nat
    var allocLock: nat
    const size: nat            // buffers in the pool
    ghost var parts: Parts

    ghost function Abs(): Store
      reads this
    {
      Store(next, node, pool, alloc, free, used)
    }

    /** The buffers are partitioned; while a chain is being built or taken apart its total length may be wrong. */
    ghost predicate Sound()
      reads this
    {
      Ok(Abs(), parts, size)
    }

    ghost predicate Valid()
      reads this
    {
      Sound() && Lengths(node, parts.chains)
    }

    /** Buffers an allocation can take. */
    ghost function Available(): nat
      reads this
    {
      |parts.alloc| + if freeLock > 0 then 0 else |parts.pool|
    }

    ghost predicate IsChain(p: int, c: nat)
      reads this
    {
      c < |parts.chains| && parts.chains[c] != [] && parts.chains[c][0] == p
    }

    /** `pbuf_init`: all buffers in the pool. */
    constructor (n: nat)
      ensures Valid() && size == n && parts.pool == Numbers(n) && parts.chains == [] && used == 0
      ensures freeLock == 0 && allocLock == 0
    {
      size := n;
      var links := Links(n);
      next := links;
      node := seq(n, _ => Node(Pool, 0, BUFSIZE, Zeros(BUFSIZE)));
      pool := if n == 0 then NIL else 0;
      alloc, free, used, freeLock, allocLock := NIL, NIL, 0, 0, 0;
      parts := Parts(Numbers(n), [], [], []);
      NumbersOnce(n);
    }

    // ---------- The pool ----------

    /** `pbuf_pool_alloc`, and the end of the new chain marked. */
    method PoolAlloc() returns (p: int)
      requires Sound()
      modifies this`next, this`pool, this`alloc, this`used, this`parts
      ensures Sound() && (p != NIL <==> old(Available()) > 0)
      ensures p == NIL ==> Abs() == old(Abs()) && parts == old(parts)
      ensures p != NIL ==> && 0 <= p < size && parts.chains == old(parts.chains) + [[p]] && used == old(used) + 1
                           && Available() == old(Available()) - 1 && parts.free == old(parts.free)
      ensures p != NIL ==> p in old(parts.alloc) || p in old(parts.pool)
    {
      hide Partition, IsList, NoDup, InUse;
      HeadsAre(Abs(), parts);
      if alloc != NIL {
        FromCacheOk(Abs(), parts, size);
        p := alloc;
        PoolMember(parts, size, parts.alloc[0]);
        parts := CacheTaken(parts);
        alloc, next, used := next[p], next[p := NIL], used + 1;
      } else {
        if freeLock > 0 {
          return NIL;
        }
        p := pool;
        if p != NIL {
          FromPoolOk(Abs(), parts, size);
          PoolMember(parts, size, parts.pool[0]);
          parts := PoolTaken(parts);
          pool, next, used := next[p], next[p := NIL], used + 1;
        }
      }
    }

    /** Walks to the last buffer of a list. */
    method Last(h: nat, ghost l: seq<nat>) returns (q: nat)
      requires IsList(next, h, l)
      ensures l != [] && q == l[|l| - 1]
    {
      q := h;
      ghost var k := 0;
      while next[q] != NIL
        invariant 0 <= k < |l| && q == l[k] < |next|
        decreases |l| - k
      {
        q := next[q];
        k := k + 1;
      }
    }

    /** Walks a chain and counts its buffers. */
    method Length(h: int, ghost l: seq<nat>) returns (n: nat)
      requires IsList(next, h, l)
      ensures n == |l|
    {
      n := 0;
      var q := h;
      while q != NIL
        invariant 0 <= n <= |l| && q == (if n == |l| then NIL else l[n])
        decreases |l| - n
      {
        q := next[q];
        n := n + 1;
      }
    }

    /** `pbuf_pool_free` of the last chain. */
    method PoolFree(p: nat)
      requires Sound() && parts.chains != [] && IsChain(p, |parts.chains| - 1)
      requires Pooled(parts.chains[|parts.chains| - 1], size)
      modifies this`next, this`alloc, this`used, this`parts
      ensures Sound() && parts.chains == old(parts.chains)[..|old(parts.chains)| - 1]
      ensures used == old(used) - |old(parts.chains)[|old(parts.chains)| - 1]|
    {
      hide Partition, NoDup, InUse, IsList, Pooled;
      ghost var c := |parts.chains| - 1;
      ghost var s0, p0 := Abs(), parts;
      ReturnedOk(s0, p0, size, c);
      HeadsAre(s0, p0);
      var n := Length(p, parts.chains[c]);
      used := used - n;
      if alloc == NIL {
        alloc := p;
      } else {
        HeadIs(next, alloc, parts.alloc);
        var q := Last(alloc, parts.alloc);
        next := next[q := p];
      }
      ghost var t := Returned(s0, p0, c);
      assert Abs() == t.0;
      parts := t.1;
      TrimmedOk(Abs(), parts, size);
      parts := parts.(chains := parts.chains[..c]);
      assert parts.chains == p0.chains[..c];
    }

    /** `pbuf_refresh`: the free cache goes behind the pool, unless an allocation is under way. */
    method Refresh()
      requires Whole(Abs(), parts, size)
      modifies this`next, this`pool, this`free, this`freeLock, this`parts
      ensures Whole(Abs(), parts, size) && (Sound() <==> old(Sound())) && parts.chains == old(parts.chains) && parts.alloc == old(parts.alloc) && freeLock == old(freeLock)
      ensures if allocLock == 0 then parts.pool == old(parts.pool) + old(parts.free) && parts.free == []
              else parts == old(parts)
    {
      hide Partition, NoDup, InUse, IsList;
      HeadsAre(Abs(), parts);
      if free != NIL {
        freeLock := freeLock + 1;
        if allocLock == 0 {
          ghost var s0 := Abs();
          RefreshedOk(s0, parts, size);
          if pool == NIL {
            pool := free;
          } else {
            HeadIs(next, pool, parts.pool);
            var q := Last(pool, parts.pool);
            next := next[q := free];
          }
          free := NIL;
          assert Abs() == Refreshed(s0, parts).0;
          parts := Refreshed(s0, parts).1;
        }
        freeLock := freeLock - 1;
      } else {
        assert parts.pool + [] == parts.pool;
      }
    }

    // ---------- Allocation ----------

    /** Writes a buffer that is in no chain but the last. */
    method Fill(x: nat, nd: Node)
      requires Sound() && x < |node| && nd.kind == node[x].kind
      modifies this`node
      ensures Sound() && node == old(node)[x := nd]
    {
      hide Partition, InUse, IsList;
      node := node[x := nd];
    }

    /** One more pool buffer behind `r`, the last buffer of the last chain. */
    method Append(r: nat, len: nat) returns (q: int)
      requires Sound() && parts.chains != []
      requires var l := parts.chains[|parts.chains| - 1]; l != [] && r == l[|l| - 1]
      modifies this`next, this`node, this`pool, this`alloc, this`used, this`parts
      ensures Sound() && (q != NIL <==> old(Available()) > 0)
      ensures q == NIL ==> Abs() == old(Abs()) && parts == old(parts)
      ensures var c := |old(parts.chains)| - 1;
              q != NIL ==>
                && 0 <= q < size && q < |old(node)| && Available() == old(Available()) - 1 && used == old(used) + 1
                && parts.chains == old(parts.chains)[c := old(parts.chains)[c] + [q]]
                && node == old(node)[q := Node(Pool, 1, old(node)[q].tot, Zeros(len))]
    {
      hide Partition, InUse, IsList, NoDup;
      ghost var c := |parts.chains| - 1;
      q := PoolAlloc();
      if q != NIL {
        ghost var s1, p1 := Abs(), parts;
        JoinedOk(s1, p1, size, c, c + 1);
        assert p1.chains[c] == old(parts.chains)[c];
        ghost var j := Joined(s1, p1, c, c + 1);
        next := next[r := q];
        assert Abs() == j.0;
        parts := j.1;
        TrimmedOk(Abs(), parts, size);
        parts := parts.(chains := parts.chains[..c + 1]);
        assert parts.chains == old(parts.chains)[c := old(parts.chains)[c] + [q]];
        KindIs(Abs(), parts, size, q);
        Fill(q, Node(Pool, 1, node[q].tot, Zeros(len)));
      }
    }

    /** The first buffer of a packet of `len` bytes, `first` of them in it. */
    method Start(len: nat, first: nat) returns (p: int)
      requires Sound()
      modifies this`next, this`node, this`pool, this`alloc, this`used, this`parts
      ensures Sound() && (p != NIL <==> old(Available()) > 0) && Kept(old(node), node, old(parts.chains))
      ensures p == NIL ==> Abs() == old(Abs()) && parts == old(parts)
      ensures p != NIL ==>
                && 0 <= p < |node| && parts.chains == old(parts.chains) + [[p]] && Pooled([p], size)
                && node[p] == Node(Pool, 1, len, Zeros(first)) && |Bytes(node, [p])| == first
                && used == old(used) + 1 && Available() == old(Available()) - 1
    {
      hide Partition, InUse, IsList, NoDup, Ok, Lengths, Kept, Bytes;
      ghost var c, n0 := |parts.chains|, node;
      KeptSelf(Abs(), parts, size);
      p := PoolAlloc();
      if p != NIL {
        KindIs(Abs(), parts, size, p);
        Fill(p, Node(Pool, 1, len, Zeros(first)));
        assert parts.chains[..c] == old(parts.chains) && parts.chains[c] == [p];
        BytesOne(node, p);
        KeptStep(n0, n0, Abs(), parts, size, c, p);
      }
    }

    /** `pbuf_alloc` from the pool, with room for `offset` bytes of headers in the first buffer.  It succeeds exactly
        when there are enough buffers; when it fails half-way, what was taken is given back. */
    method AllocPool(len: nat, offset: nat) returns (p: int)
      requires Valid() && offset < BUFSIZE
      modifies this`next, this`node, this`pool, this`alloc, this`used, this`parts
      ensures Valid() && (p != NIL <==> Needed(len, offset) <= old(Available()))
      ensures p == NIL ==> parts.chains == old(parts.chains) && used == old(used)
      ensures var c := |old(parts.chains)|;
              p != NIL ==>
                && |parts.chains| == c + 1 && parts.chains[..c] == old(parts.chains) && IsChain(p, c)
                && |Bytes(node, parts.chains[c])| == len && Pooled(parts.chains[c], size)
                && |parts.chains[c]| == Needed(len, offset) && used == old(used) + Needed(len, offset)
                && node[p].ref == 1
      ensures Kept(old(node), node, old(parts.chains))
    {
      hide Partition, InUse, IsList, NoDup, Ok, Lengths, Kept, Pooled, Rounds, Needed, Bytes;
      ghost var c, chains, was, n0 := |parts.chains|, parts.chains, Available(), node;
      NeededIs(len, offset);
      var first := if len > BUFSIZE - offset then BUFSIZE - offset else len;
      p := Start(len, first);
      if p == NIL {
        return;
      }
      ghost var l := [p];
      var r, left := p, len - first;
      while left > 0
        invariant Sound() && |parts.chains| == c + 1 && parts.chains[..c] == chains && parts.chains[c] == l
        invariant l != [] && l[0] == p && r == l[|l| - 1] && Pooled(l, size) && p < |node|
        invariant |Bytes(node, l)| == len - (if left > 0 then left else 0)
        invariant node[p].tot == len && node[p].ref == 1 && Kept(n0, node, chains)
        invariant used == old(used) + |l| && Available() == was - |l| && Needed(len, offset) == |l| + Rounds(left)
        decreases left
      {
        ghost var n1 := node;
        RoundsStep(left);
        var q := Append(r, if left > BUFSIZE then BUFSIZE else left);
        if q == NIL {
          PoolFree(p);
          assert parts.chains == chains;
          KeptLengths(n0, node, chains);
          return NIL;
        }
        assert parts.chains[..c] == chains;
        Grown(n1, Abs(), parts, size, c, l, q);
        assert q in l + [q];
        KeptStep(n0, n1, Abs(), parts, size, c, q);
        PooledSnoc(l, size, q);
        l := l + [q];
        r := q;
        left := left - BUFSIZE;
      }
      KeptLengths(n0, node, chains);
      LengthsAppend(node, parts.chains, c);
    }

    /** `pbuf_alloc` of one buffer from general memory. */
    method AllocRw(len: nat) returns (p: nat)
      requires Valid()
      modifies this`next, this`node, this`parts
      ensures Valid() && parts == old(parts).(chains := old(parts.chains) + [[p]]) && used == old(used)
      ensures p == |old(node)| && node == old(node) + [Node(Rw, 1, len, Zeros(len))]
    {
      hide Partition, NoDup, IsList, InUse, Lengths;
      AllocatedOk(Abs(), parts, size, Node(Rw, 1, len, Zeros(len)));
      KeptSelf(Abs(), parts, size);
      p := |next|;
      next, node := next + [NIL], node + [Node(Rw, 1, len, Zeros(len))];
      KeptMore(old(node), node, parts.chains);
      KeptLengths(old(node), node, parts.chains);
      BytesOne(node, p);
      parts := parts.(chains := parts.chains + [[p]]);
      assert parts.chains[..|parts.chains| - 1] == old(parts.chains);
      LengthsAppend(node, parts.chains, |parts.chains| - 1);
    }

    // ---------- Freeing ----------

    /** Gives back every buffer of a chain: those from the pool to the free cache, the others to general memory. */
    method Release(p: int, ghost c: nat) returns (count: nat)
      requires Sound() && c < |parts.chains| && p == Head(parts.chains[c])
      modifies this`next, this`node, this`free, this`used, this`parts
      ensures Sound() && count == |old(parts.chains)[c]| && parts.chains == old(parts.chains)[c := []]
      ensures parts.pool == old(parts.pool) && parts.alloc == old(parts.alloc)
      ensures |node| == |old(node)| && forall i :: 0 <= i < |node| && i !in old(parts.chains)[c] ==> node[i] == old(node)[i]
      ensures used == old(used) - PoolCount(old(parts.chains)[c], size)
    {
      hide Partition, NoDup, IsList, InUse, PoolCount;
      ghost var l := parts.chains[c];
      var q := p;
      count := 0;
      assert l[0..] == l;
      while q != NIL
        invariant Sound() && 0 <= count <= |l| && parts.chains == old(parts.chains)[c := l[count..]]
        invariant q == Head(l[count..]) && parts.pool == old(parts.pool) && parts.alloc == old(parts.alloc)
        invariant |node| == |old(node)| && forall i :: 0 <= i < |node| && i !in l ==> node[i] == old(node)[i]
        invariant used == old(used) - PoolCount(l, size) + PoolCount(l[count..], size)
        decreases |l| - count
      {
        var x := q;
        ghost var k := count;
        assert l[k..][1..] == l[k + 1..] && l[k..] == [l[k]] + l[k + 1..];
        PoolCountConcat([l[k]], l[k + 1..], size);
        OneCount(l[k], size);
        NodeExists(Abs(), parts, c);
        if node[x].kind == Pool {
          PushedOk(Abs(), parts, size, c);
          ghost var t := Pushed(Abs(), parts, c);
          q := next[x];
          next := next[x := free];
          free := x;
          used := used - 1;
          assert Abs() == t.0;
          parts := t.1;
          Fill(x, node[x].(tot := BUFSIZE, data := Zeros(BUFSIZE)));
        } else {
          DroppedOk(Abs(), parts, size, c);
          q := next[x];
          parts := parts.(chains := parts.chains[c := parts.chains[c][1..]]);
        }
        assert parts.chains == old(parts.chains)[c := l[k + 1..]];
        count := count + 1;
      }
      NoneCount(size);
      assert l[count..] == [];
    }

    /** `pbuf_free`: one owner less; the last one gives the whole chain back. */
    method Free(p: int, ghost c: nat) returns (count: nat)
      requires Valid() && (p == NIL || IsChain(p, c)) && p < |node|
      modifies this`next, this`node, this`pool, this`free, this`freeLock, this`used, this`parts
      ensures Valid() && |node| == |old(node)| && freeLock == old(freeLock)
      ensures p == NIL ==> count == 0 && parts.chains == old(parts.chains) && node == old(node)
      ensures p >= 0 && old(node)[p].ref != 1 ==>
                count == 0 && parts.chains == old(parts.chains) &&
                node == old(node)[p := old(node)[p].(ref := old(node)[p].ref - 1)]
      ensures p >= 0 && old(node)[p].ref == 1 ==>
                && count == |old(parts.chains)[c]| && parts.chains == old(parts.chains)[c := []]
                && used == old(used) - PoolCount(old(parts.chains)[c], size)
                && forall i :: 0 <= i < |node| && i !in old(parts.chains)[c] ==> node[i] == old(node)[i]
      ensures p >= 0 && allocLock == 0 ==> parts.free == []
    {
      hide Partition, NoDup, IsList, InUse, PoolCount, Ok, Lengths, Linked;
      if p == NIL {
        return 0;
      }
      ghost var chains, n0 := parts.chains, node;
      ChainHead(Abs(), parts, size, c);
      Fill(p, node[p].(ref := node[p].ref - 1));
      SameBytes(n0, node, chains);
      count := 0;
      if node[p].ref == 0 {
        ghost var n1 := node;
        ChainsApart(Abs(), parts, size, c);
        count := Release(p, c);
        ChangedChain(n1, node, chains, c, []);
      }
      OkWhole(Abs(), parts, size);
      Refresh();
    }

    // ---------- Chaining ----------

    /** `pbuf_chain`: the bytes of the two chains one after the other. */
    method Chain(h: nat, t: int, ghost c: nat, ghost d: nat)
      requires Valid() && IsChain(h, c) && (t == NIL || (IsChain(t, d) && c != d)) && h < |node| && t < |node|
      modifies this`next, this`node, this`parts
      ensures Valid() && (t == NIL ==> Abs() == old(Abs()) && parts == old(parts))
      ensures t != NIL ==>
                && parts.chains == old(parts.chains)[c := old(parts.chains)[c] + old(parts.chains)[d]][d := []]
                && Bytes(node, parts.chains[c]) == old(Bytes(node, parts.chains[c]) + Bytes(node, parts.chains[d]))
                && node == old(node)[h := old(node)[h].(tot := |Bytes(node, parts.chains[c])|)] && used == old(used)
    {
      hide Partition, NoDup, IsList, InUse, Ok, Lengths, Linked;
      if t == NIL {
        return;
      }
      ghost var l, m, n0 := parts.chains[c], parts.chains[d], node;
      JoinedOk(Abs(), parts, size, c, d);
      ChainsApart(Abs(), parts, size, c);
      ghost var j := Joined(Abs(), parts, c, d);
      ChainLinks(Abs(), parts, size, c);
      var q := Last(h, l);
      next := next[q := t];
      assert Abs() == j.0;
      parts := j.1;
      HeadLength(n0, old(parts.chains), c);
      HeadLength(n0, old(parts.chains), d);
      Fill(h, node[h].(tot := node[h].tot + node[t].tot));
      JoinedLengths(n0, old(parts.chains), c, d, node);
    }

    /** `pbuf_dechain`: the first buffer alone, and the rest as a chain of its own. */
    method Dechain(p: nat, ghost c: nat) returns (q: int)
      requires Valid() && IsChain(p, c) && p < |node| == |next|
      modifies this`next, this`node, this`parts
      ensures Valid() && used == old(used)
      ensures var l := old(parts.chains)[c];
              && parts.chains == old(parts.chains)[c := [p]] + [l[1..]] && q == Head(l[1..])
              && old(Bytes(node, parts.chains[c])) == Bytes(node, [p]) + Bytes(node, l[1..])
    {
      hide Partition, NoDup, IsList, InUse, Ok, Lengths, Linked;
      ghost var l, n0 := parts.chains[c], node;
      CutOk(Abs(), parts, size, c, 1);
      ChainsApart(Abs(), parts, size, c);
      ghost var j := Cut(Abs(), parts, c, 1);
      HeadLength(n0, parts.chains, c);
      q := next[p];
      RestHead(Abs(), parts, size, c);
      if q != NIL {
        Fill(q, node[q].(tot := node[p].tot - |node[p].data|));
      }
      Fill(p, node[p].(tot := |node[p].data|));
      next := next[p := NIL];
      assert l[..1] == [p];
      assert Abs() == j.0.(node := node);
      NodesOk(j.0, j.1, size, node);
      parts := j.1;
      SplitLengths(n0, old(parts.chains), c, node);
    }

    // ---------- Shortening and copying ----------

    /** The buffer in which byte `len` of a chain lies, or ends, and how much of it comes before. */
    method Seek(p: nat, len: nat, ghost l: seq<nat>) returns (q: nat, rest: nat, ghost k: nat)
      requires IsList(next, p, l) && |next| == |node| && len < |Bytes(node, l)|
      ensures k < |l| && q == l[k] < |node| && rest <= |node[q].data| && |Bytes(node, l[..k])| + rest == len
    {
      q, rest, k := p, len, 0;
      while rest > |node[q].data|
        invariant 0 <= k < |l| && q == l[k] < |node| && |Bytes(node, l[..k])| + rest == len
        decreases |l| - k
      {
        BytesSnoc(node, l, k);
        assert l[..|l|] == l;
        rest := rest - |node[q].data|;
        q := next[q];
        k := k + 1;
      }
    }

    /** Cuts a chain behind its buffer `q`. */
    method CutAfter(q: nat, ghost c: nat, ghost k: nat) returns (r: int)
      requires Sound() && c < |parts.chains| && k < |parts.chains[c]| && q == parts.chains[c][k]
      modifies this`next, this`parts
      ensures Sound() && r == Head(old(parts.chains)[c][k + 1..])
      ensures parts.chains == old(parts.chains)[c := old(parts.chains)[c][..k + 1]] + [old(parts.chains)[c][k + 1..]]
    {
      hide Partition, NoDup, IsList, InUse, Ok;
      CutOk(Abs(), parts, size, c, k + 1);
      ghost var j := Cut(Abs(), parts, c, k + 1);
      r := next[q];
      next := next[q := NIL];
      assert Abs() == j.0;
      parts := j.1;
    }

    /** Gives back the last chain, which starts at `r`, if there is one. */
    method ReleaseLast(r: int)
      requires Sound() && parts.chains != [] && r == Head(parts.chains[|parts.chains| - 1])
      requires r != NIL ==> 0 <= r < |node| && node[r].ref == 1
      modifies this`next, this`node, this`free, this`used, this`parts
      ensures Sound() && parts.chains == old(parts.chains)[..|old(parts.chains)| - 1] && |node| == |old(node)|
      ensures var l := old(parts.chains)[|old(parts.chains)| - 1];
              forall i :: 0 <= i < |node| && i !in l ==> node[i] == old(node)[i]
    {
      hide Partition, NoDup, IsList, InUse, PoolCount, Ok, Linked;
      ghost var m := |parts.chains| - 1;
      if r != NIL {
        Fill(r, node[r].(ref := node[r].ref - 1));
        var freed := Release(r, m);
      }
      assert parts.chains[m] == [];
      TrimmedOk(Abs(), parts, size);
      parts := parts.(chains := parts.chains[..m]);
      assert parts.chains == old(parts.chains)[..m];
    }

    /** Puts every buffer of the last chain, which starts at `r`, on the free cache. */
    method PushLast(r: int)
      requires Sound() && parts.chains != [] && r == Head(parts.chains[|parts.chains| - 1])
      modifies this`next, this`free, this`used, this`parts
      ensures Whole(Abs(), parts, size) && parts.chains == old(parts.chains)[..|old(parts.chains)| - 1]
      ensures Sound() <==> Pooled(old(parts.chains)[|old(parts.chains)| - 1], size)
    {
      hide Partition, NoDup, IsList, InUse, PoolCount, Ok, Linked, Whole, FreeFromPool, Pooled;
      ghost var m, s0, p0 := |parts.chains| - 1, Abs(), parts;
      PushedAllOk(s0, p0, size, m);
      ghost var (t, u) := PushedAll(s0, p0, m);
      var q := r;
      while q != NIL
        invariant Whole(Abs(), parts, size) && |parts.chains| == m + 1 && q == Head(parts.chains[m])
        invariant forall x :: x in parts.chains[m] ==> x < |next|
        invariant PushedAll(Abs(), parts, m) == (t, u)
        decreases |parts.chains[m]|
      {
        ghost var s1, p1 := Abs(), parts;
        PushedWhole(s1, p1, size, m);
        var x := next[q];
        next, free, used := next[q := free], q, used - 1;
        assert Abs() == Pushed(s1, p1, m).0;
        parts := Pushed(s1, p1, m).1;
        assert parts.chains[m] == p1.chains[m][1..] && forall y :: y in parts.chains[m] ==> y in p1.chains[m];
        q := x;
      }
      assert (Abs(), parts) == (t, u);
      TrimmedWhole(Abs(), parts, size);
      parts := parts.(chains := parts.chains[..m]);
      assert parts.chains == p0.chains[..m];
    }

    /** Gives back the last chain, which starts at `r`, as `pbuf_realloc` does behind a buffer of the pool or not. */
    method DropLast(r: int, pooled: bool)
      requires Sound() && parts.chains != [] && r == Head(parts.chains[|parts.chains| - 1])
      requires !pooled && r != NIL ==> 0 <= r < |node| && node[r].ref == 1
      modifies this`next, this`node, this`free, this`used, this`parts
      ensures Whole(Abs(), parts, size) && parts.chains == old(parts.chains)[..|old(parts.chains)| - 1]
      ensures var l := old(parts.chains)[|old(parts.chains)| - 1];
              && (Sound() <==> !pooled || Pooled(l, size)) && |node| == |old(node)|
              && forall i :: 0 <= i < |node| && i !in l ==> node[i] == old(node)[i]
    {
      hide Ok, Whole, Pooled;
      if pooled {
        PushLast(r);
      } else {
        ReleaseLast(r);
        OkWhole(Abs(), parts, size);
      }
    }

    /** Cuts a chain in its buffer `q`, behind the first `len` bytes, and gives back what is left. */
    method Shorten(p: nat, q: nat, rest: nat, len: nat, ghost c: nat, ghost k: nat)
      requires Valid() && IsChain(p, c) && p < |node| && node[p].kind != Ro
      requires node[p].kind == Rw ==> Owned(node, parts.chains[c])
      requires var l := parts.chains[c];
               && k < |l| && q == l[k] < |node| && rest <= |node[q].data| && |Bytes(node, l[..k])| + rest == len < |Bytes(node, l)|
      modifies this`next, this`node, this`free, this`used, this`parts
      ensures var l := old(parts.chains)[c];
              && Whole(Abs(), parts, size) && parts.chains == old(parts.chains)[c := l[..k + 1]]
              && Bytes(node, l[..k + 1]) == old(Bytes(node, parts.chains[c]))[..len]
              && Kept(old(node), node, old(parts.chains)[c := []])
              && (Valid() <==> old(node)[p].kind == Rw || Pooled(l[k + 1..], size)) && Lengths(node, parts.chains)
    {
      hide Partition, NoDup, IsList, InUse, PoolCount, Ok, Lengths, Linked, Whole, Pooled;
      ghost var l, n0, chains := parts.chains[c], node, parts.chains;
      ChainsApart(Abs(), parts, size, c);
      ChainFacts(Abs(), parts, size, c);
      Fill(q, node[q].(data := node[q].data[..rest]));
      ghost var n1 := node;
      var r := CutAfter(q, c, k);
      if node[p].kind == Rw { TailOwned(n0, n1, l, k); }
      DropLast(r, node[p].kind == Pool);
      assert parts.chains == chains[c := l[..k + 1]];
      ghost var s1 := Abs();
      FilledOk(s1, parts, size, p, node[p].(tot := len));
      node := node[p := node[p].(tot := len)];
      assert Abs() == s1.(node := node);
      TailInList(l, k);
      ShortenedBytes(n0, n1, node, l, k, len);
      ChangedChain(n0, node, chains, c, l[..k + 1]);
    }

    /** `pbuf_realloc`: the chain keeps its first `len` bytes; the buffers behind them go to general memory or the free
        cache by their own kind if the first buffer is from general memory, and all to the free cache if it is from the
        pool. */
    method Realloc(p: nat, len: nat, ghost c: nat)
      requires Valid() && IsChain(p, c) && p < |node| && node[p].kind != Ro
      requires node[p].kind == Rw ==> Owned(node, parts.chains[c])
      modifies this`next, this`node, this`pool, this`free, this`freeLock, this`used, this`parts
      ensures Whole(Abs(), parts, size) && c < |parts.chains| && parts.chains == old(parts.chains)[c := parts.chains[c]]
      ensures IsChain(p, c) && parts.chains[c] <= old(parts.chains)[c]
      ensures var b := old(Bytes(node, parts.chains[c]));
              Bytes(node, parts.chains[c]) == if len < |b| then b[..len] else b
      ensures Kept(old(node), node, old(parts.chains)[c := []])
      ensures Valid() <==> old(node)[p].kind == Rw || Pooled(old(parts.chains)[c][|parts.chains[c]|..], size)
    {
      hide Partition, NoDup, IsList, InUse, PoolCount, Ok, Lengths, Linked, Whole, Pooled;
      ghost var l, n0, chains := parts.chains[c], node, parts.chains;
      HeadLength(node, parts.chains, c);
      ChainsApart(Abs(), parts, size, c);
      OkWhole(Abs(), parts, size);
      if node[p].tot <= len {
        assert parts.chains[c := l] == parts.chains;
        ChangedChain(n0, node, chains, c, l);
        NonePooled(l, size);
        return;
      }
      ChainLinks(Abs(), parts, size, c);
      ChainHead(Abs(), parts, size, c);
      ChainFacts(Abs(), parts, size, c);
      var q, rest;
      ghost var k;
      q, rest, k := Seek(p, len, l);
      Shorten(p, q, rest, len, c, k);
      Refresh();
    }

    /** `pbuf_dup`: a copy of the chain in one buffer. */
    method Dup(p: nat, ghost c: nat) returns (q: nat)
      requires Valid() && IsChain(p, c) && p < |node|
      modifies this`next, this`node, this`parts
      ensures Valid() && parts.chains == old(parts.chains) + [[q]] && used == old(used)
      ensures Bytes(node, [q]) == old(Bytes(node, parts.chains[c]))
      ensures q == |old(node)| && |node| == q + 1 && node[..q] == old(node)
    {
      hide Partition, NoDup, IsList, InUse, Ok, Lengths, Linked;
      ghost var l, n0, all := parts.chains[c], node, Bytes(node, parts.chains[c]);
      HeadLength(node, parts.chains, c);
      ChainFacts(Abs(), parts, size, c);
      q := AllocRw(node[p].tot);
      ghost var n1, chains := node, parts.chains;
      assert chains[c] == l && chains[|chains| - 1] == [q] && chains[..|chains| - 1] == old(parts.chains);
      ChainLinks(Abs(), parts, size, c);
      var from: int, at := p, 0;
      ghost var k := 0;
      assert l[..0] == [];
      while from != NIL
        invariant Sound() && parts.chains == chains && IsList(next, Head(l), l)
        invariant 0 <= k <= |l| && from == Head(l[k..]) && used == old(used)
        invariant |node| == q + 1 && node[..q] == n0 && node[q] == n1[q].(data := node[q].data)
        invariant at == |Bytes(n0, l[..k])| <= |all| == |node[q].data| && node[q].data[..at] == Bytes(n0, l[..k])
        decreases |l| - k
      {
        NextIs(next, l, k);
        assert from == l[k] && from < q && node[from] == n0[from];
        BytesSnoc(n0, l, k);
        BytesSplit(n0, l, k + 1);
        var d := node[from].data;
        var w := node[q].data;
        Fill(q, node[q].(data := w[..at] + d + w[at + |d|..]));
        at := at + |d|;
        from := next[from];
        k := k + 1;
      }
      assert l[..k] == l;
      BytesOne(node, q);
      KeptSelf(old(Abs()), old(parts), size);
      KeptMore(n0, node, old(parts.chains));
      KeptLengths(n0, node, old(parts.chains));
      LengthsAppend(node, parts.chains, |chains| - 1);
    }

    /** `pbuf_copy_partial`: up to `len` bytes of a chain from `offset` on.  The amount per buffer is kept in 16 bits. */
    method CopyPartial(p: nat, buf: array<byte>, len: nat, offset: nat, ghost c: nat) returns (copied: nat)
      requires Sound() && IsChain(p, c) && p < |node| && len < 0x1_0000 && offset < 0x1_0000 && len <= buf.Length
      modifies buf
      ensures copied <= len
      ensures Short(node, parts.chains[c]) ==>
                buf[..copied] == Part(Bytes(node, parts.chains[c]), offset, len) && buf[copied..] == old(buf[..])[copied..]
    {
      hide Partition, NoDup, IsList, InUse, Ok, Linked, Bytes, Part;
      ghost var l, was := parts.chains[c], buf[..];
      ghost var all := Part(Bytes(node, l), offset, len);
      ChainLinks(Abs(), parts, size, c);
      ChainFacts(Abs(), parts, size, c);
      ChainHead(Abs(), parts, size, c);
      var q: int, off: nat, left: nat := p, offset, len;
      copied := 0;
      ghost var k := 0;
      assert l[0..] == l && buf[..0] == [];
      while left != 0 && q != NIL
        invariant 0 <= k <= |l| && q == Head(l[k..]) && left + copied == len
        invariant Short(node, l) ==> buf[..copied] + Part(Bytes(node, l[k..]), off, left) == all
        invariant Short(node, l) ==> buf[copied..] == was[copied..]
        decreases |l| - k
      {
        NextIs(next, l, k);
        BytesNext(node, l, k);
        var d := node[q].data;
        ghost var rest := Bytes(node, l[k + 1..]);
        if off != 0 && off >= |d| {
          PartStep(d, rest, off, left);
          off := off - |d|;
        } else {
          var n := Take(buf, copied, d, off, left, rest);
          SliceMore(was, copied, n);
          copied := copied + n;
          left := left - n;
          off := 0;
        }
        q := next[q];
        k := k + 1;
      }
      PartNone(Bytes(node, l[k..]), off, left);
      BytesNone(node);
    }
  }

  lemma HeadIs(next: seq<int>, h: int, l: seq<nat>)
    requires IsList(next, h, l)
    ensures h == Head(l)
  {
  }

  lemma HeadsAre(s: Store, p: Parts)
    requires Linked(s, p)
    ensures (s.alloc == NIL <==> p.alloc == []) && (s.pool == NIL <==> p.pool == []) && (s.free == NIL <==> p.free == [])
  {
  }

  lemma PoolMember(p: Parts, n: nat, x: nat)
    requires Partition(p, n) && (x in p.alloc || x in p.pool)
    ensures x < n
  {
  }

  lemma OkWhole(s: Store, p: Parts, n: nat)
    requires Ok(s, p, n)
    ensures Whole(s, p, n)
  {
  }

  lemma FilledOk(s: Store, p: Parts, n: nat, x: nat, nd: Node)
    requires Whole(s, p, n) && x < |s.node| && nd.kind == s.node[x].kind
    ensures Whole(s.(node := s.node[x := nd]), p, n) && (Ok(s.(node := s.node[x := nd]), p, n) <==> Ok(s, p, n))
  {
    hide Counted, FreeFromPool, IsList, InUse;
  }

  /** The empty chain at the end goes. */
  lemma TrimmedOk(s: Store, p: Parts, n: nat)
    requires Ok(s, p, n) && p.chains != [] && p.chains[|p.chains| - 1] == []
    ensures Ok(s, p.(chains := p.chains[..|p.chains| - 1]), n)
  {
    hide Counted, FreeFromPool, Linked, InUse;
    TrimmedWhole(s, p, n);
  }

  lemma TrimmedWhole(s: Store, p: Parts, n: nat)
    requires Whole(s, p, n) && p.chains != [] && p.chains[|p.chains| - 1] == []
    ensures var q := p.(chains := p.chains[..|p.chains| - 1]);
            Whole(s, q, n) && (Ok(s, q, n) <==> Ok(s, p, n))
  {
    hide InUse, Times, InChains, IsList, PoolCount;
    var c := |p.chains| - 1;
    var q := p.(chains := p.chains[..c]);
    assert p.chains == q.chains + [[]];
    UseAppend(q.chains, [], n);
    NoneCount(n);
    forall y: nat ensures Places(q, y) == Places(p, y) {
      ChainsAppend(q.chains, [], y);
      TimesIn([], y);
    }
  }

  /** How many buffers of the pool `r` bytes take, and a packet. */
  function Rounds(r: int): nat { if r <= 0 then 0 else (r + BUFSIZE - 1) / BUFSIZE }

  function Needed(len: nat, offset: nat): nat
    requires offset < BUFSIZE
  {
    1 + Rounds(len - (BUFSIZE - offset))
  }

  lemma KindIs(s: Store, p: Parts, n: nat, x: nat)
    requires Ok(s, p, n) && x < n
    ensures x < |s.node| && s.node[x].kind == Pool
  {
  }

  /** The buffers of these chains are as they were. */
  ghost predicate Kept(m: seq<Node>, node: seq<Node>, chains: seq<seq<nat>>) {
    forall c :: 0 <= c < |chains| ==> KeptChain(m, node, chains[c])
  }

  ghost predicate KeptChain(m: seq<Node>, node: seq<Node>, l: seq<nat>) {
    |m| <= |node| && forall k :: 0 <= k < |l| ==> l[k] < |m| && node[l[k]] == m[l[k]]
  }

  lemma KeptSelf(s: Store, p: Parts, n: nat)
    requires Ok(s, p, n)
    ensures Kept(s.node, s.node, p.chains)
  {
  }

  /** A buffer of another chain was written. */
  lemma KeptStep(m: seq<Node>, was: seq<Node>, s: Store, p: Parts, n: nat, c: nat, x: nat)
    requires Ok(s, p, n) && c < |p.chains| && x in p.chains[c] && Kept(m, was, p.chains[..c])
    requires |was| == |s.node| && forall i :: 0 <= i < |was| && i != x ==> s.node[i] == was[i]
    ensures Kept(m, s.node, p.chains[..c])
  {
    hide Partition, NoDup, IsList, InUse, Linked;
    OnlyHere(p, n, c);
    KeptFrom(m, was, s.node, p.chains[..c], x);
  }

  lemma KeptMore(m: seq<Node>, node: seq<Node>, chains: seq<seq<nat>>)
    requires Kept(m, m, chains) && m <= node
    ensures Kept(m, node, chains)
  {
  }

  lemma KeptFrom(m: seq<Node>, was: seq<Node>, node: seq<Node>, chains: seq<seq<nat>>, x: nat)
    requires Kept(m, was, chains) && |was| <= |node| && forall e :: 0 <= e < |chains| ==> x !in chains[e]
    requires forall i :: 0 <= i < |was| && i != x ==> node[i] == was[i]
    ensures Kept(m, node, chains)
  {
    forall c | 0 <= c < |chains| ensures KeptChain(m, node, chains[c]) {
      assert KeptChain(m, was, chains[c]);
    }
  }

  lemma KeptLengths(m: seq<Node>, node: seq<Node>, chains: seq<seq<nat>>)
    requires Kept(m, node, chains) && Lengths(m, chains)
    ensures Lengths(node, chains)
  {
    forall c | 0 <= c < |chains| && chains[c] != []
      ensures chains[c][0] < |node| && node[chains[c][0]].tot == |Bytes(node, chains[c])|
    {
      assert KeptChain(m, node, chains[c]);
      BytesFrame(m, chains[c], node);
    }
  }

  lemma LengthsAppend(node: seq<Node>, chains: seq<seq<nat>>, c: nat)
    requires |chains| == c + 1 && Lengths(node, chains[..c])
    requires chains[c] != [] ==> chains[c][0] < |node| && node[chains[c][0]].tot == |Bytes(node, chains[c])|
    ensures Lengths(node, chains)
  {
    forall e | 0 <= e < |chains| && chains[e] != []
      ensures chains[e][0] < |node| && node[chains[e][0]].tot == |Bytes(node, chains[e])|
    {
      if e < c { assert chains[..c][e] == chains[e]; }
    }
  }

  /** A buffer was put behind a chain. */
  lemma Grown(was: seq<Node>, s: Store, p: Parts, n: nat, c: nat, l: seq<nat>, q: nat)
    requires Ok(s, p, n) && c < |p.chains| && p.chains[c] == l + [q] && l != [] && q < n
    requires |was| == |s.node| && forall i :: 0 <= i < |was| && i != q ==> s.node[i] == was[i]
    ensures q < |s.node| && Bytes(s.node, l + [q]) == Bytes(was, l) + s.node[q].data
    ensures l[0] < |was| && s.node[l[0]] == was[l[0]]
  {
    hide Partition, IsList, InUse;
    OnlyHere(p, n, c);
    var j := l + [q];
    forall i | i in l ensures i < |was| && i != q {
      var k :| 0 <= k < |l| && l[k] == i;
      assert j[k] == i && j[|l|] == q;
      NthExists(s, p, c, k);
    }
    assert l[0] in l;
    BytesFrame(was, l, s.node);
    BytesConcat(s.node, l, [q]);
    BytesOne(s.node, q);
  }

  lemma RoundsStep(left: int)
    requires left > 0
    ensures Rounds(left) == 1 + Rounds(left - BUFSIZE)
  {
  }

  lemma NeededIs(len: nat, offset: nat)
    requires offset < BUFSIZE
    ensures var first := if len > BUFSIZE - offset then BUFSIZE - offset else len;
            Needed(len, offset) == 1 + Rounds(len - first)
    ensures forall r: int :: r <= 0 ==> Rounds(r) == 0
  {
  }

  lemma PooledSnoc(l: seq<nat>, n: nat, x: nat)
    requires x < n && (l == [] || Pooled(l, n))
    ensures Pooled(l + [x], n)
  {
  }

  lemma NodeExists(s: Store, p: Parts, c: nat)
    requires Linked(s, p) && |s.next| == |s.node| && c < |p.chains| && p.chains[c] != []
    ensures p.chains[c][0] < |s.node|
  {
  }

  lemma ChainHead(s: Store, p: Parts, n: nat, c: nat)
    requires Ok(s, p, n) && c < |p.chains| && p.chains[c] != []
    ensures p.chains[c][0] < |s.node| == |s.next|
  {
  }

  lemma ChainLinks(s: Store, p: Parts, n: nat, c: nat)
    requires Ok(s, p, n) && c < |p.chains|
    ensures IsList(s.next, Head(p.chains[c]), p.chains[c])
  {
  }

  lemma HeadLength(node: seq<Node>, chains: seq<seq<nat>>, c: nat)
    requires Lengths(node, chains) && c < |chains| && chains[c] != []
    ensures chains[c][0] < |node| && node[chains[c][0]].tot == |Bytes(node, chains[c])|
  {
  }

  /** Payloads and total lengths are as they were. */
  lemma SameBytes(m: seq<Node>, node: seq<Node>, chains: seq<seq<nat>>)
    requires Lengths(m, chains) && |m| == |node|
    requires forall i :: 0 <= i < |m| ==> node[i].data == m[i].data && node[i].tot == m[i].tot
    ensures Lengths(node, chains)
  {
    forall c | 0 <= c < |chains| && chains[c] != []
      ensures chains[c][0] < |node| && node[chains[c][0]].tot == |Bytes(node, chains[c])|
    {
      SamePayload(m, node, chains[c]);
    }
  }

  lemma {:induction false} SamePayload(m: seq<Node>, node: seq<Node>, l: seq<nat>)
    requires |m| == |node| && forall i :: 0 <= i < |m| ==> node[i].data == m[i].data
    ensures Bytes(node, l) == Bytes(m, l)
  {
    if l != [] { SamePayload(m, node, l[1..]); }
  }

  /** The buffers of the other chains exist and are not in this one. */
  ghost predicate Apart(chains: seq<seq<nat>>, c: nat, bound: nat)
    requires c < |chains|
  {
    forall d :: 0 <= d < |chains| && d != c ==> ApartFrom(chains[d], chains[c], bound)
  }

  ghost predicate ApartFrom(l: seq<nat>, m: seq<nat>, bound: nat) {
    forall k :: 0 <= k < |l| ==> l[k] < bound && l[k] !in m
  }

  lemma ChainsApart(s: Store, p: Parts, n: nat, c: nat)
    requires Ok(s, p, n) && c < |p.chains|
    ensures Apart(p.chains, c, |s.node|)
  {
    hide Partition, NoDup, InUse;
    OnlyHere(p, n, c);
    forall d | 0 <= d < |p.chains| && d != c ensures ApartFrom(p.chains[d], p.chains[c], |s.node|) {
      forall k | 0 <= k < |p.chains[d]| ensures p.chains[d][k] < |s.node| && p.chains[d][k] !in p.chains[c] {
        assert p.chains[d][k] in p.chains[d];
      }
    }
  }

  /** Only buffers of one chain were written, and that chain is now `l`. */
  lemma ChangedChain(m: seq<Node>, node: seq<Node>, chains: seq<seq<nat>>, c: nat, l: seq<nat>)
    requires Lengths(m, chains) && c < |chains| && |m| <= |node| && Apart(chains, c, |m|)
    requires forall i :: 0 <= i < |m| && i !in chains[c] ==> node[i] == m[i]
    requires l != [] ==> l[0] < |node| && node[l[0]].tot == |Bytes(node, l)|
    ensures Lengths(node, chains[c := l]) && Kept(m, node, chains[c := []])
  {
    var u := chains[c := []];
    forall d | 0 <= d < |u| ensures KeptChain(m, node, u[d]) {
      if d != c { assert ApartFrom(chains[d], chains[c], |m|); }
    }
    assert Kept(m, node, u);
    KeptLengths(m, node, u);
    var v := chains[c := l];
    forall d | 0 <= d < |v| && v[d] != [] ensures v[d][0] < |node| && node[v[d][0]].tot == |Bytes(node, v[d])| {
      if d != c { assert v[d] == u[d]; }
    }
  }

  lemma JoinedLengths(m: seq<Node>, chains: seq<seq<nat>>, c: nat, d: nat, node: seq<Node>)
    requires Lengths(m, chains) && c < |chains| && d < |chains| && c != d && chains[c] != [] && chains[d] != []
    requires Apart(chains, c, |m|) && chains[c][0] < |m| && chains[d][0] < |m|
    requires var h := chains[c][0]; node == m[h := m[h].(tot := m[h].tot + m[chains[d][0]].tot)]
    ensures Lengths(node, chains[c := chains[c] + chains[d]][d := []])
    ensures Bytes(node, chains[c] + chains[d]) == Bytes(m, chains[c]) + Bytes(m, chains[d])
    ensures node[chains[c][0]].tot == |Bytes(m, chains[c])| + |Bytes(m, chains[d])|
  {
    hide Lengths;
    var l := chains[c] + chains[d];
    HeadLength(m, chains, c);
    HeadLength(m, chains, d);
    assert chains[c][0] in chains[c];
    SamePayload(m, node, chains[c]);
    SamePayload(m, node, chains[d]);
    BytesConcat(node, chains[c], chains[d]);
    ChangedChain(m, node, chains, c, l);
    EmptiedLengths(node, chains[c := l], d);
  }

  lemma EmptiedLengths(node: seq<Node>, chains: seq<seq<nat>>, d: nat)
    requires Lengths(node, chains) && d < |chains|
    ensures Lengths(node, chains[d := []])
  {
  }

  lemma NodesOk(s: Store, p: Parts, n: nat, node: seq<Node>)
    requires Ok(s, p, n) && |node| == |s.node| && forall i :: 0 <= i < |node| ==> node[i].kind == s.node[i].kind
    ensures Ok(s.(node := node), p, n)
  {
  }

  lemma RestHead(s: Store, p: Parts, n: nat, c: nat)
    requires Ok(s, p, n) && c < |p.chains| && p.chains[c] != []
    ensures var r := Head(p.chains[c][1..]); r == NIL || (0 <= r < |s.node| && r != p.chains[c][0] && r in p.chains[c])
  {
    hide Partition, InUse;
    OnlyHere(p, n, c);
    var l := p.chains[c];
    if |l| > 1 { assert l[1..][0] == l[1] && l[1] in l; }
  }

  lemma SplitLengths(m: seq<Node>, chains: seq<seq<nat>>, c: nat, node: seq<Node>)
    requires Lengths(m, chains) && c < |chains| && chains[c] != [] && chains[c][0] < |m| == |node| && Apart(chains, c, |m|)
    requires forall i :: 0 <= i < |m| ==> node[i].data == m[i].data && (i !in chains[c] ==> node[i] == m[i])
    requires var p, r := chains[c][0], Head(chains[c][1..]);
             && node[p].tot == |m[p].data|
             && (r != NIL ==> 0 <= r < |m| && node[r].tot == m[p].tot - |m[p].data|)
    ensures Lengths(node, chains[c := [chains[c][0]]] + [chains[c][1..]])
    ensures Bytes(m, chains[c]) == Bytes(node, [chains[c][0]]) + Bytes(node, chains[c][1..])
  {
    hide Lengths;
    var l := chains[c];
    HeadLength(m, chains, c);
    SamePayload(m, node, l[1..]);
    BytesOne(node, l[0]);
    ChangedChain(m, node, chains, c, [l[0]]);
    var u := chains[c := [l[0]]];
    assert (u + [l[1..]])[..|u|] == u;
    LengthsAppend(node, u + [l[1..]], |u|);
  }

  /** No buffer behind the first has an owner but the chain. */
  ghost predicate Owned(node: seq<Node>, l: seq<nat>) {
    forall k :: 0 < k < |l| ==> l[k] < |node| && node[l[k]].ref == 1
  }

  lemma NonePooled(l: seq<nat>, n: nat)
    ensures Pooled(l[|l|..], n)
  {
  }

  lemma TailOwned(m: seq<Node>, node: seq<Node>, l: seq<nat>, k: nat)
    requires Owned(m, l) && k < |l| && |node| == |m| && forall i :: 0 <= i < |m| ==> node[i].ref == m[i].ref
    ensures var r := Head(l[k + 1..]); r != NIL ==> 0 <= r < |node| && node[r].ref == 1
  {
  }

  lemma ChainFacts(s: Store, p: Parts, n: nat, c: nat)
    requires Ok(s, p, n) && c < |p.chains|
    ensures NoDup(p.chains[c]) && forall k :: 0 <= k < |p.chains[c]| ==> p.chains[c][k] < |s.node|
  {
    hide Partition, InUse;
    OnlyHere(p, n, c);
  }

  lemma ShortenedBytes(n0: seq<Node>, n1: seq<Node>, node: seq<Node>, l: seq<nat>, k: nat, len: nat)
    requires NoDup(l) && (forall j :: 0 <= j < |l| ==> l[j] < |n0|) && k < |l| && |node| == |n1| == |n0|
    requires var rest := len - |Bytes(n0, l[..k])|;
             && 0 <= rest <= |n0[l[k]].data| && len < |Bytes(n0, l)|
             && n1 == n0[l[k] := n0[l[k]].(data := n0[l[k]].data[..rest])]
    requires forall i :: 0 <= i < |n1| && i !in l[k + 1..] ==> node[i].data == n1[i].data
    ensures Bytes(node, l[..k + 1]) == Bytes(n0, l)[..len]
  {
    hide Bytes, NoDup;
    CutBytes(n0, l, k, len);
    HeadNotTail(l, k + 1, |n0|);
    BytesFrame(n1, l[..k + 1], node);
  }

  lemma HeadNotTail(l: seq<nat>, k: nat, bound: nat)
    requires NoDup(l) && k <= |l| && forall j :: 0 <= j < |l| ==> l[j] < bound
    ensures forall i :: i in l[..k] ==> i < bound && i !in l[k..]
  {
    forall i | i in l[..k] ensures i < bound && i !in l[k..] {
      var j :| 0 <= j < k && l[j] == i;
      var tail := l[k..];
      assert forall x :: 0 <= x < |tail| ==> tail[x] == l[k + x];
    }
  }

  lemma TailInList(l: seq<nat>, k: nat)
    requires k < |l|
    ensures l[0] in l && l[k] in l && forall i :: i in l[k + 1..] ==> i in l
  {
  }

  /** No buffer of 64 KiB or more. */
  ghost predicate Short(node: seq<Node>, l: seq<nat>) {
    forall k :: 0 <= k < |l| ==> l[k] < |node| && |node[l[k]].data| < 0x1_0000
  }

  function Least(a: nat, b: nat): nat { if a < b then a else b }

  /** Up to `len` bytes from `offset` on. */
  function Part(b: seq<byte>, offset: nat, len: nat): seq<byte> {
    b[Least(offset, |b|)..Least(offset + len, |b|)]
  }

  lemma PartStep(d: seq<byte>, rest: seq<byte>, off: nat, left: nat)
    ensures off >= |d| ==> Part(d + rest, off, left) == Part(rest, off - |d|, left)
    ensures off <= |d| ==> var n := Least(|d| - off, left);
                           Part(d + rest, off, left) == d[off..off + n] + Part(rest, 0, left - n)
  {
    hide Part;
    if off >= |d| { PartSkip(d, rest, off, left); }
    if off <= |d| { PartTake(d, rest, off, left); }
  }

  lemma PartSkip(d: seq<byte>, rest: seq<byte>, off: nat, left: nat)
    requires off >= |d|
    ensures Part(d + rest, off, left) == Part(rest, off - |d|, left)
  {
    var a := Least(off - |d|, |rest|);
    SliceBehind(d, rest, a, Least(off - |d| + left, |rest|));
  }

  lemma PartTake(d: seq<byte>, rest: seq<byte>, off: nat, left: nat)
    requires off <= |d|
    ensures var n := Least(|d| - off, left);
            Part(d + rest, off, left) == d[off..off + n] + Part(rest, 0, left - n)
  {
    if off + left <= |d| {
      assert (d + rest)[off..off + left] == d[off..off + left];
    } else {
      SliceAcross(d, rest, off, Least(off + left - |d|, |rest|));
    }
  }

  lemma SliceBehind(d: seq<byte>, rest: seq<byte>, a: nat, b: nat)
    requires a <= b <= |rest|
    ensures (d + rest)[|d| + a..|d| + b] == rest[a..b]
  {
    assert (d + rest)[|d|..] == rest;
  }

  lemma SliceAcross(d: seq<byte>, rest: seq<byte>, a: nat, b: nat)
    requires a <= |d| && b <= |rest|
    ensures (d + rest)[a..|d| + b] == d[a..] + rest[..b]
  {
  }

  lemma PartNone(b: seq<byte>, off: nat, left: nat)
    ensures left == 0 || b == [] ==> Part(b, off, left) == []
  {
  }

  lemma BytesNone(node: seq<Node>)
    ensures Bytes(node, []) == []
  {
  }

  lemma BytesNext(node: seq<Node>, l: seq<nat>, k: nat)
    requires k < |l| && l[k] < |node|
    ensures Bytes(node, l[k..]) == node[l[k]].data + Bytes(node, l[k + 1..])
  {
    assert l[k..][1..] == l[k + 1..];
  }

  /** Copies what one buffer has of the part. */
  method Take(buf: array<byte>, at: nat, d: seq<byte>, off: nat, left: nat, ghost rest: seq<byte>) returns (n: nat)
    requires at + left <= buf.Length && off <= |d|
    modifies buf
    ensures n <= left && buf[at + n..] == old(buf[at..])[n..]
    ensures |d| < 0x1_0000 ==>
              buf[..at + n] + Part(rest, 0, left - n) == old(buf[..at]) + Part(d + rest, off, left)
  {
    hide Part;
    PartStep(d, rest, off, left);
    n := (|d| - off) % 0x1_0000;
    if n > left {
      n := left;
    }
    CopyInto(buf, at, d, off, n);
  }

  lemma SliceMore(d: seq<byte>, at: nat, n: nat)
    requires at + n <= |d|
    ensures d[at..][n..] == d[at + n..]
  {
  }

  lemma NextIs(next: seq<int>, l: seq<nat>, k: nat)
    requires IsList(next, Head(l), l) && k < |l|
    ensures Head(l[k..]) == l[k] < |next| && next[l[k]] == Head(l[k + 1..])
  {
    if k + 1 < |l| { assert l[k + 1..][0] == l[k + 1]; }
  }
}
