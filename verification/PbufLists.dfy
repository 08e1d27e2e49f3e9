/** Packet buffers linked by `next` pointers: three free lists and the chains in use, as values. */
module PbufLists {
  import opened NoDuplicates
  import opened Octets

  const NIL: int := -1
  const BUFSIZE: nat := 128

  datatype Kind = Rw | Ro | Pool

  /** A buffer: kind, reference count, total length (meaningful in the head of a chain) and payload. */
  datatype Node = Node(kind: Kind, ref: int, tot: int, data: seq<byte>)

  /** Memory: buffers addressed by index, their links, the three list heads and the count of pool buffers in use. */
  datatype Store = Store(next: seq<int>, node: seq<Node>, pool: int, alloc: int, free: int, used: int)

  /** Which buffers are on which list: the pool, the allocation cache, the free cache, and the chains in use. */
  datatype Parts = Parts(pool: seq<nat>, alloc: seq<nat>, free: seq<nat>, chains: seq<seq<nat>>)

  // ---------- Linked lists ----------

  predicate IsList(next: seq<int>, h: int, l: seq<nat>) {
    && h == (if l == [] then NIL else l[0])
    && forall k :: 0 <= k < |l| ==> l[k] < |next| && next[l[k]] == After(l, k)
  }

  /** What follows place `k` of a list. */
  function After(l: seq<nat>, k: nat): int { if k + 1 < |l| then l[k + 1] else NIL }

  function Head(l: seq<nat>): int { if l == [] then NIL else l[0] }

  /** All from the pool. */
  predicate Pooled(l: seq<nat>, n: nat) {
    forall i :: i in l ==> i < n
  }

  lemma CountOne(l: seq<nat>)
    requires forall x :: multiset(l)[x] <= 1
    ensures NoDup(l)
  {
    forall i, j | 0 <= i < j < |l| ensures l[i] != l[j] {
      assert l == l[..j] + l[j..];
      assert l[i] in l[..j] && l[j] in l[j..];
      assert multiset(l)[l[i]] == multiset(l[..j])[l[i]] + multiset(l[j..])[l[i]];
    }
  }

  /** Links of other buffers do not matter. */
  lemma FrameList(next: seq<int>, h: int, l: seq<nat>, x: nat, v: int)
    requires IsList(next, h, l) && x < |next| && x !in l
    ensures IsList(next[x := v], h, l)
  {
  }

  lemma JoinLists(next: seq<int>, l: seq<nat>, m: seq<nat>)
    requires IsList(next, Head(l), l) && IsList(next, Head(m), m) && l != [] && NoDup(l) && l[|l| - 1] !in m
    ensures IsList(next[l[|l| - 1] := Head(m)], l[0], l + m)
  {
    var last := l[|l| - 1];
    var n, j := next[last := Head(m)], l + m;
    forall k | 0 <= k < |j| ensures j[k] < |n| && n[j[k]] == After(j, k) {
      if k < |l| - 1 {
        assert n[j[k]] == next[l[k]] && j[k + 1] == l[k + 1];
      } else if k == |l| - 1 {
        assert j[k] == last && (m != [] ==> j[k + 1] == m[0]);
      } else {
        assert n[j[k]] == next[m[k - |l|]] && (k + 1 < |j| ==> j[k + 1] == m[k - |l| + 1]);
      }
    }
    assert j[0] == l[0];
  }

  lemma SplitList(next: seq<int>, l: seq<nat>, k: nat)
    requires IsList(next, Head(l), l) && NoDup(l) && 0 < k <= |l|
    ensures IsList(next[l[k - 1] := NIL], Head(l[..k]), l[..k])
    ensures IsList(next[l[k - 1] := NIL], Head(l[k..]), l[k..]) && next[l[k - 1]] == Head(l[k..])
  {
    hide IsList, NoDup;
    PrefixList(next, l, k);
    SuffixList(next, l, k, NIL);
  }

  lemma PrefixList(next: seq<int>, l: seq<nat>, k: nat)
    requires IsList(next, Head(l), l) && NoDup(l) && 0 < k <= |l|
    ensures IsList(next[l[k - 1] := NIL], Head(l[..k]), l[..k])
  {
    var n, a := next[l[k - 1] := NIL], l[..k];
    forall i | 0 <= i < |a| ensures a[i] < |n| && n[a[i]] == After(a, i) {
      assert a[i] == l[i] && next[l[i]] == After(l, i);
    }
  }

  lemma SuffixList(next: seq<int>, l: seq<nat>, k: nat, v: int)
    requires IsList(next, Head(l), l) && NoDup(l) && 0 < k <= |l|
    ensures l[k - 1] < |next| && IsList(next[l[k - 1] := v], Head(l[k..]), l[k..]) && next[l[k - 1]] == Head(l[k..])
  {
    var n, b := next[l[k - 1] := v], l[k..];
    assert next[l[k - 1]] == After(l, k - 1);
    forall i | 0 <= i < |b| ensures b[i] < |n| && n[b[i]] == After(b, i) {
      assert b[i] == l[k + i] && n[b[i]] == next[l[k + i]] && After(b, i) == After(l, k + i);
    }
  }

  // ---------- The partition ----------

  /** How often a buffer occurs in a list, in the chains, and altogether. */
  function Times(l: seq<nat>, x: nat): nat { multiset(l)[x] }

  function InChains(chains: seq<seq<nat>>, x: nat): nat {
    if chains == [] then 0 else Times(chains[0], x) + InChains(chains[1..], x)
  }

  function Places(p: Parts, x: nat): nat {
    Times(p.pool, x) + Times(p.alloc, x) + Times(p.free, x) + InChains(p.chains, x)
  }

  /** How many of the buffers are from the pool. */
  function PoolCount(l: seq<nat>, n: nat): nat {
    if l == [] then 0 else (if l[0] < n then 1 else 0) + PoolCount(l[1..], n)
  }

  function InUse(chains: seq<seq<nat>>, n: nat): nat {
    if chains == [] then 0 else PoolCount(chains[0], n) + InUse(chains[1..], n)
  }

  /** The `n` buffers made at the start are each in exactly one place, and no other buffer is in two; the free lists hold
      only buffers from the pool. */
  ghost predicate Partition(p: Parts, n: nat) {
    Counted(p, n) && FreeFromPool(p, n)
  }

  ghost predicate Counted(p: Parts, n: nat) {
    forall i: nat :: Places(p, i) <= 1 && (i < n ==> Places(p, i) == 1)
  }

  ghost predicate FreeFromPool(p: Parts, n: nat) {
    forall i :: i in p.pool || i in p.alloc || i in p.free ==> i < n
  }

  ghost predicate Linked(s: Store, p: Parts) {
    && IsList(s.next, s.pool, p.pool) && IsList(s.next, s.alloc, p.alloc) && IsList(s.next, s.free, p.free)
    && forall c :: 0 <= c < |p.chains| ==> IsList(s.next, Head(p.chains[c]), p.chains[c])
  }

  /** What is left of the invariant when a buffer that is not from the pool gets into a free list. */
  ghost predicate Whole(s: Store, p: Parts, n: nat) {
    && n <= |s.next| == |s.node| && (forall i :: 0 <= i < |s.node| ==> (s.node[i].kind == Pool <==> i < n))
    && Counted(p, n) && Linked(s, p)
  }

  ghost predicate Ok(s: Store, p: Parts, n: nat) {
    && n <= |s.next| == |s.node| && (forall i :: 0 <= i < |s.node| ==> (s.node[i].kind == Pool <==> i < n))
    && Partition(p, n) && Linked(s, p) && s.used == InUse(p.chains, n)
  }

  lemma {:induction false} ChainsUpdate(chains: seq<seq<nat>>, c: nat, l: seq<nat>, x: nat)
    requires c < |chains|
    ensures InChains(chains[c := l], x) + Times(chains[c], x) == InChains(chains, x) + Times(l, x)
    ensures InChains(chains, x) >= Times(chains[c], x)
  {
    hide Times;
    var u := chains[c := l];
    if c == 0 {
      assert u[1..] == chains[1..];
    } else {
      assert u[0] == chains[0] && u[1..] == chains[1..][c - 1 := l];
      ChainsUpdate(chains[1..], c - 1, l, x);
    }
  }

  lemma {:induction false} UseUpdate(chains: seq<seq<nat>>, c: nat, l: seq<nat>, n: nat)
    requires c < |chains|
    ensures InUse(chains[c := l], n) + PoolCount(chains[c], n) == InUse(chains, n) + PoolCount(l, n)
  {
    hide PoolCount;
    var u := chains[c := l];
    if c == 0 {
      assert u[1..] == chains[1..];
    } else {
      assert u[0] == chains[0] && u[1..] == chains[1..][c - 1 := l];
      UseUpdate(chains[1..], c - 1, l, n);
    }
  }

  lemma {:induction false} ChainsAppend(chains: seq<seq<nat>>, l: seq<nat>, x: nat)
    ensures InChains(chains + [l], x) == InChains(chains, x) + Times(l, x)
  {
    hide Times;
    var u := chains + [l];
    if chains == [] {
      assert u == [l] && u[1..] == [];
    } else {
      assert u[0] == chains[0] && u[1..] == chains[1..] + [l];
      ChainsAppend(chains[1..], l, x);
    }
  }

  lemma {:induction false} UseAppend(chains: seq<seq<nat>>, l: seq<nat>, n: nat)
    ensures InUse(chains + [l], n) == InUse(chains, n) + PoolCount(l, n)
  {
    hide PoolCount;
    var u := chains + [l];
    if chains == [] {
      assert u == [l] && u[1..] == [];
    } else {
      assert u[0] == chains[0] && u[1..] == chains[1..] + [l];
      UseAppend(chains[1..], l, n);
    }
  }

  lemma TimesConcat(a: seq<nat>, b: seq<nat>, x: nat)
    ensures Times(a + b, x) == Times(a, x) + Times(b, x)
  {
  }

  lemma TimesIn(l: seq<nat>, x: nat)
    ensures x in l <==> Times(l, x) > 0
    ensures Times([x], x) == 1 && Times([], x) == 0
    ensures forall y :: y != x ==> Times([y], x) == 0
  {
  }

  lemma {:induction false} PoolCountConcat(a: seq<nat>, b: seq<nat>, n: nat)
    ensures PoolCount(a + b, n) == PoolCount(a, n) + PoolCount(b, n)
  {
    if a == [] {
      assert a + b == b;
    } else {
      assert (a + b)[1..] == a[1..] + b;
      PoolCountConcat(a[1..], b, n);
    }
  }

  /** A buffer of one chain is in no other place, and occurs there once. */
  lemma OnlyHere(p: Parts, n: nat, c: nat)
    requires Partition(p, n) && c < |p.chains|
    ensures NoDup(p.chains[c])
    ensures forall x :: x in p.chains[c] ==> x !in p.pool && x !in p.alloc && x !in p.free
    ensures forall x, d :: x in p.chains[c] && 0 <= d < |p.chains| && d != c ==> x !in p.chains[d]
  {
    hide NoDup, Counted, FreeFromPool;
    CountedHere(p, n, c);
  }

  lemma CountedHere(p: Parts, n: nat, c: nat)
    requires Counted(p, n) && c < |p.chains|
    ensures NoDup(p.chains[c])
    ensures forall x :: x in p.chains[c] ==> x !in p.pool && x !in p.alloc && x !in p.free
    ensures forall x, d :: x in p.chains[c] && 0 <= d < |p.chains| && d != c ==> x !in p.chains[d]
  {
    hide NoDup, Times, InChains;
    forall x: nat
      ensures Times(p.chains[c], x) <= 1
      ensures x in p.chains[c] ==> x !in p.pool && x !in p.alloc && x !in p.free
    {
      assert Places(p, x) <= 1;
      ChainsUpdate(p.chains, c, [], x);
      TimesIn(p.chains[c], x);
      TimesIn(p.pool, x);
      TimesIn(p.alloc, x);
      TimesIn(p.free, x);
    }
    TimesOne(p.chains[c]);
    forall x, d | x in p.chains[c] && 0 <= d < |p.chains| && d != c ensures x !in p.chains[d] {
      assert Places(p, x) <= 1;
      var e := p.chains[c := []];
      ChainsUpdate(p.chains, c, [], x);
      ChainsUpdate(e, d, [], x);
      assert e[d] == p.chains[d];
      TimesIn(p.chains[c], x);
      TimesIn(p.chains[d], x);
    }
  }

  lemma TimesOne(l: seq<nat>)
    requires forall x :: Times(l, x) <= 1
    ensures NoDup(l)
  {
    forall x: nat ensures multiset(l)[x] <= 1 { assert Times(l, x) <= 1; }
    CountOne(l);
  }
}
