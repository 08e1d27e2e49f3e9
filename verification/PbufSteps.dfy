/** The elementary moves of buffers between lists and chains.  Each keeps the partition. */
module PbufSteps {
  import opened NoDuplicates
  import opened PbufLists

  /** The free lists are disjoint from one another and from every chain. */
  lemma FreeListsApart(p: Parts, n: nat)
    requires Partition(p, n)
    ensures NoDup(p.pool) && NoDup(p.alloc) && NoDup(p.free)
    ensures forall x :: x in p.pool ==> x !in p.alloc && x !in p.free
    ensures forall x :: x in p.alloc ==> x !in p.free
    ensures forall x, c :: 0 <= c < |p.chains| && x in p.chains[c] ==> x !in p.pool && x !in p.alloc && x !in p.free
  {
    hide NoDup, Counted, FreeFromPool;
    CountedApart(p, n);
  }

  lemma CountedApart(p: Parts, n: nat)
    requires Counted(p, n)
    ensures NoDup(p.pool) && NoDup(p.alloc) && NoDup(p.free)
    ensures forall x :: x in p.pool ==> x !in p.alloc && x !in p.free
    ensures forall x :: x in p.alloc ==> x !in p.free
    ensures forall x, c :: 0 <= c < |p.chains| && x in p.chains[c] ==> x !in p.pool && x !in p.alloc && x !in p.free
  {
    hide NoDup, Times, InChains;
    forall x: nat
      ensures Times(p.pool, x) <= 1 && Times(p.alloc, x) <= 1 && Times(p.free, x) <= 1
      ensures x in p.pool ==> x !in p.alloc && x !in p.free
      ensures x in p.alloc ==> x !in p.free
    {
      assert Places(p, x) <= 1;
      TimesIn(p.pool, x);
      TimesIn(p.alloc, x);
      TimesIn(p.free, x);
    }
    TimesOne(p.pool);
    TimesOne(p.alloc);
    TimesOne(p.free);
    forall x, c | 0 <= c < |p.chains| && x in p.chains[c] ensures x !in p.pool && x !in p.alloc && x !in p.free {
      CountedHere(p, n, c);
    }
  }

  /** A list loses its head. */
  lemma TailList(next: seq<int>, h: int, l: seq<nat>, v: int)
    requires IsList(next, h, l) && l != [] && NoDup(l)
    ensures h == l[0] < |next| && IsList(next[h := v], next[h], l[1..])
  {
    hide NoDup, After;
    SuffixList(next, l, 1, v);
  }

  lemma OneList(next: seq<int>, x: nat)
    requires x < |next|
    ensures IsList(next[x := NIL], x, [x])
  {
  }

  /** A list gets a new head. */
  lemma PushList(next: seq<int>, h: int, l: seq<nat>, x: nat)
    requires IsList(next, h, l) && x < |next| && x !in l
    ensures IsList(next[x := h], x, [x] + l)
  {
    var j, n := [x] + l, next[x := h];
    forall k | 0 <= k < |j| ensures j[k] < |n| && n[j[k]] == After(j, k) {
      if k > 0 { assert j[k] == l[k - 1] && After(j, k) == After(l, k - 1); }
    }
  }

  ghost predicate ChainsLinked(next: seq<int>, chains: seq<seq<nat>>) {
    forall c :: 0 <= c < |chains| ==> IsList(next, Head(chains[c]), chains[c])
  }

  lemma FrameChains(next: seq<int>, chains: seq<seq<nat>>, x: nat, v: int)
    requires ChainsLinked(next, chains) && x < |next| && forall c :: 0 <= c < |chains| ==> x !in chains[c]
    ensures ChainsLinked(next[x := v], chains)
  {
    hide IsList;
    forall c | 0 <= c < |chains| ensures IsList(next[x := v], Head(chains[c]), chains[c]) {
      FrameList(next, Head(chains[c]), chains[c], x, v);
    }
  }

  // ---------- Allocation ----------

  /** A buffer leaves the allocation cache and becomes a chain of its own. */
  function FromCache(s: Store): Store
    requires 0 <= s.alloc < |s.next|
  {
    s.(next := s.next[s.alloc := NIL], alloc := s.next[s.alloc], used := s.used + 1)
  }

  function CacheTaken(p: Parts): Parts
    requires p.alloc != []
  {
    p.(alloc := p.alloc[1..], chains := p.chains + [[p.alloc[0]]])
  }

  lemma FromCacheOk(s: Store, p: Parts, n: nat)
    requires Ok(s, p, n) && p.alloc != []
    ensures s.alloc == p.alloc[0] < |s.next| && Ok(FromCache(s), CacheTaken(p), n)
  {
    hide NoDup, PoolCount, IsList, Partition, InUse;
    FreeListsApart(p, n);
    TailList(s.next, s.alloc, p.alloc, NIL);
    CacheParts(p, n);
    CacheLinks(s, p);
  }

  lemma CacheParts(p: Parts, n: nat)
    requires Partition(p, n) && p.alloc != []
    ensures Partition(CacheTaken(p), n) && InUse(CacheTaken(p).chains, n) == InUse(p.chains, n) + 1
  {
    hide PoolCount, Times, InChains, InUse;
    var x, q := p.alloc[0], CacheTaken(p);
    assert p.alloc == [x] + q.alloc;
    assert x in p.alloc;
    UseAppend(p.chains, [x], n);
    OneCount(x, n);
    assert forall i :: i in q.alloc ==> i in p.alloc;
    forall y: nat ensures Places(q, y) == Places(p, y) {
      ChainsAppend(p.chains, [x], y);
      TimesConcat([x], q.alloc, y);
    }
  }

  lemma CacheLinks(s: Store, p: Parts)
    requires Linked(s, p) && p.alloc != [] && NoDup(p.alloc)
    requires var x := p.alloc[0]; x !in p.pool && x !in p.free && forall c :: 0 <= c < |p.chains| ==> x !in p.chains[c]
    ensures s.alloc == p.alloc[0] < |s.next| && Linked(FromCache(s), CacheTaken(p))
  {
    hide NoDup, IsList;
    var x := p.alloc[0];
    TailList(s.next, s.alloc, p.alloc, NIL);
    OneList(s.next, x);
    FrameList(s.next, s.pool, p.pool, x, NIL);
    FrameList(s.next, s.free, p.free, x, NIL);
    FrameChains(s.next, p.chains, x, NIL);
  }

  lemma OneCount(x: nat, n: nat)
    ensures PoolCount([x], n) == if x < n then 1 else 0
  {
    assert [x][1..] == [];
  }

  /** The same from the pool. */
  function FromPool(s: Store): Store
    requires 0 <= s.pool < |s.next|
  {
    s.(next := s.next[s.pool := NIL], pool := s.next[s.pool], used := s.used + 1)
  }

  function PoolTaken(p: Parts): Parts
    requires p.pool != []
  {
    p.(pool := p.pool[1..], chains := p.chains + [[p.pool[0]]])
  }

  lemma FromPoolOk(s: Store, p: Parts, n: nat)
    requires Ok(s, p, n) && p.pool != []
    ensures s.pool == p.pool[0] < |s.next| && Ok(FromPool(s), PoolTaken(p), n)
  {
    hide NoDup, PoolCount, IsList, Partition, InUse;
    FreeListsApart(p, n);
    TailList(s.next, s.pool, p.pool, NIL);
    PoolParts(p, n);
    PoolLinks(s, p);
  }

  lemma PoolParts(p: Parts, n: nat)
    requires Partition(p, n) && p.pool != []
    ensures Partition(PoolTaken(p), n) && InUse(PoolTaken(p).chains, n) == InUse(p.chains, n) + 1
  {
    hide PoolCount, Times, InChains, InUse;
    var x, q := p.pool[0], PoolTaken(p);
    assert p.pool == [x] + q.pool;
    assert x in p.pool;
    UseAppend(p.chains, [x], n);
    OneCount(x, n);
    assert forall i :: i in q.pool ==> i in p.pool;
    forall y: nat ensures Places(q, y) == Places(p, y) {
      ChainsAppend(p.chains, [x], y);
      TimesConcat([x], q.pool, y);
    }
  }

  lemma PoolLinks(s: Store, p: Parts)
    requires Linked(s, p) && p.pool != [] && NoDup(p.pool)
    requires var x := p.pool[0]; x !in p.alloc && x !in p.free && forall c :: 0 <= c < |p.chains| ==> x !in p.chains[c]
    ensures s.pool == p.pool[0] < |s.next| && Linked(FromPool(s), PoolTaken(p))
  {
    hide NoDup, IsList;
    var x := p.pool[0];
    TailList(s.next, s.pool, p.pool, NIL);
    OneList(s.next, x);
    FrameList(s.next, s.alloc, p.alloc, x, NIL);
    FrameList(s.next, s.free, p.free, x, NIL);
    FrameChains(s.next, p.chains, x, NIL);
  }

  /** A new buffer from general memory, a chain of its own. */
  function Allocated(s: Store, nd: Node): Store {
    s.(next := s.next + [NIL], node := s.node + [nd])
  }

  lemma AllocatedOk(s: Store, p: Parts, n: nat, nd: Node)
    requires Ok(s, p, n) && nd.kind != Pool
    ensures Ok(Allocated(s, nd), p.(chains := p.chains + [[|s.next|]]), n)
  {
    hide PoolCount, NoDup, InUse, Partition, IsList;
    AllocatedParts(s, p, n);
    AllocatedLinks(s, p, nd);
  }

  lemma AllocatedParts(s: Store, p: Parts, n: nat)
    requires Partition(p, n) && Linked(s, p) && n <= |s.next|
    ensures var q := p.(chains := p.chains + [[|s.next|]]);
            Partition(q, n) && InUse(q.chains, n) == InUse(p.chains, n)
  {
    hide PoolCount, Times, InChains, InUse, Linked;
    var x, q := |s.next|, p.(chains := p.chains + [[|s.next|]]);
    UseAppend(p.chains, [x], n);
    OneCount(x, n);
    Unknown(s, p);
    forall y: nat ensures Places(q, y) == Places(p, y) + if y == x then 1 else 0 {
      ChainsAppend(p.chains, [x], y);
      TimesIn([x], y);
    }
  }

  /** A buffer that does not exist is nowhere. */
  lemma Unknown(s: Store, p: Parts)
    requires Linked(s, p)
    ensures Places(p, |s.next|) == 0
  {
    hide Times;
    var x := |s.next|;
    assert x !in p.pool && x !in p.alloc && x !in p.free;
    TimesIn(p.pool, x);
    TimesIn(p.alloc, x);
    TimesIn(p.free, x);
    NotInChains(p.chains, x);
  }

  lemma {:induction false} NotInChains(chains: seq<seq<nat>>, x: nat)
    requires forall c :: 0 <= c < |chains| ==> x !in chains[c]
    ensures InChains(chains, x) == 0
  {
    hide Times;
    if chains != [] {
      TimesIn(chains[0], x);
      NotInChains(chains[1..], x);
    }
  }

  lemma ExtendList(next: seq<int>, h: int, l: seq<nat>)
    requires IsList(next, h, l)
    ensures IsList(next + [NIL], h, l)
  {
  }

  lemma AllocatedLinks(s: Store, p: Parts, nd: Node)
    requires Linked(s, p)
    ensures Linked(Allocated(s, nd), p.(chains := p.chains + [[|s.next|]]))
  {
    hide IsList;
    var q, t := p.(chains := p.chains + [[|s.next|]]), Allocated(s, nd);
    ExtendList(s.next, s.pool, p.pool);
    ExtendList(s.next, s.alloc, p.alloc);
    ExtendList(s.next, s.free, p.free);
    forall c | 0 <= c < |q.chains| ensures IsList(t.next, Head(q.chains[c]), q.chains[c]) {
      if c < |p.chains| {
        ExtendList(s.next, Head(p.chains[c]), p.chains[c]);
      } else {
        OneList(t.next, |s.next|);
        assert t.next[|s.next| := NIL] == t.next;
      }
    }
  }

  // ---------- Chaining ----------

  /** The chain `d` behind the chain `c`. */
  function Joined(s: Store, p: Parts, c: nat, d: nat): (Store, Parts)
    requires c < |p.chains| && d < |p.chains| && p.chains[c] != [] && p.chains[c][|p.chains[c]| - 1] < |s.next|
  {
    var l := p.chains[c];
    (s.(next := s.next[l[|l| - 1] := Head(p.chains[d])]), p.(chains := p.chains[c := l + p.chains[d]][d := []]))
  }

  lemma JoinedOk(s: Store, p: Parts, n: nat, c: nat, d: nat)
    requires Ok(s, p, n) && c < |p.chains| && d < |p.chains| && c != d && p.chains[c] != []
    ensures p.chains[c][|p.chains[c]| - 1] < |s.next|
    ensures Ok(Joined(s, p, c, d).0, Joined(s, p, c, d).1, n)
  {
    hide PoolCount, NoDup, InUse, Partition, IsList;
    LastExists(s, p, c);
    JoinedParts(p, n, c, d);
    OnlyHere(p, n, c);
    JoinedLinks(s, p, c, d);
  }

  lemma LastExists(s: Store, p: Parts, c: nat)
    requires Linked(s, p) && c < |p.chains| && p.chains[c] != []
    ensures p.chains[c][|p.chains[c]| - 1] < |s.next|
  {
  }

  lemma JoinedParts(p: Parts, n: nat, c: nat, d: nat)
    requires Partition(p, n) && c < |p.chains| && d < |p.chains| && c != d
    ensures var q := p.(chains := p.chains[c := p.chains[c] + p.chains[d]][d := []]);
            Partition(q, n) && InUse(q.chains, n) == InUse(p.chains, n)
  {
    hide InUse, PoolCount, Times, InChains;
    var l, m := p.chains[c], p.chains[d];
    var u := p.chains[c := l + m];
    var q := p.(chains := u[d := []]);
    assert u[d] == m;
    UseUpdate(p.chains, c, l + m, n);
    UseUpdate(u, d, [], n);
    PoolCountConcat(l, m, n);
    NoneCount(n);
    forall y: nat ensures Places(q, y) == Places(p, y) {
      ChainsUpdate(p.chains, c, l + m, y);
      ChainsUpdate(u, d, [], y);
      TimesConcat(l, m, y);
      TimesIn([], y);
    }
  }

  lemma NoneCount(n: nat)
    ensures PoolCount([], n) == 0
  {
  }

  lemma JoinedLinks(s: Store, p: Parts, c: nat, d: nat)
    requires Linked(s, p) && c < |p.chains| && d < |p.chains| && c != d && p.chains[c] != [] && NoDup(p.chains[c])
    requires var x := p.chains[c][|p.chains[c]| - 1];
             && x < |s.next| && x !in p.pool && x !in p.alloc && x !in p.free
             && forall e :: 0 <= e < |p.chains| && e != c ==> x !in p.chains[e]
    ensures Linked(Joined(s, p, c, d).0, Joined(s, p, c, d).1)
  {
    hide NoDup, IsList;
    var l, m := p.chains[c], p.chains[d];
    var x, v := l[|l| - 1], Head(m);
    JoinLists(s.next, l, m);
    FrameList(s.next, s.pool, p.pool, x, v);
    FrameList(s.next, s.alloc, p.alloc, x, v);
    FrameList(s.next, s.free, p.free, x, v);
    var (t, q) := Joined(s, p, c, d);
    forall e | 0 <= e < |q.chains| ensures IsList(t.next, Head(q.chains[e]), q.chains[e]) {
      if e == d {
        EmptyList(t.next);
      } else if e == c {
        assert q.chains[e] == l + m && Head(l + m) == l[0];
      } else {
        FrameList(s.next, Head(p.chains[e]), p.chains[e], x, v);
      }
    }
  }

  lemma EmptyList(next: seq<int>)
    ensures IsList(next, NIL, [])
  {
  }

  /** The chain `c` cut after its first `k` buffers; the rest becomes a new chain. */
  function Cut(s: Store, p: Parts, c: nat, k: nat): (Store, Parts)
    requires c < |p.chains| && 0 < k <= |p.chains[c]| && p.chains[c][k - 1] < |s.next|
  {
    var l := p.chains[c];
    (s.(next := s.next[l[k - 1] := NIL]), p.(chains := p.chains[c := l[..k]] + [l[k..]]))
  }

  lemma CutOk(s: Store, p: Parts, n: nat, c: nat, k: nat)
    requires Ok(s, p, n) && c < |p.chains| && 0 < k <= |p.chains[c]|
    ensures p.chains[c][k - 1] < |s.next| && s.next[p.chains[c][k - 1]] == Head(p.chains[c][k..])
    ensures Ok(Cut(s, p, c, k).0, Cut(s, p, c, k).1, n)
  {
    hide PoolCount, NoDup, InUse, Partition, IsList;
    OnlyHere(p, n, c);
    NthExists(s, p, c, k - 1);
    SplitList(s.next, p.chains[c], k);
    CutParts(p, n, c, k);
    CutLinks(s, p, c, k);
  }

  lemma NthExists(s: Store, p: Parts, c: nat, k: nat)
    requires Linked(s, p) && c < |p.chains| && k < |p.chains[c]|
    ensures p.chains[c][k] < |s.next| && s.next[p.chains[c][k]] == After(p.chains[c], k)
  {
  }

  lemma CutParts(p: Parts, n: nat, c: nat, k: nat)
    requires Partition(p, n) && c < |p.chains| && k <= |p.chains[c]|
    ensures var l := p.chains[c];
            var q := p.(chains := p.chains[c := l[..k]] + [l[k..]]);
            Partition(q, n) && InUse(q.chains, n) == InUse(p.chains, n)
  {
    hide InUse, PoolCount, Times, InChains;
    var l := p.chains[c];
    var u := p.chains[c := l[..k]];
    var q := p.(chains := u + [l[k..]]);
    assert l == l[..k] + l[k..];
    UseUpdate(p.chains, c, l[..k], n);
    UseAppend(u, l[k..], n);
    PoolCountConcat(l[..k], l[k..], n);
    forall y: nat ensures Places(q, y) == Places(p, y) {
      ChainsUpdate(p.chains, c, l[..k], y);
      ChainsAppend(u, l[k..], y);
      TimesConcat(l[..k], l[k..], y);
    }
  }

  lemma CutLinks(s: Store, p: Parts, c: nat, k: nat)
    requires Linked(s, p) && c < |p.chains| && 0 < k <= |p.chains[c]| && NoDup(p.chains[c])
    requires var x := p.chains[c][k - 1];
             && x < |s.next| && x !in p.pool && x !in p.alloc && x !in p.free
             && forall e :: 0 <= e < |p.chains| && e != c ==> x !in p.chains[e]
    ensures Linked(Cut(s, p, c, k).0, Cut(s, p, c, k).1)
  {
    hide NoDup, IsList;
    var l := p.chains[c];
    var x := l[k - 1];
    SplitList(s.next, l, k);
    FrameList(s.next, s.pool, p.pool, x, NIL);
    FrameList(s.next, s.alloc, p.alloc, x, NIL);
    FrameList(s.next, s.free, p.free, x, NIL);
    var (t, q) := Cut(s, p, c, k);
    forall e | 0 <= e < |q.chains| ensures IsList(t.next, Head(q.chains[e]), q.chains[e]) {
      if e != c && e < |p.chains| { FrameList(s.next, Head(p.chains[e]), p.chains[e], x, NIL); }
    }
  }

  // ---------- Freeing ----------

  /** The first buffer of a chain goes to the front of the free cache. */
  function Pushed(s: Store, p: Parts, c: nat): (Store, Parts)
    requires c < |p.chains| && p.chains[c] != [] && p.chains[c][0] < |s.next|
  {
    var x := p.chains[c][0];
    (s.(next := s.next[x := s.free], free := x, used := s.used - 1),
     p.(free := [x] + p.free, chains := p.chains[c := p.chains[c][1..]]))
  }

  /** That is right exactly for a buffer from the pool. */
  lemma PushedOk(s: Store, p: Parts, n: nat, c: nat)
    requires Ok(s, p, n) && c < |p.chains| && p.chains[c] != []
    ensures p.chains[c][0] < |s.next| && s.next[p.chains[c][0]] == Head(p.chains[c][1..])
    ensures Ok(Pushed(s, p, c).0, Pushed(s, p, c).1, n) <==> p.chains[c][0] < n
  {
    hide PoolCount, NoDup, InUse, IsList;
    OnlyHere(p, n, c);
    NthExists(s, p, c, 0);
    var (t, q) := Pushed(s, p, c);
    assert p.chains[c][0] in q.free;
    if p.chains[c][0] < n {
      PushedParts(p, n, c);
      PushedLinks(s, p, c);
    }
  }

  lemma PushedParts(p: Parts, n: nat, c: nat)
    requires Partition(p, n) && c < |p.chains| && p.chains[c] != [] && p.chains[c][0] < n
    ensures var x := p.chains[c][0];
            var q := p.(free := [x] + p.free, chains := p.chains[c := p.chains[c][1..]]);
            Partition(q, n) && InUse(q.chains, n) == InUse(p.chains, n) - 1
  {
    hide InUse, Times, InChains, PoolCount;
    var l := p.chains[c];
    var q := p.(free := [l[0]] + p.free, chains := p.chains[c := l[1..]]);
    assert l == [l[0]] + l[1..];
    UseUpdate(p.chains, c, l[1..], n);
    PoolCountConcat([l[0]], l[1..], n);
    OneCount(l[0], n);
    forall y: nat ensures Places(q, y) == Places(p, y) {
      ChainsUpdate(p.chains, c, l[1..], y);
      TimesConcat([l[0]], l[1..], y);
      TimesConcat([l[0]], p.free, y);
    }
  }

  lemma PushedLinks(s: Store, p: Parts, c: nat)
    requires Linked(s, p) && c < |p.chains| && p.chains[c] != [] && NoDup(p.chains[c])
    requires var x := p.chains[c][0];
             && x < |s.next| && x !in p.pool && x !in p.alloc && x !in p.free
             && forall e :: 0 <= e < |p.chains| && e != c ==> x !in p.chains[e]
    ensures Linked(Pushed(s, p, c).0, Pushed(s, p, c).1)
  {
    hide NoDup, IsList;
    var l := p.chains[c];
    var x := l[0];
    TailList(s.next, Head(l), l, s.free);
    PushList(s.next, s.free, p.free, x);
    FrameList(s.next, s.pool, p.pool, x, s.free);
    FrameList(s.next, s.alloc, p.alloc, x, s.free);
    var (t, q) := Pushed(s, p, c);
    NthExists(s, p, c, 0);
    forall e | 0 <= e < |q.chains| ensures IsList(t.next, Head(q.chains[e]), q.chains[e]) {
      if e != c { FrameList(s.next, Head(p.chains[e]), p.chains[e], x, s.free); }
    }
  }

  /** The lists and the chains stay apart in any case. */
  lemma PushedWhole(s: Store, p: Parts, n: nat, c: nat)
    requires Whole(s, p, n) && c < |p.chains| && p.chains[c] != []
    ensures p.chains[c][0] < |s.next| && s.next[p.chains[c][0]] == Head(p.chains[c][1..])
    ensures var (t, q) := Pushed(s, p, c);
            Whole(t, q, n) && (FreeFromPool(q, n) <==> FreeFromPool(p, n) && p.chains[c][0] < n)
  {
    hide NoDup, IsList, Times, InChains;
    CountedHere(p, n, c);
    NthExists(s, p, c, 0);
    PushedLinks(s, p, c);
    var (t, q) := Pushed(s, p, c);
    var l := p.chains[c];
    assert l == [l[0]] + l[1..] && q.free == [l[0]] + p.free;
    PushedFrom(p, q, n, l[0]);
    forall y: nat ensures Places(q, y) == Places(p, y) {
      ChainsUpdate(p.chains, c, l[1..], y);
      TimesConcat([l[0]], l[1..], y);
      TimesConcat([l[0]], p.free, y);
    }
  }

  lemma PushedFrom(p: Parts, q: Parts, n: nat, x: nat)
    requires q.pool == p.pool && q.alloc == p.alloc && q.free == [x] + p.free
    ensures FreeFromPool(q, n) <==> FreeFromPool(p, n) && x < n
  {
    assert x in q.free && forall i :: i in q.free <==> i == x || i in p.free;
  }

  /** Every buffer of a chain goes to the free cache, one after the other. */
  function PushedAll(s: Store, p: Parts, c: nat): (Store, Parts)
    requires c < |p.chains| && forall x :: x in p.chains[c] ==> x < |s.next|
    decreases |p.chains[c]|
  {
    if p.chains[c] == [] then (s, p) else
      assert p.chains[c][0] in p.chains[c];
      var (t, q) := Pushed(s, p, c);
      assert q.chains[c] == p.chains[c][1..] && forall x :: x in q.chains[c] ==> x in p.chains[c];
      PushedAll(t, q, c)
  }

  lemma ChainExists(s: Store, p: Parts, c: nat)
    requires Linked(s, p) && c < |p.chains|
    ensures forall x :: x in p.chains[c] ==> x < |s.next|
  {
    forall k | 0 <= k < |p.chains[c]| ensures p.chains[c][k] < |s.next| {
      NthExists(s, p, c, k);
    }
  }

  lemma {:induction false} PushedAllWhole(s: Store, p: Parts, n: nat, c: nat)
    requires Whole(s, p, n) && c < |p.chains|
    ensures forall x :: x in p.chains[c] ==> x < |s.next|
    ensures var (t, q) := PushedAll(s, p, c);
            && Whole(t, q, n) && q.chains == p.chains[c := []] && t.node == s.node && t.used == s.used - |p.chains[c]|
            && (FreeFromPool(q, n) <==> FreeFromPool(p, n) && Pooled(p.chains[c], n))
    decreases |p.chains[c]|
  {
    hide Whole, FreeFromPool;
    var l := p.chains[c];
    assert forall x :: x in l ==> x < |s.next| by {
      WholeLinked(s, p, n);
      ChainExists(s, p, c);
    }
    if l == [] {
      assert p.chains[c := []] == p.chains;
    } else {
      PushedWhole(s, p, n, c);
      var (t, q) := Pushed(s, p, c);
      PushedAllWhole(t, q, n, c);
      assert q.chains[c := []] == p.chains[c := []];
      PooledHead(l, n);
    }
  }

  lemma WholeLinked(s: Store, p: Parts, n: nat)
    requires Whole(s, p, n)
    ensures Linked(s, p)
  {
  }

  lemma PooledHead(l: seq<nat>, n: nat)
    requires l != []
    ensures Pooled(l, n) <==> l[0] < n && Pooled(l[1..], n)
  {
    assert l[0] in l && forall i :: i in l[1..] ==> i in l;
    if l[0] < n && Pooled(l[1..], n) {
      forall i | i in l ensures i < n {
        var k :| 0 <= k < |l| && l[k] == i;
        if k > 0 { assert l[1..][k - 1] == i && i in l[1..]; }
      }
    }
  }

  /** Pushing a chain keeps the invariant exactly when all of its buffers are from the pool. */
  lemma PushedAllOk(s: Store, p: Parts, n: nat, c: nat)
    requires Ok(s, p, n) && c < |p.chains|
    ensures Whole(s, p, n) && forall x :: x in p.chains[c] ==> x < |s.next|
    ensures var (t, q) := PushedAll(s, p, c);
            && Whole(t, q, n) && q.chains == p.chains[c := []] && t.node == s.node
            && (Ok(t, q, n) <==> Pooled(p.chains[c], n))
  {
    hide Counted, FreeFromPool, Linked, InUse, PoolCount, Pooled;
    PushedAllWhole(s, p, n, c);
    UseUpdate(p.chains, c, [], n);
    NoneCount(n);
    if Pooled(p.chains[c], n) { AllCount(p.chains[c], n); }
  }

  /** The first buffer of a chain is given back to general memory. */
  lemma DroppedOk(s: Store, p: Parts, n: nat, c: nat)
    requires Ok(s, p, n) && c < |p.chains| && p.chains[c] != [] && p.chains[c][0] >= n
    ensures p.chains[c][0] < |s.next| && s.next[p.chains[c][0]] == Head(p.chains[c][1..])
    ensures Ok(s, p.(chains := p.chains[c := p.chains[c][1..]]), n)
  {
    hide NoDup, InUse, IsList, Partition;
    OnlyHere(p, n, c);
    NthExists(s, p, c, 0);
    DroppedParts(p, n, c);
    var l := p.chains[c];
    var q := p.(chains := p.chains[c := l[1..]]);
    TailList(s.next, Head(l), l, s.next[l[0]]);
    assert s.next[l[0] := s.next[l[0]]] == s.next;
    forall e | 0 <= e < |q.chains| ensures IsList(s.next, Head(q.chains[e]), q.chains[e]) {
      if e != c { assert q.chains[e] == p.chains[e]; }
    }
  }

  lemma DroppedParts(p: Parts, n: nat, c: nat)
    requires Partition(p, n) && c < |p.chains| && p.chains[c] != [] && p.chains[c][0] >= n
    ensures var q := p.(chains := p.chains[c := p.chains[c][1..]]);
            Partition(q, n) && InUse(q.chains, n) == InUse(p.chains, n)
  {
    hide InUse, Times, InChains, PoolCount;
    var l := p.chains[c];
    var q := p.(chains := p.chains[c := l[1..]]);
    assert l == [l[0]] + l[1..];
    UseUpdate(p.chains, c, l[1..], n);
    PoolCountConcat([l[0]], l[1..], n);
    OneCount(l[0], n);
    forall y: nat ensures Places(q, y) + (if y == l[0] then 1 else 0) == Places(p, y) {
      ChainsUpdate(p.chains, c, l[1..], y);
      TimesConcat([l[0]], l[1..], y);
      TimesIn([l[0]], y);
    }
  }

  // ---------- The caches ----------

  /** The free cache behind the pool. */
  function Refreshed(s: Store, p: Parts): (Store, Parts)
    requires p.pool != [] ==> p.pool[|p.pool| - 1] < |s.next|
  {
    (s.(next := if p.pool == [] then s.next else s.next[p.pool[|p.pool| - 1] := s.free],
        pool := if p.pool == [] then s.free else s.pool, free := NIL),
     p.(pool := p.pool + p.free, free := []))
  }

  lemma RefreshedOk(s: Store, p: Parts, n: nat)
    requires Whole(s, p, n)
    ensures p.pool != [] ==> p.pool[|p.pool| - 1] < |s.next|
    ensures Whole(Refreshed(s, p).0, Refreshed(s, p).1, n)
    ensures Ok(Refreshed(s, p).0, Refreshed(s, p).1, n) <==> Ok(s, p, n)
  {
    hide NoDup, InUse, IsList, Times, InChains;
    CountedApart(p, n);
    RefreshedLinks(s, p);
    var (t, q) := Refreshed(s, p);
    forall y: nat ensures Places(q, y) == Places(p, y) {
      TimesConcat(p.pool, p.free, y);
      TimesIn([], y);
    }
  }

  lemma RefreshedLinks(s: Store, p: Parts)
    requires Linked(s, p) && NoDup(p.pool)
    requires forall x :: x in p.pool ==> x !in p.alloc && x !in p.free
    requires forall x, c :: 0 <= c < |p.chains| && x in p.chains[c] ==> x !in p.pool
    ensures p.pool != [] ==> p.pool[|p.pool| - 1] < |s.next|
    ensures Linked(Refreshed(s, p).0, Refreshed(s, p).1)
  {
    hide NoDup;
    if p.pool == [] {
      assert p.pool + p.free == p.free;
    } else {
      var x := p.pool[|p.pool| - 1];
      assert x in p.pool;
      JoinLists(s.next, p.pool, p.free);
      FrameList(s.next, s.alloc, p.alloc, x, s.free);
      FrameChains(s.next, p.chains, x, s.free);
    }
  }

  /** A buffer of the pool followed by one from general memory.  Cut after the first and given back as a chain of the
      pool, the second buffer ends up in the pool. */
  lemma ForeignBuffer()
    ensures var s := Store([1, NIL], [Node(Pool, 1, 2, [0]), Node(Rw, 1, 1, [0])], NIL, NIL, NIL, 1);
            var p := Parts([], [], [], [[0, 1]]);
            var (t, q) := Cut(s, p, 0, 1);
            && Ok(s, p, 1) && Ok(t, q, 1)
            && var (u, r) := PushedAll(t, q, 1);
            && !Ok(u, r, 1) && r.pool == [] && Refreshed(u, r).1.pool == [1] && s.node[1].kind == Rw
  {
    var s := Store([1, NIL], [Node(Pool, 1, 2, [0]), Node(Rw, 1, 1, [0])], NIL, NIL, NIL, 1);
    var p := Parts([], [], [], [[0, 1]]);
    PairOk(s, p);
    CutOk(s, p, 1, 0, 1);
    var (t, q) := Cut(s, p, 0, 1);
    assert p.chains[0][1..] == [1];
    assert q.chains[1] == [1];
    PushedAllOk(t, q, 1, 1);
    var (v, w) := Pushed(t, q, 1);
    assert w.chains[1] == [] && w.free == [1];
    assert PushedAll(t, q, 1) == (v, w);
    assert 1 in q.chains[1];
  }

  lemma PairOk(s: Store, p: Parts)
    requires s.next == [1, NIL] && s.pool == s.alloc == s.free == NIL && s.used == 1
    requires |s.node| == 2 && s.node[0].kind == Pool && s.node[1].kind == Rw && p == Parts([], [], [], [[0, 1]])
    ensures Ok(s, p, 1)
  {
    assert p.chains[1..] == [] && [0, 1][1..] == [1];
    assert InUse(p.chains, 1) == PoolCount([0, 1], 1) + InUse([], 1);
    OneCount(1, 1);
    forall i: nat ensures Places(p, i) == if i < 2 then 1 else 0 {
      assert InChains(p.chains, i) == Times([0, 1], i) + InChains([], i);
    }
  }

  /** A chain of pool buffers behind the allocation cache. */
  function Returned(s: Store, p: Parts, c: nat): (Store, Parts)
    requires c < |p.chains| && (p.alloc != [] ==> p.alloc[|p.alloc| - 1] < |s.next|)
  {
    var h := Head(p.chains[c]);
    (s.(next := if p.alloc == [] then s.next else s.next[p.alloc[|p.alloc| - 1] := h],
        alloc := if p.alloc == [] then h else s.alloc, used := s.used - |p.chains[c]|),
     p.(alloc := p.alloc + p.chains[c], chains := p.chains[c := []]))
  }

  lemma ReturnedOk(s: Store, p: Parts, n: nat, c: nat)
    requires Ok(s, p, n) && c < |p.chains| && Pooled(p.chains[c], n)
    ensures p.alloc != [] ==> p.alloc[|p.alloc| - 1] < |s.next|
    ensures Ok(Returned(s, p, c).0, Returned(s, p, c).1, n)
  {
    hide NoDup, InUse, IsList, PoolCount, Times, InChains;
    FreeListsApart(p, n);
    ReturnedLinks(s, p, c);
    var (t, q) := Returned(s, p, c);
    UseUpdate(p.chains, c, [], n);
    NoneCount(n);
    AllCount(p.chains[c], n);
    forall y: nat ensures Places(q, y) == Places(p, y) {
      ChainsUpdate(p.chains, c, [], y);
      TimesConcat(p.alloc, p.chains[c], y);
      TimesIn([], y);
    }
  }

  lemma {:induction false} AllCount(l: seq<nat>, n: nat)
    requires Pooled(l, n)
    ensures PoolCount(l, n) == |l|
  {
    if l != [] {
      assert l[0] in l && forall i :: i in l[1..] ==> i in l;
      AllCount(l[1..], n);
    }
  }

  lemma ReturnedLinks(s: Store, p: Parts, c: nat)
    requires Linked(s, p) && c < |p.chains| && NoDup(p.alloc)
    requires forall x :: x in p.alloc ==> x !in p.pool && x !in p.free
    requires forall x, e :: 0 <= e < |p.chains| && x in p.chains[e] ==> x !in p.alloc
    ensures p.alloc != [] ==> p.alloc[|p.alloc| - 1] < |s.next|
    ensures Linked(Returned(s, p, c).0, Returned(s, p, c).1)
  {
    hide NoDup;
    var l := p.chains[c];
    if p.alloc == [] {
      assert p.alloc + l == l;
    } else {
      var x := p.alloc[|p.alloc| - 1];
      assert x in p.alloc;
      JoinLists(s.next, p.alloc, l);
      FrameList(s.next, s.pool, p.pool, x, Head(l));
      FrameList(s.next, s.free, p.free, x, Head(l));
      FrameChains(s.next, p.chains, x, Head(l));
    }
    var (t, q) := Returned(s, p, c);
    forall e | 0 <= e < |q.chains| ensures IsList(t.next, Head(q.chains[e]), q.chains[e]) {
      if e != c { assert q.chains[e] == p.chains[e]; }
    }
  }
}
