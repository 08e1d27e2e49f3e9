/** The order in which shared libraries are initialised: a depth-first walk of their dependencies. */
module InitOrder {
  import opened NoDuplicates

  type Graph = seq<seq<nat>>

  /** Every dependency is an image. */
  predicate Closed(g: Graph) {
    forall u :: 0 <= u < |g| ==> AllIn(g, g[u])
  }

  predicate AllIn(g: Graph, us: seq<nat>) {
    forall k :: 0 <= k < |us| ==> us[k] < |g|
  }

  ghost predicate Hop(g: Graph, p: seq<nat>, i: nat) {
    i + 1 < |p| && p[i] < |g| && p[i + 1] in g[p[i]]
  }

  ghost predicate IsPath(g: Graph, p: seq<nat>, a: nat, b: nat) {
    p != [] && p[0] == a && p[|p| - 1] == b && forall i :: 0 <= i < |p| - 1 ==> Hop(g, p, i)
  }

  /** A chain of dependencies, perhaps empty, leads from `a` to `b`. */
  ghost predicate Reaches(g: Graph, a: nat, b: nat) {
    exists p :: IsPath(g, p, a, b)
  }

  lemma ReachesSelf(g: Graph, a: nat)
    ensures Reaches(g, a, a)
  {
    assert IsPath(g, [a], a, a);
  }

  lemma ReachesTrans(g: Graph, a: nat, b: nat, c: nat)
    requires Reaches(g, a, b) && Reaches(g, b, c)
    ensures Reaches(g, a, c)
  {
    var p :| IsPath(g, p, a, b);
    var q :| IsPath(g, q, b, c);
    var r := p + q[1..];
    forall i | 0 <= i < |r| - 1 ensures Hop(g, r, i) {
      if i < |p| - 1 {
        assert Hop(g, p, i);
      } else {
        assert Hop(g, q, i - (|p| - 1));
      }
    }
    assert IsPath(g, r, a, c);
  }

  lemma ReachesNext(g: Graph, a: nat, b: nat)
    requires a < |g| && b in g[a]
    ensures Reaches(g, a, b)
  {
    var p := [a, b];
    assert Hop(g, p, 0);
    assert IsPath(g, p, a, b);
  }

  /** A set that holds the dependencies of its members holds everything they reach. */
  ghost predicate Complete(g: Graph, s: set<nat>) {
    forall u :: u in s ==> u < |g| && forall v :: v in g[u] ==> v in s
  }

  lemma CompleteReach(g: Graph, s: set<nat>, a: nat, b: nat)
    requires a in s && Complete(g, s) && Reaches(g, a, b)
    ensures b in s
  {
    var p :| IsPath(g, p, a, b);
    PathStays(g, s, p, a, b, |p| - 1);
  }

  lemma {:induction false} PathStays(g: Graph, s: set<nat>, p: seq<nat>, a: nat, b: nat, k: nat)
    requires IsPath(g, p, a, b) && a in s && Complete(g, s) && k < |p|
    ensures p[k] in s
  {
    if k > 0 {
      PathStays(g, s, p, a, b, k - 1);
      assert Hop(g, p, k - 1);
    }
  }

  // ---------- Lists ----------

  function Elems(l: seq<nat>): set<nat> { set x | x in l }

  /** A dependency comes before its user, or reaches it. */
  ghost predicate Ordered(g: Graph, l: seq<nat>, i: nat) {
    i < |l| && l[i] < |g| && forall v :: v in g[l[i]] ==> v in l[..i] || Reaches(g, v, l[i])
  }

  /** When image `i` went on the list, all that the images listed by then need was listed too, or was being visited and so
      reaches it. */
  ghost predicate Sealed(g: Graph, l: seq<nat>, i: nat) {
    i < |l| && AllSettled(g, l[..i + 1], l[i])
  }

  ghost predicate AllSettled(g: Graph, s: seq<nat>, last: nat) {
    forall u :: u in s ==> Settled(g, s, u, last)
  }

  ghost predicate Settled(g: Graph, s: seq<nat>, u: nat, last: nat) {
    u < |g| && forall v :: v in g[u] ==> v in s || Reaches(g, v, last)
  }

  lemma SealedOrdered(g: Graph, l: seq<nat>, i: nat)
    requires Sealed(g, l, i)
    ensures Ordered(g, l, i)
  {
    hide Reaches;
    assert l[i] in l[..i + 1];
    assert Settled(g, l[..i + 1], l[i], l[i]);
    ReachesSelf(g, l[i]);
    assert l[..i + 1] == l[..i] + [l[i]];
  }

  /** What visiting does: with marks `m` and list `l` before, and after it marks `n` and the list with `more` added, all
      reached from `root`. */
  ghost predicate Visited(g: Graph, m: set<nat>, l: seq<nat>, n: set<nat>, more: seq<nat>, root: nat) {
    && NoDup(more) && Elems(more) !! m && n == m + Elems(more)
    && (forall u :: u in more ==> Listed(g, n, root, u))
    && (forall i :: |l| <= i < |l + more| ==> Sealed(g, l + more, i))
  }

  /** An image on the list: reached, and all its dependencies marked. */
  ghost predicate Listed(g: Graph, n: set<nat>, root: nat, u: nat) {
    u < |g| && Reaches(g, root, u) && forall v :: v in g[u] ==> v in n
  }

  lemma VisitNone(g: Graph, m: set<nat>, l: seq<nat>, root: nat)
    ensures Visited(g, m, l, m, [], root)
  {
  }

  /** One visit after another. */
  lemma VisitThen(g: Graph, m: set<nat>, l: seq<nat>, n: set<nat>, a: seq<nat>, root: nat, n': set<nat>, b: seq<nat>,
                  child: nat)
    requires Visited(g, m, l, n, a, root) && Visited(g, n, l + a, n', b, child) && Reaches(g, root, child)
    ensures Visited(g, m, l, n', a + b, root)
  {
    hide Reaches;
    var c := a + b;
    assert NoDup(c) by {
      forall i, j | 0 <= i < j < |c| ensures c[i] != c[j] {
        if i < |a| <= j { assert c[i] in Elems(a) && c[j] in Elems(b); }
      }
    }
    assert Elems(c) == Elems(a) + Elems(b);
    forall u | u in c ensures Listed(g, n', root, u) {
      if u in a {
        assert Listed(g, n, root, u);
      } else {
        assert Listed(g, n', child, u);
        ReachesTrans(g, root, child, u);
      }
    }
    assert l + c == l + a + b;
    forall i | |l| <= i < |l + c| ensures Sealed(g, l + c, i) {
      if i < |l + a| {
        assert Sealed(g, l + a, i);
        assert (l + c)[..i + 1] == (l + a)[..i + 1] && (l + c)[i] == (l + a)[i];
      }
    }
  }

  /** At last the image itself goes on the list. */
  lemma VisitEnd(g: Graph, m: set<nat>, l: seq<nat>, n: set<nat>, a: seq<nat>, img: nat)
    requires Visited(g, m + {img}, l, n, a, img) && img !in m && img < |g| && Elems(l) <= m && Covered(g, m, l)
    requires forall v :: v in g[img] ==> v in n
    requires forall u :: u in m && u !in l ==> Reaches(g, u, img)
    ensures Visited(g, m, l, n, a + [img], img)
  {
    hide Reaches;
    var c := a + [img];
    assert img in m + {img};
    assert img !in Elems(a);
    assert NoDup(c);
    assert Elems(c) == Elems(a) + {img};
    ReachesSelf(g, img);
    forall u | u in c ensures Listed(g, n, img, u) {
      if u in a { assert Listed(g, n, img, u); }
    }
    var all := l + c;
    assert all == l + a + [img];
    forall i | |l| <= i < |all| ensures Sealed(g, all, i) {
      if i < |l + a| {
        assert Sealed(g, l + a, i);
        assert all[..i + 1] == (l + a)[..i + 1] && all[i] == (l + a)[i];
      } else {
        assert all[..i + 1] == all;
        forall u | u in all ensures Settled(g, all, u, img) {
          MarkedDeps(g, m, l, n, a, img, u);
          forall v | v in g[u] ensures v in all || Reaches(g, v, img) {
            if v !in all { assert v in m && v !in l; }
          }
        }
      }
    }
  }

  /** Everything the images on the list need is marked. */
  ghost predicate Covered(g: Graph, m: set<nat>, l: seq<nat>) {
    forall u :: u in l ==> u < |g| && forall v :: v in g[u] ==> v in m
  }

  lemma MarkedDeps(g: Graph, m: set<nat>, l: seq<nat>, n: set<nat>, a: seq<nat>, img: nat, u: nat)
    requires Visited(g, m + {img}, l, n, a, img) && img < |g| && Covered(g, m, l) && u in l + (a + [img])
    requires forall v :: v in g[img] ==> v in n
    ensures u < |g| && forall v :: v in g[u] ==> v in n
  {
    hide Reaches, Sealed;
    if u in a { assert Listed(g, n, img, u); }
  }

  function Below(n: nat): (s: set<nat>)
    ensures |s| == n && forall i: nat :: i in s <==> i < n
  {
    if n == 0 then {} else Below(n - 1) + {n - 1}
  }

  /** The walk: from marks `m` and list `l`, the images `us` one after the other. */
  ghost function Walk(g: Graph, m: set<nat>, l: seq<nat>, us: seq<nat>): (r: (set<nat>, seq<nat>))
    requires Closed(g) && AllIn(g, us)
    ensures m <= r.0 && |r.1| + |m| == |l| + |r.0|
    decreases Below(|g|) - m, |us|
  {
    if us == [] then (m, l)
    else
      var u := us[0];
      if u in m then Walk(g, m, l, us[1..])
      else
        assert u in Below(|g|) - m;
        var r := Walk(g, m + {u}, l, g[u]);
        Walk(g, r.0, r.1 + [u], us[1..])
  }

  /** Every image marked but not listed is being visited, so it reaches those still to be visited. */
  ghost predicate Visiting(g: Graph, m: set<nat>, l: seq<nat>, us: seq<nat>) {
    Elems(l) <= m && Covered(g, m, l) && forall u, v :: u in m && u !in l && v in us ==> Reaches(g, u, v)
  }

  /** The walk lists, each once, images reached from `root` that were not marked, and leaves nothing unmarked that it was to
      visit or that they need; a dependency comes before its user unless it reaches the user. */
  lemma {:induction false} WalkOk(g: Graph, m: set<nat>, l: seq<nat>, us: seq<nat>, root: nat) returns (more: seq<nat>)
    requires Closed(g) && AllIn(g, us) && Visiting(g, m, l, us) && forall u :: u in us ==> Reaches(g, root, u)
    ensures var (n, k) := Walk(g, m, l, us); k == l + more && Visited(g, m, l, n, more, root) && Elems(us) <= n
    decreases Below(|g|) - m, |us|
  {
    hide Reaches, Visited, Visiting, Below, Closed;
    if us == [] {
      more := [];
      VisitNone(g, m, l, root);
      assert l + [] == l;
    } else {
      var u := us[0];
      assert us == [u] + us[1..];
      assert forall v :: v in us[1..] ==> v in us;
      Fewer(g, m, l, us);
      if u in m {
        more := WalkOk(g, m, l, us[1..], root);
      } else {
        assert u in Below(|g|) - m;
        Descend(g, m, l, us);
        var a := WalkOk(g, m + {u}, l, g[u], u);
        var r := Walk(g, m + {u}, l, g[u]);
        Ascend(g, m, l, r.0, a, us, root);
        var b := WalkOk(g, r.0, l + (a + [u]), us[1..], root);
        assert r.1 + [u] == l + (a + [u]);
        VisitThen(g, m, l, r.0, a + [u], root, Walk(g, m, l, us).0, b, root);
        more := a + [u] + b;
        assert l + more == l + (a + [u]) + b;
      }
    }
  }

  lemma Fewer(g: Graph, m: set<nat>, l: seq<nat>, us: seq<nat>)
    requires us != [] && Closed(g) && AllIn(g, us) && Visiting(g, m, l, us)
    ensures AllIn(g, us[1..]) && AllIn(g, g[us[0]]) && Visiting(g, m, l, us[1..])
  {
    hide Reaches;
    assert forall v :: v in us[1..] ==> v in us;
  }

  lemma Descend(g: Graph, m: set<nat>, l: seq<nat>, us: seq<nat>)
    requires us != [] && us[0] < |g| && us[0] !in m && Visiting(g, m, l, us)
    ensures Visiting(g, m + {us[0]}, l, g[us[0]]) && forall v :: v in g[us[0]] ==> Reaches(g, us[0], v)
    ensures forall u :: u in m && u !in l ==> Reaches(g, u, us[0])
  {
    hide Reaches;
    var u := us[0];
    forall v | v in g[u] ensures Reaches(g, u, v) { ReachesNext(g, u, v); }
    forall w, v | w in m + {u} && w !in l && v in g[u] ensures Reaches(g, w, v) {
      if w != u { ReachesTrans(g, w, u, v); }
    }
  }

  lemma Ascend(g: Graph, m: set<nat>, l: seq<nat>, n: set<nat>, a: seq<nat>, us: seq<nat>, root: nat)
    requires us != [] && us[0] < |g| && us[0] !in m && Visited(g, m + {us[0]}, l, n, a, us[0]) && Visiting(g, m, l, us)
    requires (forall u :: u in us ==> Reaches(g, root, u)) && Elems(g[us[0]]) <= n
    ensures Visited(g, m, l, n, a + [us[0]], root)
    ensures Visiting(g, n, l + (a + [us[0]]), us[1..]) && us[0] in n && m <= n && Reaches(g, root, root)
  {
    hide Reaches;
    var u := us[0];
    ReachesSelf(g, root);
    assert forall v :: v in g[u] ==> v in Elems(g[u]);
    VisitEnd(g, m, l, n, a, u);
    VisitNone(g, m, l, root);
    var c := a + [u];
    assert l + [] == l && [] + c == c;
    VisitThen(g, m, l, m, [], root, n, c, u);
    assert u in Elems(c);
    forall w | w in l + c ensures w < |g| && forall v :: v in g[w] ==> v in n { MarkedDeps(g, m, l, n, a, u, w); }
    forall w, v | w in n && w !in l + c && v in us[1..] ensures Reaches(g, w, v) {
      assert w in m && w !in l && v in us;
    }
  }

  // ---------- The code ----------

  class Loader {
    const needed: Graph
    var sorted: seq<bool>
    const initList: array<nat>

    /** No image is marked. */
    constructor (g: Graph)
      requires Closed(g)
      ensures needed == g && |sorted| == |g| && Marked() == {} && initList.Length == 255 && fresh(initList)
    {
      needed := g;
      sorted := seq(|g|, _ => false);
      initList := new nat[255](_ => 0);
    }

    ghost function Marked(): set<nat>
      reads this`sorted
    {
      set i: nat | i < |sorted| && sorted[i]
    }

    /** Room on the list for every image not marked. */
    ghost predicate Room(slot: nat)
      reads this`sorted
    {
      |sorted| == |needed| && slot <= initList.Length && slot + |needed| <= initList.Length + |Marked()|
    }

    method Mark(img: nat)
      requires img < |sorted| && !sorted[img]
      modifies this`sorted
      ensures |sorted| == |old(sorted)| && Marked() == old(Marked()) + {img} && |Marked()| == |old(Marked())| + 1
    {
      sorted := sorted[img := true];
      assert Marked() == old(Marked()) + {img};
    }

    lemma MarkedSize()
      ensures |Marked()| <= |sorted|
    {
      SubsetSize(Marked(), Below(|sorted|));
    }

    /** `topological_sort`. */
    method TopologicalSort(img: nat, slot: nat) returns (s: nat)
      requires Closed(needed) && img < |needed| && Room(slot) && !sorted[img]
      modifies this`sorted, initList
      ensures Room(s) && (Marked(), initList[..s]) == Walk(needed, old(Marked()), old(initList[..slot]), [img])
      decreases Below(|needed|) - Marked(), 1
    {
      ghost var m, l := Marked(), initList[..slot];
      assert img in Below(|needed|) - m;
      Mark(img);
      s := VisitAll(img, slot);
      WalkOne(needed, m, l, img);
      MarkedSize();
      ghost var k := initList[..s];
      initList[s] := img;
      s := s + 1;
      assert initList[..s] == k + [img];
    }

    /** The loop over the dependencies of an image. */
    method VisitAll(img: nat, slot: nat) returns (s: nat)
      requires Closed(needed) && img < |needed| && Room(slot)
      modifies this`sorted, initList
      ensures Room(s) && (Marked(), initList[..s]) == Walk(needed, old(Marked()), old(initList[..slot]), needed[img])
      decreases Below(|needed|) - Marked(), 2
    {
      hide Walk;
      ghost var m, l := Marked(), initList[..slot];
      s := slot;
      var i := 0;
      assert needed[img][0..] == needed[img];
      while i < |needed[img]|
        invariant 0 <= i <= |needed[img]| && Room(s) && m <= Marked()
        invariant Walk(needed, m, l, needed[img]) == Walk(needed, Marked(), initList[..s], needed[img][i..])
      {
        var c := needed[img][i];
        Within(needed, img, i);
        WalkStep(needed, Marked(), initList[..s], needed[img][i..]);
        assert needed[img][i..][1..] == needed[img][i + 1..];
        if !sorted[c] {
          s := TopologicalSort(c, s);
        }
        i := i + 1;
      }
      assert needed[img][i..] == [];
      WalkNone(needed, Marked(), initList[..s]);
    }

    /** `get_dependencies`: everything the image reaches, each image once; the image itself last, if asked for.  A
        dependency comes before its user unless it reaches the user. */
    method GetDependencies(img: nat, initHead: bool) returns (slot: nat)
      requires Closed(needed) && img < |needed| && |sorted| == |needed| <= initList.Length && Marked() == {}
      modifies this`sorted, initList
      ensures slot <= initList.Length
      ensures initList[..slot] == Walk(needed, {img}, [], needed[img]).1 + if initHead then [img] else []
      ensures NoDup(initList[..slot])
      ensures forall u :: u in initList[..slot] <==> Reaches(needed, img, u) && (u != img || initHead)
      ensures forall i :: 0 <= i < slot ==> Sealed(needed, initList[..slot], i) && Ordered(needed, initList[..slot], i)
    {
      hide Walk, Reaches;
      assert !sorted[img] by { assert img !in Marked(); }
      Mark(img);
      assert initList[..0] == [];
      slot := VisitAll(img, 0);
      DependenciesOk(needed, img);
      MarkedSize();
      if initHead {
        ghost var k := initList[..slot];
        initList[slot] := img;
        slot := slot + 1;
        assert initList[..slot] == k + [img];
      } else {
        assert initList[..slot] + [] == initList[..slot];
      }
    }
  }

  /** The first image alone, then the others. */
  lemma WalkStep(g: Graph, m: set<nat>, l: seq<nat>, us: seq<nat>)
    requires Closed(g) && AllIn(g, us) && us != []
    ensures var r := Walk(g, m, l, [us[0]]);
            Walk(g, m, l, us) == if us[0] in m then Walk(g, m, l, us[1..]) else Walk(g, r.0, r.1, us[1..])
  {
  }

  lemma WalkOne(g: Graph, m: set<nat>, l: seq<nat>, u: nat)
    requires Closed(g) && u < |g| && u !in m
    ensures var r := Walk(g, m + {u}, l, g[u]); Walk(g, m, l, [u]) == (r.0, r.1 + [u])
  {
    assert [u][1..] == [];
  }

  lemma {:induction false} SubsetSize(a: set<nat>, b: set<nat>)
    requires a <= b
    ensures |a| <= |b|
  {
    if a != {} {
      var x :| x in a;
      SubsetSize(a - {x}, b - {x});
    }
  }

  lemma WalkNone(g: Graph, m: set<nat>, l: seq<nat>)
    requires Closed(g)
    ensures Walk(g, m, l, []) == (m, l)
  {
  }

  lemma Within(g: Graph, u: nat, i: nat)
    requires Closed(g) && u < |g| && i < |g[u]|
    ensures g[u][i] < |g| && AllIn(g, g[u][i..]) && AllIn(g, [g[u][i]])
  {
    assert AllIn(g, g[u]);
  }

  /** What the walk from an image lists: everything it reaches, each image once. */
  lemma DependenciesOk(g: Graph, img: nat)
    requires Closed(g) && img < |g|
    ensures var l := Walk(g, {img}, [], g[img]).1;
            && NoDup(l) && (forall u :: u in l <==> Reaches(g, img, u) && u != img)
            && (forall i :: 0 <= i < |l| ==> Sealed(g, l, i) && Ordered(g, l, i))
            && NoDup(l + [img]) && (forall u :: u in l + [img] <==> Reaches(g, img, u))
            && (forall i :: 0 <= i < |l + [img]| ==> Sealed(g, l + [img], i) && Ordered(g, l + [img], i))
  {
    hide Reaches, Visited, Walk, Ordered, NoDup, Sealed;
    var (n, l) := Walk(g, {img}, [], g[img]);
    FromRoot(g, img);
    var more := WalkOk(g, {img}, [], g[img], img);
    assert [] + more == more;
    assert forall v :: v in g[img] ==> v in Elems(g[img]);
    AllListed(g, n, l, img);
    LastListed(g, n, l, img);
    forall i | 0 <= i < |l| ensures Ordered(g, l, i) { SealedOrdered(g, l, i); }
    forall i | 0 <= i < |l + [img]| ensures Ordered(g, l + [img], i) { SealedOrdered(g, l + [img], i); }
  }

  lemma FromRoot(g: Graph, img: nat)
    requires img < |g|
    ensures Visiting(g, {img}, [], g[img]) && Reaches(g, img, img) && forall v :: v in g[img] ==> Reaches(g, img, v)
  {
    hide Reaches;
    ReachesSelf(g, img);
    forall v | v in g[img] ensures Reaches(g, img, v) { ReachesNext(g, img, v); }
  }

  lemma LastListed(g: Graph, n: set<nat>, l: seq<nat>, img: nat)
    requires Visited(g, {img}, [], n, l, img) && img < |g| && forall v :: v in g[img] ==> v in n
    ensures NoDup(l + [img]) && (forall u :: u in l + [img] <==> u in l || u == img)
    ensures forall i :: 0 <= i < |l + [img]| ==> Sealed(g, l + [img], i)
  {
    hide Reaches, Sealed;
    assert {} + {img} == {img};
    VisitEnd(g, {}, [], n, l, img);
    assert [] + (l + [img]) == l + [img];
  }

  /** At the end the list and the image are all that the image reaches. */
  lemma AllListed(g: Graph, n: set<nat>, a: seq<nat>, img: nat)
    requires Visited(g, {img}, [], n, a, img) && img < |g| && forall v :: v in g[img] ==> v in n
    ensures NoDup(a) && (forall u :: u in a <==> Reaches(g, img, u) && u != img)
    ensures forall i :: 0 <= i < |a| ==> Sealed(g, a, i)
  {
    hide Reaches, Sealed;
    assert [] + a == a;
    forall u | u in n ensures u < |g| && forall v :: v in g[u] ==> v in n {
      if u != img { assert Listed(g, n, img, u); }
    }
    assert Complete(g, n);
    assert img !in Elems(a);
    forall u ensures u in a <==> Reaches(g, img, u) && u != img {
      if u in a { assert Listed(g, n, img, u); }
      if Reaches(g, img, u) { CompleteReach(g, n, img, u); }
    }
  }

  // ---------- Indirect dependencies ----------

  lemma {:induction false} PathSealed(g: Graph, l: seq<nat>, i: nat, p: seq<nat>, b: nat, k: nat)
    requires Sealed(g, l, i) && IsPath(g, p, l[i], b) && k < |p|
    requires forall w :: Reaches(g, l[i], w) && Reaches(g, w, l[i]) ==> w in l[..i + 1]
    ensures p[k] in l[..i + 1] && Reaches(g, l[i], p[k])
  {
    hide Reaches;
    ReachesSelf(g, l[i]);
    if k > 0 {
      PathSealed(g, l, i, p, b, k - 1);
      assert Hop(g, p, k - 1);
      assert Settled(g, l[..i + 1], p[k - 1], l[i]);
      ReachesNext(g, p[k - 1], p[k]);
      ReachesTrans(g, l[i], p[k - 1], p[k]);
    }
  }

  /** An image comes after everything it reaches exactly when it comes after everything it is on a cycle with. */
  lemma AfterReached(g: Graph, l: seq<nat>, i: nat)
    requires Sealed(g, l, i)
    ensures (forall v :: Reaches(g, l[i], v) ==> v in l[..i + 1]) <==>
            (forall w :: Reaches(g, l[i], w) && Reaches(g, w, l[i]) ==> w in l[..i + 1])
  {
    if forall w :: Reaches(g, l[i], w) && Reaches(g, w, l[i]) ==> w in l[..i + 1] {
      forall v | Reaches(g, l[i], v) ensures v in l[..i + 1] {
        var p :| IsPath(g, p, l[i], v);
        PathSealed(g, l, i, p, v, |p| - 1);
      }
    }
  }

  /** On a cycle with no other image. */
  ghost predicate Alone(g: Graph, u: nat) {
    forall w :: Reaches(g, u, w) && Reaches(g, w, u) ==> w == u
  }

  /** An image on no cycle comes after everything it reaches. */
  lemma AloneAfterAll(g: Graph, img: nat, i: nat)
    requires Closed(g) && img < |g| && i < |Walk(g, {img}, [], g[img]).1 + [img]|
    ensures var l := Walk(g, {img}, [], g[img]).1 + [img];
            Alone(g, l[i]) ==> forall v :: Reaches(g, l[i], v) ==> v == l[i] || v in l[..i]
  {
    hide Reaches, Walk;
    DependenciesOk(g, img);
    var l := Walk(g, {img}, [], g[img]).1 + [img];
    assert Sealed(g, l, i);
    assert l[..i + 1] == l[..i] + [l[i]];
    AfterReached(g, l, i);
  }

  lemma NotBothFirst(l: seq<nat>, i: nat, j: nat)
    requires NoDup(l) && i < |l| && j < |l|
    ensures !(l[j] in l[..i] && l[i] in l[..j])
  {
  }

  /** Every image comes after everything it reaches exactly when no two of them reach each other. */
  lemma AllAfterAll(g: Graph, img: nat)
    requires Closed(g) && img < |g|
    ensures var l := Walk(g, {img}, [], g[img]).1 + [img];
            (forall i, v :: 0 <= i < |l| && Reaches(g, l[i], v) ==> v == l[i] || v in l[..i]) <==>
            (forall u :: Reaches(g, img, u) ==> Alone(g, u))
  {
    hide Reaches, Walk, Sealed, Ordered;
    DependenciesOk(g, img);
    var l := Walk(g, {img}, [], g[img]).1 + [img];
    if forall u :: Reaches(g, img, u) ==> Alone(g, u) {
      forall i, v | 0 <= i < |l| && Reaches(g, l[i], v) ensures v == l[i] || v in l[..i] {
        assert l[i] in l;
        AloneAfterAll(g, img, i);
      }
    }
    if forall i, v :: 0 <= i < |l| && Reaches(g, l[i], v) ==> v == l[i] || v in l[..i] {
      forall u, w | Reaches(g, img, u) && Reaches(g, u, w) && Reaches(g, w, u) ensures w == u {
        ReachesTrans(g, img, u, w);
        var i :| 0 <= i < |l| && l[i] == u;
        var j :| 0 <= j < |l| && l[j] == w;
        assert u == w || (w in l[..i] && u in l[..j]);
        NotBothFirst(l, i, j);
      }
    }
  }

  /** Indirect dependencies may come later: 0 needs 1 and 2, and 1 needs 0.  From 0 the walk lists 1 before 2, although 1
      reaches 2 and 2 does not reach 1. */
  lemma IndirectLater()
    ensures var g: Graph := [[1, 2], [0], []];
            && Closed(g) && Walk(g, {0}, [], g[0]).1 == [1, 2] && Reaches(g, 1, 2) && !Reaches(g, 2, 1)
  {
    hide Reaches;
    var g: Graph := [[1, 2], [0], []];
    ReachesNext(g, 1, 0);
    ReachesNext(g, 0, 2);
    ReachesTrans(g, 1, 0, 2);
    if Reaches(g, 2, 1) { CompleteReach(g, {2}, 2, 1); }
    SmallWalk();
  }

  lemma SmallWalk()
    ensures var g: Graph := [[1, 2], [0], []]; Closed(g) && Walk(g, {0}, [], g[0]).1 == [1, 2]
  {
    var g: Graph := [[1, 2], [0], []];
    WalkStep(g, {0}, [], [1, 2]);
    WalkOne(g, {0}, [], 1);
    WalkStep(g, {0, 1}, [], [0]);
    WalkNone(g, {0, 1}, []);
    assert [0][1..] == [] && [1, 2][1..] == [2];
    WalkOne(g, {0, 1}, [1], 2);
    WalkNone(g, {0, 1, 2}, [1]);
    assert {0} + {1} == {0, 1} && {0, 1} + {2} == {0, 1, 2};
  }
}
