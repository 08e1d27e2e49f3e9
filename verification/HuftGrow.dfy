/** Growing the tables: choosing the size of a new table, linking it in, and the invariant this keeps. */
module HuftGrow {
  import opened Bits
  import opened HuffmanCode
  import opened HuftTables

  ghost predicate Inv(sh: Shape, vals: Values, info: seq<Info>, tables: seq<Table>,
                      u: seq<nat>, x: seq<nat>, P: nat) {
    && sh.Valid() && vals.n <= |vals.v| && P <= Pow2(sh.g)
    && InfosOk(sh, info, tables)
    && StackOk(sh, info, u, x, P)
    && Aligned(sh, info, u, P)
    && Linked(sh, info, tables, u)
    && (Fits(sh) ==> Entries(sh, vals, info, tables, P))
  }

  // ---------- A new table ----------

  /** A code too long for the topmost table starts a new table at its own position. */
  lemma NewTableFits(sh: Shape, f: Info, P: nat, k: nat)
    requires sh.Valid() && InfoOk(sh, f)
    requires f.w + sh.l < k <= sh.g && Filled(sh.c, sh.g, k - 1) <= P
    requires f.pos <= P < End(sh, f) && P % Cell(sh, f, sh.l) == 0
    ensures f.bits >= sh.l
    ensures Rev(sh.g, P) / Pow2(f.w) == Slot(sh, f, P) < Pow2(sh.l)
    ensures P + Cell(sh, f, sh.l) <= End(sh, f)
    ensures f.bits == sh.l ==> Start(sh, f, Slot(sh, f, P)) == P
  {
    hide Quot, Rev, Pow2, Filled;
    FullParent(sh, f, P, k);
    var m := f.w + sh.l;
    var d := Quot(P - f.pos, Pow2(sh.g - m));
    Pow2Add(sh.l, sh.g - m);
    CodeInTable(sh, f, m, P);
    RevBound(sh.l, d);
    RevRev(sh.l, d);
    ScaledRange(d, Pow2(sh.l), Pow2(sh.g - m));
  }

  /** Only a table of full size can be too small for a code. */
  lemma FullParent(sh: Shape, f: Info, P: nat, k: nat)
    requires sh.Valid() && InfoOk(sh, f)
    requires f.w + sh.l < k <= sh.g && Filled(sh.c, sh.g, k - 1) <= P && P < End(sh, f)
    ensures f.bits >= sh.l
  {
    if f.bits < sh.l { FilledMono(sh.c, sh.g, f.w + f.bits, k - 1); }
  }

  /** The pattern saved for a new table is the reversed code itself. */
  lemma NewPattern(sh: Shape, w: nat, P: nat)
    requires w <= sh.g && P % Pow2(sh.g - w) == 0
    ensures Rev(sh.g, P) == Rev(w, Quot(P, Pow2(sh.g - w)))
  {
    DivFacts(P, Pow2(sh.g - w));
    RevPad(w, sh.g, Quot(P, Pow2(sh.g - w)));
  }

  function WithLink(tables: seq<Table>, top: nat, slot: nat, r: Huft): (res: seq<Table>)
    requires top < |tables| && slot < |tables[top]|
    ensures |res| == |tables|
    ensures forall id :: 0 <= id < |tables| ==> |res[id]| == |tables[id]|
  {
    tables[top := tables[top][slot := r]]
  }

  /** An entry stays right when tables are added and the entry itself is left alone. */
  lemma SameEntry(sh: Shape, vals: Values, info: seq<Info>, tables: seq<Table>,
                  info': seq<Info>, tables': seq<Table>, id: nat, idx: nat)
    requires sh.Valid() && vals.n <= |vals.v| && InfosOk(sh, info, tables) && InfosOk(sh, info', tables')
    requires info <= info' && id < |info| && idx < Pow2(info[id].bits)
    requires Start(sh, info[id], idx) < Pow2(sh.g)
    requires EntryOk(sh, vals, info, tables, id, idx)
    requires tables'[id][idx] == tables[id][idx]
    ensures EntryOk(sh, vals, info', tables', id, idx)
  {
    hide InfoOk, Start, Shape.Valid, Filled, IndexAt;
    assert info'[id] == info[id];
  }

  lemma NewTableEntries(sh: Shape, vals: Values, info: seq<Info>, tables: seq<Table>, P: nat,
                        top: nat, slot: nat, r: Huft, f: Info, t: Table)
    requires sh.Valid() && vals.n <= |vals.v| && P <= Pow2(sh.g)
    requires InfosOk(sh, info, tables) && Entries(sh, vals, info, tables, P)
    requires top < |tables| && slot < |tables[top]|
    requires info[top].bits == sh.l && Start(sh, info[top], slot) == P
    requires InfoOk(sh, f) && f.pos == P && |t| >= Pow2(f.bits)
    ensures Entries(sh, vals, info + [f], WithLink(tables, top, slot, r) + [t], P)
  {
    var info', tables' := info + [f], WithLink(tables, top, slot, r) + [t];
    StartsAtOrAfter(sh, f);
    hide InfoOk, EntryOk, Start, Shape.Valid, Pow2;
    forall id, idx | 0 <= id < |info'| && 0 <= idx < Pow2(info'[id].bits) && Start(sh, info'[id], idx) < P
      ensures EntryOk(sh, vals, info', tables', id, idx)
    {
      assert id < |info|;
      assert EntryOk(sh, vals, info, tables, id, idx);
      assert tables'[id][idx] == tables[id][idx];
      SameEntry(sh, vals, info, tables, info', tables', id, idx);
    }
  }

  lemma StartsAtOrAfter(sh: Shape, f: Info)
    ensures forall idx: nat :: Start(sh, f, idx) >= f.pos
  {
    forall idx: nat ensures Start(sh, f, idx) >= f.pos {
      MulMono(0, Rev(f.bits, idx), Cell(sh, f, f.bits));
    }
  }

  lemma StackPush(sh: Shape, info: seq<Info>, u: seq<nat>, x: seq<nat>, P: nat, f: Info, i: nat)
    requires StackOk(sh, info, u, x, P)
    requires Level(sh, f, i, P)
    requires u == [] ==> info == [] && f.w == 0
    requires u != [] ==> Nested(sh, info[u[|u| - 1]], f)
    ensures StackOk(sh, info + [f], u + [|info|], x + [i], P)
  {
    var u', info' := u + [|info|], info + [f];
    forall lev | 1 <= lev < |u'| ensures u'[lev - 1] < u'[lev] && Nested(sh, info'[u'[lev - 1]], info'[u'[lev]]) {
      if lev < |u| {
        assert u[lev - 1] < u[lev] && Nested(sh, info[u[lev - 1]], info[u[lev]]);
      } else {
        assert u'[lev - 1] == u[|u| - 1] && u'[lev] == |info|;
      }
    }
    forall id | 0 <= id < |info'| && id !in u' ensures End(sh, info'[id]) <= P {
      assert id != |info| by { assert u'[|u|] == |info|; }
      assert id !in u;
    }
  }

  lemma LinkedPush(sh: Shape, info: seq<Info>, tables: seq<Table>, u: seq<nat>, f: Info, slot: nat, t: Table)
    requires u != [] && |info| == |tables|
    requires forall lev :: 0 <= lev < |u| ==> u[lev] < |info|
    requires forall lev :: 1 <= lev < |u| ==> u[lev - 1] < u[lev]
    requires Linked(sh, info, tables, u)
    requires slot < |tables[u[|u| - 1]]| && slot == Slot(sh, info[u[|u| - 1]], f.pos)
    ensures Linked(sh, info + [f],
                   WithLink(tables, u[|u| - 1], slot, Link(sh.l, f.bits, |info|)) + [t], u + [|info|])
  {
    var top := u[|u| - 1];
    var u', info', tables' := u + [|info|], info + [f],
                              WithLink(tables, top, slot, Link(sh.l, f.bits, |info|)) + [t];
    forall lev | 1 <= lev < |u'| ensures LinkedTo(sh, info', tables', u'[lev - 1], u'[lev]) {
      if lev < |u| {
        Increasing(u, lev - 1, |u| - 1);
        assert LinkedTo(sh, info, tables, u[lev - 1], u[lev]);
        assert tables'[u[lev - 1]] == tables[u[lev - 1]];
      } else {
        assert u'[lev - 1] == top && u'[lev] == |info|;
      }
    }
  }

  lemma {:induction false} Increasing(u: seq<nat>, a: nat, b: nat)
    requires a < b < |u|
    requires forall lev :: 1 <= lev < |u| ==> u[lev - 1] < u[lev]
    ensures u[a] < u[b]
    decreases b
  {
    assert u[b - 1] < u[b];
    if a < b - 1 { Increasing(u, a, b - 1); }
  }

  // ---------- The size of a new table ----------

  lemma {:induction false} CodesBetween(c: seq<nat>, g: nat, k: nat, m: nat)
    requires 1 <= k <= m <= g < |c|
    ensures Offset(c, k + 1) <= Offset(c, m + 1)
    ensures Filled(c, g, m) - Filled(c, g, k) <= (Offset(c, m + 1) - Offset(c, k + 1)) * Pow2(g - k)
    decreases m
  {
    hide Pow2;
    if k < m {
      CodesBetween(c, g, k, m - 1);
      Pow2Mono(g - m, g - k);
      MoreCodes(Offset(c, m) - Offset(c, k + 1), c[m], Pow2(g - m), Pow2(g - k));
    }
  }

  lemma MoreCodes(n: nat, a: nat, p: nat, q: nat)
    requires p <= q
    ensures n * q + a * p <= (n + a) * q
  {
    MulMono(p, q, a);
    assert (n + a) * q == n * q + a * q;
  }

  lemma {:induction false} SomeCode(c: seq<nat>, g: nat, k: nat)
    requires 1 <= k <= g < |c| && Filled(c, g, k - 1) > 0
    ensures Offset(c, k) >= 1
    decreases k
  {
    if k > 1 && c[k - 1] == 0 {
      assert c[k - 1] * Pow2(g - (k - 1)) == 0;
      SomeCode(c, g, k - 1);
    }
  }

  /** `P` is where a code of `k` bits starts that `a` codes of the same length follow. */
  ghost predicate CodeStart(sh: Shape, k: nat, a: nat, P: nat)
    requires sh.Valid()
  {
    1 <= k <= sh.g && a < sh.c[k] && P + (a + 1) * Pow2(sh.g - k) == Filled(sh.c, sh.g, k)
  }

  lemma EnoughCodes(f: nat, a: nat, m: nat, p: nat)
    requires p > 0 && f * p <= (a + 1) * p + m * p
    ensures f <= a + 1 + m
  {
    assert (a + 1) * p + m * p == (a + 1 + m) * p;
    if f > a + 1 + m { ScaledRange(a + 1 + m, f, p); }
  }

  lemma StartFacts(sh: Shape, k: nat, a: nat, P: nat)
    requires sh.Valid() && CodeStart(sh, k, a, P)
    ensures k <= sh.g < |sh.c| && Offset(sh.c, k + 1) == Offset(sh.c, k) + sh.c[k] && a < sh.c[k]
    ensures Filled(sh.c, sh.g, sh.g) == Pow2(sh.g) && P + (a + 1) * Pow2(sh.g - k) == Filled(sh.c, sh.g, k)
    ensures sh.Total() == Offset(sh.c, sh.g + 1)
  {
  }

  /** Codes of at least `k` bits fill the span of a table only if there are enough of them. */
  lemma ManyCodes(sh: Shape, k: nat, w: nat, a: nat, P: nat)
    requires sh.Valid() && w < k && CodeStart(sh, k, a, P)
    requires P + Pow2(sh.g - w) <= Pow2(sh.g)
    ensures Offset(sh.c, k) + Pow2(k - w) <= sh.Total()
  {
    hide Shape.Valid, CodeStart, Filled, Offset, Pow2;
    StartFacts(sh, k, a, P);
    var m := Offset(sh.c, sh.g + 1) - Offset(sh.c, k + 1);
    CodesBetween(sh.c, sh.g, k, sh.g);
    Pow2Add(k - w, sh.g - k);
    EnoughCodes(Pow2(k - w), a, m, Pow2(sh.g - k));
  }

  /** With the table sizes in use, a code never lies more than one table below its parent, and the table
      it needs is smaller than `l` bits unless it holds codes of the longest length only. */
  lemma ShallowCode(sh: Shape, k: nat, w: nat, a: nat, P: nat)
    requires sh.Valid() && Fits(sh) && sh.l <= w < k && CodeStart(sh, k, a, P)
    requires P + Pow2(sh.g - w) <= Pow2(sh.g)
    ensures k - w <= sh.l && (k < sh.g ==> k - w < sh.l)
  {
    if sh.g > 2 * sh.l {
      ManyCodes(sh, k, w, a, P);
      FilledMono(sh.c, sh.g, sh.l, k - 1);
      SomeCode(sh.c, sh.g, k);
      if k - w >= sh.l { Pow2Mono(sh.l, k - w); }
    }
  }

  /** `f` of the patterns below a table with `j` bits are left after all codes that fit in it. */
  ghost predicate Left(sh: Shape, w: nat, j: nat, P: nat, f: nat)
    requires sh.Valid()
  {
    w + j <= sh.g && f * Pow2(sh.g - w - j) == P + Pow2(sh.g - w) - Filled(sh.c, sh.g, w + j)
  }

  ghost predicate Covered(sh: Shape, w: nat, j: nat, P: nat)
    requires sh.Valid()
  {
    w + j <= sh.g && Filled(sh.c, sh.g, w + j) >= P + Pow2(sh.g - w)
  }

  lemma FirstStep(sh: Shape, k: nat, w: nat, a: nat, P: nat)
    requires sh.Valid() && w < k && CodeStart(sh, k, a, P)
    requires P + Pow2(sh.g - w) <= Pow2(sh.g)
    ensures Pow2(k - w) <= a + 1 ==> Covered(sh, w, k - w, P)
    ensures Pow2(k - w) > a + 1 ==> k < sh.g && Left(sh, w, k - w, P, Pow2(k - w) - (a + 1))
  {
    Pow2Add(k - w, sh.g - k);
    if k == sh.g { LongestFill(sh, w, a, P); }
    FirstDeduct(Pow2(k - w), a, Pow2(sh.g - k));
  }

  lemma LongestFill(sh: Shape, w: nat, a: nat, P: nat)
    requires sh.Valid() && w < sh.g && CodeStart(sh, sh.g, a, P)
    requires P + Pow2(sh.g - w) <= Pow2(sh.g)
    ensures Pow2(sh.g - w) <= a + 1
  {
    assert (a + 1) * Pow2(0) == a + 1;
  }

  lemma FirstDeduct(f: nat, a: nat, p: nat)
    ensures f <= a + 1 ==> f * p <= (a + 1) * p
    ensures f > a + 1 ==> (f - (a + 1)) * p == f * p - (a + 1) * p
  {
    if f <= a + 1 { MulMono(f, a + 1, p); }
  }

  lemma DoubleAndDeduct(f: nat, c: nat, p: nat, rest: int)
    requires f * (2 * p) == rest
    ensures 2 * f <= c ==> rest <= c * p
    ensures 2 * f > c ==> (2 * f - c) * p == rest - c * p
  {
    assert (2 * f) * p == f * (2 * p);
    if 2 * f <= c { MulMono(2 * f, c, p); }
    else { assert (2 * f - c) * p == (2 * f) * p - c * p; }
  }

  lemma NextStep(sh: Shape, w: nat, j: nat, P: nat, f: nat)
    requires sh.Valid() && j > 0 && w + j <= sh.g && Left(sh, w, j - 1, P, f)
    ensures 2 * f <= sh.c[w + j] ==> Covered(sh, w, j, P)
    ensures 2 * f > sh.c[w + j] ==> Left(sh, w, j, P, 2 * f - sh.c[w + j])
  {
    DoubleAndDeduct(f, sh.c[w + j], Pow2(sh.g - w - j), P + Pow2(sh.g - w) - Filled(sh.c, sh.g, w + (j - 1)));
  }

  /** The root decodes at least `l` bits: a table that covers everything has the longest length. */
  lemma RootIsWide(sh: Shape, j: nat)
    requires sh.Valid() && Covered(sh, 0, j, 0)
    ensures j >= sh.l
  {
    if j < sh.g { FilledMono(sh.c, sh.g, j, sh.g - 1); }
  }

  lemma ChooseFacts(sh: Shape, k: nat, w: nat, a: nat, P: nat)
    requires sh.Valid() && w < k && CodeStart(sh, k, a, P)
    requires P + Pow2(sh.g - w) <= Pow2(sh.g)
    requires w == 0 || sh.l <= w
    requires w == 0 ==> k <= sh.l
    ensures 1 <= k <= sh.g < |sh.c| && 1 <= sh.l <= sh.g
    ensures Covered(sh, w, sh.g - w, P)
    ensures w > 0 && Fits(sh) ==> k - w <= sh.l && (k < sh.g ==> k - w < sh.l)
    ensures Pow2(k - w) <= a + 1 ==> Covered(sh, w, k - w, P)
    ensures Pow2(k - w) > a + 1 ==> k < sh.g && Left(sh, w, k - w, P, Pow2(k - w) - (a + 1))
  {
    FirstStep(sh, k, w, a, P);
    if w > 0 && Fits(sh) { ShallowCode(sh, k, w, a, P); }
  }

  /** The smallest table that the codes from here on fill completely, or else the largest table allowed.
      At the root, and only there, the width can exceed `l`: by one bit that no lookup uses. */
  method ChooseBits(sh: Shape, k: nat, w: nat, a: nat, ghost P: nat) returns (j: nat)
    requires sh.Valid() && w < k && CodeStart(sh, k, a, P)
    requires P + Pow2(sh.g - w) <= Pow2(sh.g)
    requires w == 0 || sh.l <= w
    requires w == 0 ==> k <= sh.l && P == 0
    ensures k - w <= j && w + j <= sh.g
    ensures j >= sh.l || Covered(sh, w, j, P)
    ensures w == 0 ==> j >= sh.l
    ensures w > 0 && Fits(sh) ==> j <= sh.l
  {
    hide *;
    ChooseFacts(sh, k, w, a, P);
    var z := if sh.g - w > sh.l then sh.l else sh.g - w;
    j := k - w;
    var f: nat := Pow2(j);
    if f > a + 1 {
      f := f - (a + 1);
      j := j + 1;
      while j < z
        invariant k - w < j && w + j <= sh.g
        invariant j <= z || j == k - w + 1
        invariant Left(sh, w, j - 1, P, f)
      {
        NextStep(sh, w, j, P, f);
        f := 2 * f;
        if f <= sh.c[w + j] {
          break;
        }
        f := f - sh.c[w + j];
        j := j + 1;
      }
    }
    if w == 0 && j < sh.l { RootIsWide(sh, j); }
  }

  lemma CodeStartAbove(sh: Shape, k: nat, a: nat, P: nat)
    requires sh.Valid() && CodeStart(sh, k, a, P)
    ensures 1 <= k <= sh.g
    ensures Filled(sh.c, sh.g, k - 1) <= P < P + Pow2(sh.g - k) <= Filled(sh.c, sh.g, k) <= Pow2(sh.g)
    ensures P % Pow2(sh.g - k) == 0
    ensures var cd := Quot(P, Pow2(sh.g - k));
            P == cd * Pow2(sh.g - k) && cd + (a + 1) == NextCode(sh.c, k) + sh.c[k]
  {
    var p := Pow2(sh.g - k);
    FilledMono(sh.c, sh.g, k, sh.g);
    NextCodeFilled(sh.c, sh.g, k);
    Remaining(NextCode(sh.c, k), sh.c[k], a, p, P);
  }

  lemma Remaining(n: nat, c: nat, a: nat, p: nat, P: nat)
    requires a < c && p > 0 && P + (a + 1) * p == n * p + c * p
    ensures n * p <= P && P + p <= n * p + c * p
    ensures P % p == 0 && P == Quot(P, p) * p && Quot(P, p) + (a + 1) == n + c
  {
    var cd: nat := n + c - (a + 1);
    assert (n + c - (a + 1)) * p == n * p + c * p - (a + 1) * p;
    MulMono(n, cd, p);
    MulMono(1, a + 1, p);
    DivUnique(P, p, cd, 0);
  }

  lemma NewTableFacts(sh: Shape, top: Info, x: nat, P: nat, k: nat, f: Info)
    requires sh.Valid() && InfoOk(sh, top) && Level(sh, top, x, P) && P < End(sh, top) && P < Pow2(sh.g)
    requires top.w + sh.l < k <= sh.g && Filled(sh.c, sh.g, k - 1) <= P && P % Cell(sh, top, sh.l) == 0
    requires f.w == top.w + sh.l && f.pos == P && InfoOk(sh, f)
    ensures Rev(sh.g, P) / Pow2(top.w) == Slot(sh, top, P) < Pow2(sh.l) <= Pow2(top.bits)
    ensures Fits(sh) ==> top.bits == sh.l && Start(sh, top, Slot(sh, top, P)) == P
    ensures Level(sh, f, Rev(sh.g, P), P) && Nested(sh, top, f)
    ensures P < End(sh, f) && P % Cell(sh, f, sh.l) == 0
  {
    hide Pow2, Rev, Filled, Shape.Valid, Slot;
    NewTableFits(sh, top, P, k);
    Pow2Mono(sh.l, top.bits);
    NewPattern(sh, f.w, P);
    NewAligned(sh, f, P);
  }

  /** Pushing a table that starts at the current position keeps the invariant. */
  lemma NewTableInv(sh: Shape, vals: Values, info: seq<Info>, tables: seq<Table>, u: seq<nat>, x: seq<nat>,
                    P: nat, k: nat, f: Info, t: Table)
    requires Inv(sh, vals, info, tables, u, x, P) && Inside(sh, info, u, P) && P < Pow2(sh.g)
    requires u != []
    requires var top := info[u[|u| - 1]];
             && top.w + sh.l < k <= sh.g && Filled(sh.c, sh.g, k - 1) <= P
             && f.w == top.w + sh.l && f.pos == P
    requires InfoOk(sh, f) && |t| >= Pow2(f.bits)
    ensures var slot := Rev(sh.g, P) / Pow2(f.w - sh.l);
            && 0 <= slot < |tables[u[|u| - 1]]|
            && var tables' := WithLink(tables, u[|u| - 1], slot, Link(sh.l, f.bits, |tables|)) + [t];
               && Inv(sh, vals, info + [f], tables', u + [|tables|], x + [Rev(sh.g, P)], P)
               && Inside(sh, info + [f], u + [|tables|], P)
  {
    hide InfoOk, Level, Nested, LinkedTo, EntryOk, Entries, Start, Slot, Filled, Rev, Pow2, Cell, Shape.Valid, Fits,
         End;
    var topId := u[|u| - 1];
    assert Level(sh, info[topId], x[|u| - 1], P) && P < End(sh, info[topId]);
    NewTableFacts(sh, info[topId], x[|u| - 1], P, k, f);
    var slot := Slot(sh, info[topId], P);
    StackPush(sh, info, u, x, P, f, Rev(sh.g, P));
    LinkedPush(sh, info, tables, u, f, slot, t);
    if Fits(sh) { NewTableEntries(sh, vals, info, tables, P, topId, slot, Link(sh.l, f.bits, |tables|), f, t); }
    InfosPush(sh, info, tables, topId, slot, Link(sh.l, f.bits, |tables|), f, t);
    InsidePush(sh, info, u, P, f);
  }

  lemma InfosPush(sh: Shape, info: seq<Info>, tables: seq<Table>, top: nat, slot: nat, r: Huft, f: Info, t: Table)
    requires sh.Valid() && InfosOk(sh, info, tables) && top < |tables| && slot < |tables[top]|
    requires InfoOk(sh, f) && |t| >= Pow2(f.bits)
    ensures InfosOk(sh, info + [f], WithLink(tables, top, slot, r) + [t])
  {
    hide InfoOk, Pow2, Shape.Valid;
  }

  lemma InsidePush(sh: Shape, info: seq<Info>, u: seq<nat>, P: nat, f: Info)
    requires u != [] && Inside(sh, info, u, P) && P < Pow2(sh.g) && P < End(sh, f)
    requires forall lev :: 0 <= lev < |u| ==> u[lev] < |info|
    ensures Inside(sh, info + [f], u + [|info|], P)
  {
    hide End, Pow2;
  }

  lemma NewAligned(sh: Shape, f: Info, P: nat)
    requires sh.Valid() && InfoOk(sh, f) && f.pos == P
    ensures P % Cell(sh, f, sh.l) == 0
  {
    if f.w + sh.l <= sh.g {
      Pow2Add(sh.l, sh.g - f.w - sh.l);
      MultipleOfProduct(P, Pow2(sh.l), Cell(sh, f, sh.l));
    }
  }

  lemma RootInv(sh: Shape, vals: Values, t: Table)
    requires sh.Valid() && vals.n <= |vals.v| && |t| >= Pow2(sh.l)
    ensures Inv(sh, vals, [Info(0, 0, sh.l)], [t], [0], [Rev(sh.g, 0)], 0)
    ensures Inside(sh, [Info(0, 0, sh.l)], [0], 0)
  {
    RevZero(sh.g);
    RevZero(0);
  }
}
