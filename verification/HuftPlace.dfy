/** Placing one code in the topmost table, stepping the reversed code, and backing up. */
module HuftPlace {
  import opened Bits
  import opened HuffmanCode
  import opened HuftTables
  import opened HuftGrow

  // ---------- Writing every `step`-th entry ----------

  lemma NextOccurrence(j: nat, idx: nat, step: nat)
    requires step > 0 && j <= idx < j + step && idx % step == j % step
    ensures idx == j
  {
    DivFacts(j, step);
    DivFacts(idx, step);
    var a, b := j / step, idx / step;
    assert (b - a) * step == b * step - a * step;
    if b > a { MulMono(1, b - a, step); }
    if b < a { MulMono(b - a, -1, step); }
  }

  lemma StepKeepsResidue(j: nat, step: nat)
    requires step > 0
    ensures (j + step) % step == j % step
  {
    DivFacts(j, step);
    assert (j / step + 1) * step == (j / step) * step + step;
    DivUnique(j + step, step, j / step + 1, j % step);
  }

  method FillEntries(t: Table, first: nat, step: nat, r: Huft) returns (t': Table)
    requires first < step
    ensures |t'| == |t|
    ensures forall idx :: 0 <= idx < |t| ==> t'[idx] == if idx % step == first then r else t[idx]
  {
    t' := t;
    var j := first;
    DivUnique(first, step, 0, first);
    while j < |t|
      invariant |t'| == |t|
      invariant j % step == first
      invariant forall idx :: 0 <= idx < |t| && idx < j ==> t'[idx] == if idx % step == first then r else t[idx]
      invariant forall idx :: j <= idx < |t| ==> t'[idx] == t[idx]
      decreases |t| + step - j
    {
      t' := t'[j := r];
      forall idx | j < idx < |t| && idx < j + step ensures idx % step != first {
        if idx % step == first { NextOccurrence(j, idx, step); }
      }
      StepKeepsResidue(j, step);
      j := j + step;
    }
  }

  // ---------- The invariant after a code has been placed ----------

  /** The entry of an outer table that starts inside the current code is the link to the table above. */
  lemma OuterEntry(sh: Shape, f: Info, child: Info, P: nat, P': nat, idx: nat)
    requires sh.Valid() && InfoOk(sh, f) && InfoOk(sh, child) && Nested(sh, f, child) && f.bits == sh.l
    requires child.pos <= P < P' <= End(sh, child) && idx < Pow2(f.bits)
    requires P <= Start(sh, f, idx) < P'
    ensures idx == Slot(sh, f, child.pos) && Start(sh, f, idx) == child.pos == P
  {
    hide Shape.Valid, Filled, Rev, Pow2;
    var cell := Cell(sh, f, sh.l);
    assert cell == Span(sh, child);
    assert f.pos % cell == 0 by {
      Pow2Add(sh.l, sh.g - f.w - sh.l);
      MultipleOfProduct(f.pos, Pow2(sh.l), cell);
    }
    Distance(f.pos, child.pos, cell);
    var d := Quot(child.pos - f.pos, cell);
    SameCell(Rev(sh.l, idx), d, 0, cell);
    RevRev(sh.l, idx);
  }

  lemma {:induction false} OuterEnd(sh: Shape, info: seq<Info>, u: seq<nat>, lev: nat)
    requires lev < |u| && forall i :: 0 <= i < |u| ==> u[i] < |info|
    requires forall i :: 1 <= i < |u| ==> Nested(sh, info[u[i - 1]], info[u[i]])
    ensures End(sh, info[u[|u| - 1]]) <= End(sh, info[u[lev]])
    ensures info[u[lev]].pos <= info[u[|u| - 1]].pos
    ensures info[u[lev]].w <= info[u[|u| - 1]].w
    decreases |u| - lev
  {
    if lev + 1 < |u| {
      assert Nested(sh, info[u[lev]], info[u[lev + 1]]) by {
        var i := lev + 1;
        assert Nested(sh, info[u[i - 1]], info[u[i]]);
      }
      OuterEnd(sh, info, u, lev + 1);
    }
  }

  /** A code that starts inside a table, and is longer than its prefix, ends inside it. */
  lemma CodeEndsInside(sh: Shape, f: Info, k: nat, P: nat)
    requires sh.Valid() && InfoOk(sh, f) && f.w < k <= sh.g
    requires f.pos <= P < End(sh, f) && P % Pow2(sh.g - k) == 0
    ensures P + Pow2(sh.g - k) <= End(sh, f)
  {
    var d := Quot(P - f.pos, Pow2(sh.g - k));
    Pow2Add(k - f.w, sh.g - k);
    CodeInTable(sh, f, k, P);
    ScaledRange(d, Pow2(k - f.w), Pow2(sh.g - k));
  }

  lemma StackAfterPlace(sh: Shape, info: seq<Info>, u: seq<nat>, x: seq<nat>, P: nat, P': nat)
    requires StackOk(sh, info, u, x, P) && u != []
    requires P <= P' <= End(sh, info[u[|u| - 1]])
    ensures StackOk(sh, info, u, x, P')
  {
    forall lev | 0 <= lev < |u| ensures Level(sh, info[u[lev]], x[lev], P') {
      assert Level(sh, info[u[lev]], x[lev], P);
      OuterEnd(sh, info, u, lev);
    }
  }

  /** The code at `P` fits in the topmost table. */
  lemma CodeFits(sh: Shape, f: Info, k: nat, a: nat, P: nat)
    requires sh.Valid() && InfoOk(sh, f) && CodeStart(sh, k, a, P)
    requires f.w < k <= f.w + sh.l && f.pos <= P < End(sh, f)
    ensures k <= f.w + f.bits
  {
    CodeStartAbove(sh, k, a, P);
    if f.w + f.bits < k { FilledMono(sh.c, sh.g, f.w + f.bits, k - 1); }
  }

  ghost predicate FilledWith(t: Table, t': Table, first: nat, step: nat, r: Huft)
    requires step > 0
  {
    |t'| == |t| && forall idx :: 0 <= idx < |t| ==> t'[idx] == if idx % step == first then r else t[idx]
  }

  /** All positions of the code at `P` have its length and index. */
  lemma CodePositions(sh: Shape, k: nat, a: nat, P: nat, pos: nat)
    requires sh.Valid() && CodeStart(sh, k, a, P)
    requires P <= pos < P + Pow2(sh.g - k)
    ensures pos < Pow2(sh.g) && LenAt(sh, pos) == k
    ensures IndexAt(sh, pos) == Offset(sh.c, k) + sh.c[k] - (a + 1)
  {
    var cd := Quot(P, Pow2(sh.g - k));
    CodeStartAbove(sh, k, a, P);
    assert (cd + 1) * Pow2(sh.g - k) == cd * Pow2(sh.g - k) + Pow2(sh.g - k);
    OneCode(sh, k, cd, pos);
  }

  lemma TopEntry(sh: Shape, vals: Values, info: seq<Info>, tables: seq<Table>, tables': seq<Table>,
                 q: nat, k: nat, a: nat, P: nat, idx: nat)
    requires sh.Valid() && vals.n <= |vals.v| && InfosOk(sh, info, tables) && InfosOk(sh, info, tables')
    requires q < |info| && CodeStart(sh, k, a, P)
    requires info[q].w < k <= info[q].w + info[q].bits && info[q].pos <= P < End(sh, info[q])
    requires FilledWith(tables[q], tables'[q], Quot(Rev(sh.g, P), Pow2(info[q].w)), Pow2(k - info[q].w),
                        vals.Entry(Offset(sh.c, k) + sh.c[k] - (a + 1), k - info[q].w))
    requires idx < Pow2(info[q].bits)
    requires Start(sh, info[q], idx) < P + Pow2(sh.g - k)
    ensures Start(sh, info[q], idx) < P ==> tables'[q][idx] == tables[q][idx]
    ensures Start(sh, info[q], idx) < Pow2(sh.g)
    ensures Start(sh, info[q], idx) >= P ==> EntryOk(sh, vals, info, tables', q, idx)
  {
    hide Rev, Pow2, Start, Filled, Offset, Quot, Cell, Shape.Valid, CodeStart, LenAt, IndexAt;
    CodeStartAbove(sh, k, a, P);
    FilledSlots(sh, info[q], k, P, idx);
    QuotFacts(Rev(sh.g, P), Pow2(info[q].w));
    if Start(sh, info[q], idx) >= P {
      CodePositions(sh, k, a, P, Start(sh, info[q], idx));
    }
  }

  lemma OuterLinkEntry(sh: Shape, vals: Values, info: seq<Info>, tables: seq<Table>, u: seq<nat>, lev: nat,
                       k: nat, a: nat, P: nat, idx: nat)
    requires sh.Valid() && Fits(sh) && vals.n <= |vals.v| && InfosOk(sh, info, tables)
    requires 0 <= lev < |u| - 1 && u[lev] < u[lev + 1] < |info|
    requires Nested(sh, info[u[lev]], info[u[lev + 1]])
    requires LinkedTo(sh, info, tables, u[lev], u[lev + 1])
    requires CodeStart(sh, k, a, P) && info[u[lev + 1]].w < k
    requires info[u[lev + 1]].pos <= P && P + Pow2(sh.g - k) <= End(sh, info[u[lev + 1]])
    requires idx < Pow2(info[u[lev]].bits)
    requires P <= Start(sh, info[u[lev]], idx) < P + Pow2(sh.g - k)
    ensures Start(sh, info[u[lev]], idx) < Pow2(sh.g)
    ensures EntryOk(sh, vals, info, tables, u[lev], idx)
  {
    var f, child := info[u[lev]], info[u[lev + 1]];
    assert InfoOk(sh, f) && InfoOk(sh, child);
    OuterEntry(sh, f, child, P, P + Pow2(sh.g - k), idx);
    CodePositions(sh, k, a, P, P);
  }

  /** What the caller knows when it places a code: the invariant, and that the code fits in the topmost
      table, `t`, which is filled with its entry. */
  ghost predicate Placing(sh: Shape, vals: Values, info: seq<Info>, tables: seq<Table>, u: seq<nat>, x: seq<nat>,
                          k: nat, a: nat, P: nat, t: Table) {
    && Inv(sh, vals, info, tables, u, x, P) && Inside(sh, info, u, P) && P < Pow2(sh.g)
    && u != [] && CodeStart(sh, k, a, P)
    && var f := info[u[|u| - 1]];
       && f.w < k <= f.w + f.bits
       && FilledWith(tables[u[|u| - 1]], t, Quot(Rev(sh.g, P), Pow2(f.w)), Pow2(k - f.w),
                     vals.Entry(Offset(sh.c, k) + sh.c[k] - (a + 1), k - f.w))
  }

  lemma PlacingFacts(sh: Shape, vals: Values, info: seq<Info>, tables: seq<Table>, u: seq<nat>, x: seq<nat>,
                     k: nat, a: nat, P: nat, t: Table)
    requires Placing(sh, vals, info, tables, u, x, k, a, P, t)
    ensures 1 <= k <= sh.g && P + Pow2(sh.g - k) <= Pow2(sh.g)
    ensures info[u[|u| - 1]].pos <= P && P + Pow2(sh.g - k) <= End(sh, info[u[|u| - 1]])
    ensures InfosOk(sh, info, tables[u[|u| - 1] := t])
  {
    hide InfoOk, LinkedTo, Entries, Filled, Rev, Shape.Valid;
    var n := |u| - 1;
    assert Level(sh, info[u[n]], x[n], P) && P < End(sh, info[u[n]]);
    CodeStartAbove(sh, k, a, P);
    CodeEndsInside(sh, info[u[n]], k, P);
  }

  lemma PlacedEntry(sh: Shape, vals: Values, info: seq<Info>, tables: seq<Table>, u: seq<nat>, x: seq<nat>,
                    k: nat, a: nat, P: nat, t: Table, id: nat, idx: nat)
    requires Placing(sh, vals, info, tables, u, x, k, a, P, t) && Fits(sh)
    requires id < |info| && idx < Pow2(info[id].bits) && 1 <= k <= sh.g
    requires P <= Start(sh, info[id], idx) < P + Pow2(sh.g - k)
    requires InfosOk(sh, info, tables[u[|u| - 1] := t])
    ensures Start(sh, info[id], idx) < Pow2(sh.g)
    ensures EntryOk(sh, vals, info, tables[u[|u| - 1] := t], id, idx)
  {
    hide InfoOk, Level, Nested, LinkedTo, EntryOk, Entries, Start, Filled, Rev, Pow2, Cell, Shape.Valid, Fits,
         CodeStart, Offset, FilledWith;
    var q := u[|u| - 1];
    PlacingFacts(sh, vals, info, tables, u, x, k, a, P, t);
    CodeStartAbove(sh, k, a, P);
    if id == q {
      TopEntry(sh, vals, info, tables, tables[q := t], q, k, a, P, idx);
    } else {
      StartEnd(sh, info[id], idx);
      assert id in u;
      var lev :| 0 <= lev < |u| && u[lev] == id;
      var m := lev + 1;
      assert m < |u|;
      assert u[m - 1] < u[m] && Nested(sh, info[u[m - 1]], info[u[m]]);
      assert LinkedTo(sh, info, tables, u[m - 1], u[m]);
      OuterEnd(sh, info, u, m);
      OuterLinkEntry(sh, vals, info, tables, u, lev, k, a, P, idx);
      SameEntry(sh, vals, info, tables, info, tables[q := t], id, idx);
    }
  }

  /** Placing the code at `P` makes the entries up to the end of the code final. */
  lemma EntriesAfterPlace(sh: Shape, vals: Values, info: seq<Info>, tables: seq<Table>, u: seq<nat>, x: seq<nat>,
                          k: nat, a: nat, P: nat, t: Table)
    requires Placing(sh, vals, info, tables, u, x, k, a, P, t) && Fits(sh) && 1 <= k <= sh.g
    requires P + Pow2(sh.g - k) <= Pow2(sh.g)
    requires InfosOk(sh, info, tables[u[|u| - 1] := t])
    ensures Entries(sh, vals, info, tables[u[|u| - 1] := t], P + Pow2(sh.g - k))
  {
    hide InfoOk, Level, Nested, LinkedTo, EntryOk, Start, Filled, Rev, Pow2, Cell, Shape.Valid, Fits, CodeStart,
         Offset, Linked, Aligned, Inside, FilledWith;
    var q := u[|u| - 1];
    PlacingFacts(sh, vals, info, tables, u, x, k, a, P, t);
    forall id, idx | 0 <= id < |info| && 0 <= idx < Pow2(info[id].bits) && Start(sh, info[id], idx) < P + Pow2(sh.g - k)
      ensures EntryOk(sh, vals, info, tables[q := t], id, idx)
    {
      if Start(sh, info[id], idx) < P {
        if id == q { TopEntry(sh, vals, info, tables, tables[q := t], q, k, a, P, idx); }
        SameEntry(sh, vals, info, tables, info, tables[q := t], id, idx);
      } else {
        PlacedEntry(sh, vals, info, tables, u, x, k, a, P, t, id, idx);
      }
    }
  }

  lemma StartEnd(sh: Shape, f: Info, idx: nat)
    requires sh.Valid() && InfoOk(sh, f) && idx < Pow2(f.bits)
    ensures Start(sh, f, idx) < End(sh, f)
  {
    StartRange(sh, f, idx);
  }

  // ---------- Stepping the reversed code ----------

  lemma HighBit(m: nat, v: nat)
    requires m > 0
    ensures Rev(m, v) / Pow2(m - 1) == v % 2
    ensures Rev(m, v) == (v % 2) * Pow2(m - 1) + Rev(m - 1, v / 2)
  {
    RevBound(m - 1, v / 2);
    DivUnique(Rev(m, v), Pow2(m - 1), v % 2, Rev(m - 1, v / 2));
  }

  /** Clearing the high ones of a reversed code and setting the bit below them adds one to the code. */
  method BackwardIncrement(i: nat, k: nat, ghost cd: nat) returns (r: nat)
    requires k > 0 && i == Rev(k, cd) && cd < Pow2(k)
    ensures r == Rev(k, if cd + 1 == Pow2(k) then 0 else cd + 1)
  {
    r := i;
    var j := Pow2(k - 1);
    ghost var m: nat, hi: nat := k, cd;
    NoCarryYet(k, cd);
    while j > 0 && (r / j) % 2 == 1
      invariant Stepping(k, cd, m, hi, r, j)
      decreases m
    {
      ClearBit(k, cd, m, hi, r, j);
      r := r - j;
      j := j / 2;
      m, hi := m - 1, hi / 2;
    }
    LastBit(k, cd, m, hi, r, j);
    if j > 0 {
      r := r + j;
    }
  }

  /** The low `k - m` bits of the code are ones and have been cleared; `hi` is the rest of the code. */
  ghost predicate Stepping(k: nat, cd: nat, m: nat, hi: nat, r: nat, j: nat) {
    && m <= k && j == (if m == 0 then 0 else Pow2(m - 1))
    && r == Rev(m, hi) && hi < Pow2(m)
    && cd + 1 == (hi + 1) * Pow2(k - m)
  }

  lemma NoCarryYet(k: nat, cd: nat)
    requires k > 0 && cd < Pow2(k)
    ensures Stepping(k, cd, k, cd, Rev(k, cd), Pow2(k - 1))
  {
    assert (cd + 1) * Pow2(0) == cd + 1;
  }

  lemma ClearBit(k: nat, cd: nat, m: nat, hi: nat, r: nat, j: nat)
    requires Stepping(k, cd, m, hi, r, j) && j > 0 && (r / j) % 2 == 1
    ensures m > 0 && r >= j && Stepping(k, cd, m - 1, hi / 2, r - j, j / 2)
  {
    HighBit(m, hi);
    Carry(hi, Pow2(k - m), cd);
  }

  lemma LastBit(k: nat, cd: nat, m: nat, hi: nat, r: nat, j: nat)
    requires Stepping(k, cd, m, hi, r, j) && !(j > 0 && (r / j) % 2 == 1) && cd < Pow2(k)
    ensures j > 0 ==> r + j == Rev(k, cd + 1) && cd + 1 < Pow2(k)
    ensures j == 0 ==> r == Rev(k, 0) && cd + 1 == Pow2(k)
  {
    if j > 0 {
      HighBit(m, hi);
      assert hi % 2 == 0;
      HighBit(m, hi + 1);
      assert (hi + 1) % 2 == 1 && (hi + 1) / 2 == hi / 2;
      hide Rev, Pow2;
      FinishIncrement(k, m, hi, cd);
    } else {
      RevZero(k);
    }
  }

  lemma Carry(hi: nat, p: nat, cd: nat)
    requires hi % 2 == 1 && cd + 1 == (hi + 1) * p
    ensures cd + 1 == (hi / 2 + 1) * (2 * p)
  {
    assert hi + 1 == (hi / 2 + 1) * 2;
    assert ((hi / 2 + 1) * 2) * p == (hi / 2 + 1) * (2 * p);
  }

  lemma FinishIncrement(k: nat, m: nat, hi: nat, cd: nat)
    requires 0 < m <= k && hi % 2 == 0 && hi < Pow2(m) && cd + 1 == (hi + 1) * Pow2(k - m)
    ensures Rev(m, hi + 1) == Rev(k, cd + 1) && cd + 1 < Pow2(k)
  {
    RevPad(m, k, hi + 1);
    assert hi + 1 < Pow2(m);
    Pow2Add(m, k - m);
    ScaledRange(hi + 1, Pow2(m), Pow2(k - m));
  }

  // ---------- Backing up over finished tables ----------

  /** The saved pattern tells whether `P` is still inside the table. */
  lemma PatternDecides(sh: Shape, f: Info, P: nat)
    requires sh.Valid() && InfoOk(sh, f) && f.pos <= P <= End(sh, f)
    ensures Rev(sh.g, P) % Pow2(f.w) == Rev(f.w, Quot(f.pos, Span(sh, f))) <==> f.w == 0 || P < End(sh, f)
  {
    if f.w == 0 {
      assert Rev(sh.g, P) % 1 == 0;
    } else if P < End(sh, f) {
      assert P % Pow2(sh.g - sh.g) == 0;
      CodeInTable(sh, f, sh.g, P);
    } else {
      PatternDiffers(sh, f);
    }
  }

  lemma PatternDiffers(sh: Shape, f: Info)
    requires sh.Valid() && InfoOk(sh, f) && f.w > 0
    ensures Rev(sh.g, End(sh, f)) % Pow2(f.w) != Rev(f.w, Quot(f.pos, Span(sh, f)))
  {
    assert Pow2(f.w) >= 2 && f.w <= sh.g;
    hide Rev, Pow2, Quot, Filled, Shape.Valid;
    var span, P := Pow2(sh.g - f.w), End(sh, f);
    var q := Quot(f.pos, span);
    assert Pow2(sh.g) == Pow2(f.w) * span by { Pow2Add(f.w, sh.g - f.w); }
    PrefixBound(f.pos, span, Pow2(f.w));
    if P < Pow2(sh.g) {
      NextPrefix(f.pos, span);
      NextPattern(sh.g, f.w, P, q);
    } else {
      LastPattern(sh.g, f.w, q);
    }
  }

  lemma NextPrefix(pos: nat, span: nat)
    requires span > 0 && pos % span == 0
    ensures Quot(pos + span, span) == Quot(pos, span) + 1
  {
    NextMultiple(pos, span);
    QuotFacts(pos, span);
    QuotFacts(pos + span, span);
  }

  lemma NextPattern(g: nat, w: nat, P: nat, q: nat)
    requires w <= g && P < Pow2(g) && Quot(P, Pow2(g - w)) == q + 1 < Pow2(w)
    ensures Rev(g, P) % Pow2(w) != Rev(w, q)
  {
    hide *;
    RevLow(w, g - w, P);
    RevRev(w, q);
    RevRev(w, q + 1);
  }

  lemma LastPattern(g: nat, w: nat, q: nat)
    requires 0 < q < Pow2(w)
    ensures Rev(g, Pow2(g)) % Pow2(w) != Rev(w, q)
  {
    hide *;
    RevTop(g);
    RevZero(w);
    RevRev(w, q);
    DivUnique(0, Pow2(w), 0, 0);
  }

  lemma PrefixBound(pos: nat, span: nat, n: nat)
    requires span > 0 && pos % span == 0 && pos + span <= n * span
    ensures Quot(pos, span) + 1 <= n
    ensures pos + span < n * span ==> Quot(pos, span) + 1 < n
    ensures n > 1 && pos + span == n * span ==> Quot(pos, span) > 0
  {
    var q := Quot(pos, span);
    QuotFacts(pos, span);
    assert (q + 1) * span == q * span + span;
    assert (n + 1) * span == n * span + span;
    if q + 1 > n { MulMono(n + 1, q + 1, span); }
    if q == 0 && n > 1 { MulMono(2, n, span); }
  }

  lemma RevTop(g: nat)
    ensures Rev(g, Pow2(g)) == 0
  {
    RevConcat(0, g, 1, 0);
    RevZero(g);
  }

  lemma PopFacts(sh: Shape, info: seq<Info>, u: seq<nat>, x: seq<nat>, P: nat)
    requires sh.Valid() && (forall id :: 0 <= id < |info| ==> InfoOk(sh, info[id]))
    requires StackOk(sh, info, u, x, P) && u != [] && info[u[|u| - 1]].w > 0
    requires P == End(sh, info[u[|u| - 1]])
    ensures |u| > 1 && info[u[|u| - 2]].w == info[u[|u| - 1]].w - sh.l
    ensures StackOk(sh, info, u[..|u| - 1], x[..|u| - 1], P)
    ensures Aligned(sh, info, u[..|u| - 1], P)
  {
    var n := |u| - 1;
    assert n > 0;
    var top, f := info[u[n]], info[u[n - 1]];
    assert Nested(sh, f, top);
    NextMultiple(top.pos, Span(sh, top));
    assert Cell(sh, f, sh.l) == Span(sh, top);
    StackPop(sh, info, u, x, P);
  }

  lemma StackPop(sh: Shape, info: seq<Info>, u: seq<nat>, x: seq<nat>, P: nat)
    requires StackOk(sh, info, u, x, P) && |u| > 1 && P == End(sh, info[u[|u| - 1]])
    ensures StackOk(sh, info, u[..|u| - 1], x[..|u| - 1], P)
  {
    hide Level, Nested, End;
    var u' := u[..|u| - 1];
    assert u == u' + [u[|u| - 1]];
    forall lev | 1 <= lev < |u'| ensures u'[lev - 1] < u'[lev] && Nested(sh, info[u'[lev - 1]], info[u'[lev]]) {
      assert u[lev - 1] < u[lev] && Nested(sh, info[u[lev - 1]], info[u[lev]]);
    }
  }

  /** Pops the tables that end at `P`. */
  method Backup(sh: Shape, ghost info: seq<Info>, u: seq<nat>, x: seq<nat>, i: nat, w: nat, ghost P: nat)
    returns (u': seq<nat>, x': seq<nat>, w': nat)
    requires sh.Valid() && (forall id :: 0 <= id < |info| ==> InfoOk(sh, info[id]))
    requires StackOk(sh, info, u, x, P) && u != [] && Aligned(sh, info, u, P)
    requires w == info[u[|u| - 1]].w && i == Rev(sh.g, P) && P <= Pow2(sh.g)
    ensures u' != [] && u' <= u && StackOk(sh, info, u', x', P) && Aligned(sh, info, u', P)
    ensures w' == info[u'[|u'| - 1]].w && Inside(sh, info, u', P)
    ensures (w' == w && u' == u) || w' + sh.l <= w
  {
    TopTable(sh, info, u, x, P);
    hide InfoOk, StackOk, Rev, Pow2, Shape.Valid, Aligned, Inside;
    u', x', w' := u, x, w;
    while i % Pow2(w') != x'[|u'| - 1]
      invariant u' != [] && u' <= u && |x'| == |u'| && u'[|u'| - 1] < |info|
      invariant StackOk(sh, info, u', x', P) && Aligned(sh, info, u', P)
      invariant w' == info[u'[|u'| - 1]].w
      invariant (w' == w && u' == u) || w' + sh.l <= w
      decreases |u'|
    {
      TopTable(sh, info, u', x', P);
      PopFacts(sh, info, u', x', P);
      u', x', w' := u'[..|u'| - 1], x'[..|u'| - 1], w' - sh.l;
      TopTable(sh, info, u', x', P);
    }
    TopTable(sh, info, u', x', P);
  }

  lemma TopTable(sh: Shape, info: seq<Info>, u: seq<nat>, x: seq<nat>, P: nat)
    requires sh.Valid() && (forall id :: 0 <= id < |info| ==> InfoOk(sh, info[id]))
    requires StackOk(sh, info, u, x, P) && u != [] && P <= Pow2(sh.g)
    ensures |x| == |u| && u[|u| - 1] < |info|
    ensures var w := info[u[|u| - 1]].w;
            && (Rev(sh.g, P) % Pow2(w) != x[|u| - 1] ==> w > 0 && P == End(sh, info[u[|u| - 1]]))
            && (Rev(sh.g, P) % Pow2(w) == x[|u| - 1] ==> Inside(sh, info, u, P))
  {
    var n := |u| - 1;
    var f := info[u[n]];
    assert Level(sh, f, x[n], P) && InfoOk(sh, f);
    PatternDecides(sh, f, P);
    hide Rev, Quot, Filled;
    if f.w == 0 {
      assert n == 0 || Nested(sh, info[u[n - 1]], info[u[n]]);
    } else if P < End(sh, f) {
      forall lev | 0 <= lev < |u| ensures P < End(sh, info[u[lev]]) { OuterEnd(sh, info, u, lev); }
    }
  }
}
