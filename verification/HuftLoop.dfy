/** The main loop of the table builder: all codes, shortest first. */
module HuftLoop {
  import opened Bits
  import opened HuffmanCode
  import opened HuftTables
  import opened HuftGrow
  import opened HuftPlace

  /** The working variables: tables made so far, table stack, pattern stack, bits decoded before the topmost
      table (`-l` before the first), the table last made, the reversed code, and the next value. */
  datatype Builder = Builder(tables: seq<Table>, u: seq<nat>, x: seq<nat>, w: int, q: nat, i: nat, p: nat)

  ghost predicate Ready(sh: Shape, vals: Values, info: seq<Info>, s: Builder, k: nat, P: nat) {
    && sh.Valid() && vals.n <= |vals.v| && P <= Pow2(sh.g)
    && s.i == Rev(sh.g, P)
    && (if s.u == [] then
          P == 0 && k <= sh.l && s.tables == [] && s.x == [] && info == [] && s.w == 0 - sh.l
        else
          && Inv(sh, vals, info, s.tables, s.u, s.x, P)
          && Inside(sh, info, s.u, P)
          && s.w == info[s.u[|s.u| - 1]].w
          && (k <= s.w + sh.l ==> s.q == s.u[|s.u| - 1]))
  }

  /** What the invariant says about the topmost table. */
  lemma TopFacts(sh: Shape, vals: Values, info: seq<Info>, s: Builder, k: nat, P: nat)
    requires Ready(sh, vals, info, s, k, P) && s.u != [] && P < Pow2(sh.g)
    ensures |s.x| == |s.u| && s.u[|s.u| - 1] < |info| == |s.tables|
    ensures var top := info[s.u[|s.u| - 1]];
            && InfoOk(sh, top) && Level(sh, top, s.x[|s.u| - 1], P)
            && top.pos <= P < End(sh, top) <= Pow2(sh.g) && P % Cell(sh, top, sh.l) == 0 && top.w == s.w
            && |s.tables[s.u[|s.u| - 1]]| >= Pow2(top.bits)
  {
    hide Shape.Valid, Linked, Entries, Rev, Fits;
    var n := |s.u| - 1;
    assert Level(sh, info[s.u[n]], s.x[n], P);
  }

  /** Room for a new table at the current position. */
  lemma RoomForTable(sh: Shape, vals: Values, info: seq<Info>, s: Builder, k: nat, a: nat, P: nat)
    requires Ready(sh, vals, info, s, k, P) && CodeStart(sh, k, a, P) && s.w + sh.l < k
    ensures 0 <= s.w + sh.l < k <= sh.g && P < Pow2(sh.g)
    ensures P + Pow2(sh.g - (s.w + sh.l)) <= Pow2(sh.g) && P % Pow2(sh.g - (s.w + sh.l)) == 0
    ensures Filled(sh.c, sh.g, k - 1) <= P
    ensures s.w + sh.l == 0 <==> s.u == []
    ensures s.u != [] ==> s.w >= 0
  {
    hide Inv, Inside, InfoOk, Level, Shape.Valid, Filled, Rev, Pow2, CodeStart;
    CodeStartAbove(sh, k, a, P);
    RoomToStart(sh, vals, info, s, k, a, P);
    if s.u != [] {
      TopFacts(sh, vals, info, s, k, P);
      var top := info[s.u[|s.u| - 1]];
      NewTableFits(sh, top, P, k);
    }
  }

  lemma NewInfoOk(sh: Shape, k: nat, w: nat, j: nat, P: nat)
    requires sh.Valid() && sh.l <= w < k && k - w <= j && w + j <= sh.g
    requires P % Pow2(sh.g - w) == 0 && P + Pow2(sh.g - w) <= Pow2(sh.g)
    requires j >= sh.l || Covered(sh, w, j, P)
    requires Fits(sh) ==> j <= sh.l
    ensures InfoOk(sh, Info(w, P, j))
  {
    hide Pow2, Filled, Fits;
  }

  /** Makes the next table down and links it into the one above. */
  method NewTable(sh: Shape, ghost vals: Values, ghost info: seq<Info>, s: Builder, k: nat, a: nat, ghost P: nat)
    returns (s': Builder, ghost info': seq<Info>)
    requires Ready(sh, vals, info, s, k, P) && CodeStart(sh, k, a, P) && s.w + sh.l < k
    ensures Ready(sh, vals, info', s', k, P) && s'.u != []
    ensures s'.w == s.w + sh.l && s'.i == s.i && s'.p == s.p
  {
    hide InfoOk, Shape.Valid, Pow2, Rev, CodeStart, Inv, Inside, Level, Fits, Covered;
    RoomForTable(sh, vals, info, s, k, a, P);
    if s.u != [] { TopFacts(sh, vals, info, s, k, P); }
    var w := s.w + sh.l;
    var j := ChooseBits(sh, k, w, a, P);
    var t: Table := seq(Pow2(j), _ => Unset);
    if s.u == [] {
      s' := Builder([t], [0], [s.i], w, 0, s.i, s.p);
      info' := [Info(0, 0, sh.l)];
      Pow2Mono(sh.l, j);
      RootInv(sh, vals, t);
    } else {
      var top, slot := s.u[|s.u| - 1], s.i / Pow2(w - sh.l);
      ghost var f := Info(w, P, j);
      NewInfoOk(sh, k, w, j, P);
      NewTableInv(sh, vals, info, s.tables, s.u, s.x, P, k, f, t);
      var q := |s.tables|;
      s' := Builder(WithLink(s.tables, top, slot, Link(sh.l, j, q)) + [t], s.u + [q], s.x + [s.i], w, q, s.i, s.p);
      info' := info + [f];
    }
  }

  /** Makes tables until the code of `k` bits fits in the topmost one. */
  method MakeTables(sh: Shape, ghost vals: Values, ghost info: seq<Info>, s: Builder, k: nat, a: nat, ghost P: nat)
    returns (s': Builder, ghost info': seq<Info>)
    requires Ready(sh, vals, info, s, k, P) && CodeStart(sh, k, a, P)
    requires s.u != [] ==> s.w < k
    ensures Ready(sh, vals, info', s', k, P) && s'.u != [] && s'.w < k <= s'.w + sh.l
    ensures s'.i == s.i && s'.p == s.p
  {
    hide Ready, CodeStart;
    RoomToStart(sh, vals, info, s, k, a, P);
    s', info' := s, info;
    while k > s'.w + sh.l
      invariant Ready(sh, vals, info', s', k, P) && s'.i == s.i && s'.p == s.p
      invariant s'.u == [] ==> s'.w + sh.l < k
      invariant s'.u != [] ==> s'.w < k
      decreases k - s'.w
    {
      s', info' := NewTable(sh, vals, info', s', k, a, P);
    }
  }

  lemma RoomToStart(sh: Shape, vals: Values, info: seq<Info>, s: Builder, k: nat, a: nat, P: nat)
    requires Ready(sh, vals, info, s, k, P) && CodeStart(sh, k, a, P)
    ensures sh.l > 0 && k > 0
    ensures s.u == [] ==> s.w + sh.l == 0
  {
  }

  /** The position after the code at `P`, and the step of the reversed code that leads there. */
  lemma NextPosition(sh: Shape, k: nat, a: nat, P: nat)
    requires sh.Valid() && CodeStart(sh, k, a, P)
    ensures var cd := Quot(P, Pow2(sh.g - k));
            && cd < Pow2(k) && Rev(sh.g, P) == Rev(k, cd)
            && Rev(sh.g, P + Pow2(sh.g - k)) == Rev(k, if cd + 1 == Pow2(k) then 0 else cd + 1)
  {
    hide *;
    CodeStartAbove(sh, k, a, P);
    var p := Pow2(sh.g - k);
    var cd := Quot(P, p);
    assert Pow2(sh.g) == Pow2(k) * p by { Pow2Add(k, sh.g - k); }
    CodeBelow(cd, Pow2(k), p);
    RevPad(k, sh.g, cd);
    RevPad(k, sh.g, cd + 1);
    if cd + 1 == Pow2(k) {
      RevTop(sh.g);
      RevZero(k);
    }
  }

  lemma CodeBelow(cd: nat, n: nat, p: nat)
    requires p > 0 && cd * p + p <= n * p
    ensures cd < n && (cd + 1) * p == cd * p + p
    ensures cd + 1 == n ==> cd * p + p == n * p
  {
    assert (cd + 1) * p == cd * p + p;
    if cd >= n { MulMono(n, cd, p); }
  }

  lemma AfterPlace(sh: Shape, vals: Values, info: seq<Info>, s: Builder, k: nat, a: nat, P: nat, t: Table)
    requires Placing(sh, vals, info, s.tables, s.u, s.x, k, a, P, t)
    requires k <= info[s.u[|s.u| - 1]].w + sh.l
    ensures 1 <= k <= sh.g
    ensures var tables', P' := s.tables[s.u[|s.u| - 1] := t], P + Pow2(sh.g - k);
            && P' <= Pow2(sh.g) && InfosOk(sh, info, tables')
            && StackOk(sh, info, s.u, s.x, P') && Aligned(sh, info, s.u, P') && Linked(sh, info, tables', s.u)
            && (Fits(sh) ==> Entries(sh, vals, info, tables', P'))
  {
    hide InfoOk, Level, Nested, LinkedTo, EntryOk, Entries, Start, Filled, Rev, Pow2, Shape.Valid, Fits, FilledWith,
         Offset, Values.Entry;
    PlacingFacts(sh, vals, info, s.tables, s.u, s.x, k, a, P, t);
    StackAfterPlace(sh, info, s.u, s.x, P, P + Pow2(sh.g - k));
    if Fits(sh) { EntriesAfterPlace(sh, vals, info, s.tables, s.u, s.x, k, a, P, t); }
    LinkedAfterPlace(sh, info, s.tables, s.u, t);
    AlignedAfterPlace(sh, info[s.u[|s.u| - 1]], k, a, P);
  }

  lemma LinkedAfterPlace(sh: Shape, info: seq<Info>, tables: seq<Table>, u: seq<nat>, t: Table)
    requires Linked(sh, info, tables, u) && u != []
    requires forall lev :: 0 <= lev < |u| ==> u[lev] < |info| == |tables|
    requires forall lev :: 1 <= lev < |u| ==> u[lev - 1] < u[lev]
    ensures Linked(sh, info, tables[u[|u| - 1] := t], u)
  {
    hide Slot;
    var tables' := tables[u[|u| - 1] := t];
    forall lev | 1 <= lev < |u| ensures LinkedTo(sh, info, tables', u[lev - 1], u[lev]) {
      assert LinkedTo(sh, info, tables, u[lev - 1], u[lev]);
      Increasing(u, lev - 1, |u| - 1);
    }
  }

  lemma AlignedAfterPlace(sh: Shape, f: Info, k: nat, a: nat, P: nat)
    requires sh.Valid() && CodeStart(sh, k, a, P) && k <= f.w + sh.l
    ensures (P + Pow2(sh.g - k)) % Cell(sh, f, sh.l) == 0
  {
    hide Pow2, Filled, CodeStart, Shape.Valid;
    StartFacts(sh, k, a, P);
    CodeStartAbove(sh, k, a, P);
    NextMultiple(P, Pow2(sh.g - k));
    if f.w + sh.l <= sh.g {
      Pow2Add(f.w + sh.l - k, sh.g - f.w - sh.l);
      MultipleOfProduct(P + Pow2(sh.g - k), Pow2(f.w + sh.l - k), Cell(sh, f, sh.l));
    }
  }

  lemma ReadyToPlace(sh: Shape, vals: Values, info: seq<Info>, s: Builder, k: nat, a: nat, P: nat)
    requires Ready(sh, vals, info, s, k, P) && CodeStart(sh, k, a, P)
    requires s.u != [] && s.w < k <= s.w + sh.l
    ensures P < Pow2(sh.g) && 1 <= k <= sh.g && s.w >= 0
    ensures s.q == s.u[|s.u| - 1] < |info| == |s.tables|
    ensures k <= s.w + info[s.q].bits && s.w == info[s.q].w
    ensures Quot(s.i, Pow2(s.w)) < Pow2(k - s.w)
  {
    hide Inv, Inside, InfoOk, Level, Shape.Valid, Filled, Rev, Pow2, CodeStart, Quot;
    CodeStartAbove(sh, k, a, P);
    TopFacts(sh, vals, info, s, k, P);
    CodeFits(sh, info[s.q], k, a, P);
    IndexBelow(sh, info[s.q], k, P);
  }

  lemma IndexBelow(sh: Shape, f: Info, k: nat, P: nat)
    requires sh.Valid() && InfoOk(sh, f) && f.w < k <= sh.g
    requires f.pos <= P < End(sh, f) && P % Pow2(sh.g - k) == 0
    ensures Quot(Rev(sh.g, P), Pow2(f.w)) < Pow2(k - f.w)
  {
    CodeInTable(sh, f, k, P);
    RevBound(k - f.w, Quot(P - f.pos, Pow2(sh.g - k)));
  }

  /** The entry of the next code: the next value, or an invalid code when the values have run out. */
  function NextEntry(vals: Values, p: nat, b: nat): Huft
    requires vals.n <= |vals.v|
  {
    if p >= vals.n then Code(99, b, 0) else vals.lists.Entry(vals.v[p], b)
  }

  function Min(a: nat, b: nat): nat { if a < b then a else b }

  /** Enters one code of `k` bits, the one that `a` codes of the same length follow. */
  method AddCode(sh: Shape, vals: Values, ghost info: seq<Info>, s: Builder, k: nat, a: nat, ghost P: nat)
    returns (s': Builder, ghost info': seq<Info>)
    requires Ready(sh, vals, info, s, k, P) && CodeStart(sh, k, a, P)
    requires s.u != [] ==> s.w < k
    requires s.p == Min(Offset(sh.c, k) + sh.c[k] - (a + 1), vals.n)
    ensures 1 <= k <= sh.g && Ready(sh, vals, info', s', k, P + Pow2(sh.g - k))
    ensures s'.u != [] && s'.w < k
    ensures s'.p == Min(Offset(sh.c, k) + sh.c[k] - a, vals.n)
  {
    hide Inv, Inside, InfosOk, StackOk, InfoOk, Aligned, Linked, Entries, Level, Shape.Valid, Fits, Filled, Rev, Pow2,
         CodeStart, Quot;
    var s1: Builder;
    s1, info' := MakeTables(sh, vals, info, s, k, a, P);
    ReadyToPlace(sh, vals, info', s1, k, a, P);
    var w: nat := s1.w;

    var r := NextEntry(vals, s1.p, k - w);
    var t := FillEntries(s1.tables[s1.q], Quot(s1.i, Pow2(w)), Pow2(k - w), r);
    AfterPlace(sh, vals, info', s1, k, a, P, t);
    NextPosition(sh, k, a, P);
    var i := BackwardIncrement(s1.i, k, Quot(P, Pow2(sh.g - k)));
    ghost var P' := P + Pow2(sh.g - k);
    InfosOkEach(sh, info', s1.tables[s1.q := t]);
    var u, x, w' := Backup(sh, info', s1.u, s1.x, i, w, P');
    LinkedPrefix(sh, info', s1.tables[s1.q := t], s1.u, u);
    var p := if s1.p >= vals.n then s1.p else s1.p + 1;
    s' := Builder(s1.tables[s1.q := t], u, x, w', s1.q, i, p);
    ReadyAgain(sh, vals, info', s1, s', k, P');
  }

  lemma InfosOkEach(sh: Shape, info: seq<Info>, tables: seq<Table>)
    requires sh.Valid() && InfosOk(sh, info, tables)
    ensures forall id :: 0 <= id < |info| ==> InfoOk(sh, info[id])
  {
  }

  lemma LinkedPrefix(sh: Shape, info: seq<Info>, tables: seq<Table>, u: seq<nat>, u': seq<nat>)
    requires Linked(sh, info, tables, u) && u' <= u
    ensures Linked(sh, info, tables, u')
  {
    hide LinkedTo;
    forall lev | 1 <= lev < |u'| ensures LinkedTo(sh, info, tables, u'[lev - 1], u'[lev]) {
      assert LinkedTo(sh, info, tables, u[lev - 1], u[lev]);
    }
  }

  lemma ReadyAgain(sh: Shape, vals: Values, info: seq<Info>, s1: Builder, s: Builder, k: nat, P: nat)
    requires sh.Valid() && vals.n <= |vals.v| && P <= Pow2(sh.g) && s.i == Rev(sh.g, P)
    requires InfosOk(sh, info, s.tables) && StackOk(sh, info, s.u, s.x, P) && Aligned(sh, info, s.u, P)
    requires Linked(sh, info, s.tables, s.u) && (Fits(sh) ==> Entries(sh, vals, info, s.tables, P))
    requires s.u != [] && s1.u != [] && Inside(sh, info, s.u, P) && s.w == info[s.u[|s.u| - 1]].w
    requires s1.w < k && s1.q == s.q == s1.u[|s1.u| - 1]
    requires (s.w == s1.w && s.u == s1.u) || s.w + sh.l <= s1.w
    ensures Ready(sh, vals, info, s, k, P)
  {
    hide InfosOk, StackOk, InfoOk, Aligned, Linked, Entries, Level, Shape.Valid, Fits, Rev, Pow2;
    assert s.u[|s.u| - 1] < |info| by { StackShape(sh, info, s.u, s.x, P); }
  }

  lemma StackShape(sh: Shape, info: seq<Info>, u: seq<nat>, x: seq<nat>, P: nat)
    requires StackOk(sh, info, u, x, P) && u != []
    ensures u[|u| - 1] < |info|
  {
  }

  /** `P` is the position after all but the last `a` codes of `k` bits. */
  ghost predicate CodesLeft(sh: Shape, k: nat, a: nat, P: nat)
    requires sh.Valid()
  {
    1 <= k <= sh.g && a <= sh.c[k] && P + a * Pow2(sh.g - k) == Filled(sh.c, sh.g, k)
  }

  lemma FirstOfLength(sh: Shape, k: nat, P: nat)
    requires sh.Valid() && 1 <= k <= sh.g && P == Filled(sh.c, sh.g, k - 1)
    ensures CodesLeft(sh, k, sh.c[k], P)
  {
  }

  lemma OneCodeOn(sh: Shape, k: nat, a: nat, P: nat)
    requires sh.Valid() && CodesLeft(sh, k, a, P) && a > 0
    ensures CodeStart(sh, k, a - 1, P) && CodesLeft(sh, k, a - 1, P + Pow2(sh.g - k))
  {
    assert (a - 1 + 1) * Pow2(sh.g - k) == a * Pow2(sh.g - k);
    assert (a - 1) * Pow2(sh.g - k) == a * Pow2(sh.g - k) - Pow2(sh.g - k);
  }

  lemma LastOfLength(sh: Shape, k: nat, P: nat)
    requires sh.Valid() && CodesLeft(sh, k, 0, P)
    ensures P == Filled(sh.c, sh.g, k)
    ensures k == sh.g ==> P == Pow2(sh.g)
  {
    assert 0 * Pow2(sh.g - k) == 0;
  }

  lemma ReadyLonger(sh: Shape, vals: Values, info: seq<Info>, s: Builder, k: nat, P: nat)
    requires Ready(sh, vals, info, s, k, P) && s.u != []
    ensures Ready(sh, vals, info, s, k + 1, P)
  {
    hide Inv, Inside, Shape.Valid, Rev, Pow2;
  }

  /** Enters all codes of `k` bits. */
  method AddLength(sh: Shape, vals: Values, ghost info: seq<Info>, s: Builder, k: nat, ghost P: nat)
    returns (s': Builder, ghost info': seq<Info>, ghost P': nat)
    requires 1 <= k <= sh.g && Ready(sh, vals, info, s, k, P) && P == Filled(sh.c, sh.g, k - 1)
    requires s.u != [] ==> s.w < k
    requires s.u == [] ==> sh.c[k] > 0
    requires s.p == Min(Offset(sh.c, k), vals.n)
    ensures Ready(sh, vals, info', s', k + 1, P')
    ensures s'.u != [] && s'.w < k && P' == Filled(sh.c, sh.g, k)
    ensures s'.p == Min(Offset(sh.c, k + 1), vals.n)
    ensures k == sh.g ==> P' == Pow2(sh.g)
  {
    hide Ready, Filled, Pow2, Min, CodesLeft, CodeStart;
    ReadyShape(sh, vals, info, s, k, P);
    FirstOfLength(sh, k, P);
    s', info', P' := s, info, P;
    var a := sh.c[k];
    while a > 0
      invariant 0 <= a <= sh.c[k]
      invariant Ready(sh, vals, info', s', k, P') && CodesLeft(sh, k, a, P')
      invariant s'.u != [] ==> s'.w < k
      invariant a < sh.c[k] || s.u != [] ==> s'.u != []
      invariant s'.p == Min(Offset(sh.c, k) + sh.c[k] - a, vals.n)
    {
      OneCodeOn(sh, k, a, P');
      a := a - 1;
      s', info' := AddCode(sh, vals, info', s', k, a, P');
      P' := P' + Pow2(sh.g - k);
    }
    ReadyLonger(sh, vals, info', s', k, P');
    LastOfLength(sh, k, P');
  }

  lemma ReadyShape(sh: Shape, vals: Values, info: seq<Info>, s: Builder, k: nat, P: nat)
    requires Ready(sh, vals, info, s, k, P)
    ensures sh.Valid() && |sh.c| == BMAX + 1 && sh.g <= BMAX && vals.n <= |vals.v|
  {
  }

  /** The finished tables: the root is indexed with `l` bits and every entry is final. */
  ghost predicate Complete(sh: Shape, vals: Values, info: seq<Info>, tables: seq<Table>) {
    && sh.Valid() && vals.n <= |vals.v|
    && InfosOk(sh, info, tables) && info != [] && info[0] == Info(0, 0, sh.l)
    && (Fits(sh) ==> Entries(sh, vals, info, tables, Pow2(sh.g)))
  }

  lemma AllPlaced(sh: Shape, vals: Values, info: seq<Info>, s: Builder, k: nat)
    requires Ready(sh, vals, info, s, k, Pow2(sh.g)) && s.u != []
    ensures Complete(sh, vals, info, s.tables)
  {
    hide Level, Linked, Entries, Rev, Pow2, Filled, Shape.Valid;
    assert s.u[0] == 0 && info[0].w == 0;
    assert InfoOk(sh, info[0]);
  }

  /** Builds the tables of a completed code set whose shortest code has `k0` bits. */
  method BuildTables(sh: Shape, vals: Values, k0: nat) returns (tables: seq<Table>, ghost info: seq<Info>)
    requires sh.Valid() && vals.n <= |vals.v|
    requires 1 <= k0 <= sh.l && sh.c[k0] > 0 && Filled(sh.c, sh.g, k0 - 1) == 0 && Offset(sh.c, k0) == 0
    ensures Complete(sh, vals, info, tables)
  {
    hide Complete, Filled, Offset, Pow2;
    RevZero(sh.g);
    ghost var P := 0;
    var s := Builder([], [], [], 0 - sh.l, 0, 0, 0);
    info := [];
    var k := k0;
    while k <= sh.g
      invariant k0 <= k <= sh.g + 1
      invariant Ready(sh, vals, info, s, k, P) && P == Filled(sh.c, sh.g, k - 1)
      invariant s.u != [] ==> s.w < k
      invariant s.u == [] ==> k == k0
      invariant s.p == Min(Offset(sh.c, k), vals.n)
      invariant k == sh.g + 1 ==> P == Pow2(sh.g)
    {
      s, info, P := AddLength(sh, vals, info, s, k, P);
      k := k + 1;
    }
    tables := s.tables;
    AllPlaced(sh, vals, info, s, k);
  }
}
