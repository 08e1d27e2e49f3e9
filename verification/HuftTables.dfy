/** The lookup tables of the DEFLATE decoder, and the invariant their builder keeps. */
module HuftTables {
  import opened Bits
  import opened HuffmanCode

  /** A table entry.  `Code` is a decoded symbol (`e` is 16 for a literal, 15 for end of block, 99 for an
      invalid code, otherwise the number of extra bits); `Link` is an entry with operation `16 + bits`
      that points to table `t`; `Unset` was never written; `Junk` was looked up with an index that lies
      outside the value lists. */
  datatype Huft =
    | Unset
    | Junk
    | Code(e: nat, b: nat, n: nat)
    | Link(b: nat, bits: nat, t: nat)

  type Table = seq<Huft>

  /** How a symbol becomes an entry: the first `s` symbols are simple, the others take their base value from
      `d` and their extra bits from `e`. */
  datatype Lists = Lists(s: nat, d: seq<nat>, e: seq<nat>) {
    function Entry(sym: nat, b: nat): Huft {
      if sym < s then Code(if sym < 256 then 16 else 15, b, sym)
      else if sym - s < |e| && sym - s < |d| then Code(e[sym - s], b, d[sym - s])
      else Junk
    }
  }

  /** What the builder looks values up in: the symbols `v` in canonical order, and the number `n` of symbols. */
  datatype Values = Values(v: seq<nat>, n: nat, lists: Lists) {
    /** The entry of the code with index `t`; from `n` on there are no values left. */
    function Entry(t: nat, b: nat): Huft
      requires n <= |v|
    {
      if t >= n then Code(99, b, 0) else lists.Entry(v[t], b)
    }
  }

  /** Where a table sits: the number of bits decoded before it, the first position it decodes, and the
      number of bits it is indexed with. */
  datatype Info = Info(w: nat, pos: nat, bits: nat)

  /** The table sizes for which the multi-level tables are sound: every call in the decoder has them. */
  ghost predicate Fits(sh: Shape)
    requires sh.Valid()
  {
    sh.g <= 2 * sh.l || sh.Total() <= Pow2(sh.l)
  }

  /** The number of positions below a table. */
  function Span(sh: Shape, f: Info): (n: nat)
    ensures n >= 1
  {
    if f.w <= sh.g then Pow2(sh.g - f.w) else 1
  }

  /** The number of positions below one entry of a table that is indexed with `bits` bits. */
  function Cell(sh: Shape, f: Info, bits: nat): (n: nat)
    ensures n >= 1
  {
    if f.w + bits <= sh.g then Pow2(sh.g - f.w - bits) else 1
  }

  function End(sh: Shape, f: Info): nat {
    f.pos + Span(sh, f)
  }

  ghost predicate InfoOk(sh: Shape, f: Info)
    requires sh.Valid()
  {
    && 1 <= f.bits && f.w + f.bits <= sh.g
    && f.pos % Span(sh, f) == 0
    && End(sh, f) <= Pow2(sh.g)
    && (f.bits >= sh.l || Filled(sh.c, sh.g, f.w + f.bits) >= End(sh, f))
    && (f.w == 0 ==> f.pos == 0 && f.bits == sh.l)
    && (Fits(sh) ==> f.bits <= sh.l)
  }

  ghost predicate InfosOk(sh: Shape, info: seq<Info>, tables: seq<Table>)
    requires sh.Valid()
  {
    && |info| == |tables|
    && (forall id :: 0 <= id < |info| ==> InfoOk(sh, info[id]))
    && (forall id :: 0 <= id < |info| ==> |tables[id]| >= Pow2(info[id].bits))
  }

  /** The first position whose bits select index `idx` of a table. */
  function Start(sh: Shape, f: Info, idx: nat): nat {
    f.pos + Rev(f.bits, idx) * Cell(sh, f, f.bits)
  }

  /** The index at which a child table that starts at `pos` is linked into table `f`. */
  function Slot(sh: Shape, f: Info, pos: nat): nat {
    if f.pos <= pos then Rev(sh.l, Quot(pos - f.pos, Cell(sh, f, sh.l))) else 0
  }

  /** The stack of tables under construction: each is nested in the one below, `x` holds the reversed
      code prefix of each, and position `P` lies in all of them. */
  ghost predicate StackOk(sh: Shape, info: seq<Info>, u: seq<nat>, x: seq<nat>, P: nat) {
    && |u| == |x|
    && (forall lev :: 0 <= lev < |u| ==> u[lev] < |info|)
    && (u != [] ==> u[0] == 0 && info[0].w == 0)
    && (forall lev :: 0 <= lev < |u| ==> Level(sh, info[u[lev]], x[lev], P))
    && (forall lev :: 1 <= lev < |u| ==> u[lev - 1] < u[lev] && Nested(sh, info[u[lev - 1]], info[u[lev]]))
    && (forall id :: 0 <= id < |info| && id !in u ==> End(sh, info[id]) <= P)
  }

  ghost predicate Level(sh: Shape, f: Info, x: nat, P: nat) {
    && x == Rev(f.w, Quot(f.pos, Span(sh, f)))
    && f.pos <= P <= End(sh, f)
  }

  ghost predicate Nested(sh: Shape, f: Info, child: Info) {
    && child.w == f.w + sh.l
    && f.bits >= sh.l
    && f.pos <= child.pos && End(sh, child) <= End(sh, f)
  }

  /** Position `P` is strictly inside every table on the stack, or the codes are complete. */
  ghost predicate Inside(sh: Shape, info: seq<Info>, u: seq<nat>, P: nat) {
    || (P == Pow2(sh.g) && |u| <= 1)
    || forall lev :: 0 <= lev < |u| && u[lev] < |info| ==> P < End(sh, info[u[lev]])
  }

  /** `P` is a multiple of what one entry of the topmost table covers. */
  ghost predicate Aligned(sh: Shape, info: seq<Info>, u: seq<nat>, P: nat) {
    if u == [] then P == 0
    else u[|u| - 1] < |info| && P % Cell(sh, info[u[|u| - 1]], sh.l) == 0
  }

  /** Each table on the stack is linked from the one below it. */
  ghost predicate Linked(sh: Shape, info: seq<Info>, tables: seq<Table>, u: seq<nat>) {
    forall lev :: 1 <= lev < |u| ==> LinkedTo(sh, info, tables, u[lev - 1], u[lev])
  }

  ghost predicate LinkedTo(sh: Shape, info: seq<Info>, tables: seq<Table>, id: nat, child: nat) {
    && id < |info| == |tables| && child < |info|
    && var slot := Slot(sh, info[id], info[child].pos);
       slot < |tables[id]| && tables[id][slot] == Link(sh.l, info[child].bits, child)
  }

  /** An entry decodes the position it starts at: directly when the code there is short enough for this
      table, otherwise through a table that starts at that very position. */
  ghost predicate EntryOk(sh: Shape, vals: Values, info: seq<Info>, tables: seq<Table>, id: nat, idx: nat)
    requires sh.Valid() && InfosOk(sh, info, tables) && vals.n <= |vals.v|
    requires id < |info| && idx < Pow2(info[id].bits)
    requires Start(sh, info[id], idx) < Pow2(sh.g)
  {
    var f := info[id];
    var st := Start(sh, f, idx);
    var k := LenAt(sh, st);
    if k <= f.w + f.bits then
      k > f.w && tables[id][idx] == vals.Entry(IndexAt(sh, st), k - f.w)
    else
      && f.bits == sh.l
      && tables[id][idx].Link?
      && var t := tables[id][idx].t;
         && id < t < |info|
         && tables[id][idx] == Link(sh.l, info[t].bits, t)
         && info[t].pos == st && info[t].w == f.w + sh.l
  }

  /** Every entry that starts below `P` is final. */
  ghost predicate Entries(sh: Shape, vals: Values, info: seq<Info>, tables: seq<Table>, P: nat)
    requires sh.Valid() && InfosOk(sh, info, tables) && vals.n <= |vals.v| && P <= Pow2(sh.g)
  {
    forall id, idx :: 0 <= id < |info| && 0 <= idx < Pow2(info[id].bits) && Start(sh, info[id], idx) < P ==>
      EntryOk(sh, vals, info, tables, id, idx)
  }

  // ---------- Index arithmetic ----------

  lemma StartRange(sh: Shape, f: Info, idx: nat)
    requires f.w + f.bits <= sh.g && idx < Pow2(f.bits)
    ensures f.pos <= Start(sh, f, idx)
    ensures Start(sh, f, idx) + Cell(sh, f, f.bits) <= End(sh, f)
  {
    RevBound(f.bits, idx);
    Pow2Add(f.bits, sh.g - f.w - f.bits);
    ScaledRange(Rev(f.bits, idx), Pow2(f.bits), Cell(sh, f, f.bits));
  }

  /** The reversed code at `P`, seen from a table that contains `P`: its low bits are the table's prefix
      and the rest is the reversed distance from the start of the table. */
  lemma CodeInTable(sh: Shape, f: Info, k: nat, P: nat)
    requires f.w < k <= sh.g
    requires f.pos % Span(sh, f) == 0 && End(sh, f) <= Pow2(sh.g)
    requires f.pos <= P < End(sh, f) && P % Pow2(sh.g - k) == 0
    ensures var d := Quot(P - f.pos, Pow2(sh.g - k));
            && d < Pow2(k - f.w) && P == f.pos + d * Pow2(sh.g - k)
            && Rev(sh.g, P) / Pow2(f.w) == Rev(k - f.w, d)
    ensures Rev(sh.g, P) % Pow2(f.w) == Rev(f.w, Quot(f.pos, Span(sh, f)))
  {
    var p, q := Pow2(sh.g - k), Pow2(k - f.w);
    var d := Quot(P - f.pos, p);
    assert Span(sh, f) == q * p by { Pow2Add(k - f.w, sh.g - k); }
    MultipleOfProduct(f.pos, q, p);
    Distance(f.pos, P, p);
    DivLt(P - f.pos, q, p);
    SameBlock(f.pos, P, Span(sh, f));
    RevLow(f.w, sh.g - f.w, P);
    RevPad(k - f.w, sh.g - f.w, d);
  }

  /** The position an index starts at, split at bit `b` of the index. */
  lemma StartSplit(sh: Shape, f: Info, b: nat, idx: nat)
    requires b <= f.bits && f.w + f.bits <= sh.g && idx < Pow2(f.bits)
    ensures Start(sh, f, idx) ==
            f.pos + Rev(b, idx % Pow2(b)) * Cell(sh, f, b) + Rev(f.bits - b, Quot(idx, Pow2(b))) * Cell(sh, f, f.bits)
    ensures Rev(f.bits - b, Quot(idx, Pow2(b))) * Cell(sh, f, f.bits) < Cell(sh, f, b)
  {
    var a := f.bits - b;
    var m, low, c := Quot(idx, Pow2(b)), idx % Pow2(b), Cell(sh, f, f.bits);
    assert Cell(sh, f, b) == Pow2(a) * c by { Pow2Add(a, sh.g - f.w - f.bits); }
    assert Rev(f.bits, idx) == Rev(a, m) + Pow2(a) * Rev(b, low) by {
      hide *;
      QuotFacts(idx, Pow2(b));
      RevConcat(a, b, m, low);
    }
    hide Rev, Pow2, Cell, Quot;
    RevBound(a, m);
    SplitProduct(Rev(a, m), Rev(b, low), Pow2(a), c);
  }

  lemma SplitProduct(r: nat, t: nat, p: nat, c: nat)
    requires r < p && c > 0
    ensures (r + p * t) * c == t * (p * c) + r * c
    ensures r * c < p * c
  {
    assert (r + p * t) * c == r * c + (p * t) * c;
    assert (p * t) * c == t * (p * c);
    ScaledRange(r, p, c);
  }

  /** Writing every `2^(k-w)`-th entry from the reversed code on reaches exactly the entries that start
      at the positions of the code. */
  lemma FilledSlots(sh: Shape, f: Info, k: nat, P: nat, idx: nat)
    requires f.w < k <= f.w + f.bits <= sh.g
    requires f.pos % Span(sh, f) == 0 && End(sh, f) <= Pow2(sh.g)
    requires f.pos <= P < End(sh, f) && P % Pow2(sh.g - k) == 0
    requires idx < Pow2(f.bits)
    ensures idx % Pow2(k - f.w) == Rev(sh.g, P) / Pow2(f.w) <==>
            P <= Start(sh, f, idx) < P + Pow2(sh.g - k)
  {
    var b := k - f.w;
    var d, low := Quot(P - f.pos, Pow2(sh.g - k)), idx % Pow2(b);
    CodeInTable(sh, f, k, P);
    StartSplit(sh, f, b, idx);
    assert Cell(sh, f, b) == Pow2(sh.g - k);
    DivFacts(idx, Pow2(b));
    RevRev(b, low);
    RevRev(b, d);
    SameCell(Rev(b, low), d, Rev(f.bits - b, Quot(idx, Pow2(b))) * Cell(sh, f, f.bits), Pow2(sh.g - k));
  }

  lemma SameCell(t: nat, d: nat, r: nat, p: nat)
    requires r < p
    ensures t == d <==> d * p <= t * p + r < d * p + p
  {
    if t < d { MulMono(t + 1, d, p); assert (t + 1) * p == t * p + p; }
    if d < t { MulMono(d + 1, t, p); assert (d + 1) * p == d * p + p; }
  }
}
