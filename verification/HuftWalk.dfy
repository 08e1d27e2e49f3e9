/** Looking codes up in finished tables. */
module HuftWalk {
  import opened Bits
  import opened Octets
  import opened BitStream
  import opened HuffmanCode
  import opened HuftTables
  import opened HuftLoop

  /** The outcome of a lookup: the entry found, and the position of its bits (before they are dumped). */
  datatype Found = Nothing | Found(h: Huft, at: nat)

  /** Follows links from table `id`, indexed with the next `bits` bits at `at`, to an entry that is no link.
      No entry may dump more bits than it was looked up with. */
  ghost function Walk(tables: seq<Table>, id: nat, bits: nat, data: seq<byte>, at: nat): Found
    requires data != []
    decreases |tables| - id
  {
    if id >= |tables| || bits > BMAX then Nothing
    else
      var idx := Lsb(data, at, bits);
      if idx >= |tables[id]| then Nothing
      else
        match tables[id][idx]
        case Link(b, bits', t) => if t <= id || b > bits then Nothing else Walk(tables, t, bits', data, at + b)
        case Code(e, b, n) => if b > bits then Nothing else Found(Code(e, b, n), at)
        case h => Found(h, at)
  }

  /** The walk ends in the table it starts in. */
  ghost predicate AtRoot(tables: seq<Table>, id: nat, bits: nat, data: seq<byte>, at: nat)
    requires data != []
  {
    && id < |tables|
    && var idx := Lsb(data, at, bits);
       idx < |tables[id]| && Walk(tables, id, bits, data, at) == Found(tables[id][idx], at)
  }

  /** The index read from the stream selects the entry whose positions include the stream's. */
  lemma IndexFromStream(sh: Shape, f: Info, data: seq<byte>, pos: nat)
    requires data != [] && sh.Valid() && InfoOk(sh, f)
    requires f.pos <= Msb(data, pos, sh.g) < End(sh, f)
    ensures var idx := Lsb(data, pos + f.w, f.bits);
            && idx < Pow2(f.bits)
            && Start(sh, f, idx) <= Msb(data, pos, sh.g) < Start(sh, f, idx) + Cell(sh, f, f.bits)
  {
    hide Shape.Valid, Filled, Fits, Msb, Lsb, Rev, Pow2;
    var p, idx, rest := Msb(data, pos, sh.g), Lsb(data, pos + f.w, f.bits), sh.g - f.w - f.bits;
    LsbBound(data, pos + f.w, f.bits);
    MsbOfLsb(data, pos + f.w, f.bits);
    MsbSplit(data, pos, f.w, sh.g - f.w);
    MsbBound(data, pos + f.w, sh.g - f.w);
    MsbSplit(data, pos + f.w, f.bits, rest);
    MsbBound(data, pos + f.w + f.bits, rest);
    SamePrefix(f.pos, p, Span(sh, f), Msb(data, pos, f.w), Msb(data, pos + f.w, sh.g - f.w));
  }

  lemma SamePrefix(lo: nat, p: nat, span: nat, q: nat, r: nat)
    requires span > 0 && lo % span == 0 && lo <= p < lo + span && p == q * span + r && r < span
    ensures lo == q * span
  {
    SameBlock(lo, p, span);
    DivUnique(p, span, q, r);
  }

  /** A cell that starts inside a code no longer than the table's reach lies wholly inside that code. */
  lemma CellInCode(sh: Shape, f: Info, idx: nat, p: nat)
    requires sh.Valid() && InfoOk(sh, f) && idx < Pow2(f.bits)
    requires Start(sh, f, idx) <= p < Start(sh, f, idx) + Cell(sh, f, f.bits)
    requires Start(sh, f, idx) < Pow2(sh.g) && LenAt(sh, Start(sh, f, idx)) <= f.w + f.bits
    ensures p < Pow2(sh.g)
    ensures LenAt(sh, p) == LenAt(sh, Start(sh, f, idx)) && IndexAt(sh, p) == IndexAt(sh, Start(sh, f, idx))
  {
    hide Filled, Rev, NextCode, Offset, Fits;
    var st, cell := Start(sh, f, idx), Cell(sh, f, f.bits);
    var k := LenAt(sh, st);
    var cd, size := CodeAt(sh, st), Pow2(sh.g - k);
    CodeAtRange(sh, st);
    assert st % cell == 0 by { StartAligned(sh, f, idx); }
    assert size == Pow2(f.w + f.bits - k) * cell by { Pow2Add(f.w + f.bits - k, sh.g - f.w - f.bits); }
    WholeCell(st, cell, Pow2(f.w + f.bits - k), cd);
    OneCode(sh, k, cd, st);
    OneCode(sh, k, cd, p);
  }

  lemma StartAligned(sh: Shape, f: Info, idx: nat)
    requires sh.Valid() && InfoOk(sh, f)
    ensures Start(sh, f, idx) % Cell(sh, f, f.bits) == 0
  {
    hide Filled, Rev, Fits, Shape.Valid;
    var cell := Cell(sh, f, f.bits);
    assert Span(sh, f) == Pow2(f.bits) * cell by { Pow2Add(f.bits, sh.g - f.w - f.bits); }
    MultipleOfProduct(f.pos, Pow2(f.bits), cell);
    AddMultiple(f.pos, Rev(f.bits, idx), cell);
  }

  lemma AddMultiple(lo: nat, r: nat, m: nat)
    requires m > 0 && lo % m == 0
    ensures (lo + r * m) % m == 0
  {
    DivFacts(lo, m);
    assert (lo / m + r) * m == (lo / m) * m + r * m;
    DivUnique(lo + r * m, m, lo / m + r, 0);
  }

  lemma WholeCell(st: nat, cell: nat, n: nat, cd: nat)
    requires cell > 0 && n > 0 && n * cell > 0 && st % cell == 0 && cd == st / (n * cell)
    ensures cd * (n * cell) <= st && st + cell <= (cd + 1) * (n * cell)
  {
    var size := n * cell;
    DivFacts(st, size);
    DivFacts(st, cell);
    Regroup(cd, n, cell);
    NextMultiple(st / cell, (cd + 1) * n, cell);
  }

  lemma Regroup(a: nat, n: nat, cell: nat)
    ensures (a + 1) * (n * cell) == ((a + 1) * n) * cell && (a + 1) * (n * cell) == a * (n * cell) + n * cell
  {
  }

  lemma NextMultiple(q: nat, m: nat, cell: nat)
    requires q * cell < m * cell
    ensures q * cell + cell <= m * cell
  {
    if q >= m {
      MulMono(m, q, cell);
    } else {
      MulMono(q + 1, m, cell);
      assert (q + 1) * cell == q * cell + cell;
    }
  }

  /** From a table that contains the stream's position, the walk ends at the entry of the code there, having
      followed links over the first `w` bits of the code. */
  lemma {:induction false} WalkFrom(sh: Shape, vals: Values, info: seq<Info>, tables: seq<Table>, id: nat,
                                    data: seq<byte>, pos: nat) returns (w: nat)
    requires Complete(sh, vals, info, tables) && Fits(sh) && data != [] && id < |info|
    requires Msb(data, pos, sh.g) < Pow2(sh.g)
    requires info[id].pos <= Msb(data, pos, sh.g) < End(sh, info[id])
    ensures w < LenAt(sh, Msb(data, pos, sh.g))
    ensures info[id].w + info[id].bits == sh.g ==> AtRoot(tables, id, info[id].bits, data, pos + info[id].w)
    ensures Walk(tables, id, info[id].bits, data, pos + info[id].w) ==
            Found(vals.Entry(IndexAt(sh, Msb(data, pos, sh.g)), LenAt(sh, Msb(data, pos, sh.g)) - w), pos + w)
    decreases |tables| - id
  {
    hide Shape.Valid, Filled, Fits, Msb, Lsb, Rev, Pow2, LenAt, IndexAt, Start, InfoOk;
    var f, p := info[id], Msb(data, pos, sh.g);
    var idx := Lsb(data, pos + f.w, f.bits);
    IndexFromStream(sh, f, data, pos);
    var st := Start(sh, f, idx);
    assert EntryOk(sh, vals, info, tables, id, idx);
    if LenAt(sh, st) <= f.w + f.bits {
      CellInCode(sh, f, idx, p);
      w := f.w;
      EntryIsNoLink(vals, IndexAt(sh, p), LenAt(sh, p) - w);
      WidthBound(sh, f);
    } else {
      WidthBound(sh, f);
      LenBound(sh, st);
      var t := tables[id][idx].t;
      assert End(sh, info[t]) == st + Cell(sh, f, f.bits) by { ChildCell(sh, f, info[t]); }
      w := WalkFrom(sh, vals, info, tables, t, data, pos);
    }
  }

  lemma ChildCell(sh: Shape, f: Info, child: Info)
    requires sh.Valid() && InfoOk(sh, f) && InfoOk(sh, child) && f.bits == sh.l && child.w == f.w + sh.l
    ensures Cell(sh, f, f.bits) == Span(sh, child)
  {
    hide Pow2, Filled;
  }

  lemma EntryIsNoLink(vals: Values, t: nat, b: nat)
    requires vals.n <= |vals.v|
    ensures !vals.Entry(t, b).Link?
    ensures vals.Entry(t, b).Code? ==> vals.Entry(t, b).b == b
  {
  }

  lemma WidthBound(sh: Shape, f: Info)
    requires sh.Valid() && InfoOk(sh, f)
    ensures f.bits <= BMAX
  {
  }

  lemma LenBound(sh: Shape, pos: nat)
    requires sh.Valid() && pos < Pow2(sh.g)
    ensures LenAt(sh, pos) <= sh.g
  {
  }

  /** Walking finished tables from the root decodes the canonical code at any position of any stream. */
  lemma WalkDecodes(sh: Shape, vals: Values, info: seq<Info>, tables: seq<Table>, data: seq<byte>, pos: nat)
    returns (w: nat)
    requires Complete(sh, vals, info, tables) && Fits(sh) && data != []
    ensures Msb(data, pos, sh.g) < Pow2(sh.g)
    ensures w < LenAt(sh, Msb(data, pos, sh.g))
    ensures sh.l == sh.g ==> AtRoot(tables, 0, sh.l, data, pos)
    ensures Walk(tables, 0, sh.l, data, pos) ==
            Found(vals.Entry(IndexAt(sh, Msb(data, pos, sh.g)), LenAt(sh, Msb(data, pos, sh.g)) - w), pos + w)
  {
    hide Shape.Valid, Filled, Fits, Msb, Lsb, Rev, Pow2, LenAt, IndexAt, Start, InfoOk, Walk, Entries;
    MsbBound(data, pos, sh.g);
    w := WalkFrom(sh, vals, info, tables, 0, data, pos);
  }
}
