/** The decoder: input bytes, bit buffer, tables, circular window and output. */
module Inflate {
  import opened Bits
  import opened Octets
  import opened BitStream
  import opened HuffmanCode
  import opened HuftTables
  import opened HuftWalk
  import opened HuftBuild
  import opened InflateSpec
  import opened History

  // ---------- The bit buffer ----------

  lemma AddByte(data: seq<byte>, fetched: nat, bb: nat, bk: nat)
    requires data != [] && bk <= 8 * fetched && bb == Lsb(data, 8 * fetched - bk, bk)
    ensures bb + ByteAt(data, fetched) * Pow2(bk) == Lsb(data, 8 * (fetched + 1) - (bk + 8), bk + 8)
  {
    hide Lsb, Pow2;
    LsbSplit(data, 8 * fetched - bk, bk, 8);
    ByteBits(data, fetched);
  }

  lemma DropBits(data: seq<byte>, pos: nat, bb: nat, bk: nat, n: nat)
    requires data != [] && bb == Lsb(data, pos, bk) && n <= bk
    ensures Quot(bb, Pow2(n)) == Lsb(data, pos + n, bk - n)
    ensures bb % Pow2(n) == Lsb(data, pos, n)
  {
    hide Lsb, Pow2;
    LsbSplit(data, pos, n, bk - n);
    LsbBound(data, pos, n);
    DivUnique(bb, Pow2(n), Lsb(data, pos + n, bk - n), Lsb(data, pos, n));
  }

  /** The byte the input index selects is the next one of the repeated input. */
  ghost predicate InputOk(data: seq<byte>, inptr: nat, insize: nat, fetched: nat) {
    && data != []
    && (insize == 0 ==> inptr == 0 && fetched == 0)
    && (insize != 0 ==> insize == |data| && fetched > 0 && inptr == (fetched - 1) % |data| + 1)
  }

  lemma NextIndex(m: nat, n: nat)
    requires n > 0
    ensures m % n + 1 < n ==> (m + 1) % n == m % n + 1
    ensures m % n + 1 >= n ==> (m + 1) % n == 0
  {
    DivFacts(m, n);
    var q, r := m / n, m % n;
    if r + 1 < n {
      DivUnique(m + 1, n, q, r + 1);
    } else {
      assert (q + 1) * n == q * n + n;
      DivUnique(m + 1, n, q + 1, 0);
    }
  }

  class Inflater {
    const data: seq<byte>        // the compressed input
    var inptr: nat               // index of the next byte to be processed
    var insize: nat              // valid bytes in the input buffer
    var bb: nat                  // bit buffer
    var bk: nat                  // bits in the bit buffer
    const window: array<byte>    // sliding window
    var wp: nat                  // bytes in the window not yet flushed
    var output: seq<byte>        // flushed bytes
    ghost var fetched: nat       // bytes taken from the input
    ghost var hist: seq<byte>    // the window at the start, then everything produced
    ghost var base: seq<byte>    // flushed bytes at the start

    ghost predicate BitsOk()
      reads this`inptr, this`insize, this`fetched, this`bb, this`bk
    {
      && data != [] && InputOk(data, inptr, insize, fetched)
      && bk <= 8 * fetched && bk <= 23
      && bb == Lsb(data, 8 * fetched - bk, bk)
    }

    ghost predicate WindowOk()
      reads this`wp, this`output, this`hist, this`base, window
    {
      && window.Length == WSIZE && wp <= WSIZE
      && Mirrors(window[..], wp, hist)
      && output + window[..wp] == base + hist[WSIZE..]
    }

    ghost predicate OutputOk()
      reads this`wp, this`output, this`hist, this`base, window
    {
      WindowOk() && wp < WSIZE
    }

    /** The low `bk` bits of the bit buffer are the next unread input bits; flushed bytes followed by the used
        part of the window are what has been produced. */
    ghost predicate Valid()
      reads this, window
    {
      BitsOk() && OutputOk()
    }

    /** The bit position of the next unread bit. */
    ghost function Pos(): nat
      reads this`inptr, this`insize, this`fetched, this`bb, this`bk
      requires BitsOk()
    {
      8 * fetched - bk
    }

    constructor (input: seq<byte>, initial: seq<byte>)
      requires input != [] && |initial| == WSIZE
      ensures data == input && Valid() && fresh(window)
      ensures inptr == 0 && bk == 0 && wp == 0 && output == [] && base == [] && hist == initial
      ensures Pos() == 0
    {
      data := input;
      inptr, insize, bb, bk, wp, output := 0, 0, 0, 0, 0, [];
      fetched, hist, base := 0, initial, [];
      window := new byte[WSIZE](i requires 0 <= i < |initial| => initial[i]);
      new;
      assert window[..] == initial;
      assert initial[WSIZE..] == [];
    }

    method GetByte() returns (c: byte)
      requires InputOk(data, inptr, insize, fetched)
      modifies this`inptr, this`insize, this`fetched
      ensures InputOk(data, inptr, insize, fetched)
      ensures fetched == old(fetched) + 1 && c as nat == ByteAt(data, old(fetched))
    {
      if fetched > 0 { NextIndex(fetched - 1, |data|); }
      if inptr < insize {
        c := data[inptr];
        inptr := inptr + 1;
      } else {
        insize := |data|;
        inptr := 1;
        c := data[0];
      }
      fetched := fetched + 1;
    }

    /** Makes at least `n` bits available. */
    method NeedBits(n: nat)
      requires BitsOk() && n <= 16
      modifies this`inptr, this`insize, this`fetched, this`bb, this`bk
      ensures BitsOk() && bk >= n && Pos() == old(Pos())
    {
      hide Lsb, Pow2, ByteAt;
      while bk < n
        invariant BitsOk() && Pos() == old(Pos())
        decreases n - bk
      {
        AddByte(data, fetched, bb, bk);
        var c := GetByte();
        bb := bb + c as nat * Pow2(bk);
        bk := bk + 8;
      }
    }

    method DumpBits(n: nat)
      requires BitsOk() && n <= bk
      modifies this`bb, this`bk
      ensures BitsOk() && Pos() == old(Pos()) + n && bk == old(bk) - n
    {
      hide Lsb, Pow2, Quot, InputOk;
      DropBits(data, Pos(), bb, bk, n);
      bb := Quot(bb, Pow2(n));
      bk := bk - n;
    }

    /** Reads and removes `n` bits. */
    method ReadBits(n: nat) returns (v: nat)
      requires BitsOk() && n <= 16
      modifies this`inptr, this`insize, this`fetched, this`bb, this`bk
      ensures BitsOk() && Pos() == old(Pos()) + n && v == Lsb(data, old(Pos()), n)
    {
      hide Lsb, Pow2, InputOk;
      NeedBits(n);
      DropBits(data, Pos(), bb, bk, n);
      v := bb % Pow2(n);
      DumpBits(n);
    }

    // ---------- Output ----------

    /** Appends the used part of the window to the output and starts again at the front.  Then everything produced is in
        the output, and after a full window decoding can go on. */
    method Flush()
      requires WindowOk()
      modifies this`wp, this`output
      ensures wp == 0 && |hist| >= WSIZE && output == base + hist[WSIZE..]
      ensures old(wp) == WSIZE ==> OutputOk()
    {
      hide Mirrors;
      MirrorsSize(window[..], wp, hist);
      if wp == WSIZE { MirrorsWrap(window[..], hist); }
      output := output + window[..wp];
      wp := 0;
    }

    method Wrap()
      requires WindowOk()
      modifies this`wp, this`output
      ensures OutputOk() && wp == if old(wp) == WSIZE then 0 else old(wp)
    {
      hide Mirrors;
      if wp == WSIZE {
        Flush();
      }
    }

    method PutByte(c: byte)
      requires OutputOk()
      modifies window, this`wp, this`output, this`hist
      ensures OutputOk() && hist == old(hist) + [c]
    {
      hide Mirrors;
      ghost var win := window[..];
      MirrorsPut(win, wp, hist, c);
      MirrorsSize(win, wp, hist);
      window[wp] := c;
      assert window[..] == win[wp := c];
      assert window[..wp + 1] == win[..wp] + [c];
      assert (hist + [c])[WSIZE..] == hist[WSIZE..] + [c];
      Extend(output, win[..wp], base, hist[WSIZE..], [c]);
      wp := wp + 1;
      hist := hist + [c];
      Wrap();
    }

    /** Writes a block at the current window position. */
    method PutBlock(d: nat, n: nat, ghost s: seq<byte>)
      requires WindowOk() && wp + n <= WSIZE && d + n <= WSIZE && s == window[d..d + n]
      modifies window, this`wp, this`hist
      ensures WindowOk() && wp == old(wp) + n && hist == old(hist) + s
    {
      hide Mirrors;
      ghost var win := window[..];
      MirrorsSize(win, wp, hist);
      MirrorsBlock(win, wp, hist, s);
      Extend(output, win[..wp], base, hist[WSIZE..], s);
      MoveBlock(window, wp, d, n);
      assert window[..wp + n] == window[..][..wp + n] == win[..wp] + s;
      assert (hist + s)[WSIZE..] == hist[WSIZE..] + s;
      wp := wp + n;
      hist := hist + s;
    }

    /** Copies one byte at a time, so that bytes just written can be read again. */
    method CopyBytes(d: nat, n: nat, dist: nat)
      requires OutputOk() && n > 0 && 1 <= dist <= WSIZE && d == BackIndex(wp, dist)
      requires wp + n <= WSIZE && d + n <= WSIZE
      modifies window, this`wp, this`hist
      ensures WindowOk() && wp == old(wp) + n
      ensures |old(hist)| >= WSIZE && hist == CopyOut(old(hist), n, dist)
    {
      hide Mirrors, CopyOut;
      ghost var h0, w0 := hist, wp;
      MirrorsSize(window[..], wp, hist);
      var e, from := n, d;
      CopyNone(hist, dist);
      while e > 0
        invariant 0 <= e <= n && wp == w0 + (n - e) && from == d + (n - e)
        invariant WindowOk() && hist == CopyOut(h0, n - e, dist)
        invariant wp < WSIZE && from < WSIZE ==> from == BackIndex(wp, dist)
      {
        CopyStep(h0, n - e, dist);
        MirrorsBack(window[..], wp, hist, dist);
        PutBlock(from, 1, [window[from]]);
        from := from + 1;
        e := e - 1;
      }
    }

    /** Copies `n` bytes within the window: at once where the source does not run into the bytes being written,
        otherwise one at a time. */
    method CopyChunk(d: nat, n: nat, dist: nat)
      requires OutputOk() && n > 0 && 1 <= dist <= WSIZE && d == BackIndex(wp, dist)
      requires wp + n <= WSIZE && d + n <= WSIZE
      modifies window, this`wp, this`hist
      ensures WindowOk() && wp == old(wp) + n
      ensures |old(hist)| >= WSIZE && hist == CopyOut(old(hist), n, dist)
    {
      hide Mirrors, CopyOut;
      MirrorsSize(window[..], wp, hist);
      if d > wp || wp - d >= n {
        MirrorsSource(window[..], wp, hist, dist, n);
        CopyBlock(hist, n, dist);
        assert window[..][d..d + n] == window[d..d + n];
        PutBlock(d, n, window[d..d + n]);
      } else {
        CopyBytes(d, n, dist);
      }
    }

    /** Appends `n` bytes from `dist` bytes back: the copy is cut where source or destination meets the end of
        the window. */
    method CopyMatch(n: nat, dist: nat)
      requires OutputOk() && 1 <= dist <= WSIZE
      modifies window, this`wp, this`output, this`hist
      ensures OutputOk() && |old(hist)| >= WSIZE && hist == CopyOut(old(hist), n, dist)
    {
      hide Mirrors, CopyOut;
      ghost var h0 := hist;
      MirrorsSize(window[..], wp, hist);
      CopyNone(hist, dist);
      var left := n;
      var d := BackIndex(wp, dist);
      while left > 0
        invariant 0 <= left <= n && OutputOk() && hist == CopyOut(h0, n - left, dist)
        invariant d == BackIndex(wp, dist) || (d == WSIZE && BackIndex(wp, dist) == 0)
      {
        d := d % WSIZE;
        var top := WSIZE - (if d > wp then d else wp);
        var e := if top > left then left else top;
        MirrorsSize(window[..], wp, hist);
        CopySplit(h0, n - left, e, dist);
        left := left - e;
        CopyChunk(d, e, dist);
        d := d + e;
        Wrap();
      }
    }

    // ---------- Symbols ----------

    /** Looks the next code up, following links; the bits of the final entry are not dumped. */
    method Lookup(tables: seq<Table>, l: nat) returns (h: Huft)
      requires BitsOk() && Walk(tables, 0, l, data, Pos()).Found?
      modifies this`inptr, this`insize, this`fetched, this`bb, this`bk
      ensures BitsOk() && Walk(tables, 0, l, data, old(Pos())) == Found(h, Pos())
      ensures h.Code? ==> h.b <= bk
    {
      hide Lsb, Pow2, InputOk, Quot, Walk;
      ghost var found := Walk(tables, 0, l, data, Pos());
      var id: nat, bits: nat := 0, l;
      WalkStep(tables, id, bits, data, Pos());
      NeedBits(bits);
      DropBits(data, Pos(), bb, bk, bits);
      h := tables[id][bb % Pow2(bits)];
      while h.Link?
        invariant BitsOk() && |tables| > id && bits <= BMAX && bits <= bk
        invariant |tables[id]| > Lsb(data, Pos(), bits) && h == tables[id][Lsb(data, Pos(), bits)]
        invariant Walk(tables, id, bits, data, Pos()) == found
        decreases |tables| - id
      {
        WalkStep(tables, id, bits, data, Pos());
        DumpBits(h.b);
        id, bits := h.t, h.bits;
        WalkStep(tables, id, bits, data, Pos());
        NeedBits(bits);
        DropBits(data, Pos(), bb, bk, bits);
        h := tables[id][bb % Pow2(bits)];
      }
      WalkStep(tables, id, bits, data, Pos());
    }

    /** Decodes one symbol of the code with lengths `b` and dumps its bits, unless it is invalid. */
    method NextSymbol(tables: seq<Table>, l: nat, ghost b: seq<nat>, lists: Lists) returns (h: Huft)
      requires BitsOk() && Decodes(b, lists, tables, l)
      requires |lists.d| == |lists.e| && |b| <= lists.s + |lists.d|
      requires !Decode(b, data, Pos()).Garbage?
      modifies this`inptr, this`insize, this`fetched, this`bb, this`bk
      ensures BitsOk() && h.Code?
      ensures Decode(b, data, old(Pos())).Invalid? ==> h.e == 99
      ensures Decode(b, data, old(Pos())).Sym? ==>
                var sym := Decode(b, data, old(Pos())).sym;
                && sym < |b| && h == lists.Entry(sym, h.b)
                && (h.e != 99 ==> Pos() == old(Pos()) + b[sym])
    {
      hide Lsb, Pow2, InputOk, Quot, Walk, Decode, Decodes;
      SymbolFound(b, lists, tables, l, data, Pos());
      h := Lookup(tables, l);
      if h.e != 99 {
        DumpBits(h.b);
      }
    }

    // ---------- Blocks ----------

    /** Decodes a distance and copies `n` bytes from that far back. */
    method CopyToken(td: seq<Table>, bd: nat, n: nat, ghost dist: seq<nat>) returns (ok: bool)
      requires BitsOk() && OutputOk() && Decodes(dist, DistLists(), td, bd) && |dist| <= 30 && |hist| >= WSIZE
      requires MatchFrom(dist, data, Pos(), n, hist) != Undef
      modifies this`inptr, this`insize, this`fetched, this`bb, this`bk, this`wp, this`output, this`hist, window
      ensures BitsOk() && OutputOk()
      ensures old(MatchFrom(dist, data, Pos(), n, hist)) == if ok then Ok(Pos(), hist) else Fail(1)
    {
      hide Lsb, Pow2, InputOk, Walk, Decode, Decodes, WindowOk, CopyOut, DistLists, DistBase, DistExtra, Lists.Entry;
      ListsShape();
      ghost var pos, sym := Pos(), Decode(dist, data, Pos());
      var g := NextSymbol(td, bd, dist, DistLists());
      DistEntry(sym, g);
      if g.e == 99 {
        return false;
      }
      ghost var pos1 := Pos();
      var d := ReadBits(g.e);
      DistanceRange(data, pos1, sym.sym);
      CopyMatch(n, g.n + d);
      return true;
    }

    /** One round of the decoding loop: a literal, the end of the block, or a match. */
    method Token(tl: seq<Table>, td: seq<Table>, bl: nat, bd: nat,
                 ghost lit: seq<nat>, ghost dist: seq<nat>, ghost fuel: nat) returns (step: Step)
      requires BitsOk() && OutputOk() && Decodes(lit, LitLists(), tl, bl) && Decodes(dist, DistLists(), td, bd)
      requires |lit| <= 288 && |dist| <= 30 && fuel > 0 && |hist| >= WSIZE
      requires Codes(lit, dist, data, Pos(), hist, fuel) != Undef
      modifies this`inptr, this`insize, this`fetched, this`bb, this`bk, this`wp, this`output, this`hist, window
      ensures BitsOk() && OutputOk()
      ensures step == Continue ==> |hist| >= WSIZE
      ensures step == Continue ==>
                Codes(lit, dist, data, Pos(), hist, fuel - 1) == old(Codes(lit, dist, data, Pos(), hist, fuel))
      ensures step == EndOfBlock ==> old(Codes(lit, dist, data, Pos(), hist, fuel)) == Ok(Pos(), hist)
      ensures step == Bad ==> old(Codes(lit, dist, data, Pos(), hist, fuel)) == Fail(1)
    {
      hide Lsb, Pow2, InputOk, Walk, Decode, Decodes, WindowOk, CopyOut, MatchFrom, LitLists, DistLists, LenBase,
           LenExtra, Lists.Entry, Codes;
      ListsShape();
      CodesCase(lit, dist, data, Pos(), hist, fuel);
      ghost var pos, sym := Pos(), Decode(lit, data, Pos());
      var h := NextSymbol(tl, bl, lit, LitLists());
      LitEntry(sym, h);
      if h.e == 99 {
        return Bad;
      }
      if h.e == 16 {
        PutByte(h.n as byte);
        return Continue;
      }
      if h.e == 15 {
        return EndOfBlock;
      }
      var n := ReadBits(h.e);
      var ok := CopyToken(td, bd, h.n + n, dist);
      return if ok then Continue else Bad;
    }

    /** Decompresses the codes of one block. */
    method InflateCodes(tl: seq<Table>, td: seq<Table>, bl: nat, bd: nat,
                        ghost lit: seq<nat>, ghost dist: seq<nat>, ghost fuel: nat) returns (r: nat)
      requires BitsOk() && OutputOk() && Decodes(lit, LitLists(), tl, bl) && Decodes(dist, DistLists(), td, bd)
      requires |lit| <= 288 && |dist| <= 30 && |hist| >= WSIZE
      requires Codes(lit, dist, data, Pos(), hist, fuel) !in {Undef, More}
      modifies this`inptr, this`insize, this`fetched, this`bb, this`bk, this`wp, this`output, this`hist, window
      ensures BitsOk() && OutputOk()
      ensures old(Codes(lit, dist, data, Pos(), hist, fuel)) == if r == 0 then Ok(Pos(), hist) else Fail(r)
    {
      hide Decodes, InputOk, Lsb, WindowOk, Codes;
      ghost var spec, left := Codes(lit, dist, data, Pos(), hist, fuel), fuel;
      NoFuel(lit, dist, data, Pos(), hist);
      while true
        invariant BitsOk() && OutputOk() && |hist| >= WSIZE && left > 0
        invariant Codes(lit, dist, data, Pos(), hist, left) == spec
        decreases left
      {
        var step := Token(tl, td, bl, bd, lit, dist, left);
        if step == Bad {
          return 1;
        }
        if step == EndOfBlock {
          return 0;
        }
        left := left - 1;
        NoFuel(lit, dist, data, Pos(), hist);
      }
    }

    /** Skips to a byte boundary. */
    method AlignToByte()
      requires BitsOk()
      modifies this`bb, this`bk
      ensures BitsOk() && Pos() == NextByte(old(Pos())) && bk % 8 == 0
    {
      hide Lsb, InputOk;
      var n := bk % 8;
      BoundaryAhead(fetched, bk);
      DumpBits(n);
    }

    /** Copies a stored block. */
    method InflateStored() returns (r: nat)
      requires BitsOk() && OutputOk()
      modifies this`inptr, this`insize, this`fetched, this`bb, this`bk, this`wp, this`output, this`hist, window
      ensures BitsOk() && OutputOk()
      ensures old(Stored(data, Pos(), hist)) == if r == 0 then Ok(Pos(), hist) else Fail(r)
    {
      hide Lsb, InputOk, WindowOk, Bytes, ByteAt;
      AlignToByte();
      ghost var p, h0 := Pos(), hist;
      assert p % 8 == 0;
      var n := ReadBits(16);
      var m := ReadBits(16);
      if n + m != 65535 {
        return 1;
      }
      ghost var i := (p + 32) / 8;
      assert 8 * i == p + 32;
      CopyStored(n, i);
      return 0;
    }

    /** Copies `n` bytes of input to the output. */
    method CopyStored(n: nat, ghost i: nat)
      requires BitsOk() && OutputOk() && Pos() == 8 * i
      modifies this`inptr, this`insize, this`fetched, this`bb, this`bk, this`wp, this`output, this`hist, window
      ensures BitsOk() && OutputOk() && Pos() == 8 * (i + n) && hist == old(hist) + Bytes(data, i, n)
    {
      hide Lsb, InputOk, WindowOk, Bytes, ByteAt;
      var left := n;
      BytesStep(data, i, 0);
      while left > 0
        invariant 0 <= left <= n && BitsOk() && OutputOk()
        invariant Pos() == 8 * (i + (n - left)) && hist == old(hist) + Bytes(data, i, n - left)
      {
        left := left - 1;
        var c := ReadBits(8);
        ByteBits(data, i + (n - left - 1));
        BytesStep(data, i, n - left);
        ByteRange(data, i + (n - left - 1));
        PutByte(c as byte);
      }
    }

    /** Decompresses a block with the fixed codes. */
    method InflateFixed(ghost fuel: nat) returns (r: nat)
      requires BitsOk() && OutputOk() && |hist| >= WSIZE
      requires Codes(FixedLit(), FixedDist(), data, Pos(), hist, fuel) !in {Undef, More}
      modifies this`inptr, this`insize, this`fetched, this`bb, this`bk, this`wp, this`output, this`hist, window
      ensures BitsOk() && OutputOk()
      ensures old(Codes(FixedLit(), FixedDist(), data, Pos(), hist, fuel)) == if r == 0 then Ok(Pos(), hist) else Fail(r)
    {
      hide Lsb, InputOk, WindowOk, Codes, Decodes, Kraft, MaxLen, MinLen, Pow2, FixedLit, FixedDist, Sound, LitLists,
           DistLists;
      FixedSets();
      var l := FixedLit();
      var i, tl, bl := Build(l, LitLists(), 7);
      if i != 0 {
        return i;
      }
      l := FixedDist();
      var td, bd;
      i, td, bd := Build(l, DistLists(), 5);
      if i > 1 {
        return i;
      }
      r := InflateCodes(tl, td, bl, bd, FixedLit(), FixedDist(), fuel);
    }

    /** Reads the code lengths of the length code, as far as they are sent. */
    method ReadSentLens(ll: array<nat>, nb: nat)
      requires BitsOk() && ll.Length >= 19 && nb <= 19
      modifies this`inptr, this`insize, this`fetched, this`bb, this`bk, ll
      ensures BitsOk() && Pos() == old(Pos()) + 3 * nb
      ensures forall i :: 0 <= i < nb ==> ll[BorderAt(i)] == Lsb(data, old(Pos()) + 3 * i, 3)
    {
      hide Lsb, InputOk, BorderAt;
      ghost var pos := Pos();
      BorderValues();
      var j := 0;
      while j < nb
        invariant 0 <= j <= nb && BitsOk() && Pos() == pos + 3 * j
        invariant forall i :: 0 <= i < j ==> ll[BorderAt(i)] == Lsb(data, pos + 3 * i, 3)
      {
        var v := ReadBits(3);
        ll[BorderAt(j)] := v;
        j := j + 1;
      }
    }

    method ReadClLens(ll: array<nat>, nb: nat)
      requires BitsOk() && ll.Length >= 19 && nb <= 19
      modifies this`inptr, this`insize, this`fetched, this`bb, this`bk, ll
      ensures BitsOk() && Pos() == old(Pos()) + 3 * nb
      ensures ll[..19] == ClLens(data, old(Pos()), nb)
    {
      hide Lsb, InputOk, BorderAt, BorderIndex;
      ghost var pos := Pos();
      ReadSentLens(ll, nb);
      ClearRest(ll, nb);
      forall sym | 0 <= sym < 19 ensures ll[sym] == ClLen(data, pos, nb, sym) { BorderFound(sym); }
    }

    /** Decodes one symbol with a single lookup. */
    method NextLength(tl: seq<Table>, bl: nat, ghost cl: seq<nat>) returns (j: nat)
      requires BitsOk() && |cl| == 19 && bl == MaxLen(cl) && Decodes(cl, Lists(19, [], []), tl, bl)
      requires Decode(cl, data, Pos()).Sym?
      modifies this`inptr, this`insize, this`fetched, this`bb, this`bk
      ensures BitsOk() && Decode(cl, data, old(Pos())) == Sym(j) && j < 19 && Pos() == old(Pos()) + cl[j]
    {
      hide Lsb, Pow2, InputOk, Quot, Walk, Decode, Decodes, MaxLen;
      LengthFound(cl, tl, bl, data, Pos());
      NeedBits(bl);
      DropBits(data, Pos(), bb, bk, bl);
      var h := tl[0][bb % Pow2(bl)];
      DumpBits(h.b);
      j := h.n;
    }

    /** Reads `n` run-length coded code lengths. */
    method ReadLengths(tl: seq<Table>, bl: nat, ghost cl: seq<nat>, n: nat, ll: array<nat>) returns (ok: bool)
      requires BitsOk() && |cl| == 19 && bl == MaxLen(cl) && Decodes(cl, Lists(19, [], []), tl, bl)
      requires n <= ll.Length && ReadLens(cl, data, Pos(), n, [], 0) != LensUndef
      modifies this`inptr, this`insize, this`fetched, this`bb, this`bk, ll
      ensures BitsOk()
      ensures old(ReadLens(cl, data, Pos(), n, [], 0)) == if ok then Lens(Pos(), ll[..n]) else LensFail(1)
    {
      hide Lsb, InputOk, Decode, Decodes, ReadLens, MaxLen;
      ghost var spec := ReadLens(cl, data, Pos(), n, [], 0);
      var i, last := 0, 0;
      assert ll[..0] == [];
      while i < n
        invariant 0 <= i <= n && last <= 15 && BitsOk()
        invariant forall k :: 0 <= k < i ==> ll[k] <= 15
        invariant ReadLens(cl, data, Pos(), n, ll[..i], last) == spec
        decreases n - i
      {
        LensCase(cl, data, Pos(), n, ll[..i], last);
        var j := NextLength(tl, bl, cl);
        if j < 16 {
          assert ll[..i] + [j] == ll[..i][..i] + [j];
          ghost var acc := ll[..i];
          ll[i] := j;
          assert ll[..i + 1] == acc + [j];
          i := i + 1;
          last := j;
        } else {
          var extra := if j == 16 then 2 else if j == 17 then 3 else 7;
          var rep := ReadBits(extra);
          rep := rep + if j == 18 then 11 else 3;
          if i + rep > n {
            return false;
          }
          last := if j == 16 then last else 0;
          ghost var acc := ll[..i];
          FillRun(ll, i, last, rep);
          assert ll[..i + rep] == acc + Run(last, rep);
          i := i + rep;
        }
      }
      LensCase(cl, data, Pos(), n, ll[..i], last);
      return true;
    }

    /** Builds the two codes of a dynamic block and decompresses it. */
    method InflateWithLens(lit: seq<nat>, dist: seq<nat>, ghost fuel: nat) returns (r: nat)
      requires BitsOk() && OutputOk() && |hist| >= WSIZE
      requires ShortLengths(lit, 15) && ShortLengths(dist, 15) && 1 <= |lit| <= 286 && 1 <= |dist| <= 30
      requires WithCodes(lit, dist, data, Pos(), hist, fuel) !in {Undef, More}
      modifies this`inptr, this`insize, this`fetched, this`bb, this`bk, this`wp, this`output, this`hist, window
      ensures BitsOk() && OutputOk()
      ensures old(WithCodes(lit, dist, data, Pos(), hist, fuel)) == if r == 0 then Ok(Pos(), hist) else Fail(r)
    {
      hide Lsb, InputOk, WindowOk, Codes, Decodes, Kraft, MaxLen, MinLen, Pow2, Sound, Width, LitLists, DistLists,
           AllZero;
      var i, tl, bl := Build(lit, LitLists(), 9);
      if i != 0 {
        return i;
      }
      var td, bd;
      i, td, bd := Build(dist, DistLists(), 6);
      if i != 0 {
        return i;
      }
      if !AllZero(lit) { LitSound(lit); }
      if !AllZero(dist) { DistSound(dist); }
      r := InflateCodes(tl, td, bl, bd, lit, dist, fuel);
    }

    /** Reads the code lengths of a dynamic block and decompresses it. */
    method InflateBody(nl: nat, nd: nat, nb: nat, ghost fuel: nat) returns (r: nat)
      requires BitsOk() && OutputOk() && |hist| >= WSIZE
      requires 257 <= nl <= 286 && 1 <= nd <= 30 && nb <= 19
      requires DynamicBody(data, Pos(), nl, nd, nb, hist, fuel) !in {Undef, More}
      modifies this`inptr, this`insize, this`fetched, this`bb, this`bk, this`wp, this`output, this`hist, window
      ensures BitsOk() && OutputOk()
      ensures old(DynamicBody(data, Pos(), nl, nd, nb, hist, fuel)) == if r == 0 then Ok(Pos(), hist) else Fail(r)
    {
      hide Lsb, InputOk, WindowOk, Codes, Decodes, Kraft, MaxLen, MinLen, Pow2, Sound, Width, AllZero, ClLens,
           ReadLens, WithCodes;
      ghost var pos := Pos();
      var ll := new nat[286 + 30];
      ReadClLens(ll, nb);
      var cl := ll[..19];
      ClLensBound(data, pos, nb);
      ClSound(cl);
      var i, tl, bl := Build(cl, Lists(19, [], []), 7);
      if i != 0 {
        return i;
      }
      var ok := ReadLengths(tl, bl, cl, nl + nd, ll);
      if !ok {
        return 1;
      }
      var lens := ll[..nl + nd];
      LensShort(cl, data, pos + 3 * nb, nl + nd, lens);
      r := InflateWithLens(lens[..nl], lens[nl..], fuel);
    }

    /** Decompresses a block with dynamic codes. */
    method InflateDynamic(ghost fuel: nat) returns (r: nat)
      requires BitsOk() && OutputOk() && |hist| >= WSIZE
      requires Dynamic(data, Pos(), hist, fuel) !in {Undef, More}
      modifies this`inptr, this`insize, this`fetched, this`bb, this`bk, this`wp, this`output, this`hist, window
      ensures BitsOk() && OutputOk()
      ensures old(Dynamic(data, Pos(), hist, fuel)) == if r == 0 then Ok(Pos(), hist) else Fail(r)
    {
      hide Lsb, InputOk, WindowOk, DynamicBody;
      ghost var pos := Pos();
      var nl := ReadBits(5);
      nl := nl + 257;
      var nd := ReadBits(5);
      nd := nd + 1;
      var nb := ReadBits(4);
      nb := nb + 4;
      if nl > 286 || nd > 30 {
        return 1;
      }
      FourBits(data, pos + 10);
      r := InflateBody(nl, nd, nb, fuel);
    }

    /** Decompresses one block. */
    method InflateBlock(ghost fuel: nat) returns (r: nat, last: bool)
      requires BitsOk() && OutputOk() && |hist| >= WSIZE
      requires Block(data, Pos(), hist, fuel) !in {Undef, More}
      modifies this`inptr, this`insize, this`fetched, this`bb, this`bk, this`wp, this`output, this`hist, window
      ensures BitsOk() && OutputOk()
      ensures old(Block(data, Pos(), hist, fuel)) == if r == 0 then Ok(Pos(), hist) else Fail(r)
      ensures last == (Lsb(data, old(Pos()), 1) != 0)
    {
      hide Lsb, InputOk, WindowOk, Codes, Dynamic, Stored, FixedLit, FixedDist;
      var e := ReadBits(1);
      last := e != 0;
      var t := ReadBits(2);
      if t == 2 {
        r := InflateDynamic(fuel);
        return;
      }
      if t == 0 {
        r := InflateStored();
        return;
      }
      if t == 1 {
        r := InflateFixed(fuel);
        return;
      }
      r := 2;
    }

    /** Decompresses a whole stream.  Whatever the stream, the result is the one the specification gives it; on
        success the output is what the stream produced, and unless input was read past its end the input index is
        left at the first byte boundary after the last bit used. */
    method InflateAll(ghost blocks: nat, ghost fuel: nat) returns (r: nat)
      requires data != [] && InputOk(data, inptr, insize, fetched) && window.Length == WSIZE
      requires Blocks(data, 8 * fetched, window[..], blocks, fuel) !in {Undef, More}
      modifies this, window
      ensures var spec := old(Blocks(data, 8 * fetched, window[..], blocks, fuel));
              if r == 0 then
                && spec.Ok? && output == old(output) + spec.out[WSIZE..]
                && (fetched <= |data| ==> inptr == (spec.pos + 7) / 8)
              else spec == Fail(r)
    {
      hide Lsb, Block, Blocks, InputOk, Mirrors;
      ghost var spec, left := Blocks(data, 8 * fetched, window[..], blocks, fuel), blocks;
      wp, bk, bb := 0, 0, 0;
      hist, base := window[..], output;
      EmptyBuffer(data, fetched);
      WindowMirrorsItself(hist);
      assert hist[WSIZE..] == [] && window[..0] == [];
      var last := false;
      NoBlocks(data, Pos(), hist, fuel);
      while !last
        invariant BitsOk() && OutputOk() && |hist| >= WSIZE && base == old(output)
        invariant !last ==> left > 0 && Blocks(data, Pos(), hist, left, fuel) == spec
        invariant last ==> spec == Ok(Pos(), hist)
        decreases !last, left
      {
        BlocksCase(data, Pos(), hist, left, fuel);
        r, last := InflateBlock(fuel);
        if r != 0 {
          return;
        }
        left := left - 1;
        NoBlocks(data, Pos(), hist, fuel);
      }
      ghost var pos := Pos();
      IndexIsCount(data, inptr, insize, fetched);
      UndoLookahead();
      UndoneIndex(fetched, 8 * fetched - pos, pos);
      Flush();
      r := 0;
    }

    /** Returns whole bytes that were read ahead. */
    method UndoLookahead()
      modifies this`bk, this`inptr
      ensures bk == old(bk) % 8
      ensures old(inptr) >= old(bk) / 8 ==> inptr == old(inptr) - old(bk) / 8
    {
      while bk >= 8
        invariant bk % 8 == old(bk) % 8 && bk <= old(bk)
        invariant old(inptr) >= old(bk) / 8 ==> inptr == old(inptr) - (old(bk) / 8 - bk / 8)
      {
        bk := bk - 8;
        inptr := if inptr == 0 then 0xFFFF_FFFF else inptr - 1;
      }
    }
  }

  lemma EmptyBuffer(data: seq<byte>, fetched: nat)
    requires data != []
    ensures Lsb(data, 8 * fetched, 0) == 0
  {
  }

  lemma WindowMirrorsItself(win: seq<byte>)
    requires |win| == WSIZE
    ensures Mirrors(win, 0, win)
  {
  }

  lemma NoBlocks(data: seq<byte>, pos: nat, out: seq<byte>, fuel: nat)
    requires data != [] && |out| >= WSIZE
    ensures Blocks(data, pos, out, 0, fuel) == More
  {
  }

  lemma BlocksCase(data: seq<byte>, pos: nat, out: seq<byte>, blocks: nat, fuel: nat)
    requires data != [] && |out| >= WSIZE && blocks > 0
    ensures var r := Block(data, pos, out, fuel);
            Blocks(data, pos, out, blocks, fuel) ==
            if r.Ok? && Lsb(data, pos, 1) == 0 then Blocks(data, r.pos, r.out, blocks - 1, fuel) else r
  {
    hide Block, Lsb;
  }

  /** Until the input is read past its end the input index counts the bytes read. */
  lemma IndexIsCount(data: seq<byte>, inptr: nat, insize: nat, fetched: nat)
    requires InputOk(data, inptr, insize, fetched)
    ensures fetched <= |data| ==> inptr == fetched
  {
    if 0 < fetched <= |data| { DivUnique(fetched - 1, |data|, 0, fetched - 1); }
  }

  lemma UndoneIndex(fetched: nat, bk: nat, pos: nat)
    requires bk <= 8 * fetched && pos == 8 * fetched - bk
    ensures fetched >= bk / 8 && fetched - bk / 8 == (pos + 7) / 8
  {
  }

  // ---------- Table widths ----------

  ghost predicate ShortLengths(b: seq<nat>, max: nat) {
    forall i :: 0 <= i < |b| ==> b[i] <= max
  }

  lemma WidthBounds(b: seq<nat>, m: nat, max: nat)
    requires b != [] && ShortLengths(b, max)
    ensures MaxLen(b) <= max && (Width(b, m) == MaxLen(b) || m <= Width(b, m) <= MaxLen(b))
  {
  }

  /** Every literal/length code of a dynamic block gets sound tables. */
  lemma LitSound(lit: seq<nat>)
    requires lit != [] && ShortLengths(lit, 15)
    ensures ValidLengths(lit) && Sound(lit, Width(lit, 9))
  {
    hide MaxLen, MinLen, Kraft, Width;
    WidthBounds(lit, 9, 15);
  }

  /** Every accepted distance code of a dynamic block gets sound tables: more than two levels would take more
      codes than there are distances. */
  lemma DistSound(dist: seq<nat>)
    requires 1 <= |dist| <= 30 && ShortLengths(dist, 15)
    ensures ValidLengths(dist)
    ensures Verdict(dist) == 0 && !AllZero(dist) ==> Sound(dist, Width(dist, 6))
  {
    hide MaxLen, MinLen, Kraft, Width;
    WidthBounds(dist, 6, 15);
    if Width(dist, 6) >= 6 {
      Pow2Mono(6, Width(dist, 6));
      SmallPowers();
    }
  }

  /** The length code is decoded with a single lookup. */
  lemma ClSound(cl: seq<nat>)
    requires |cl| == 19 && ShortLengths(cl, 7)
    ensures ValidLengths(cl) && Width(cl, 7) == MaxLen(cl) && Sound(cl, MaxLen(cl))
    ensures AllZero(cl) ==> MaxLen(cl) == 0
  {
    hide MinLen, Kraft;
    WidthBounds(cl, 7, 7);
  }

  lemma FourBits(data: seq<byte>, pos: nat)
    requires data != []
    ensures Lsb(data, pos, 4) <= 15
  {
    hide Lsb;
    LsbBound(data, pos, 4);
    SmallPowers();
  }

  lemma LensShort(cl: seq<nat>, data: seq<byte>, pos: nat, n: nat, lens: seq<nat>)
    requires data != []
    requires ReadLens(cl, data, pos, n, [], 0).Lens? && ReadLens(cl, data, pos, n, [], 0).lens == lens
    ensures ShortLengths(lens, 15)
  {
  }

  method FillRun(ll: array<nat>, i: nat, len: nat, n: nat)
    requires i + n <= ll.Length
    modifies ll
    ensures ll[..i] == old(ll[..i]) && ll[i..i + n] == Run(len, n)
  {
    var j := 0;
    while j < n
      invariant 0 <= j <= n
      invariant forall k :: 0 <= k < i ==> ll[k] == old(ll[k])
      invariant forall k :: i <= k < i + j ==> ll[k] == len
    {
      ll[i + j] := len;
      j := j + 1;
    }
  }

  /** Clears the lengths of the length code that are not sent. */
  method ClearRest(ll: array<nat>, nb: nat)
    requires ll.Length >= 19 && nb <= 19
    modifies ll
    ensures forall i :: 0 <= i < 19 ==> ll[BorderAt(i)] == if i < nb then old(ll[BorderAt(i)]) else 0
  {
    hide BorderAt;
    BorderValues();
    var j := nb;
    while j < 19
      invariant nb <= j <= 19
      invariant forall i :: 0 <= i < 19 ==> ll[BorderAt(i)] == if nb <= i < j then 0 else old(ll[BorderAt(i)])
    {
      ll[BorderAt(j)] := 0;
      j := j + 1;
    }
  }

  lemma BorderValues()
    ensures forall i, j :: 0 <= i < j < 19 ==> BorderAt(i) != BorderAt(j)
  {
  }

  lemma BorderFound(sym: nat)
    requires sym < 19
    ensures BorderIndex(sym, 0) < 19 && BorderAt(BorderIndex(sym, 0)) == sym
  {
    assert Border[3] == 0 && Border[17] == 1 && Border[15] == 2 && Border[13] == 3 && Border[11] == 4;
    assert Border[9] == 5 && Border[7] == 6 && Border[5] == 7 && Border[4] == 8 && Border[6] == 9;
    assert Border[8] == 10 && Border[10] == 11 && Border[12] == 12 && Border[14] == 13 && Border[16] == 14;
    assert Border[18] == 15 && Border[0] == 16 && Border[1] == 17 && Border[2] == 18;
  }

  lemma LengthFound(cl: seq<nat>, tl: seq<Table>, bl: nat, data: seq<byte>, pos: nat)
    requires data != [] && |cl| == 19 && bl == MaxLen(cl) && Decodes(cl, Lists(19, [], []), tl, bl)
    requires Decode(cl, data, pos).Sym?
    ensures bl <= BMAX && tl != [] && |tl[0]| > Lsb(data, pos, bl)
    ensures var h, j := tl[0][Lsb(data, pos, bl)], Decode(cl, data, pos).sym;
            j < 19 && h.Code? && h.n == j && h.b == cl[j] && h.b <= bl
  {
    hide Msb, Canon, Lsb, MaxLen;
    assert DecodesAt(cl, Lists(19, [], []), tl, bl, data, pos);
    assert !AllZero(cl);
    WalkStep(tl, 0, bl, data, pos);
  }

  lemma LensCase(cl: seq<nat>, data: seq<byte>, pos: nat, n: nat, acc: seq<nat>, last: nat)
    requires data != [] && |cl| == 19
    requires |acc| <= n && last <= 15 && (forall i :: 0 <= i < |acc| ==> acc[i] <= 15)
    requires ReadLens(cl, data, pos, n, acc, last) != LensUndef
    ensures var r, sym := ReadLens(cl, data, pos, n, acc, last), Decode(cl, data, pos);
            && (|acc| == n ==> r == Lens(pos, acc))
            && (|acc| < n ==>
                  && sym.Sym? && sym.sym < 19
                  && var j, p := sym.sym, pos + cl[sym.sym];
                     && (j < 16 ==> r == ReadLens(cl, data, p, n, acc + [j], j))
                     && (j >= 16 ==>
                           var extra := if j == 16 then 2 else if j == 17 then 3 else 7;
                           var rep := (if j == 18 then 11 else 3) + Lsb(data, p, extra);
                           var len := if j == 16 then last else 0;
                           if |acc| + rep > n then r == LensFail(1)
                           else r == ReadLens(cl, data, p + extra, n, acc + Run(len, rep), len)))
  {
    hide Lsb;
  }

  lemma BoundaryAhead(fetched: nat, bk: nat)
    requires bk <= 8 * fetched
    ensures NextByte(8 * fetched - bk) == 8 * fetched - bk + bk % 8
    ensures (bk - bk % 8) % 8 == 0
  {
  }

  lemma BytesStep(data: seq<byte>, i: nat, n: nat)
    requires data != []
    ensures Bytes(data, i, 0) == []
    ensures n > 0 ==> Bytes(data, i, n) == Bytes(data, i, n - 1) + [ByteAt(data, i + n - 1) as byte]
  {
  }

  lemma ByteRange(data: seq<byte>, i: nat)
    requires data != []
    ensures ByteAt(data, i) < 256
  {
  }

  // ---------- The fixed codes ----------

  lemma {:induction false} KraftRun(a: seq<nat>, len: nat, n: nat)
    requires ValidLengths(a) && 0 < len <= BMAX
    ensures ValidLengths(a + Run(len, n)) && Kraft(a + Run(len, n)) == Kraft(a) + n * Pow2(BMAX - len)
    decreases n
  {
    hide Pow2, Kraft, ValidLengths, Run;
    RunSnoc(a, len, n);
    if n > 0 {
      KraftRun(a, len, n - 1);
      KraftSnoc(a + Run(len, n - 1), len);
      OneMore(n, Pow2(BMAX - len));
    }
  }

  lemma RunSnoc(a: seq<nat>, len: nat, n: nat)
    ensures a + Run(len, n) == if n == 0 then a else (a + Run(len, n - 1)) + [len]
  {
  }

  lemma KraftSnoc(b: seq<nat>, len: nat)
    requires ValidLengths(b) && 0 < len <= BMAX
    ensures ValidLengths(b + [len]) && Kraft(b + [len]) == Kraft(b) + Pow2(BMAX - len)
  {
    hide Pow2;
    assert (b + [len])[..|b|] == b;
  }

  lemma OneMore(n: nat, p: nat)
    requires n > 0
    ensures n * p == (n - 1) * p + p
  {
  }

  /** The fixed literal code is complete; the fixed distance code lacks its last two codes. */
  lemma FixedSets()
    ensures |FixedLit()| == 288 && ValidLengths(FixedLit()) && !AllZero(FixedLit())
    ensures Kraft(FixedLit()) == Pow2(BMAX) && MaxLen(FixedLit()) == 9
    ensures Width(FixedLit(), 7) == 7 && Sound(FixedLit(), 7)
    ensures |FixedDist()| == 30 && ValidLengths(FixedDist()) && !AllZero(FixedDist())
    ensures Kraft(FixedDist()) < Pow2(BMAX) && MaxLen(FixedDist()) == 5
    ensures Width(FixedDist(), 5) == 5 && Sound(FixedDist(), 5)
  {
    hide *;
    FixedLitSet();
    FixedDistSet();
  }

  lemma FixedLitSet()
    ensures |FixedLit()| == 288 && ValidLengths(FixedLit()) && !AllZero(FixedLit())
    ensures Kraft(FixedLit()) == Pow2(BMAX) && MaxLen(FixedLit()) == 9
    ensures Width(FixedLit(), 7) == 7 && Sound(FixedLit(), 7)
  {
    hide Kraft, MaxLen, MinLen;
    var e: seq<nat> := [];
    var b := FixedLit();
    KraftEmpty();
    KraftRun(e, 8, 144);
    KraftRun(e + Run(8, 144), 9, 112);
    KraftRun(e + Run(8, 144) + Run(9, 112), 7, 24);
    KraftRun(e + Run(8, 144) + Run(9, 112) + Run(7, 24), 8, 8);
    assert e + Run(8, 144) + Run(9, 112) + Run(7, 24) + Run(8, 8) == b;
    SmallPowers();
    assert b[0] == 8 && b[144] == 9 && b[256] == 7;
  }

  lemma FixedDistSet()
    ensures |FixedDist()| == 30 && ValidLengths(FixedDist()) && !AllZero(FixedDist())
    ensures Kraft(FixedDist()) < Pow2(BMAX) && MaxLen(FixedDist()) == 5
    ensures Width(FixedDist(), 5) == 5 && Sound(FixedDist(), 5)
  {
    hide Kraft, MaxLen, MinLen;
    var e: seq<nat> := [];
    KraftEmpty();
    SmallPowers();
    var d := FixedDist();
    KraftRun(e, 5, 30);
    assert e + Run(5, 30) == d;
    assert d[0] == 5;
  }

  lemma KraftEmpty()
    ensures Kraft([]) == 0
  {
  }

  datatype Step = Continue | EndOfBlock | Bad

  function LitLists(): Lists { Lists(257, CplBase, CplExtra) }

  function DistLists(): Lists { Lists(0, CpdBase, CpdExtra) }

  lemma ListsShape()
    ensures |LitLists().d| == |LitLists().e| && LitLists().s + |LitLists().d| == 288
    ensures |DistLists().d| == |DistLists().e| && DistLists().s + |DistLists().d| == 30
  {
  }

  lemma LitEntry(sym: Symbol, h: Huft)
    requires h.Code? && !sym.Garbage?
    requires sym.Invalid? ==> h.e == 99
    requires sym.Sym? ==> sym.sym < 288 && h == LitLists().Entry(sym.sym, h.b)
    ensures h.e == 99 <==> sym.Invalid? || sym.sym - 257 >= 29
    ensures h.e == 16 <==> sym.Sym? && sym.sym < 256
    ensures h.e == 16 ==> h.n == sym.sym
    ensures h.e == 15 <==> sym.Sym? && sym.sym == 256
    ensures h.e != 99 && h.e != 16 && h.e != 15 ==>
              sym.Sym? && 0 <= sym.sym - 257 < 29 && h.e == LenExtra(sym.sym - 257) <= 5 && h.n == LenBase(sym.sym - 257)
  {
    hide LitLists, Lists.Entry, LenBase, LenExtra;
    if sym.Sym? {
      LitListEntry(sym.sym, h.b);
      if sym.sym >= 257 { LengthExtra(sym.sym - 257); }
    }
  }

  lemma LitListEntry(s: nat, b: nat)
    requires s < 288
    ensures LitLists().Entry(s, b) ==
            if s < 256 then Code(16, b, s) else if s == 256 then Code(15, b, s)
            else Code(LenExtra(s - 257), b, LenBase(s - 257))
  {
    assert |CplBase| == 31 && |CplExtra| == 31;
  }

  lemma LengthExtra(i: nat)
    requires i < 31
    ensures if i < 29 then LenExtra(i) <= 5 else LenExtra(i) == 99
  {
  }

  lemma DistEntry(sym: Symbol, h: Huft)
    requires h.Code? && !sym.Garbage?
    requires sym.Invalid? ==> h.e == 99
    requires sym.Sym? ==> sym.sym < 30 && h == DistLists().Entry(sym.sym, h.b)
    ensures h.e == 99 <==> sym.Invalid?
    ensures sym.Sym? ==> h.e == DistExtra(sym.sym) <= 13 && h.n == DistBase(sym.sym)
  {
    hide Pow2;
    if sym.Sym? {
      DistanceTable(sym.sym);
      DistListEntry(sym.sym, h.b);
    }
  }

  lemma DistListEntry(t: nat, b: nat)
    requires t < 30
    ensures DistLists().Entry(t, b) == Code(DistExtra(t), b, DistBase(t))
  {
    assert |CpdBase| == 30 && |CpdExtra| == 30;
  }

  /** One unfolding of the specification. */
  lemma CodesCase(lit: seq<nat>, dist: seq<nat>, data: seq<byte>, pos: nat, out: seq<byte>, fuel: nat)
    requires data != [] && |out| >= WSIZE && fuel > 0
    ensures var r, sym := Codes(lit, dist, data, pos, out, fuel), Decode(lit, data, pos);
            && (sym.Garbage? ==> r == Undef)
            && (sym.Invalid? ==> r == Fail(1))
            && (sym.Sym? && sym.sym < |lit| ==>
                  var s, p := sym.sym, pos + lit[sym.sym];
                  && (s < 256 ==> r == Codes(lit, dist, data, p, out + [s as byte], fuel - 1))
                  && (s == 256 ==> r == Ok(p, out))
                  && (s > 256 ==>
                        var m := Match(dist, data, p, s, out);
                        r == if m.Ok? then Codes(lit, dist, data, m.pos, m.out, fuel - 1) else m))
  {
    hide Decode, Match;
  }

  lemma NoFuel(lit: seq<nat>, dist: seq<nat>, data: seq<byte>, pos: nat, out: seq<byte>)
    requires data != [] && |out| >= WSIZE
    ensures Codes(lit, dist, data, pos, out, 0) == More
  {
  }

  lemma WalkStep(tables: seq<Table>, id: nat, bits: nat, data: seq<byte>, at: nat)
    requires data != [] && Walk(tables, id, bits, data, at).Found?
    ensures |tables| > id && bits <= BMAX && |tables[id]| > Lsb(data, at, bits)
    ensures var h := tables[id][Lsb(data, at, bits)];
            if h.Link? then
              h.b <= bits && id < h.t &&
              Walk(tables, id, bits, data, at) == Walk(tables, h.t, h.bits, data, at + h.b)
            else
              (h.Code? ==> h.b <= bits) && Walk(tables, id, bits, data, at) == Found(h, at)
  {
    hide Lsb;
  }

  /** What correct tables return for the symbol that stands in the stream. */
  lemma SymbolFound(b: seq<nat>, lists: Lists, tables: seq<Table>, l: nat, data: seq<byte>, pos: nat)
    requires data != [] && Decodes(b, lists, tables, l) && !Decode(b, data, pos).Garbage?
    requires |lists.d| == |lists.e| && |b| <= lists.s + |lists.d|
    ensures var r := Walk(tables, 0, l, data, pos);
            && r.Found? && r.h.Code?
            && (Decode(b, data, pos).Invalid? ==> r.h.e == 99)
            && (Decode(b, data, pos).Sym? ==>
                  var sym := Decode(b, data, pos).sym;
                  sym < |b| && r.h == lists.Entry(sym, r.h.b) && r.at + r.h.b == pos + b[sym])
  {
    hide Walk, Msb, Canon;
    assert DecodesAt(b, lists, tables, l, data, pos);
  }

  /** memcpy within an array. */
  method MoveBlock(a: array<byte>, w: nat, d: nat, n: nat)
    requires w + n <= a.Length && d + n <= a.Length
    modifies a
    ensures a[..] == old(a[..w]) + old(a[d..d + n]) + old(a[w + n..])
  {
    forall i | 0 <= i < n { a[w + i] := a[d + i]; }
  }

  lemma MirrorsSize(win: seq<byte>, w: nat, h: seq<byte>)
    requires Mirrors(win, w, h)
    ensures |h| >= WSIZE && |win| == WSIZE
  {
  }

  lemma Extend(out: seq<byte>, a: seq<byte>, base: seq<byte>, h: seq<byte>, s: seq<byte>)
    requires out + a == base + h
    ensures out + (a + s) == base + (h + s)
  {
    assert out + (a + s) == (out + a) + s;
    assert base + (h + s) == (base + h) + s;
  }

  lemma CopyNone(h: seq<byte>, dist: nat)
    requires 1 <= dist <= |h|
    ensures CopyOut(h, 0, dist) == h
  {
  }

  lemma CopyStep(h: seq<byte>, n: nat, dist: nat)
    requires 1 <= dist <= |h|
    ensures var g := CopyOut(h, n, dist); CopyOut(h, n + 1, dist) == g + [g[|g| - dist]]
  {
    hide CopyOut;
    CopySplit(h, n, 1, dist);
    CopyOne(CopyOut(h, n, dist), dist);
  }
}
