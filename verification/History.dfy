/** The circular window holds the last 32 KiB of the history. */
module History {
  import opened Octets
  import opened InflateSpec

  /** With `w` the next position to write, the window up to `w` holds the newest bytes and the rest the oldest. */
  ghost predicate Mirrors(win: seq<byte>, w: nat, h: seq<byte>) {
    && |win| == WSIZE && w <= WSIZE && |h| >= WSIZE
    && (forall i :: 0 <= i < w ==> win[i] == h[|h| - w + i])
    && (forall i :: w <= i < WSIZE ==> win[i] == h[|h| - w - WSIZE + i])
  }

  lemma MirrorsWrap(win: seq<byte>, h: seq<byte>)
    requires Mirrors(win, WSIZE, h)
    ensures Mirrors(win, 0, h)
  {
  }

  /** The window position of the byte `dist` back. */
  function BackIndex(w: nat, dist: nat): (d: nat)
    requires w < WSIZE && 1 <= dist <= WSIZE
    ensures d < WSIZE
  {
    if dist <= w then w - dist else w + WSIZE - dist
  }

  lemma MirrorsBack(win: seq<byte>, w: nat, h: seq<byte>, dist: nat)
    requires Mirrors(win, w, h) && w < WSIZE && 1 <= dist <= WSIZE
    ensures win[BackIndex(w, dist)] == h[|h| - dist]
  {
  }

  lemma MirrorsBlock(win: seq<byte>, w: nat, h: seq<byte>, s: seq<byte>)
    requires Mirrors(win, w, h) && w + |s| <= WSIZE
    ensures Mirrors(win[..w] + s + win[w + |s|..], w + |s|, h + s)
  {
    var win', h', w' := win[..w] + s + win[w + |s|..], h + s, w + |s|;
    forall i | 0 <= i < w' ensures win'[i] == h'[|h'| - w' + i] {
      if i < w { assert win'[i] == win[i]; }
    }
    forall i | w' <= i < WSIZE ensures win'[i] == h'[|h'| - w' - WSIZE + i] {
      assert win'[i] == win[i];
    }
  }

  lemma MirrorsPut(win: seq<byte>, w: nat, h: seq<byte>, c: byte)
    requires Mirrors(win, w, h) && w < WSIZE
    ensures Mirrors(win[w := c], w + 1, h + [c])
  {
    MirrorsBlock(win, w, h, [c]);
    assert win[w := c] == win[..w] + [c] + win[w + 1..];
  }

  // ---------- Copying in pieces ----------

  lemma {:induction false} CopySplit(h: seq<byte>, a: nat, b: nat, dist: nat)
    requires 1 <= dist <= |h|
    ensures CopyOut(h, a + b, dist) == CopyOut(CopyOut(h, a, dist), b, dist)
    decreases a
  {
    if a > 0 { CopySplit(h + [h[|h| - dist]], a - 1, b, dist); }
  }

  lemma CopyOne(h: seq<byte>, dist: nat)
    requires 1 <= dist <= |h|
    ensures CopyOut(h, 1, dist) == h + [h[|h| - dist]]
  {
    assert CopyOut(h + [h[|h| - dist]], 0, dist) == h + [h[|h| - dist]];
  }

  /** A piece no longer than the distance is one block of the history. */
  lemma {:induction false} CopyBlock(h: seq<byte>, n: nat, dist: nat)
    requires n <= dist && 1 <= dist <= |h|
    ensures CopyOut(h, n, dist) == h + h[|h| - dist..|h| - dist + n]
    decreases n
  {
    if n == 0 {
      assert h + h[|h| - dist..|h| - dist] == h;
    } else {
      CopySplit(h, n - 1, 1, dist);
      CopyBlock(h, n - 1, dist);
      var g := CopyOut(h, n - 1, dist);
      CopyOne(g, dist);
      assert g[|g| - dist] == h[|h| - dist + n - 1];
      assert h[|h| - dist..|h| - dist + n] == h[|h| - dist..|h| - dist + n - 1] + [h[|h| - dist + n - 1]];
    }
  }

  /** The source bytes of a piece that does not wrap, as they stand in the window. */
  lemma MirrorsSource(win: seq<byte>, w: nat, h: seq<byte>, dist: nat, n: nat)
    requires Mirrors(win, w, h) && w < WSIZE && 1 <= dist <= WSIZE
    requires BackIndex(w, dist) + n <= WSIZE && (BackIndex(w, dist) >= w || n <= dist)
    ensures n <= dist
    ensures win[BackIndex(w, dist)..BackIndex(w, dist) + n] == h[|h| - dist..|h| - dist + n]
  {
  }
}
