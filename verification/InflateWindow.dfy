/** The 32K output window of lib/inflate.c: a circular buffer with copies in
    chunks, against an output history that is never forgotten. */
module InflateWindow {
  import opened Bytes

  const WSIZE := 0x8000

  /** Section 3.2.3 of RFC 1951: a pair <length, backward distance> repeats bytes
      of the output one by one, also bytes it has just produced itself. */
  function Expand(h: seq<Byte>, n: nat, dist: nat): (r: seq<Byte>)
    requires 1 <= dist <= |h|
    ensures |r| == |h| + n && h <= r
  {
    if n == 0 then h
    else
      var r := Expand(h, n - 1, dist);
      r + [r[|r| - dist]]
  }

  lemma {:induction false} ExpandMore(h: seq<Byte>, m: nat, n: nat, dist: nat)
    requires 1 <= dist <= |h|
    ensures Expand(Expand(h, m, dist), n, dist) == Expand(h, m + n, dist)
  {
    if n > 0 {
      ExpandMore(h, m, n - 1, dist);
    }
  }

  /** Up to the distance itself, the copied bytes are old bytes. */
  lemma {:induction false} ExpandOld(h: seq<Byte>, n: nat, dist: nat, i: nat)
    requires 1 <= dist <= |h| && i < n && i < dist
    ensures Expand(h, n, dist)[|h| + i] == h[|h| - dist + i]
  {
    if i < n - 1 {
      ExpandOld(h, n - 1, dist, i);
    }
  }

  /** What came before does not matter as long as the distances stay within the history. */
  lemma {:induction false} ExpandSuffix(p: seq<Byte>, h: seq<Byte>, n: nat, dist: nat)
    requires 1 <= dist <= |h|
    ensures Expand(p + h, n, dist) == p + Expand(h, n, dist)
  {
    if n > 0 {
      ExpandSuffix(p, h, n - 1, dist);
    }
  }

  /** The window holds the last WSIZE bytes of the history: those of the current
      turn below w, those of the turn before from w on. */
  ghost predicate Holds(slide: seq<Byte>, h: seq<Byte>, w: nat) {
    && |slide| == WSIZE && w <= WSIZE && |h| >= WSIZE + w
    && (forall x :: 0 <= x < w ==> slide[x] == h[|h| - w + x])
    && (forall x :: w <= x < WSIZE ==> slide[x] == h[|h| - w - WSIZE + x])
  }

  lemma HoldsPut(slide: seq<Byte>, h: seq<Byte>, w: nat, c: Byte)
    requires Holds(slide, h, w) && w < WSIZE
    ensures Holds(slide[w := c], h + [c], w + 1)
  {
    var s, g := slide[w := c], h + [c];
    forall x | 0 <= x < w + 1
      ensures s[x] == g[|g| - (w + 1) + x]
    {
    }
    forall x | w + 1 <= x < WSIZE
      ensures s[x] == g[|g| - (w + 1) - WSIZE + x]
    {
    }
  }

  lemma HoldsWrap(slide: seq<Byte>, h: seq<Byte>)
    requires Holds(slide, h, WSIZE)
    ensures Holds(slide, h, 0)
  {
  }

  /** Where in the window the byte at a given distance is. */
  function Source(w: nat, dist: nat): (d: nat)
    requires w < WSIZE && 1 <= dist <= WSIZE
    ensures d < WSIZE
  {
    (w - dist) % WSIZE
  }

  lemma SourceByte(slide: seq<Byte>, h: seq<Byte>, w: nat, dist: nat)
    requires Holds(slide, h, w) && w < WSIZE && 1 <= dist <= WSIZE
    ensures Source(w, dist) == if dist <= w then w - dist else w - dist + WSIZE
    ensures slide[Source(w, dist)] == h[|h| - dist]
  {
    if dist <= w {
      assert (w - dist) % WSIZE == w - dist;
    } else {
      assert (w - dist + WSIZE) % WSIZE == w - dist + WSIZE;
    }
  }

  /** Copying a chunk at once equals copying it byte by byte, when the chunk is
      not longer than the distance. */
  lemma ChunkAtOnce(slide: seq<Byte>, after: seq<Byte>, h: seq<Byte>, w: nat, d: nat, dist: nat, e: nat)
    requires Holds(slide, h, w) && w < WSIZE && 1 <= dist <= WSIZE && d == Source(w, dist)
    requires w + e <= WSIZE && d + e <= WSIZE && e <= dist
    requires |after| == WSIZE
    requires forall x :: w <= x < w + e ==> after[x] == slide[d + (x - w)]
    requires forall x :: 0 <= x < w || w + e <= x < WSIZE ==> after[x] == slide[x]
    ensures Holds(after, Expand(h, e, dist), w + e)
  {
    var g := Expand(h, e, dist);
    SourceIs(w, dist);
    assert |g| == |h| + e && h <= g;
    assert forall y :: 0 <= y < |h| ==> g[y] == h[y];
    hide Expand, Source;
    forall x | 0 <= x < w + e
      ensures after[x] == g[|g| - (w + e) + x]
    {
      if w <= x {
        var i := x - w;
        ExpandOld(h, e, dist, i);
        if dist <= w {
          assert slide[d + i] == h[|h| - w + (d + i)];
        } else {
          assert slide[d + i] == h[|h| - w - WSIZE + (d + i)];
        }
      } else {
        assert slide[x] == h[|h| - w + x];
        assert |g| - (w + e) + x == |h| - w + x;
      }
    }
    forall x | w + e <= x < WSIZE
      ensures after[x] == g[|g| - (w + e) - WSIZE + x]
    {
      assert slide[x] == h[|h| - w - WSIZE + x];
      assert |g| - (w + e) - WSIZE + x == |h| - w - WSIZE + x;
    }
  }

  /** The window and what has been flushed from it. */
  class Window {
    const slide: array<Byte>
    var w: nat
    /** What flush_window has passed on so far. */
    var flushed: seq<Byte>
    /** The contents of the window area before anything was output. */
    ghost const prior: seq<Byte>
    /** Everything output so far. */
    ghost var history: seq<Byte>

    /** The window holds the end of the history, the rest has been flushed. */
    ghost predicate Live()
      reads this, slide
    {
      && slide.Length == WSIZE && |prior| == WSIZE && w <= |history|
      && Holds(slide[..], prior + history, w)
      && flushed == history[..|history| - w]
    }

    ghost predicate Valid()
      reads this, slide
    {
      Live() && w < WSIZE
    }

    /** What has been flushed and the live part of the window make up the output. */
    lemma FlushedAndLive()
      requires Live()
      ensures flushed + slide[..w] == history
    {
      var v := prior + history;
      assert forall x :: 0 <= x < w ==> slide[..w][x] == history[|history| - w + x];
      assert slide[..w] == history[|history| - w..];
    }

    constructor (area: array<Byte>)
      requires area.Length == WSIZE
      ensures Valid() && slide == area && history == [] && flushed == [] && prior == area[..] && w == 0
    {
      slide, w, flushed := area, 0, [];
      prior, history := area[..], [];
      new;
      assert prior + history == area[..];
    }

    /** flush_output(w) once the window is full. */
    method FlushIfFull()
      requires Live()
      modifies `w, `flushed
      ensures Valid() && w == if old(w) == WSIZE then 0 else old(w)
    {
      if w == WSIZE {
        HoldsWrap(slide[..], prior + history);
        FlushedAndLive();
        flushed := flushed + slide[..w];
        w := 0;
      }
    }

    /** flush_output(w) at the end: everything has been passed on. */
    method FlushRest()
      requires Valid()
      modifies `flushed
      ensures flushed == history
    {
      FlushedAndLive();
      flushed := flushed + slide[..w];
    }

    /** One byte at the end of the output. */
    method Store(c: Byte)
      requires Valid()
      modifies `w, `history, slide
      ensures Live() && history == old(history) + [c] && w == old(w) + 1
    {
      HoldsPut(slide[..], prior + history, w, c);
      ghost var was := slide[..];
      slide[w] := c;
      assert slide[..] == was[w := c];
      assert prior + (history + [c]) == (prior + history) + [c];
      w, history := w + 1, history + [c];
    }

    /** A literal byte: stored, and the window flushed when it is full. */
    method Put(c: Byte)
      requires Valid()
      modifies this, slide
      ensures Valid() && history == old(history) + [c]
    {
      Store(c);
      FlushIfFull();
    }

    /** Byte by byte, so that bytes just written are read again. */
    method CopySlowly(d0: nat, e: nat, ghost dist: nat)
      requires Valid() && 1 <= dist <= WSIZE && d0 == Source(w, dist) && w + e <= WSIZE && d0 + e <= WSIZE
      modifies `w, `history, slide
      ensures Live() && w == old(w) + e
      ensures prior + history == Expand(old(prior + history), e, dist)
    {
      hide Holds, Source;
      ghost var v := prior + history;
      var d := d0;
      ghost var w0 := w;
      for i := 0 to e
        invariant Live() && w == w0 + i && d == d0 + i
        invariant prior + history == Expand(v, i, dist)
      {
        SourceByte(slide[..], prior + history, w, dist);
        Follows(w0, dist, i);
        ghost var h := history;
        var c := slide[d];
        Store(c);
        assert prior + history == (prior + h) + [c];
        d := d + 1;
      }
    }

    /** A block copy inside the window, from low addresses to high ones.  The bytes
        that it reads are still the old ones, also where the ranges overlap. */
    method Move(d: nat, e: nat)
      requires slide.Length == WSIZE && w + e <= WSIZE && d + e <= WSIZE && (w < d || d + e <= w)
      modifies slide
      ensures forall x :: w <= x < w + e ==> slide[..][x] == old(slide[..])[d + (x - w)]
      ensures forall x :: 0 <= x < w || w + e <= x < WSIZE ==> slide[..][x] == old(slide[..])[x]
    {
      for i := 0 to e
        invariant forall x :: w <= x < w + i ==> slide[x] == old(slide[d + (x - w)])
        invariant forall x :: 0 <= x < w || w + i <= x < WSIZE ==> slide[x] == old(slide[x])
      {
        slide[w + i] := slide[d + i];
      }
    }

    /** A chunk that is not longer than the distance. */
    method CopyAtOnce(d: nat, e: nat, ghost dist: nat)
      requires Valid() && 1 <= dist <= WSIZE && d == Source(w, dist) && w + e <= WSIZE && d + e <= WSIZE
      requires e <= dist && (w < d || d + e <= w)
      modifies `w, `history, slide
      ensures Live() && w == old(w) + e
      ensures prior + history == Expand(old(prior + history), e, dist)
    {
      hide Source, Expand, Holds;
      ghost var was, v := slide[..], prior + history;
      Move(d, e);
      ChunkAtOnce(was, slide[..], v, w, d, dist, e);
      ghost var g := Expand(v, e, dist);
      w, history := w + e, g[WSIZE..];
      SplitAfter(prior, old(history), g, |old(history)| - old(w));
    }

    /** One round of the copy loop: a chunk that stops at the end of the window
        on either side. */
    method CopyRound(n: nat, d0: nat, ghost dist: nat) returns (e: nat, d: nat)
      requires Valid() && 1 <= dist <= WSIZE && n > 0 && d0 <= WSIZE && Masked(d0) == Source(w, dist)
      modifies this, slide
      ensures Valid() && 1 <= e <= n && d <= WSIZE && Masked(d) == Source(w, dist)
      ensures prior + history == Expand(old(prior + history), e, dist)
    {
      hide Live, Source, Masked, Expand;
      SourceIs(w, dist);
      d := Masked(d0);
      e := WSIZE - (if d > w then d else w);
      if e > n {
        e := n;
      }
      SourceAfter(w, dist, e);
      if w < d || w - d >= e {
        CopyAtOnce(d, e, dist);
      } else {
        CopySlowly(d, e, dist);
      }
      d := d + e;
      LiveBound();
      FlushIfFull();
    }

    lemma LiveBound()
      requires Live()
      ensures w <= WSIZE
    {
    }

    /** The copy of n bytes from `dist` back, in chunks: for every distance the
        format can name. */
    method CopyMatch(n0: nat, dist: nat)
      requires Valid() && 1 <= dist <= WSIZE
      modifies this, slide
      ensures Valid()
      ensures prior + history == Expand(old(prior + history), n0, dist)
      ensures dist <= |old(history)| ==> history == Expand(old(history), n0, dist)
    {
      ghost var v := prior + history;
      assert dist <= |v| && |prior| == WSIZE;
      hide Live, Source, Masked, Expand;
      SourceIs(w, dist);
      var n: nat := n0;
      var d: nat := Source(w, dist);
      ghost var done: nat := 0;
      ExpandNone(v, dist);
      while n > 0
        invariant Valid() && n + done == n0 && prior + history == Expand(v, done, dist)
        invariant d <= WSIZE && Masked(d) == Source(w, dist)
      {
        var e;
        e, d := CopyRound(n, d, dist);
        ExpandMore(v, done, e, dist);
        n, done := n - e, done + e;
      }
      if dist <= |old(history)| {
        ExpandSuffix(prior, old(history), n0, dist);
        SamePrefix(prior, history, Expand(old(history), n0, dist));
      }
    }
  }

  /** The ranges of a chunk that is copied at once overlap exactly when the source
      starts inside the target. */
  lemma OverlapIsExact(w: nat, d: nat, e: nat)
    requires e > 0 && (w < d || d + e <= w)
    ensures (exists x: nat :: InBoth(w, d, e, x)) <==> w < d < w + e
  {
    if w < d < w + e {
      assert InBoth(w, d, e, d);
    }
  }

  predicate InBoth(w: nat, d: nat, e: nat, x: nat) {
    w <= x < w + e && d <= x < d + e
  }

  /** They do for a distance just short of the window: 258 bytes from 32767 back, at the
      start of the window, are copied one place down. */
  lemma OverlapExample()
    ensures Source(0, WSIZE - 1) == 1 && InBoth(0, 1, 258, 1)
  {
    SourceIs(0, WSIZE - 1);
  }

  lemma ExpandNone(h: seq<Byte>, dist: nat)
    requires 1 <= dist <= |h|
    ensures Expand(h, 0, dist) == h
  {
  }

  lemma SplitAfter(p: seq<Byte>, h: seq<Byte>, g: seq<Byte>, n: nat)
    requires p + h <= g && n <= |h|
    ensures p + g[|p|..] == g && g[|p|..][..n] == h[..n]
  {
    assert g[..|p| + |h|] == p + h;
    assert g[..|p|] == p;
    assert forall x :: 0 <= x < n ==> g[|p|..][x] == g[|p| + x] == (p + h)[|p| + x];
  }

  lemma SamePrefix(p: seq<Byte>, a: seq<Byte>, b: seq<Byte>)
    requires p + a == p + b
    ensures a == b
  {
    assert (p + a)[|p|..] == a && (p + b)[|p|..] == b;
  }

  /** Source and target advance together. */
  lemma Follows(w: nat, dist: nat, i: nat)
    requires w < WSIZE && 1 <= dist <= WSIZE && w + i < WSIZE && Source(w, dist) + i < WSIZE
    ensures Source(w + i, dist) == Source(w, dist) + i
  {
    SourceIs(w, dist);
    SourceIs(w + i, dist);
  }

  lemma SourceAfter(w: nat, dist: nat, e: nat)
    requires w < WSIZE && 1 <= dist <= WSIZE && w + e <= WSIZE && Source(w, dist) + e <= WSIZE
    ensures Masked(Source(w, dist) + e) == Source(if w + e == WSIZE then 0 else w + e, dist)
  {
    SourceIs(w, dist);
    SourceIs(if w + e == WSIZE then 0 else w + e, dist);
    var s := Source(w, dist) + e;
    assert s % WSIZE == if s == WSIZE then 0 else s;
  }

  /** The place in the window. */
  function Masked(d: nat): (m: nat)
    ensures m < WSIZE && (d < WSIZE ==> m == d)
  {
    d % WSIZE
  }

  lemma SourceIs(w: nat, dist: nat)
    requires w < WSIZE && 1 <= dist <= WSIZE
    ensures Source(w, dist) == if dist <= w then w - dist else w - dist + WSIZE
  {
    if dist <= w {
      assert (w - dist) % WSIZE == w - dist;
    } else {
      assert (w - dist + WSIZE) % WSIZE == w - dist + WSIZE;
    }
  }
}
