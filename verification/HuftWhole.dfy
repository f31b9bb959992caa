/** huft_build as a whole, in terms of the code lengths it is given. */
module HuftWhole {
  import opened HuffmanBits
  import opened HuffmanSpec
  import opened HuftTables
  import opened HuftMake
  import opened HuftDecode
  import opened HuftCode

  /** What is stored for symbol `sym`: 256 is the end-of-block code; symbols from
      `simple` on are looked up in the base and extra-bits lists. */
  function SymbolLeaf(sym: nat, simple: nat, base: seq<nat>, extra: seq<nat>): Leaf
    requires sym < simple + |base| && |base| == |extra|
  {
    if sym < simple then Leaf(if sym < 256 then 16 else 15, sym)
    else Leaf(extra[sym - simple], base[sym - simple])
  }

  /** What huft_build assumes of its arguments. */
  ghost predicate InputOk(b: seq<nat>, simple: nat, base: seq<nat>, extra: seq<nat>) {
    && 1 <= |b| <= simple + |base| && |base| == |extra|
    && (forall s :: 0 <= s < |b| ==> b[s] <= BMAX)
    && (forall x :: 0 <= x < |extra| ==> extra[x] <= 16 || extra[x] == INVALID)
  }

  predicate AllZero(b: seq<nat>) {
    Count(b, 0) == |b|
  }

  /** The numbers of codes, with the unused patterns of g bits counted as codes. */
  function Completed(b: seq<nat>, g: nat): (c: seq<nat>)
    requires g <= BMAX && End(Counts(b), g, g) <= Pow2(g)
    ensures |c| == BMAX + 1
  {
    var c := Counts(b);
    c[g := c[g] + (Pow2(g) - End(c, g, g))]
  }

  /** g is the longest code length. */
  ghost predicate Longest(b: seq<nat>, g: nat) {
    1 <= g <= BMAX && Count(b, g) > 0 && forall s :: 0 <= s < |b| ==> b[s] <= g
  }

  ghost predicate Shortest(b: seq<nat>, j: nat) {
    1 <= j <= BMAX && Count(b, j) > 0 && forall s :: 0 <= s < |b| ==> b[s] == 0 || j <= b[s]
  }

  /** cx is the code of the lengths b, for a first table of l bits. */
  ghost predicate CodeFor(b: seq<nat>, simple: nat, base: seq<nat>, extra: seq<nat>, cx: Code)
    requires InputOk(b, simple, base, extra)
  {
    && CodeOk(cx) && Longest(b, cx.g)
    && End(Counts(b), cx.g, cx.g) <= Pow2(cx.g) && cx.c == Completed(b, cx.g)
    && |cx.leaves| == |b|
    && (forall s :: 0 <= s < |b| && b[s] > 0 ==> LeafInPlace(b, simple, base, extra, cx, s))
  }

  ghost predicate LeafInPlace(b: seq<nat>, simple: nat, base: seq<nat>, extra: seq<nat>, cx: Code, s: nat)
    requires InputOk(b, simple, base, extra) && |cx.c| == BMAX + 1 && s < |b|
  {
    var p := Offset(cx.c, b[s]) + Rank(b, s);
    p < |cx.leaves| && cx.leaves[p] == SymbolLeaf(s, simple, base, extra)
  }

  /** Kraft's sum does not depend on the length of the patterns it is counted in. */
  lemma KraftAtLongest(b: seq<nat>, g: nat)
    requires Longest(b, g)
    ensures End(Counts(b), g, g) > Pow2(g) <==> Oversubscribed(b)
    ensures End(Counts(b), g, g) == Pow2(g) <==> Complete(b)
  {
    var c := Counts(b);
    forall n | g < n <= BMAX
      ensures c[n] == 0
    {
      NoneOf(b, n);
    }
    EndTail(c, BMAX, g, BMAX);
    EndScale(c, g, BMAX, g);
    Pow2Split(g, BMAX);
    hide Shl, End, Pow2;
    var e := End(c, g, g);
    ShlMono(e, Pow2(g), BMAX - g);
    ShlMono(Pow2(g), e, BMAX - g);
    ShlZero(BMAX - g);
  }

  lemma {:induction false} NoneOf(b: seq<nat>, n: nat)
    requires forall s :: 0 <= s < |b| ==> b[s] != n
    ensures Count(b, n) == 0
  {
    if b != [] {
      NoneOf(b[..|b| - 1], n);
    }
  }

  lemma {:induction false} SomeOf(b: seq<nat>, s: nat)
    requires s < |b|
    ensures Count(b, b[s]) > 0
  {
    RankBound(b, s);
  }

  lemma {:induction false} AllZeroMeans(b: seq<nat>)
    ensures AllZero(b) <==> forall s :: 0 <= s < |b| ==> b[s] == 0
    ensures Count(b, 0) <= |b|
  {
    if b != [] {
      var f := b[..|b| - 1];
      AllZeroMeans(f);
      assert b == f + [b[|b| - 1]];
    }
  }

  lemma ZeroIsNotOversubscribed(b: seq<nat>)
    requires AllZero(b)
    ensures !Oversubscribed(b)
  {
    AllZeroMeans(b);
    forall n: nat | 1 <= n <= BMAX
      ensures Counts(b)[n] == 0
    {
      NoneOf(b, n);
    }
    EndTail(Counts(b), BMAX, 0, BMAX);
  }

  /** The completed counts leave no pattern over. */
  lemma CompletedIsFull(b: seq<nat>, g: nat)
    requires 1 <= g <= BMAX && End(Counts(b), g, g) <= Pow2(g)
    ensures End(Completed(b, g), g, g) == Pow2(g)
    ensures forall n :: 0 <= n <= BMAX && n != g ==> Completed(b, g)[n] == Counts(b)[n]
    ensures Completed(b, g)[g] >= Counts(b)[g]
    ensures forall k :: 0 <= k <= g ==> Offset(Completed(b, g), k) == Offset(Counts(b), k)
    ensures forall k :: 0 <= k <= g ==> NextCode(Completed(b, g), k) == NextCode(Counts(b), k)
  {
    var c, e := Counts(b), Completed(b, g);
    EndSame(c, e, g, g - 1);
    assert e[g] == c[g] + (Pow2(g) - End(c, g, g));
    assert End(e, g, g) == End(e, g, g - 1) + e[g] by { assert Shl(e[g], 0) == e[g]; }
    assert End(c, g, g) == End(c, g, g - 1) + c[g] by { assert Shl(c[g], 0) == c[g]; }
    forall k | 0 <= k <= g
      ensures Offset(e, k) == Offset(c, k) && NextCode(e, k) == NextCode(c, k)
    {
      OffsetSame(c, e, k);
    }
  }

  /** *m bounded by the shortest and the longest length. */
  function Bounded(m: nat, j: nat, g: nat): nat {
    var l := if m < j then j else m;
    if l > g then g else l
  }

  /** With memory for more tables than this, huft_build does not run out of it. */
  const ENOUGH_TABLES := 2 * BMAX * 0x10000

  lemma {:induction false} CodesCover(c: seq<nat>, g: nat, k: nat)
    requires k <= g < |c|
    ensures Offset(c, k + 1) <= End(c, g, k)
  {
    if k > 0 {
      CodesCover(c, g, k - 1);
      ShlGrows(c[k], g - k);
    }
  }

  lemma {:induction false} ShlGrows(x: nat, n: nat)
    ensures x <= Shl(x, n)
  {
    if n > 0 {
      ShlGrows(x, n - 1);
      ShlDouble(x, n - 1);
    }
  }

  lemma FewCodes(cx: Code)
    requires CodeOk(cx)
    ensures Offset(cx.c, cx.g + 1) <= 0x10000
  {
    CodesCover(cx.c, cx.g, cx.g);
    Pow2Mono(cx.g, BMAX);
    Pow2Split(8, 16);
    assert Pow2(4) == 16;
    assert Pow2(8) == 256 by { Pow2Split(4, 8); }
    assert Pow2(12) == 4096 by { Pow2Split(8, 12); }
    assert Pow2(16) == 65536 by { Pow2Split(12, 16); }
  }

  /** huft_build: returns 0 on success, 1 if the code set is incomplete, 2 if it
      is oversubscribed, 3 if there is not enough memory; `budget` is the number
      of tables for which there is memory.  `bits` is *m on return. */
  method BuildTables(b: seq<nat>, simple: nat, base: seq<nat>, extra: seq<nat>, m: nat, budget: nat)
    returns (rc: nat, tables: seq<seq<Huft>>, bits: nat, ghost cx: Code, ghost shortest: nat)
    requires InputOk(b, simple, base, extra)
    ensures rc <= 3
    ensures rc == 2 <==> Oversubscribed(b)
    ensures AllZero(b) ==> rc == 0 && tables == [] && bits == 0
    ensures !AllZero(b) && rc <= 1 ==> tables != [] && CodeFor(b, simple, base, extra, cx) && Shortest(b, shortest)
    ensures !AllZero(b) && rc <= 1 ==> bits == cx.l == Bounded(m, shortest, cx.g)
    ensures !AllZero(b) && rc <= 1 ==> (rc == 0 <==> Complete(b) || cx.g == 1)
    ensures !AllZero(b) && rc <= 1 ==> (Decodes(cx, tables) <==> !Crowded(cx))
    ensures !AllZero(b) && rc <= 1 && Crowded(cx) ==> exists stream: nat :: Walk(tables, 0, bits, stream) == Stray
    ensures !AllZero(b) && rc <= 1 && !Crowded(cx) ==> forall stream: nat :: Lookahead(tables, 0, bits, stream) <= cx.g
    ensures !AllZero(b) && rc <= 1 && bits == cx.g ==> |tables| == 1
    ensures rc == 3 ==> budget <= ENOUGH_TABLES
  {
    hide Shl, End, Pow2, Crowded, Walk, Lookahead, Offset, Count, NextCode, Decodes;
    tables, bits, shortest := [], 0, 0;
    cx := Code(1, 1, [], []);
    var c := CountLengths(b);
    if c[0] == |b| {
      ZeroIsNotOversubscribed(b);
      return 0, [], 0, cx, 0;
    }
    HasCode(b);
    var j, g := FindLengths(c);
    Extremes(b, j, g);
    KraftAtLongest(b, g);
    var l := Bounded(m, j, g);
    var ok, y := FillOut(c, j, g);
    if !ok {
      rc := 2;
      return;
    }
    CompletedIsFull(b, g);
    c := c[g := c[g] + y];
    var x := Offsets(c, g);
    var v := SortValues(b, x, Counts(b), g);
    var leaves := Leaves(v, simple, base, extra);
    var code := Code(g, l, c, leaves);
    CodeIsFor(b, simple, base, extra, code, v);
    var made, ts;
    ghost var meta, u;
    made, ts, meta, u := MakeTables(code, j, budget);
    if !made {
      FewCodes(code);
      rc := 3;
      return;
    }
    DecodesUnlessCrowded(code, ts, meta, u);
    rc := if y != 0 && g != 1 then 1 else 0;
    tables, bits, cx, shortest := ts, l, code, j;
  }

  /** The values in canonical order. */
  function Leaves(v: seq<nat>, simple: nat, base: seq<nat>, extra: seq<nat>): (f: seq<Leaf>)
    requires |base| == |extra| && forall p :: 0 <= p < |v| ==> v[p] < simple + |base|
    ensures |f| == |v| && forall p :: 0 <= p < |v| ==> f[p] == SymbolLeaf(v[p], simple, base, extra)
  {
    seq(|v|, p requires 0 <= p < |v| => SymbolLeaf(v[p], simple, base, extra))
  }

  lemma HasCode(b: seq<nat>)
    requires !AllZero(b) && forall s :: 0 <= s < |b| ==> b[s] <= BMAX
    ensures exists n :: 1 <= n <= BMAX && Counts(b)[n] > 0
  {
    AllZeroMeans(b);
    var s :| 0 <= s < |b| && b[s] != 0;
    SomeOf(b, s);
    assert Counts(b)[b[s]] > 0;
  }

  lemma Extremes(b: seq<nat>, j: nat, g: nat)
    requires forall s :: 0 <= s < |b| ==> b[s] <= BMAX
    requires 1 <= j <= g <= BMAX && Counts(b)[j] > 0 && Counts(b)[g] > 0
    requires forall n :: 1 <= n <= BMAX && Counts(b)[n] > 0 ==> j <= n <= g
    ensures Longest(b, g) && Shortest(b, j)
  {
    hide Count;
    forall s | 0 <= s < |b| && b[s] > 0
      ensures j <= b[s] <= g
    {
      SomeOf(b, s);
      assert Counts(b)[b[s]] > 0;
    }
  }

  lemma CodeIsFor(b: seq<nat>, simple: nat, base: seq<nat>, extra: seq<nat>, cx: Code, v: seq<nat>)
    requires InputOk(b, simple, base, extra) && Longest(b, cx.g) && 1 <= cx.l <= cx.g
    requires End(Counts(b), cx.g, cx.g) <= Pow2(cx.g) && cx.c == Completed(b, cx.g)
    requires |v| == |b| && Sorted(b, Counts(b), v, |b|) && forall p :: 0 <= p < |v| ==> v[p] < |b|
    requires cx.leaves == Leaves(v, simple, base, extra)
    ensures CodeFor(b, simple, base, extra, cx) && cx.c[cx.g] > 0
  {
    CompletedIsFull(b, cx.g);
    hide Shl, End, Pow2, Offset, Count, NextCode;
    forall s | 0 <= s < |b| && b[s] > 0
      ensures LeafInPlace(b, simple, base, extra, cx, s)
    {
      assert Offset(cx.c, b[s]) == Offset(Counts(b), b[s]);
    }
  }
}
