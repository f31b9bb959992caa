/** What the multi-level decoding tables of lib/inflate.c mean while huft_build
    fills them, and why each of its steps keeps that meaning.

    A table stands for all streams that start with its prefix; each of its
    entries stands for the streams that continue with the entry's index.  The
    streams are ordered by the code they spell, so that the canonical codes
    cover them from left to right; `reached` is how far the codes generated so
    far have come, counted in patterns of g bits. */
module HuftTables {
  import opened HuffmanBits
  import opened HuffmanSpec

  /** struct huft: v is the union of the value and the pointer to the next
      table.  An entry that was never written has b == 0. */
  datatype Huft = Huft(e: nat, b: nat, v: nat)

  datatype Leaf = Leaf(e: nat, v: nat)

  /** The fixed inputs of table building: the longest code length, the bits of
      the first table, the number of codes of each length, and the values of
      the codes in canonical order. */
  datatype Code = Code(g: nat, l: nat, c: seq<nat>, leaves: seq<Leaf>)

  const INVALID := 99

  ghost predicate CodeOk(cx: Code) {
    && 1 <= cx.l <= cx.g <= BMAX && |cx.c| == BMAX + 1
    && End(cx.c, cx.g, cx.g) == Pow2(cx.g)
    && forall p :: 0 <= p < |cx.leaves| ==> cx.leaves[p].e <= 16 || cx.leaves[p].e == INVALID
  }

  /** The number of codes shorter than k. */
  function Offset(c: seq<nat>, k: nat): nat
    requires k <= |c|
  {
    if k <= 1 then 0 else Offset(c, k - 1) + c[k - 1]
  }

  /** The value of the p-th code; codes beyond the given ones are invalid. */
  function LeafAt(cx: Code, p: nat): (f: Leaf) {
    if p < |cx.leaves| then cx.leaves[p] else Leaf(INVALID, 0)
  }

  /** The bits before a table, their number, and the bits by which the decoder
      indexes it. */
  datatype Meta = Meta(w: nat, pre: nat, j: nat)

  ghost predicate MetaOk(cx: Code, m: Meta) {
    1 <= m.j && m.w + m.j <= cx.g && m.pre < Pow2(m.w)
  }

  /** The bits that lead to entry idx. */
  function Path(m: Meta, idx: nat): nat {
    m.pre + Shl(idx, m.w)
  }

  /** The entry holds the value of the r-th code of length k, which all streams
      of the entry start with. */
  ghost predicate LeafFor(cx: Code, m: Meta, idx: nat, ent: Huft, k: nat, r: nat)
    requires |cx.c| == BMAX + 1 && cx.g <= BMAX
  {
    && m.w < k <= m.w + m.j && k <= m.w + cx.l && k <= cx.g && r < cx.c[k]
    && Rev(k, Path(m, idx)) == NextCode(cx.c, k) + r
    && ent == Huft(LeafAt(cx, Offset(cx.c, k) + r).e, k - m.w, LeafAt(cx, Offset(cx.c, k) + r).v)
  }

  ghost predicate LeafOk(cx: Code, m: Meta, idx: nat, ent: Huft)
    requires |cx.c| == BMAX + 1 && cx.g <= BMAX
  {
    exists k, r :: LeafFor(cx, m, idx, ent, k, r)
  }

  ghost predicate LinkOk(cx: Code, meta: seq<Meta>, t: nat, idx: nat, ent: Huft)
    requires t < |meta|
  {
    && t < ent.v < |meta| && ent.b == cx.l <= meta[t].j && ent.e == 16 + meta[ent.v].j
    && meta[ent.v].w == meta[t].w + cx.l && meta[ent.v].pre == Path(meta[t], idx)
  }

  ghost predicate EntryOk(cx: Code, meta: seq<Meta>, t: nat, idx: nat, ent: Huft)
    requires t < |meta| && |cx.c| == BMAX + 1 && cx.g <= BMAX
  {
    ent.b == 0 || LeafOk(cx, meta[t], idx, ent) || LinkOk(cx, meta, t, idx, ent)
  }

  ghost predicate Shape(cx: Code, tables: seq<seq<Huft>>, meta: seq<Meta>) {
    && |tables| == |meta| && (meta != [] ==> meta[0] == Meta(0, 0, cx.l))
    && forall t :: 0 <= t < |meta| ==> MetaOk(cx, meta[t]) && |tables[t]| >= Pow2(meta[t].j)
  }

  ghost predicate Entries(cx: Code, tables: seq<seq<Huft>>, meta: seq<Meta>)
    requires CodeOk(cx) && Shape(cx, tables, meta)
  {
    forall t, idx :: 0 <= t < |tables| && 0 <= idx < Pow2(meta[t].j) ==> EntryOk(cx, meta, t, idx, tables[t][idx])
  }

  /** Where the streams of an entry start, in patterns of g bits. */
  function EntryLo(cx: Code, m: Meta, idx: nat): nat
    requires m.w + m.j <= cx.g
  {
    Shl(Rev(m.w + m.j, Path(m, idx)), cx.g - m.w - m.j)
  }

  function TableLo(cx: Code, m: Meta): nat
    requires m.w <= cx.g
  {
    Shl(Rev(m.w, m.pre), cx.g - m.w)
  }

  function TableHi(cx: Code, m: Meta): nat
    requires m.w <= cx.g
  {
    Shl(Rev(m.w, m.pre) + 1, cx.g - m.w)
  }

  /** Every entry whose streams start before `reached` has been written,
      except in tables wider than l bits. */
  ghost predicate Filled(cx: Code, tables: seq<seq<Huft>>, meta: seq<Meta>, reached: nat)
    requires Shape(cx, tables, meta)
  {
    forall t, idx | 0 <= t < |tables| && meta[t].j <= cx.l && 0 <= idx < Pow2(meta[t].j) ::
      EntryLo(cx, meta[t], idx) < reached ==> tables[t][idx].b > 0
  }

  /** The table stack u[0..h]: each table hangs off the entry of the table above
      that the newest table's prefix selects. */
  ghost predicate Stack(cx: Code, tables: seq<seq<Huft>>, meta: seq<Meta>, u: seq<nat>)
    requires Shape(cx, tables, meta)
  {
    && (forall h :: 0 <= h < |u| ==> u[h] < |meta| && h <= meta[u[h]].w)
    && (|u| > 0 ==> u[0] == 0 && meta[0].w == 0)
    && (forall a, b :: 0 <= a <= b < |u| ==>
          meta[u[a]].w <= meta[u[b]].w && meta[u[a]].pre == Low(meta[u[b]].pre, meta[u[a]].w))
    && (forall h :: 0 <= h < |u| - 1 ==> Hangs(cx, tables, meta, u[h], u[h + 1]))
  }

  ghost predicate Hangs(cx: Code, tables: seq<seq<Huft>>, meta: seq<Meta>, t: nat, next: nat)
    requires Shape(cx, tables, meta) && t < |meta| && next < |meta|
  {
    var idx := High(meta[next].pre, meta[t].w);
    && meta[t].j >= cx.l && meta[next].w == meta[t].w + cx.l
    && idx < Pow2(cx.l) && idx < |tables[t]| && tables[t][idx].b > 0
  }

  /** Every table that is no longer on the stack is complete. */
  ghost predicate Retired(cx: Code, meta: seq<Meta>, u: seq<nat>, reached: nat) {
    forall t :: 0 <= t < |meta| && t !in u ==> MetaOk(cx, meta[t]) && TableHi(cx, meta[t]) <= reached
  }

  // ----- geometry of prefixes

  lemma PathParts(m: Meta, idx: nat)
    requires m.pre < Pow2(m.w)
    ensures Low(Path(m, idx), m.w) == m.pre && High(Path(m, idx), m.w) == idx
  {
    Cat(m.pre, idx, m.w);
  }

  lemma EntryInTable(cx: Code, m: Meta, idx: nat)
    requires MetaOk(cx, m)
    ensures TableLo(cx, m) <= EntryLo(cx, m, idx) < TableHi(cx, m)
  {
    PathParts(m, idx);
    var q := Path(m, idx);
    var n := m.w + m.j;
    RevPrefix(m.w, n, q);
    RevOfLow(m.w, q, m.w);
    hide Rev, Low, High, Path;
    ShlShl(Rev(m.w, m.pre), m.j, cx.g - n);
    ShlShl(Rev(m.w, m.pre) + 1, m.j, cx.g - n);
    ShlMono(Shl(Rev(m.w, m.pre), m.j), Rev(n, q), cx.g - n);
    ShlMono(Rev(n, q), Shl(Rev(m.w, m.pre) + 1, m.j), cx.g - n);
  }

  /** The pattern i lies in the table whose prefix it starts with. */
  lemma PatternInTable(cx: Code, m: Meta, i: nat)
    requires m.w <= cx.g && Low(i, m.w) == m.pre
    ensures TableLo(cx, m) <= Rev(cx.g, i) < TableHi(cx, m)
  {
    RevPrefix(m.w, cx.g, i);
    RevOfLow(m.w, i, m.w);
  }

  /** ... and in no other table of the same depth. */
  lemma TableOfPattern(cx: Code, m: Meta, i: nat)
    requires m.w <= cx.g && m.pre < Pow2(m.w)
    requires TableLo(cx, m) <= Rev(cx.g, i) < TableHi(cx, m)
    ensures Low(i, m.w) == m.pre
  {
    RevPrefix(m.w, cx.g, i);
    SameBlock(Rev(m.w, m.pre), Rev(m.w, i), cx.g - m.w, Rev(cx.g, i));
    RevInjective(m.w, m.pre, i);
    LowSmall(m.pre, m.w);
  }

  /** A code that starts inside a shallower table ends inside it. */
  lemma CodeEndsInTable(cx: Code, m: Meta, k: nat, c: nat)
    requires m.w <= k <= cx.g && Shl(c, cx.g - k) < TableHi(cx, m)
    ensures Shl(c + 1, cx.g - k) <= TableHi(cx, m)
  {
    var x := Rev(m.w, m.pre) + 1;
    hide Rev;
    ShlShl(x, k - m.w, cx.g - k);
    ShlMono(Shl(x, k - m.w), c, cx.g - k);
    ShlMono(c + 1, Shl(x, k - m.w), cx.g - k);
  }

  /** The entries of a table that start within the code (k, i) are those whose
      index starts with the rest of the code. */
  lemma EntriesOfCode(cx: Code, m: Meta, idx: nat, k: nat, i: nat)
    requires MetaOk(cx, m) && m.w < k <= m.w + m.j && i < Pow2(k) && Low(i, m.w) == m.pre
    ensures Low(idx, k - m.w) == High(i, m.w) <==>
      Shl(Rev(k, i), cx.g - k) <= EntryLo(cx, m, idx) < Shl(Rev(k, i) + 1, cx.g - k)
    ensures Low(idx, k - m.w) == High(i, m.w) ==> Rev(k, Path(m, idx)) == Rev(k, i)
  {
    hide Rev, Shl, Low, High;
    var q := Path(m, idx);
    var n := m.w + m.j;
    var d := k - m.w;
    PathParts(m, idx);
    SplitLow(q, m.w, d);
    SplitLow(i, m.w, d);
    LowSmall(i, k);
    LowHigh(i, m.w, d);
    LowHigh(q, m.w, d);
    assert Low(q, k) == i <==> Low(idx, d) == High(i, m.w);
    CodeOfPath(cx, q, n, k, i);
  }

  lemma CodeOfPath(cx: Code, q: nat, n: nat, k: nat, i: nat)
    requires k <= n <= cx.g && i < Pow2(k)
    ensures Low(q, k) == i <==>
      Shl(Rev(k, i), cx.g - k) <= Shl(Rev(n, q), cx.g - n) < Shl(Rev(k, i) + 1, cx.g - k)
    ensures Low(q, k) == i ==> Rev(k, q) == Rev(k, i)
  {
    hide Rev, Shl, Low, High;
    var g := cx.g;
    RevPrefix(k, n, q);
    RevOfLow(k, q, k);
    ShlShl(Rev(k, q), n - k, g - n);
    ShlShl(Rev(k, q) + 1, n - k, g - n);
    ShlMono(Shl(Rev(k, q), n - k), Rev(n, q), g - n);
    ShlMono(Rev(n, q), Shl(Rev(k, q) + 1, n - k), g - n);
    if Shl(Rev(k, i), g - k) <= Shl(Rev(n, q), g - n) < Shl(Rev(k, i) + 1, g - k) {
      SameBlock(Rev(k, i), Rev(k, q), g - k, Shl(Rev(n, q), g - n));
      RevInjective(k, i, q);
      LowSmall(i, k);
    }
  }

  // ----- what the steps of huft_build keep

  ghost predicate Distinct(meta: seq<Meta>) {
    forall a, b :: 0 <= a < b < |meta| ==> !(meta[a].w == meta[b].w && meta[a].pre == meta[b].pre)
  }

  ghost predicate Good(cx: Code, tables: seq<seq<Huft>>, meta: seq<Meta>, u: seq<nat>, reached: nat) {
    && CodeOk(cx) && Shape(cx, tables, meta) && Entries(cx, tables, meta) && Filled(cx, tables, meta, reached)
    && Stack(cx, tables, meta, u) && Retired(cx, meta, u, reached) && Distinct(meta)
  }

  /** The entry written for the r-th code of length k in a table w bits deep. */
  function EntryFor(cx: Code, k: nat, r: nat, w: nat): Huft
    requires w < k <= cx.g < |cx.c|
  {
    var f := LeafAt(cx, Offset(cx.c, k) + r);
    Huft(f.e, k - w, f.v)
  }

  /** `after` is `before` with `ent` at every index that starts with `rest`. */
  ghost predicate Overwritten(before: seq<Huft>, after: seq<Huft>, d: nat, rest: nat, ent: Huft) {
    && |after| == |before|
    && forall idx :: 0 <= idx < |before| ==> after[idx] == if Low(idx, d) == rest then ent else before[idx]
  }

  /** i is the r-th code of length k, bit-reversed. */
  ghost predicate CodeAt(cx: Code, k: nat, r: nat, i: nat)
    requires CodeOk(cx)
  {
    1 <= k <= cx.g && r < cx.c[k] && i < Pow2(k) && Rev(k, i) == NextCode(cx.c, k) + r
  }

  /** The code i of length k ends in the table with prefix m. */
  ghost predicate EndsIn(cx: Code, m: Meta, k: nat, i: nat) {
    m.w < k <= m.w + m.j && k <= m.w + cx.l && k <= cx.g && Low(i, m.w) == m.pre
  }

  /** `after` is the newest table with the r-th code of length k, i, filled in. */
  ghost predicate Filling(cx: Code, tables: seq<seq<Huft>>, meta: seq<Meta>, top: nat, i: nat, k: nat, r: nat,
                          after: seq<Huft>)
    requires CodeOk(cx) && Shape(cx, tables, meta)
  {
    && CodeAt(cx, k, r, i) && top < |meta| && EndsIn(cx, meta[top], k, i)
    && Overwritten(tables[top], after, k - meta[top].w, High(i, meta[top].w), EntryFor(cx, k, r, meta[top].w))
  }

  /** Filling in one code extends what has been reached by exactly that code. */
  lemma FillStep(cx: Code, tables: seq<seq<Huft>>, meta: seq<Meta>, u: seq<nat>, i: nat, k: nat, r: nat,
                 after: seq<Huft>, top: nat)
    requires k <= cx.g && Good(cx, tables, meta, u, Shl(Rev(k, i), cx.g - k))
    requires u != [] && top == u[|u| - 1] && Filling(cx, tables, meta, top, i, k, r, after)
    ensures top < |tables| && Good(cx, tables[top := after], meta, u, Shl(Rev(k, i) + 1, cx.g - k))
  {
    hide Rev, Shl, Low, High, Pow2, LeafAt, Offset, NextCode, Entries, Filled, Stack, Distinct, Retired;
    ShlMono(Rev(k, i), Rev(k, i) + 1, cx.g - k);
    FillEntries(cx, tables, meta, top, i, k, r, after);
    FillFilled(cx, tables, meta, u, i, k, r, after, top);
    FillStack(cx, tables, meta, u, EntryFor(cx, k, r, meta[top].w), k - meta[top].w, High(i, meta[top].w), after);
    RetiredMono(cx, meta, u, Shl(Rev(k, i), cx.g - k), Shl(Rev(k, i) + 1, cx.g - k));
    hide Shape, Filling;
  }

  lemma RetiredMono(cx: Code, meta: seq<Meta>, u: seq<nat>, a: nat, b: nat)
    requires Retired(cx, meta, u, a) && a <= b
    ensures Retired(cx, meta, u, b)
  {
  }

  lemma FillEntries(cx: Code, tables: seq<seq<Huft>>, meta: seq<Meta>, top: nat, i: nat, k: nat, r: nat,
                    after: seq<Huft>)
    requires CodeOk(cx) && Shape(cx, tables, meta) && Entries(cx, tables, meta)
    requires Filling(cx, tables, meta, top, i, k, r, after)
    ensures top < |tables|
    ensures Shape(cx, tables[top := after], meta) && Entries(cx, tables[top := after], meta)
  {
    hide Rev, Shl, Low, High, NextCode, End, Offset;
    var filled: seq<seq<Huft>> := tables[top := after];
    var m := meta[top];
    forall t, idx | 0 <= t < |filled| && 0 <= idx < Pow2(meta[t].j)
      ensures EntryOk(cx, meta, t, idx, filled[t][idx])
    {
      assert EntryOk(cx, meta, t, idx, tables[t][idx]);
      if t == top && Low(idx, k - m.w) == High(i, m.w) {
        EntriesOfCode(cx, m, idx, k, i);
        assert LeafFor(cx, m, idx, filled[t][idx], k, r);
      }
    }
  }

  lemma FillShape(cx: Code, tables: seq<seq<Huft>>, meta: seq<Meta>, top: nat, i: nat, k: nat, r: nat,
                  after: seq<Huft>)
    requires CodeOk(cx) && Shape(cx, tables, meta) && Filling(cx, tables, meta, top, i, k, r, after)
    ensures |tables| == |meta| && top < |tables| && Shape(cx, tables[top := after], meta)
    ensures forall t :: 0 <= t < |meta| ==> MetaOk(cx, meta[t]) && |tables[t]| >= Pow2(meta[t].j)
    ensures |after| == |tables[top]|
  {
    hide Rev, Shl, Pow2, CodeOk, Low, High;
  }

  lemma FillFilled(cx: Code, tables: seq<seq<Huft>>, meta: seq<Meta>, u: seq<nat>, i: nat, k: nat, r: nat,
                   after: seq<Huft>, top: nat)
    requires k <= cx.g && CodeOk(cx) && Shape(cx, tables, meta) && Stack(cx, tables, meta, u)
    requires Filled(cx, tables, meta, Shl(Rev(k, i), cx.g - k)) && Retired(cx, meta, u, Shl(Rev(k, i), cx.g - k))
    requires u != [] && top == u[|u| - 1] && Filling(cx, tables, meta, top, i, k, r, after)
    ensures top < |tables| && Shape(cx, tables[top := after], meta)
    ensures Filled(cx, tables[top := after], meta, Shl(Rev(k, i) + 1, cx.g - k))
  {
    hide Rev, Shl, Pow2, CodeOk, EntryLo, Stack, Retired, Filling, Shape;
    FillShape(cx, tables, meta, top, i, k, r, after);
    var filled: seq<seq<Huft>> := tables[top := after];
    forall t, idx | 0 <= t < |filled| && meta[t].j <= cx.l && 0 <= idx < Pow2(meta[t].j) &&
                    EntryLo(cx, meta[t], idx) < Shl(Rev(k, i) + 1, cx.g - k)
      ensures filled[t][idx].b > 0
    {
      FilledEntry(cx, tables, meta, u, i, k, r, after, top, t, idx);
    }
  }

  lemma FilledEntry(cx: Code, tables: seq<seq<Huft>>, meta: seq<Meta>, u: seq<nat>, i: nat, k: nat, r: nat,
                    after: seq<Huft>, top: nat, t: nat, idx: nat)
    requires k <= cx.g && CodeOk(cx) && Shape(cx, tables, meta) && Stack(cx, tables, meta, u)
    requires Filled(cx, tables, meta, Shl(Rev(k, i), cx.g - k)) && Retired(cx, meta, u, Shl(Rev(k, i), cx.g - k))
    requires u != [] && top == u[|u| - 1] && Filling(cx, tables, meta, top, i, k, r, after)
    requires t < |meta| && meta[t].j <= cx.l && idx < Pow2(meta[t].j)
    requires EntryLo(cx, meta[t], idx) < Shl(Rev(k, i) + 1, cx.g - k)
    ensures (if t == top then after else tables[t])[idx].b > 0
  {
    hide Rev, Shl, Low, High, Pow2, CodeOk, LeafAt, EntryLo, TableHi, NextCode, Offset;
    if t == top {
      EntriesOfCode(cx, meta[top], idx, k, i);
    } else if t in u {
      OtherFilled(cx, tables, meta, u, t, idx, i, k);
    } else {
      EntryInTable(cx, meta[t], idx);
    }
  }

  lemma FillStack(cx: Code, tables: seq<seq<Huft>>, meta: seq<Meta>, u: seq<nat>, ent: Huft, d: nat, rest: nat,
                  after: seq<Huft>)
    requires u != [] && Shape(cx, tables, meta) && Stack(cx, tables, meta, u) && ent.b > 0
    requires Overwritten(tables[u[|u| - 1]], after, d, rest, ent)
    ensures Shape(cx, tables[u[|u| - 1] := after], meta)
    ensures Stack(cx, tables[u[|u| - 1] := after], meta, u)
  {
    hide Shl, Low, High, Pow2;
    var filled: seq<seq<Huft>> := tables[u[|u| - 1] := after];
    forall h | 0 <= h < |u| - 1
      ensures Hangs(cx, filled, meta, u[h], u[h + 1])
    {
      assert Hangs(cx, tables, meta, u[h], u[h + 1]);
    }
  }

  lemma OtherFilled(cx: Code, tables: seq<seq<Huft>>, meta: seq<Meta>, u: seq<nat>, t: nat, idx: nat, i: nat, k: nat)
    requires k <= cx.g && Shape(cx, tables, meta) && Stack(cx, tables, meta, u)
    requires Filled(cx, tables, meta, Shl(Rev(k, i), cx.g - k))
    requires u != [] && t in u && t != u[|u| - 1] && meta[t].j <= cx.l && idx < Pow2(meta[t].j)
    requires var m := meta[u[|u| - 1]]; m.w < k && Low(i, m.w) == m.pre && i < Pow2(k)
    requires EntryLo(cx, meta[t], idx) < Shl(Rev(k, i) + 1, cx.g - k)
    ensures tables[t][idx].b > 0
  {
    hide Rev, Shl, Low, High, Pow2, EntryLo;
    var h :| 0 <= h < |u| && u[h] == t;
    assert Hangs(cx, tables, meta, u[h], u[h + 1]);
    if Shl(Rev(k, i), cx.g - k) <= EntryLo(cx, meta[t], idx) {
      AncestorEntry(cx, tables, meta, u, h, idx, i, k);
    }
  }

  /** In a table above the newest one, the only entry that can start within the
      current code is the one that leads to the newest table. */
  lemma AncestorEntry(cx: Code, tables: seq<seq<Huft>>, meta: seq<Meta>, u: seq<nat>, h: nat, idx: nat, i: nat, k: nat)
    requires Shape(cx, tables, meta) && Stack(cx, tables, meta, u) && h < |u| - 1
    requires meta[u[h]].j == cx.l && idx < Pow2(cx.l)
    requires var m := meta[u[|u| - 1]]; m.w < k <= cx.g && Low(i, m.w) == m.pre && i < Pow2(k)
    requires Shl(Rev(k, i), cx.g - k) <= EntryLo(cx, meta[u[h]], idx) < Shl(Rev(k, i) + 1, cx.g - k)
    ensures tables[u[h]][idx].b > 0
  {
    assert Hangs(cx, tables, meta, u[h], u[h + 1]);
    var m, n, top := meta[u[h]], meta[u[h + 1]], meta[u[|u| - 1]];
    assert n.w <= top.w && n.pre == Low(top.pre, n.w);
    LowLow(i, n.w, top.w);
    hide Rev, Shl, Low, High;
    PatternInTable(cx, n, i);
    RevSmall(k, cx.g, i);
    CodeEndsInTable(cx, n, k, Rev(k, i));
    EntryIsTable(cx, m, n, idx);
  }

  /** An entry of l bits that starts inside a table one level below leads to it. */
  lemma EntryIsTable(cx: Code, m: Meta, n: Meta, idx: nat)
    requires m.pre < Pow2(m.w) && n.pre < Pow2(n.w) && m.j == cx.l && n.w == m.w + cx.l <= cx.g && idx < Pow2(cx.l)
    requires TableLo(cx, n) <= EntryLo(cx, m, idx) < TableHi(cx, n)
    ensures High(n.pre, m.w) == idx
  {
    hide Rev, Shl, Low, High;
    var q := Path(m, idx);
    ShlMono(Rev(n.w, q), Rev(n.w, q) + 1, cx.g - n.w);
    SameBlock(Rev(n.w, q), Rev(n.w, n.pre), cx.g - n.w, EntryLo(cx, m, idx));
    RevInjective(n.w, q, n.pre);
    PathParts(m, idx);
    LowSmall(n.pre, n.w);
    LowHigh(q, m.w, cx.l);
    LowSmall(idx, cx.l);
  }
}
