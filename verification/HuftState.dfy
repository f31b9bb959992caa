/** The local variables of huft_build between two codes, and what one code does to them. */
module HuftState {
  import opened HuffmanBits
  import opened HuffmanSpec
  import opened HuftTables
  import opened HuftSteps
  import opened HuftBuild

  /** The tables made so far, the table stack with the pattern that leads to
      each of its tables, the bits before the newest table, the table being
      filled, and the next code in reversed bits. */
  datatype Builder = Builder(tables: seq<seq<Huft>>, u: seq<nat>, x: seq<nat>, w: int, q: nat, i: nat)

  ghost predicate Counted(cx: Code, i: nat, reached: nat) {
    && i < Pow2(cx.g) && reached <= Pow2(cx.g)
    && (reached < Pow2(cx.g) ==> Rev(cx.g, i) == reached)
    && (reached == Pow2(cx.g) ==> i == 0)
  }

  /** The newest table is m. */
  ghost predicate Newest(cx: Code, w: int, i: nat, m: Meta)
    requires CodeOk(cx) && MetaOk(cx, m)
  {
    && w == m.w
    && (m.w + cx.l <= cx.g ==> i < Pow2(m.w + cx.l))
    && (m.j < cx.l ==> End(cx.c, cx.g, m.w + m.j) >= TableHi(cx, m))
  }

  ghost predicate Patterns(meta: seq<Meta>, u: seq<nat>, x: seq<nat>) {
    |x| == |u| && forall h :: 0 <= h < |u| ==> u[h] < |meta| && x[h] == meta[u[h]].pre
  }

  ghost predicate Fresh(cx: Code, st: Builder, meta: seq<Meta>, reached: nat) {
    st.u == [] && st.x == [] && st.tables == [] && meta == [] && st.w + cx.l == 0 && reached == 0 && st.i == 0
  }

  /** Between two codes. */
  ghost predicate Ready(cx: Code, st: Builder, meta: seq<Meta>, reached: nat) {
    && CodeOk(cx) && Counted(cx, st.i, reached)
    && (st.u == [] ==> Fresh(cx, st, meta, reached))
    && (st.u != [] ==>
          && Good(cx, st.tables, meta, st.u, reached) && Patterns(meta, st.u, st.x)
          && var m := meta[st.u[|st.u| - 1]];
             Newest(cx, st.w, st.i, m) && (reached < Pow2(cx.g) ==> Low(st.i, m.w) == m.pre))
  }

  /** After a code has been filled in: the newest table may just have become complete. */
  ghost predicate Stepped(cx: Code, st: Builder, meta: seq<Meta>, reached: nat) {
    && CodeOk(cx) && Counted(cx, st.i, reached) && st.u != []
    && Good(cx, st.tables, meta, st.u, reached) && Patterns(meta, st.u, st.x)
    && var m := meta[st.u[|st.u| - 1]];
       Newest(cx, st.w, st.i, m) && TableLo(cx, m) <= reached <= TableHi(cx, m)
  }

  /** The code that starts at `reached`. */
  ghost predicate Current(cx: Code, i: nat, k: nat, r: nat, reached: nat)
    requires CodeOk(cx)
  {
    1 <= k <= cx.g && r < cx.c[k] && reached == Start(cx.c, cx.g, k, r)
  }

  lemma CurrentCode(cx: Code, i: nat, k: nat, r: nat, reached: nat)
    requires CodeOk(cx) && Counted(cx, i, reached) && Current(cx, i, k, r, reached)
    ensures CodeAt(cx, k, r, i) && reached == Shl(Rev(k, i), cx.g - k) == Rev(cx.g, i)
    ensures Start(cx.c, cx.g, k, r + 1) == Shl(Rev(k, i) + 1, cx.g - k) <= Pow2(cx.g)
    ensures reached < Start(cx.c, cx.g, k, r + 1)
  {
    hide Rev, Shl, End, NextCode, Start, Pow2;
    StartFacts(cx.c, cx.g, k, r);
    StartFacts(cx.c, cx.g, k, r + 1);
    EndMono(cx.c, cx.g, k, cx.g);
    ShlZero(cx.g - k);
    RevMultiple(k, cx.g, i, NextCode(cx.c, k) + r);
  }

  /** The current code is not longer than the newest table reaches, unless it
      goes beyond l bits. */
  lemma CodeFits(cx: Code, m: Meta, i: nat, k: nat, r: nat, reached: nat)
    requires CodeOk(cx) && MetaOk(cx, m) && Newest(cx, m.w, i, m) && Low(i, m.w) == m.pre
    requires Counted(cx, i, reached) && Current(cx, i, k, r, reached)
    ensures k <= m.w + m.j || cx.l <= m.j
  {
    CurrentCode(cx, i, k, r, reached);
    PatternInTable(cx, m, i);
    if m.j < cx.l && m.w + m.j < k {
      EndMono(cx.c, cx.g, m.w + m.j, k - 1);
    }
  }

  lemma CurrentLength(cx: Code, i: nat, k: nat, r: nat, reached: nat)
    requires CodeOk(cx) && Current(cx, i, k, r, reached)
    ensures 1 <= k <= cx.g <= BMAX
  {
  }

  lemma OpensHere(cx: Code, i: nat, k: nat, r: nat, reached: nat, w: nat)
    requires CodeOk(cx) && Counted(cx, i, reached) && Current(cx, i, k, r, reached)
    requires w < k && i < Pow2(w)
    ensures Opens(cx, k, r, w, Rev(w, i))
  {
    hide Rev, Shl, End, NextCode, Start, Pow2, CodeOk, Counted, CodeAt;
    CurrentCode(cx, i, k, r, reached);
    CurrentLength(cx, i, k, r, reached);
    RevSmall(w, cx.g, i);
    RevBound(w, i);
    ShlMono(Rev(w, i) + 1, Pow2(w), cx.g - w);
    Pow2Split(w, cx.g);
  }

  /** The root table resolves at least l bits. */
  lemma RootWide(cx: Code, k: nat, r: nat, q: nat, j: nat)
    requires CodeOk(cx) && Opens(cx, k, r, 0, q) && j <= cx.g && cx.c[cx.g] > 0
    requires j < cx.l ==> End(cx.c, cx.g, j) >= Shl(q + 1, cx.g)
    ensures j >= cx.l
  {
    assert End(cx.c, cx.g, cx.g) == End(cx.c, cx.g, cx.g - 1) + cx.c[cx.g];
    ShlMono(1, q + 1, cx.g);
    hide Shl, End;
    if j < cx.l {
      EndMono(cx.c, cx.g, j, cx.g - 1);
    }
  }

  /** The newest table, whatever the stack. */
  ghost predicate Wide(cx: Code, meta: seq<Meta>) {
    exists t :: 0 < t < |meta| && meta[t].j > cx.l
  }

  function BlankTable(j: nat): (t: seq<Huft>)
    ensures |t| == Pow2(j) && Blank(t)
  {
    seq(Pow2(j), _ => UNWRITTEN)
  }

  /** The first round of `while (k > w + l)`: the starting table. */
  method OpenRootTable(cx: Code, st: Builder, ghost meta: seq<Meta>, k: nat, a: nat, ghost r: nat, ghost reached: nat)
    returns (st': Builder)
    requires Ready(cx, st, meta, reached) && Current(cx, st.i, k, r, reached) && cx.c[cx.g] > 0
    requires r + a + 1 == cx.c[k] && st.u == []
    ensures Ready(cx, st', [Meta(0, 0, cx.l)], reached)
    ensures st'.i == st.i && st'.u == [0] && st'.w == 0 && st'.q == 0
  {
    hide Rev, Shl, End, Good, BlankTable;
    ShlZero(0);
    EntryStart0(cx);
    OpensHere(cx, st.i, k, r, reached, 0);
    var j := PickBits(cx, k, a, 0, r, Rev(0, st.i));
    RootWide(cx, k, r, Rev(0, st.i), j);
    var blank := BlankTable(j);
    OpenRoot(cx, st, meta, reached, j, blank);
    st' := Builder([blank], [0], [0], 0, 0, st.i);
  }

  /** A later round: a table below the newest, linked in from it. */
  method OpenTable(cx: Code, st: Builder, ghost meta: seq<Meta>, k: nat, a: nat, ghost r: nat, ghost reached: nat)
    returns (st': Builder, ghost n: Meta)
    requires Ready(cx, st, meta, reached) && Current(cx, st.i, k, r, reached)
    requires r + a + 1 == cx.c[k] && k > st.w + cx.l && st.u != []
    ensures meta != [] && st.w >= 0 && st.i < Pow2(st.w + cx.l) && Ready(cx, st', meta + [n], reached)
    ensures st'.i == st.i && st'.u == st.u + [|st.tables|] && st'.w == st.w + cx.l && st'.q == |st.tables|
    ensures n.w == st'.w && n.pre == st.i && (n.j > cx.l <==> CrowdedAt(cx, k, st'.w, Rev(st'.w, st.i)))
  {
    hide Rev, Shl, End, Good, BlankTable, Low, High, Newest, CrowdedAt, Opens, Start;
    BeforeOpen(cx, st, meta, k, r, reached);
    var w := st.w + cx.l;
    OpensHere(cx, st.i, k, r, reached, w);
    var j := PickBits(cx, k, a, w, r, Rev(w, st.i));
    var blank := BlankTable(j);
    var top := st.u[|st.u| - 1];
    var idx := High(st.i, st.w);
    OpenMore(cx, st, meta, k, r, reached, j, blank, top, idx);
    var link := Huft(16 + j, cx.l, |st.tables|);
    n := Meta(w, st.i, j);
    st' := Builder(Linked(st.tables, top, idx, link, blank), st.u + [|st.tables|], st.x + [st.i], w, |st.tables|, st.i);
  }

  lemma OpenRoot(cx: Code, st: Builder, meta: seq<Meta>, reached: nat, j: nat, blank: seq<Huft>)
    requires Ready(cx, st, meta, reached) && st.u == [] && j >= cx.l
    requires |blank| == Pow2(j) && Blank(blank)
    ensures Ready(cx, Builder([blank], [0], [0], 0, 0, st.i), [Meta(0, 0, cx.l)], reached)
  {
    Pow2Mono(cx.l, j);
    OpenFirst(cx, blank);
    hide Rev, Shl, End, Good;
    ShlZero(cx.l);
    EntryStart0(cx);
  }

  lemma BeforeOpen(cx: Code, st: Builder, meta: seq<Meta>, k: nat, r: nat, reached: nat)
    requires Ready(cx, st, meta, reached) && Current(cx, st.i, k, r, reached) && st.u != [] && k > st.w + cx.l
    ensures st.w >= 0 && st.i < Pow2(st.w + cx.l) && reached == Rev(cx.g, st.i) < Pow2(cx.g)
    ensures |meta| == |st.tables| && st.u[|st.u| - 1] < |meta|
    ensures var m := meta[st.u[|st.u| - 1]];
      MetaOk(cx, m) && m.w == st.w && Low(st.i, m.w) == m.pre && cx.l <= m.j
  {
    hide Rev, Shl, End, Low, Pow2, Entries, Filled, Retired, Distinct;
    CurrentCode(cx, st.i, k, r, reached);
    CodeFits(cx, meta[st.u[|st.u| - 1]], st.i, k, r, reached);
  }

  lemma OpenMore(cx: Code, st: Builder, meta: seq<Meta>, k: nat, r: nat, reached: nat, j: nat, blank: seq<Huft>,
                 top: nat, idx: nat)
    requires Ready(cx, st, meta, reached) && Current(cx, st.i, k, r, reached) && st.u != [] && k > st.w + cx.l
    requires top == st.u[|st.u| - 1] && st.w >= 0 && idx == High(st.i, st.w)
    requires 1 <= j && st.w + cx.l + j <= cx.g && |blank| == Pow2(j) && Blank(blank)
    requires j < cx.l ==> End(cx.c, cx.g, st.w + cx.l + j) >= Shl(Rev(st.w + cx.l, st.i) + 1, cx.g - st.w - cx.l)
    ensures top < |st.tables| && idx < |st.tables[top]|
    ensures Ready(cx, Builder(Linked(st.tables, top, idx, Huft(16 + j, cx.l, |st.tables|), blank),
                              st.u + [|st.tables|], st.x + [st.i], st.w + cx.l, |st.tables|, st.i),
                  meta + [Meta(st.w + cx.l, st.i, j)], reached)
  {
    hide Rev, Shl, End, Low, High, Pow2, Entries, Filled, Retired, Distinct, Stack, Start;
    BeforeOpen(cx, st, meta, k, r, reached);
    OpenStep(cx, st.tables, meta, st.u, st.i, j, blank, top, idx);
    OpenIndex(cx, st.tables, meta, top, st.i, j, blank);
    var w := st.w + cx.l;
    if w + cx.l <= cx.g {
      Pow2Mono(w, w + cx.l);
    }
    hide Good, Linked;
  }

  /** Sets up the table entry for the current code and fills it in; then steps
      to the next code. */
  method FillCode(cx: Code, st: Builder, ghost meta: seq<Meta>, k: nat, ghost r: nat, p: nat, ghost reached: nat)
    returns (st': Builder)
    requires Ready(cx, st, meta, reached) && Current(cx, st.i, k, r, reached) && st.u != []
    requires st.q == st.u[|st.u| - 1] && st.w < k <= st.w + cx.l
    requires LeafAt(cx, p) == LeafAt(cx, Offset(cx.c, k) + r)
    ensures Stepped(cx, st', meta, Start(cx.c, cx.g, k, r + 1))
    ensures st'.u == st.u && st'.w == st.w && st'.q == st.q
    ensures forall h :: 0 <= h < |st.u| ==> st.u[h] < |meta| && meta[st.u[h]].w <= cx.g
    ensures forall h :: 0 <= h < |st.u| ==> TableLo(cx, meta[st.u[h]]) < Start(cx.c, cx.g, k, r + 1)
  {
    hide Good, Newest, Stepped, Start, TableLo, High, Shl, Rev, Pow2, Overwritten, Offset, End, Counted;
    BeforeFill(cx, st, meta, k, r, reached);
    var f := LeafAt(cx, p);
    var ent := Huft(f.e, k - st.w, f.v);
    var after := FillTable(st.tables[st.q], High(st.i, st.w), k - st.w, ent);
    FillStep(cx, st.tables, meta, st.u, st.i, k, r, after, st.q);
    var i := BackwardsIncrement(k, st.i);
    st' := st.(tables := st.tables[st.q := after], i := i);
    AfterFill(cx, st, meta, k, r, reached, after);
    LowBefore(cx, st, meta, k, r, reached);
  }

  lemma BeforeFill(cx: Code, st: Builder, meta: seq<Meta>, k: nat, r: nat, reached: nat)
    requires Ready(cx, st, meta, reached) && Current(cx, st.i, k, r, reached) && st.u != []
    requires st.q == st.u[|st.u| - 1] && st.w < k <= st.w + cx.l
    ensures st.w >= 0 && |st.tables| == |meta| && st.q < |meta| && MetaOk(cx, meta[st.q]) && meta[st.q].w == st.w
    ensures CodeAt(cx, k, r, st.i) && EndsIn(cx, meta[st.q], k, st.i) && High(st.i, st.w) < Pow2(k - st.w)
    ensures reached == Shl(Rev(k, st.i), cx.g - k) == Rev(cx.g, st.i) < Pow2(cx.g)
  {
    hide Rev, Shl, End, Low, High, Pow2, Entries, Filled, Retired, Distinct, Start;
    CurrentCode(cx, st.i, k, r, reached);
    CodeFits(cx, meta[st.q], st.i, k, r, reached);
    LowSmall(st.i, k);
    LowHigh(st.i, st.w, k - st.w);
    LowBound(High(st.i, st.w), k - st.w);
  }

  lemma CodeAtBound(cx: Code, k: nat, r: nat, i: nat)
    requires CodeOk(cx) && CodeAt(cx, k, r, i)
    ensures i < Pow2(k) && 1 <= k <= cx.g
  {
  }

  /** The counter after a code of length k. */
  lemma NextCounted(cx: Code, k: nat, r: nat, i: nat, reached: nat)
    requires CodeOk(cx) && Counted(cx, i, reached) && Current(cx, i, k, r, reached)
    ensures Counted(cx, Successor(k, i), Start(cx.c, cx.g, k, r + 1)) && Successor(k, i) < Pow2(k)
  {
    hide Rev, Shl, End, Start, Pow2, CodeOk, NextCode, Successor, CodeAt;
    CurrentCode(cx, i, k, r, reached);
    assert i < Pow2(k) by { CodeAtBound(cx, k, r, i); }
    var n := Successor(k, i);
    SuccessorIsNextCode(k, i);
    ShlZero(k);
    Pow2Mono(k, cx.g);
    Pow2Split(k, cx.g);
    ShlMono(Rev(k, i) + 1, Pow2(k), cx.g - k);
    ShlZero(cx.g - k);
    if Rev(k, i) + 1 < Pow2(k) {
      RevSmall(k, cx.g, n);
    }
  }

  lemma AfterFill(cx: Code, st: Builder, meta: seq<Meta>, k: nat, r: nat, reached: nat, after: seq<Huft>)
    requires Ready(cx, st, meta, reached) && Current(cx, st.i, k, r, reached) && st.u != []
    requires st.q == st.u[|st.u| - 1] && st.w < k <= st.w + cx.l && st.q < |st.tables|
    requires k <= cx.g && Good(cx, st.tables[st.q := after], meta, st.u, Shl(Rev(k, st.i) + 1, cx.g - k))
    ensures Stepped(cx, st.(tables := st.tables[st.q := after], i := Successor(k, st.i)), meta,
      Start(cx.c, cx.g, k, r + 1))
  {
    hide Rev, Shl, End, Low, High, Pow2, Entries, Filled, Retired, Distinct, Start, Stack, Successor;
    BeforeFill(cx, st, meta, k, r, reached);
    CurrentCode(cx, st.i, k, r, reached);
    NextCounted(cx, k, r, st.i, reached);
    var m := meta[st.q];
    PatternInTable(cx, m, st.i);
    CodeEndsInTable(cx, m, k, Rev(k, st.i));
    if m.w + cx.l <= cx.g {
      Pow2Mono(k, m.w + cx.l);
    }
    hide Good;
  }

  /** Every table on the stack starts at or before the current code. */
  lemma LowBefore(cx: Code, st: Builder, meta: seq<Meta>, k: nat, r: nat, reached: nat)
    requires Ready(cx, st, meta, reached) && Current(cx, st.i, k, r, reached) && st.u != []
    ensures forall h :: 0 <= h < |st.u| ==> st.u[h] < |meta| && meta[st.u[h]].w <= cx.g
    ensures forall h :: 0 <= h < |st.u| ==> TableLo(cx, meta[st.u[h]]) <= reached < Start(cx.c, cx.g, k, r + 1)
  {
    hide Rev, Shl, End, Low, High, Pow2, Entries, Filled, Retired, Distinct, Start;
    CurrentCode(cx, st.i, k, r, reached);
    forall h | 0 <= h < |st.u|
      ensures st.u[h] < |meta| && meta[st.u[h]].w <= cx.g && TableLo(cx, meta[st.u[h]]) <= reached
    {
      var m, top := meta[st.u[h]], meta[st.u[|st.u| - 1]];
      assert m.w <= top.w && m.pre == Low(top.pre, m.w);
      LowLow(st.i, m.w, top.w);
      PatternInTable(cx, m, st.i);
    }
  }

  /** One round of the backup loop: the newest table is complete. */
  lemma LeaveTable(cx: Code, st: Builder, meta: seq<Meta>, reached: nat)
    requires Stepped(cx, st, meta, reached) && Low(st.i, st.w) != st.x[|st.x| - 1]
    ensures |st.u| >= 2 && |st.x| == |st.u|
    ensures Stepped(cx, st.(u := st.u[..|st.u| - 1], x := st.x[..|st.x| - 1], w := st.w - cx.l), meta, reached)
  {
    hide Rev, Shl, End, Low, High, Pow2, Entries, Filled, Retired, Distinct, Start;
    var top := st.u[|st.u| - 1];
    var m := meta[top];
    EntryStart0(cx);
    LowZero(st.i);
    assert |st.u| >= 2;
    var parent := meta[st.u[|st.u| - 2]];
    assert Hangs(cx, st.tables, meta, st.u[|st.u| - 2], top);
    AtEnd(cx, m, st.i, reached);
    LeaveStep(cx, st.tables, meta, st.u, reached, top);
    Nested(cx, m, parent);
    var v := st.u[..|st.u| - 1];
    assert v[|v| - 1] == st.u[|st.u| - 2];
    hide Good, Stack;
  }

  lemma LowZero(i: nat)
    ensures Low(i, 0) == 0
  {
  }

  /** A pattern at or after a table that does not start with its prefix starts
      right behind it. */
  lemma AtEnd(cx: Code, m: Meta, i: nat, reached: nat)
    requires CodeOk(cx) && MetaOk(cx, m) && Counted(cx, i, reached) && Low(i, m.w) != m.pre
    requires TableLo(cx, m) <= reached <= TableHi(cx, m)
    ensures reached == TableHi(cx, m) && i < Pow2(m.w)
  {
    hide Rev, Shl, End, Low, Pow2;
    RevBound(m.w, m.pre);
    ShlMono(Rev(m.w, m.pre) + 1, Pow2(m.w), cx.g - m.w);
    Pow2Split(m.w, cx.g);
    ShlZero(m.w);
    if reached < Pow2(cx.g) {
      if reached < TableHi(cx, m) {
        TableOfPattern(cx, m, i);
      }
      RevMultiple(m.w, cx.g, i, Rev(m.w, m.pre) + 1);
    }
  }

  lemma Nested(cx: Code, m: Meta, parent: Meta)
    requires MetaOk(cx, m) && MetaOk(cx, parent) && parent.w <= m.w && parent.pre == Low(m.pre, parent.w)
    ensures TableLo(cx, parent) <= TableLo(cx, m) && TableHi(cx, m) <= TableHi(cx, parent)
  {
    hide Shl, Low, Rev, Pow2;
    RevSmall(m.w, cx.g, m.pre);
    PatternInTable(cx, parent, m.pre);
    CodeEndsInTable(cx, parent, m.w, Rev(m.w, m.pre));
  }
}
