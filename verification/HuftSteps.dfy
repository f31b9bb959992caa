/** Opening and leaving tables: the steps of huft_build that change its table stack. */
module HuftSteps {
  import opened HuffmanBits
  import opened HuffmanSpec
  import opened HuftTables

  const UNWRITTEN := Huft(0, 0, 0)

  ghost predicate Blank(t: seq<Huft>) {
    forall idx :: 0 <= idx < |t| ==> t[idx].b == 0
  }

  /** The first table. */
  lemma OpenFirst(cx: Code, blank: seq<Huft>)
    requires CodeOk(cx) && Blank(blank) && |blank| >= Pow2(cx.l)
    ensures Good(cx, [blank], [Meta(0, 0, cx.l)], [0], 0)
  {
    hide Rev, Shl, Low, End;
    ShlZero(0);
    EntryStart0(cx);
  }

  lemma EntryStart0(cx: Code)
    ensures Low(0, 0) == 0 && Pow2(0) == 1
  {
  }

  /** The tables after a new one is linked in below the newest. */
  function Linked(tables: seq<seq<Huft>>, top: nat, idx: nat, link: Huft, blank: seq<Huft>): seq<seq<Huft>>
    requires top < |tables| && idx < |tables[top]|
  {
    tables[top := tables[top][idx := link]] + [blank]
  }

  /** A table for the streams that start with i is opened below the newest table. */
  ghost predicate Opening(cx: Code, tables: seq<seq<Huft>>, meta: seq<Meta>, top: nat, i: nat, j: nat, blank: seq<Huft>)
    requires CodeOk(cx) && Shape(cx, tables, meta)
  {
    && top < |meta| && cx.l <= meta[top].j && Low(i, meta[top].w) == meta[top].pre
    && 1 <= j && meta[top].w + cx.l + j <= cx.g && i < Pow2(meta[top].w + cx.l)
    && Blank(blank) && |blank| >= Pow2(j)
  }

  lemma OpenIndex(cx: Code, tables: seq<seq<Huft>>, meta: seq<Meta>, top: nat, i: nat, j: nat, blank: seq<Huft>)
    requires CodeOk(cx) && Shape(cx, tables, meta) && Opening(cx, tables, meta, top, i, j, blank)
    ensures top < |tables| == |meta| && High(i, meta[top].w) < Pow2(cx.l) <= Pow2(meta[top].j) <= |tables[top]|
    ensures i == Path(meta[top], High(i, meta[top].w))
    ensures Low(i, meta[top].w + cx.l) == i
  {
    var w := meta[top].w;
    Pow2Mono(cx.l, meta[top].j);
    hide Shl, Low, High;
    LowSmall(i, w + cx.l);
    SplitLow(i, w, cx.l);
    LowHigh(i, w, cx.l);
    LowBound(High(i, w), cx.l);
  }

  lemma OpenStep(cx: Code, tables: seq<seq<Huft>>, meta: seq<Meta>, u: seq<nat>, i: nat, j: nat, blank: seq<Huft>,
                 top: nat, idx: nat)
    requires Good(cx, tables, meta, u, Rev(cx.g, i)) && u != [] && top == u[|u| - 1]
    requires Opening(cx, tables, meta, top, i, j, blank) && idx == High(i, meta[top].w)
    ensures top < |tables| && idx < |tables[top]|
    ensures Good(cx, Linked(tables, top, idx, Huft(16 + j, cx.l, |tables|), blank),
                 meta + [Meta(meta[top].w + cx.l, i, j)], u + [|tables|], Rev(cx.g, i))
  {
    hide Rev, Shl, Low, High, Pow2, Entries, Filled, Stack, Distinct, Retired;
    OpenIndex(cx, tables, meta, top, i, j, blank);
    var link := Huft(16 + j, cx.l, |tables|);
    var n := Meta(meta[top].w + cx.l, i, j);
    OpenShape(cx, tables, meta, top, i, j, blank, idx, link);
    OpenEntries(cx, tables, meta, top, i, j, blank, idx, link);
    OpenFilled(cx, tables, meta, top, i, j, blank, idx, link);
    OpenStack(cx, tables, meta, u, top, i, j, blank, idx, link);
    OpenRetired(cx, tables, meta, u, top, i, j, blank);
    hide Linked, Opening, Shape, CodeOk, Path;
  }

  lemma OpenShape(cx: Code, tables: seq<seq<Huft>>, meta: seq<Meta>, top: nat, i: nat, j: nat, blank: seq<Huft>,
                  idx: nat, link: Huft)
    requires CodeOk(cx) && Shape(cx, tables, meta) && Opening(cx, tables, meta, top, i, j, blank)
    requires idx < |tables[top]|
    ensures Shape(cx, Linked(tables, top, idx, link, blank), meta + [Meta(meta[top].w + cx.l, i, j)])
  {
    hide Rev, Shl, Low, High, Pow2;
  }

  lemma OpenEntries(cx: Code, tables: seq<seq<Huft>>, meta: seq<Meta>, top: nat, i: nat, j: nat, blank: seq<Huft>,
                    idx: nat, link: Huft)
    requires CodeOk(cx) && Shape(cx, tables, meta) && Opening(cx, tables, meta, top, i, j, blank)
    requires Entries(cx, tables, meta) && idx < |tables[top]|
    requires link == Huft(16 + j, cx.l, |tables|) && i == Path(meta[top], idx)
    requires Shape(cx, Linked(tables, top, idx, link, blank), meta + [Meta(meta[top].w + cx.l, i, j)])
    ensures Entries(cx, Linked(tables, top, idx, link, blank), meta + [Meta(meta[top].w + cx.l, i, j)])
  {
    hide Rev, Shl, Low, High, Pow2, LeafFor, LeafAt, Offset, NextCode, Path;
    var ts: seq<seq<Huft>> := Linked(tables, top, idx, link, blank);
    var ms := meta + [Meta(meta[top].w + cx.l, i, j)];
    forall t, x | 0 <= t < |ts| && 0 <= x < Pow2(ms[t].j)
      ensures EntryOk(cx, ms, t, x, ts[t][x])
    {
      if t < |tables| {
        assert EntryOk(cx, meta, t, x, tables[t][x]);
        if t == top && x == idx {
          assert LinkOk(cx, ms, t, x, link);
        }
      }
    }
  }

  lemma OpenFilled(cx: Code, tables: seq<seq<Huft>>, meta: seq<Meta>, top: nat, i: nat, j: nat, blank: seq<Huft>,
                   idx: nat, link: Huft)
    requires CodeOk(cx) && Shape(cx, tables, meta) && Opening(cx, tables, meta, top, i, j, blank)
    requires Filled(cx, tables, meta, Rev(cx.g, i)) && idx < |tables[top]| && link.b > 0
    requires Shape(cx, Linked(tables, top, idx, link, blank), meta + [Meta(meta[top].w + cx.l, i, j)])
    ensures Filled(cx, Linked(tables, top, idx, link, blank), meta + [Meta(meta[top].w + cx.l, i, j)], Rev(cx.g, i))
  {
    hide Rev, Shl, Low, High, Pow2, EntryLo;
    var n := Meta(meta[top].w + cx.l, i, j);
    var ts: seq<seq<Huft>> := Linked(tables, top, idx, link, blank);
    var ms := meta + [n];
    RevSmall(n.w, cx.g, i);
    forall t, x | 0 <= t < |ts| && ms[t].j <= cx.l && 0 <= x < Pow2(ms[t].j)
      ensures EntryLo(cx, ms[t], x) < Rev(cx.g, i) ==> ts[t][x].b > 0
    {
      if t == |tables| {
        EntryInTable(cx, n, x);
      }
    }
  }

  lemma OpenStack(cx: Code, tables: seq<seq<Huft>>, meta: seq<Meta>, u: seq<nat>, top: nat, i: nat, j: nat,
                  blank: seq<Huft>, idx: nat, link: Huft)
    requires CodeOk(cx) && Shape(cx, tables, meta) && Opening(cx, tables, meta, top, i, j, blank)
    requires Stack(cx, tables, meta, u) && u != [] && top == u[|u| - 1]
    requires idx < Pow2(cx.l) && idx < |tables[top]| && idx == High(i, meta[top].w) && link.b > 0
    requires Low(i, meta[top].w + cx.l) == i
    requires Shape(cx, Linked(tables, top, idx, link, blank), meta + [Meta(meta[top].w + cx.l, i, j)])
    ensures Stack(cx, Linked(tables, top, idx, link, blank), meta + [Meta(meta[top].w + cx.l, i, j)], u + [|tables|])
  {
    var ts: seq<seq<Huft>> := Linked(tables, top, idx, link, blank);
    var ms := meta + [Meta(meta[top].w + cx.l, i, j)];
    var v := u + [|tables|];
    hide Rev, Shl, Low, High, Pow2;
    forall a, b | 0 <= a <= b < |v|
      ensures ms[v[a]].w <= ms[v[b]].w && ms[v[a]].pre == Low(ms[v[b]].pre, ms[v[a]].w)
    {
      if b == |u| && a < |u| {
        assert meta[u[a]].w <= meta[top].w && meta[u[a]].pre == Low(meta[top].pre, meta[u[a]].w);
        LowLow(i, meta[u[a]].w, meta[top].w);
      }
    }
    forall h | 0 <= h < |v| - 1
      ensures Hangs(cx, ts, ms, v[h], v[h + 1])
    {
      if h < |u| - 1 {
        assert Hangs(cx, tables, meta, u[h], u[h + 1]);
      }
    }
  }

  lemma OpenRetired(cx: Code, tables: seq<seq<Huft>>, meta: seq<Meta>, u: seq<nat>, top: nat, i: nat, j: nat,
                    blank: seq<Huft>)
    requires CodeOk(cx) && Shape(cx, tables, meta) && Opening(cx, tables, meta, top, i, j, blank)
    requires Stack(cx, tables, meta, u) && u != [] && top == u[|u| - 1]
    requires Retired(cx, meta, u, Rev(cx.g, i)) && Distinct(meta)
    ensures Retired(cx, meta + [Meta(meta[top].w + cx.l, i, j)], u + [|tables|], Rev(cx.g, i))
    ensures Distinct(meta + [Meta(meta[top].w + cx.l, i, j)])
  {
    hide Rev, Shl, Low, High, Pow2;
    var n := Meta(meta[top].w + cx.l, i, j);
    RevSmall(n.w, cx.g, i);
    ShlMono(Rev(n.w, i), Rev(n.w, i) + 1, cx.g - n.w);
    forall a | 0 <= a < |meta|
      ensures !(meta[a].w == n.w && meta[a].pre == n.pre)
    {
      if a in u {
        var h :| 0 <= h < |u| && u[h] == a;
        assert meta[u[h]].w <= meta[u[|u| - 1]].w;
      } else {
        assert TableHi(cx, meta[a]) <= Rev(cx.g, i);
      }
    }
  }

  /** A table whose streams are all done leaves the stack. */
  lemma LeaveStep(cx: Code, tables: seq<seq<Huft>>, meta: seq<Meta>, u: seq<nat>, reached: nat, top: nat)
    requires Good(cx, tables, meta, u, reached) && |u| >= 2 && top == u[|u| - 1] && top < |meta|
    requires meta[top].w <= cx.g && TableHi(cx, meta[top]) <= reached
    ensures Good(cx, tables, meta, u[..|u| - 1], reached)
  {
    hide Rev, Shl, Low, High, Pow2, Entries, Filled, Distinct, TableHi, Retired, Stack;
    LeaveStack(cx, tables, meta, u);
    assert MetaOk(cx, meta[top]);
    LeaveRetired(cx, meta, u, reached, top);
    hide Shape, CodeOk;
  }

  lemma LeaveStack(cx: Code, tables: seq<seq<Huft>>, meta: seq<Meta>, u: seq<nat>)
    requires Shape(cx, tables, meta) && Stack(cx, tables, meta, u) && |u| >= 2
    ensures Stack(cx, tables, meta, u[..|u| - 1])
  {
    hide Rev, Shl, Low, High, Pow2, Shape;
    var v := u[..|u| - 1];
    forall h | 0 <= h < |v| - 1
      ensures Hangs(cx, tables, meta, v[h], v[h + 1])
    {
      assert Hangs(cx, tables, meta, u[h], u[h + 1]);
    }
  }

  lemma LeaveRetired(cx: Code, meta: seq<Meta>, u: seq<nat>, reached: nat, top: nat)
    requires Retired(cx, meta, u, reached) && u != [] && top == u[|u| - 1] && top < |meta|
    requires MetaOk(cx, meta[top]) && TableHi(cx, meta[top]) <= reached
    ensures Retired(cx, meta, u[..|u| - 1], reached)
  {
    hide TableHi;
    var v := u[..|u| - 1];
    assert u == v + [top];
    forall t | 0 <= t < |meta| && t !in v
      ensures MetaOk(cx, meta[t]) && TableHi(cx, meta[t]) <= reached
    {
      assert t in u ==> t == top;
    }
  }
}
