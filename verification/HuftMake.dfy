/** The main loops of huft_build, and when they go wrong. */
module HuftMake {
  import opened HuffmanBits
  import opened HuffmanSpec
  import opened HuftTables
  import opened HuftBuild
  import opened HuftState

  /** w is a multiple of l. */
  predicate IsLevel(l: nat, w: nat)
    requires l > 0
  {
    w == 0 || (w >= l && IsLevel(l, w - l))
  }

  /** A table below the root that starts with the r-th code of length k has only
      codes at least l bits longer than its depth, and some longer still. */
  ghost predicate CrowdedCode(cx: Code, k: nat, r: nat)
    requires CodeOk(cx)
  {
    exists w, q :: Crowding(cx, k, r, w, q)
  }

  ghost predicate Crowding(cx: Code, k: nat, r: nat, w: nat, q: nat)
    requires CodeOk(cx)
  {
    w > 0 && IsLevel(cx.l, w) && Opens(cx, k, r, w, q) && CrowdedAt(cx, k, w, q)
  }

  ghost predicate Crowded(cx: Code)
    requires CodeOk(cx)
  {
    exists k, r :: 1 <= k <= cx.g && r < cx.c[k] && CrowdedCode(cx, k, r)
  }

  /** Tables sit at multiples of l bits, and a table wider than l bits has codes
      more than l bits longer than its depth. */
  ghost predicate WideOk(cx: Code, meta: seq<Meta>)
    requires CodeOk(cx)
  {
    forall t :: 0 <= t < |meta| ==>
      && IsLevel(cx.l, meta[t].w)
      && (meta[t].j > cx.l ==> meta[t].w + cx.l <= cx.g && End(cx.c, cx.g, meta[t].w + cx.l) < TableHi(cx, meta[t]))
  }

  /** Every table on the stack started before `reached`. */
  ghost predicate Begun(cx: Code, meta: seq<Meta>, u: seq<nat>, reached: nat) {
    forall h :: 0 <= h < |u| ==> u[h] < |meta| && meta[u[h]].w <= cx.g && TableLo(cx, meta[u[h]]) < reached
  }

  lemma {:induction false} LevelGap(l: nat, a: nat, b: nat)
    requires l > 0 && IsLevel(l, a) && IsLevel(l, b) && a < b
    ensures a + l <= b
  {
    if a > 0 {
      LevelGap(l, a - l, b - l);
    }
  }

  /** The stack holds one table of every level down to the newest. */
  lemma {:induction false} LevelOnStack(cx: Code, tables: seq<seq<Huft>>, meta: seq<Meta>, u: seq<nat>, n: nat, w: nat)
    returns (h: nat)
    requires cx.l > 0 && Shape(cx, tables, meta) && Stack(cx, tables, meta, u)
    requires n < |u| && IsLevel(cx.l, w) && w <= meta[u[n]].w && IsLevel(cx.l, meta[u[n]].w)
    ensures h <= n && meta[u[h]].w == w
    decreases n
  {
    h := n;
    if w < meta[u[n]].w {
      hide Low, High, Shl, Pow2;
      LevelGap(cx.l, w, meta[u[n]].w);
      assert n > 0;
      assert Hangs(cx, tables, meta, u[n - 1], u[n]);
      h := LevelOnStack(cx, tables, meta, u, n - 1, w);
    }
  }

  /** A table on the stack whose depth the current code is aligned to starts with it. */
  lemma StartsHere(cx: Code, st: Builder, meta: seq<Meta>, k: nat, r: nat, reached: nat, h: nat, w: nat, q: nat)
    requires Ready(cx, st, meta, reached) && Current(cx, st.i, k, r, reached)
    requires h < |st.u| && st.u[h] < |meta| && meta[st.u[h]].w == w && Opens(cx, k, r, w, q)
    ensures TableLo(cx, meta[st.u[h]]) == reached
  {
    hide Rev, Shl, End, High, Low, Pow2, Entries, Filled, Retired, Distinct, Start;
    CurrentCode(cx, st.i, k, r, reached);
    var m, top := meta[st.u[h]], meta[st.u[|st.u| - 1]];
    assert m.w <= top.w && m.pre == Low(top.pre, m.w);
    LowLow(st.i, m.w, top.w);
    PatternInTable(cx, m, st.i);
    ShlMono(q, q + 1, cx.g - w);
    ShlZero(cx.g - w);
    SameBlock(q, Rev(w, m.pre), cx.g - w, reached);
  }

  /** A table that would start with the current code is not on the stack yet. */
  lemma NotOpenYet(cx: Code, st: Builder, meta: seq<Meta>, k: nat, r: nat, reached: nat, w: nat, q: nat)
    requires Ready(cx, st, meta, reached) && Current(cx, st.i, k, r, reached) && Begun(cx, meta, st.u, reached)
    requires st.u != [] && IsLevel(cx.l, w) && st.w >= 0 && IsLevel(cx.l, st.w) && Opens(cx, k, r, w, q)
    ensures w > st.w
  {
    hide Rev, Shl, End, High, Low, Pow2, Entries, Filled, Retired, Distinct, Start, Opens, Stack, TableLo;
    if w <= st.w {
      var h := LevelOnStack(cx, st.tables, meta, st.u, |st.u| - 1, w);
      assert st.u[h] < |meta|;
      StartsHere(cx, st, meta, k, r, reached, h, w, q);
    }
  }

  /** Every crowded table at most w bits deep that starts with the current code has been opened. */
  ghost predicate Caught(cx: Code, meta: seq<Meta>, k: nat, r: nat, w: int)
    requires CodeOk(cx)
  {
    forall v: nat, q: nat :: Crowding(cx, k, r, v, q) && v <= w ==> Wide(cx, meta)
  }

  /** Tables are opened until the newest reaches the end of a code of length k. */
  method OpenTables(cx: Code, st: Builder, ghost meta: seq<Meta>, k: nat, a: nat, ghost r: nat, ghost reached: nat,
                    budget: nat)
    returns (ok: bool, st': Builder, ghost meta': seq<Meta>)
    requires Ready(cx, st, meta, reached) && Current(cx, st.i, k, r, reached) && cx.c[cx.g] > 0
    requires r + a + 1 == cx.c[k] && Begun(cx, meta, st.u, reached) && st.w < k
    requires st.u != [] ==> st.w >= 0 && IsLevel(cx.l, st.w)
    requires st.u != [] && k <= st.w + cx.l ==> st.q == st.u[|st.u| - 1]
    requires (Wide(cx, meta) ==> Crowded(cx)) && WideOk(cx, meta)
    ensures ok ==> Ready(cx, st', meta', reached) && st'.i == st.i && st'.u != [] && WideOk(cx, meta')
    ensures ok ==> st'.q == st'.u[|st'.u| - 1] && st'.w < k <= st'.w + cx.l && IsLevel(cx.l, st'.w)
    ensures ok ==> (Wide(cx, meta') ==> Crowded(cx)) && (Wide(cx, meta) ==> Wide(cx, meta'))
    ensures ok ==> (CrowdedCode(cx, k, r) ==> Wide(cx, meta'))
    ensures |meta'| <= |meta| + 2 * BMAX && (!ok ==> |meta'| == budget)
    ensures cx.l == cx.g && |meta| <= 1 ==> |meta'| <= 1
  {
    hide Rev, Shl, End, Start, Good, Crowded, CrowdedCode, Wide, WideOk, Newest, Begun, Opens, CrowdedAt;
    st', meta' := st, meta;
    ReadyShape(cx, st, meta, reached);
    NothingCaught(cx, st, meta, k, r, reached);
    while k > st'.w + cx.l
      invariant Ready(cx, st', meta', reached) && st'.i == st.i && st'.w < k
      invariant st'.u != [] ==> st'.w >= 0 && IsLevel(cx.l, st'.w)
      invariant k <= st'.w + cx.l ==> st'.u != [] && st'.q == st'.u[|st'.u| - 1]
      invariant (Wide(cx, meta') ==> Crowded(cx)) && (Wide(cx, meta) ==> Wide(cx, meta')) && WideOk(cx, meta')
      invariant Caught(cx, meta', k, r, st'.w)
      invariant |meta'| <= |meta| + (st'.w - st.w) && |meta'| == |st'.tables| && (st'.u == [] ==> meta' == [])
      invariant cx.l == cx.g && |meta| <= 1 ==> |meta'| <= 1
    {
      if |st'.tables| == budget {
        return false, st', meta';
      }
      if st'.u == [] {
        st' := OpenRootTable(cx, st', meta', k, a, r, reached);
        RootCaught(cx, meta', k, r);
        meta' := [Meta(0, 0, cx.l)];
      } else {
        ghost var w, n := st'.w, Meta(0, 0, 0);
        st', n := OpenTable(cx, st', meta', k, a, r, reached);
        MoreCaught(cx, meta', n, st'.i, k, r, reached, w);
        meta' := meta' + [n];
      }
      ReadyShape(cx, st', meta', reached);
    }
    ok := true;
    AllCaught(cx, meta', k, r, st'.w);
  }

  lemma ReadyShape(cx: Code, st: Builder, meta: seq<Meta>, reached: nat)
    requires Ready(cx, st, meta, reached)
    ensures |meta| == |st.tables| && st.w + cx.l >= 0 && 1 <= cx.l <= cx.g <= BMAX && (st.u == [] ==> meta == [])
  {
    hide Rev, Shl, End, Entries, Filled, Retired, Distinct;
  }

  lemma NothingCaught(cx: Code, st: Builder, meta: seq<Meta>, k: nat, r: nat, reached: nat)
    requires Ready(cx, st, meta, reached) && Current(cx, st.i, k, r, reached) && Begun(cx, meta, st.u, reached)
    requires st.u != [] ==> st.w >= 0 && IsLevel(cx.l, st.w)
    ensures Caught(cx, meta, k, r, st.w)
  {
    hide Rev, Shl, End, Good, Opens, CrowdedAt, Begun, Newest, Current;
    forall v: nat, q: nat | Crowding(cx, k, r, v, q) && v <= st.w
      ensures false
    {
      if st.u != [] {
        NotOpenYet(cx, st, meta, k, r, reached, v, q);
      }
    }
  }

  lemma RootCaught(cx: Code, meta: seq<Meta>, k: nat, r: nat)
    requires CodeOk(cx)
    ensures Caught(cx, [Meta(0, 0, cx.l)], k, r, 0) && !Wide(cx, [Meta(0, 0, cx.l)]) && !Wide(cx, [])
    ensures WideOk(cx, [Meta(0, 0, cx.l)])
  {
  }

  lemma MoreCaught(cx: Code, meta: seq<Meta>, n: Meta, i: nat, k: nat, r: nat, reached: nat, w: nat)
    requires CodeOk(cx) && meta != [] && n.w == w + cx.l && Counted(cx, i, reached) && Current(cx, i, k, r, reached)
    requires IsLevel(cx.l, w) && n.w < k && i < Pow2(n.w) && n.pre == i && WideOk(cx, meta)
    requires n.j > cx.l <==> CrowdedAt(cx, k, n.w, Rev(n.w, i))
    requires Caught(cx, meta, k, r, w)
    ensures IsLevel(cx.l, n.w) && Caught(cx, meta + [n], k, r, n.w) && WideOk(cx, meta + [n])
    ensures Wide(cx, meta) ==> Wide(cx, meta + [n])
    ensures Wide(cx, meta + [n]) ==> Wide(cx, meta) || Crowded(cx)
  {
    hide Rev, Shl, End, CrowdedAt, Opens, Start, WideOk, Wide, Counted, Pow2, Crowding, IsLevel;
    OpensHere(cx, i, k, r, reached, n.w);
    NewLevel(cx, w, n, i, k, r);
    MoreWideOk(cx, meta, n, i, k);
    MoreWide(cx, meta, n);
    var more := meta + [n];
    forall v: nat, q: nat | Crowding(cx, k, r, v, q) && v <= n.w
      ensures Wide(cx, more)
    {
      if v > w {
        SameLevel(cx, w, n, i, k, r, v, q);
      }
    }
  }

  lemma MoreWide(cx: Code, meta: seq<Meta>, n: Meta)
    requires CodeOk(cx) && meta != []
    ensures Wide(cx, meta + [n]) <==> Wide(cx, meta) || n.j > cx.l
  {
    hide CodeOk;
    var more := meta + [n];
    assert more[|meta|] == n;
    if Wide(cx, meta) {
      var t :| 0 < t < |meta| && meta[t].j > cx.l;
      assert more[t].j > cx.l;
    }
    if Wide(cx, more) {
      var t :| 0 < t < |more| && more[t].j > cx.l;
      assert t < |meta| ==> meta[t].j > cx.l;
    }
  }

  lemma NewLevel(cx: Code, w: nat, n: Meta, i: nat, k: nat, r: nat)
    requires CodeOk(cx) && IsLevel(cx.l, w) && n.w == w + cx.l && n.w < k && Opens(cx, k, r, n.w, Rev(n.w, i))
    ensures IsLevel(cx.l, n.w)
    ensures CrowdedAt(cx, k, n.w, Rev(n.w, i)) ==> Crowded(cx)
  {
    hide Rev, Shl, End, CrowdedAt, Start;
    if CrowdedAt(cx, k, n.w, Rev(n.w, i)) {
      assert Crowding(cx, k, r, n.w, Rev(n.w, i));
      assert CrowdedCode(cx, k, r);
    }
  }

  /** A crowded table above depth w and up to n is n. */
  lemma SameLevel(cx: Code, w: nat, n: Meta, i: nat, k: nat, r: nat, v: nat, q: nat)
    requires CodeOk(cx) && IsLevel(cx.l, w) && n.w == w + cx.l && n.w < k && Opens(cx, k, r, n.w, Rev(n.w, i))
    requires Crowding(cx, k, r, v, q) && w < v <= n.w
    ensures CrowdedAt(cx, k, n.w, Rev(n.w, i))
  {
    hide Rev, Shl, End, CrowdedAt, Start, Opens, IsLevel;
    LevelGap(cx.l, w, v);
    SameStart(cx, k, r, v, q, Rev(n.w, i));
  }

  lemma MoreWideOk(cx: Code, meta: seq<Meta>, n: Meta, i: nat, k: nat)
    requires CodeOk(cx) && WideOk(cx, meta) && IsLevel(cx.l, n.w) && n.w < k <= cx.g && n.pre == i
    requires n.j > cx.l ==> CrowdedAt(cx, k, n.w, Rev(n.w, i))
    ensures WideOk(cx, meta + [n])
  {
    hide Rev, Shl, End, IsLevel;
  }

  lemma SameStart(cx: Code, k: nat, r: nat, w: nat, p: nat, q: nat)
    requires CodeOk(cx) && Opens(cx, k, r, w, p) && Opens(cx, k, r, w, q)
    ensures p == q
  {
    ShlMono(p, q, cx.g - w);
    ShlMono(q, p, cx.g - w);
  }

  lemma AllCaught(cx: Code, meta: seq<Meta>, k: nat, r: nat, w: int)
    requires CodeOk(cx) && Caught(cx, meta, k, r, w) && k <= w + cx.l
    ensures CrowdedCode(cx, k, r) ==> Wide(cx, meta)
  {
  }

  /** Tables that the next code does not lie in are left. */
  method BackUp(cx: Code, st: Builder, ghost meta: seq<Meta>, ghost reached: nat) returns (st': Builder)
    requires Stepped(cx, st, meta, reached) && IsLevel(cx.l, st.w)
    ensures Ready(cx, st', meta, reached) && st'.i == st.i && st'.q == st.q && st'.u != [] && st'.u <= st.u
    ensures st'.w >= 0 && IsLevel(cx.l, st'.w)
    ensures st' == st || st'.w + cx.l <= st.w
  {
    st' := st;
    hide Rev, Shl, End, Good, Newest, TableLo, TableHi, Low;
    StepShape(cx, st', meta, reached);
    while Low(st'.i, st'.w) != st'.x[|st'.x| - 1]
      invariant Stepped(cx, st', meta, reached) && st'.i == st.i && st'.q == st.q && st'.u <= st.u
      invariant st'.w >= 0 && |st'.x| == |st'.u| && IsLevel(cx.l, st'.w)
      invariant st' == st || st'.w + cx.l <= st.w
      decreases |st'.u|
    {
      LeaveTable(cx, st', meta, reached);
      st' := st'.(u := st'.u[..|st'.u| - 1], x := st'.x[..|st'.x| - 1], w := st'.w - cx.l);
      StepShape(cx, st', meta, reached);
    }
    StepReady(cx, st', meta, reached);
  }

  lemma StepShape(cx: Code, st: Builder, meta: seq<Meta>, reached: nat)
    requires Stepped(cx, st, meta, reached)
    ensures st.w >= 0 && |st.x| == |st.u|
  {
    hide Rev, Shl, End, Low;
  }

  lemma StepReady(cx: Code, st: Builder, meta: seq<Meta>, reached: nat)
    requires Stepped(cx, st, meta, reached) && st.w >= 0 && |st.x| > 0 && Low(st.i, st.w) == st.x[|st.x| - 1]
    ensures Ready(cx, st, meta, reached)
  {
    hide Rev, Shl, End, Low, Entries, Filled, Retired, Distinct;
  }

  /** The codes before the r-th of length k have been dealt with. */
  ghost predicate Done(cx: Code, meta: seq<Meta>, k: nat, r: nat)
    requires CodeOk(cx)
  {
    && (Wide(cx, meta) ==> Crowded(cx)) && WideOk(cx, meta)
    && forall a, b | 1 <= a <= cx.g && 0 <= b < cx.c[a] && (a < k || (a == k && b < r)) ::
         CrowdedCode(cx, a, b) ==> Wide(cx, meta)
  }

  /** Where the main loop stands before the r-th code of length k. */
  ghost predicate Progress(cx: Code, st: Builder, meta: seq<Meta>, k: nat, r: nat, reached: nat) {
    && Ready(cx, st, meta, reached) && Begun(cx, meta, st.u, reached) && Done(cx, meta, k, r)
    && (st.u != [] ==> 0 <= st.w < k && IsLevel(cx.l, st.w))
    && (st.u != [] && k <= st.w + cx.l ==> st.q == st.u[|st.u| - 1])
  }

  /** One code of length k. */
  method OneCode(cx: Code, st: Builder, ghost meta: seq<Meta>, k: nat, a: nat, p: nat, ghost r: nat, budget: nat)
    returns (ok: bool, st': Builder, ghost meta': seq<Meta>)
    requires CodeOk(cx) && cx.c[cx.g] > 0 && 1 <= k <= cx.g && r + a + 1 == cx.c[k]
    requires Progress(cx, st, meta, k, r, Start(cx.c, cx.g, k, r))
    requires LeafAt(cx, p) == LeafAt(cx, Offset(cx.c, k) + r)
    ensures ok ==> st'.u != [] && Progress(cx, st', meta', k, r + 1, Start(cx.c, cx.g, k, r + 1))
    ensures |meta'| <= |meta| + 2 * BMAX && (!ok ==> |meta'| == budget)
    ensures cx.l == cx.g && |meta| <= 1 ==> |meta'| <= 1
  {
    hide Ready, Stepped, CrowdedCode, Crowded, Wide, WideOk, Start, End, Begun, TableLo, Offset, LeafAt, IsLevel;
    ghost var reached := Start(cx.c, cx.g, k, r);
    BeforeCode(cx, st, meta, k, reached);
    ok, st', meta' := OpenTables(cx, st, meta, k, a, r, reached, budget);
    if ok {
      st' := FillCode(cx, st', meta', k, r, p, reached);
      ghost var u := st'.u;
      StillBegun(cx, meta', u, u, Start(cx.c, cx.g, k, r + 1));
      st' := BackUp(cx, st', meta', Start(cx.c, cx.g, k, r + 1));
      StillBegun(cx, meta', u, st'.u, Start(cx.c, cx.g, k, r + 1));
      OneMoreDone(cx, meta, meta', k, r);
    }
  }

  lemma BeforeCode(cx: Code, st: Builder, meta: seq<Meta>, k: nat, reached: nat)
    requires Ready(cx, st, meta, reached) && 1 <= k && (st.u != [] ==> 0 <= st.w < k)
    ensures st.w < k && cx.l > 0
  {
  }

  lemma StillBegun(cx: Code, meta: seq<Meta>, u: seq<nat>, v: seq<nat>, reached: nat)
    requires v <= u
    requires forall h :: 0 <= h < |u| ==> u[h] < |meta| && meta[u[h]].w <= cx.g
    requires forall h :: 0 <= h < |u| ==> TableLo(cx, meta[u[h]]) < reached
    ensures Begun(cx, meta, v, reached)
  {
  }

  lemma OneMoreDone(cx: Code, meta: seq<Meta>, meta': seq<Meta>, k: nat, r: nat)
    requires CodeOk(cx) && Done(cx, meta, k, r) && (Wide(cx, meta') ==> Crowded(cx)) && WideOk(cx, meta')
    requires Wide(cx, meta) ==> Wide(cx, meta')
    requires CrowdedCode(cx, k, r) ==> Wide(cx, meta')
    ensures Done(cx, meta', k, r + 1)
  {
    hide CrowdedCode, Wide, WideOk, Crowded;
  }

  lemma NextLength(cx: Code, st: Builder, meta: seq<Meta>, k: nat)
    requires CodeOk(cx) && 1 <= k <= cx.g && Progress(cx, st, meta, k, cx.c[k], Start(cx.c, cx.g, k, cx.c[k]))
    ensures Progress(cx, st, meta, k + 1, 0, End(cx.c, cx.g, k))
    ensures k < cx.g ==> Start(cx.c, cx.g, k + 1, 0) == End(cx.c, cx.g, k)
  {
    StartFacts(cx.c, cx.g, k, cx.c[k]);
    if k < cx.g {
      StartFacts(cx.c, cx.g, k + 1, 0);
    }
    hide CrowdedCode, Wide, WideOk, Crowded, Good, Begun, Start, End, Shl, Rev, Low, TableLo;
  }

  /** p points at the n-th value, or behind the last one. */
  predicate PointsAt(cx: Code, p: nat, n: nat) {
    p <= |cx.leaves| && p <= n && (p == n || p == |cx.leaves|)
  }

  /** All codes of length k. */
  method OneLength(cx: Code, st: Builder, ghost meta: seq<Meta>, k: nat, p: nat, budget: nat)
    returns (ok: bool, st': Builder, ghost meta': seq<Meta>, p': nat)
    requires CodeOk(cx) && cx.c[cx.g] > 0 && 1 <= k <= cx.g
    requires Progress(cx, st, meta, k, 0, End(cx.c, cx.g, k - 1)) && PointsAt(cx, p, Offset(cx.c, k))
    ensures ok ==> Progress(cx, st', meta', k, cx.c[k], Start(cx.c, cx.g, k, cx.c[k]))
    ensures ok ==> PointsAt(cx, p', Offset(cx.c, k) + cx.c[k])
    ensures ok && cx.c[k] > 0 ==> st'.u != []
    ensures |meta'| <= |meta| + 2 * BMAX * cx.c[k] && (!ok ==> |meta'| == budget)
    ensures cx.l == cx.g && |meta| <= 1 ==> |meta'| <= 1
  {
    hide Progress, Start, End, Offset, LeafAt, Shl, NextCode;
    st', meta', p' := st, meta, p;
    var a := cx.c[k];
    ghost var off := Offset(cx.c, k);
    StartFacts(cx.c, cx.g, k, 0);
    ghost var r: nat := 0;
    while a > 0
      invariant 0 <= a && r + a == cx.c[k]
      invariant Progress(cx, st', meta', k, r, Start(cx.c, cx.g, k, r))
      invariant PointsAt(cx, p', off + r)
      invariant r > 0 ==> st'.u != []
      invariant |meta'| <= |meta| + 2 * BMAX * r && (cx.l == cx.g && |meta| <= 1 ==> |meta'| <= 1)
    {
      a := a - 1;
      SameLeaf(cx, p', off + r);
      ok, st', meta' := OneCode(cx, st', meta', k, a, p', r, budget);
      if !ok {
        return;
      }
      r := r + 1;
      if p' < |cx.leaves| {
        p' := p' + 1;
      }
    }
    ok := true;
  }

  /** The loop over the bit lengths. */
  method MakeTables(cx: Code, kmin: nat, budget: nat)
    returns (ok: bool, tables: seq<seq<Huft>>, ghost meta: seq<Meta>, ghost u: seq<nat>)
    requires CodeOk(cx) && cx.c[cx.g] > 0 && 1 <= kmin <= cx.g && forall n :: 1 <= n < kmin ==> cx.c[n] == 0
    ensures ok ==> tables != [] && Good(cx, tables, meta, u, Pow2(cx.g))
    ensures ok ==> (Wide(cx, meta) <==> Crowded(cx)) && WideOk(cx, meta)
    ensures !ok ==> budget <= 2 * BMAX * Offset(cx.c, cx.g + 1)
    ensures ok && cx.l == cx.g ==> |tables| == 1
  {
    hide Progress, Start, End, Good, Wide, WideOk, Crowded, Shl, Pow2, Offset;
    var st := Builder([], [], [], -(cx.l as int), 0, 0);
    meta, u, tables, ok := [], [], [], true;
    var p := 0;
    var k := kmin;
    StartAll(cx, kmin, st);
    while k <= cx.g
      invariant kmin <= k <= cx.g + 1
      invariant Progress(cx, st, meta, k, 0, End(cx.c, cx.g, k - 1))
      invariant PointsAt(cx, p, Offset(cx.c, k))
      invariant k > cx.g ==> st.u != []
      invariant |meta| <= 2 * BMAX * Offset(cx.c, k) && (cx.l == cx.g ==> |meta| <= 1)
    {
      ok, st, meta, p := OneLength(cx, st, meta, k, p, budget);
      OffsetUpTo(cx.c, k, cx.g);
      if !ok {
        return;
      }
      NextLength(cx, st, meta, k);
      k := k + 1;
    }
    EndOfCodes(cx, st, meta);
    tables, u := st.tables, st.u;
  }

  lemma {:induction false} OffsetUpTo(c: seq<nat>, k: nat, g: nat)
    requires 1 <= k <= g < |c|
    ensures Offset(c, k) + c[k] == Offset(c, k + 1) <= Offset(c, g + 1)
  {
    if k < g {
      OffsetUpTo(c, k, g - 1);
    }
  }

  lemma SameLeaf(cx: Code, p: nat, n: nat)
    requires PointsAt(cx, p, n)
    ensures LeafAt(cx, p) == LeafAt(cx, n)
  {
  }

  lemma {:induction false} EndZero(c: seq<nat>, g: nat, n: nat)
    requires n <= g < |c| && forall m :: 1 <= m <= n ==> c[m] == 0
    ensures End(c, g, n) == 0 && Offset(c, n + 1) == 0
  {
    if n > 0 {
      EndZero(c, g, n - 1);
      ShlZero(g - n);
    }
  }

  lemma StartAll(cx: Code, kmin: nat, st: Builder)
    requires CodeOk(cx) && 1 <= kmin <= cx.g && forall n :: 1 <= n < kmin ==> cx.c[n] == 0
    requires st == Builder([], [], [], -(cx.l as int), 0, 0)
    ensures Progress(cx, st, [], kmin, 0, End(cx.c, cx.g, kmin - 1)) && Offset(cx.c, kmin) == 0
  {
    EndZero(cx.c, cx.g, kmin - 1);
    ShlZero(cx.g);
    RevSmall(0, cx.g, 0);
    ShlZero(cx.g);
    assert !Wide(cx, []) && WideOk(cx, []);
    hide WideOk, CrowdedCode, Crowded, Wide, Rev, Shl, End;
  }

  lemma EndOfCodes(cx: Code, st: Builder, meta: seq<Meta>)
    requires CodeOk(cx) && Progress(cx, st, meta, cx.g + 1, 0, End(cx.c, cx.g, cx.g)) && st.u != []
    ensures st.tables != [] && |st.tables| == |meta| && Good(cx, st.tables, meta, st.u, Pow2(cx.g))
    ensures (Wide(cx, meta) <==> Crowded(cx)) && WideOk(cx, meta)
  {
    hide CrowdedCode, Wide, WideOk, Begun, End, Shl, Rev, Low, TableLo, Entries, Filled, Retired, Distinct;
  }
}
