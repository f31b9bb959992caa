/** Walking the finished tables, as inflate_codes does for each symbol. */
module HuftDecode {
  import opened HuffmanBits
  import opened HuffmanSpec
  import opened HuftTables
  import opened HuftState
  import opened HuftMake

  /** The entry at which the walk ends and the bits it consumed; Stray when the
      walk reads an entry that huft_build never wrote, or one that would dump
      more bits than were asked for. */
  datatype Walked = At(e: nat, v: nat, bits: nat) | Stray

  /** The walk from table t, which is indexed by `bits` bits, on a stream whose
      next bit is bit 0. */
  function Walk(tables: seq<seq<Huft>>, t: nat, bits: nat, stream: nat): Walked
    decreases |tables| - t
  {
    if t >= |tables| || Low(stream, bits) >= |tables[t]| then Stray
    else
      var ent := tables[t][Low(stream, bits)];
      if ent.b == 0 || ent.b > bits then Stray
      else if ent.e <= 16 || ent.e == INVALID then At(ent.e, ent.v, ent.b)
      else if ent.v <= t then Stray
      else
        match Walk(tables, ent.v, ent.e - 16, High(stream, ent.b))
        case At(e, v, n) => At(e, v, ent.b + n)
        case Stray => Stray
  }

  /** The most bits, counted from where the walk starts, that it asks for. */
  function Lookahead(tables: seq<seq<Huft>>, t: nat, bits: nat, stream: nat): (n: nat)
    ensures n >= bits
    decreases |tables| - t
  {
    if t >= |tables| || Low(stream, bits) >= |tables[t]| then bits
    else
      var ent := tables[t][Low(stream, bits)];
      if ent.e <= 16 || ent.e == INVALID || ent.v <= t then bits
      else
        var n := ent.b + Lookahead(tables, ent.v, ent.e - 16, High(stream, ent.b));
        if n > bits then n else bits
  }

  /** The r-th code of length k is a prefix of the stream. */
  ghost predicate Matches(cx: Code, stream: nat, k: nat, r: nat)
    requires CodeOk(cx)
  {
    1 <= k <= cx.g && r < cx.c[k] && Rev(k, stream) == NextCode(cx.c, k) + r
  }

  /** The walk from table t, reached after the first w bits of the stream, ends
      with the value of a code that is a prefix of the stream. */
  ghost predicate Finds(cx: Code, found: Walked, stream: nat, w: nat, k: nat, r: nat)
    requires CodeOk(cx)
  {
    && Matches(cx, stream, k, r) && w < k
    && var f := LeafAt(cx, Offset(cx.c, k) + r); found == At(f.e, f.v, k - w)
  }

  lemma EntryIndex(cx: Code, m: Meta, stream: nat)
    requires MetaOk(cx, m) && Low(stream, m.w) == m.pre
    ensures var idx := Low(High(stream, m.w), m.j);
      idx < Pow2(m.j) && Path(m, idx) == Low(stream, m.w + m.j)
  {
    SplitLow(stream, m.w, m.j);
    LowBound(High(stream, m.w), m.j);
  }

  lemma AllWritten(cx: Code, tables: seq<seq<Huft>>, meta: seq<Meta>, u: seq<nat>, t: nat, idx: nat)
    requires Good(cx, tables, meta, u, Pow2(cx.g)) && t < |tables| && meta[t].j <= cx.l && idx < Pow2(meta[t].j)
    ensures tables[t][idx].b > 0 && EntryOk(cx, meta, t, idx, tables[t][idx])
  {
    hide Rev, Shl, Low, High, Pow2, EntryLo, EntryOk, Stack, Retired, Distinct;
    EntryBeforeEnd(cx, meta[t], idx);
  }

  lemma EntryBeforeEnd(cx: Code, m: Meta, idx: nat)
    requires MetaOk(cx, m)
    ensures EntryLo(cx, m, idx) < Pow2(cx.g)
  {
    var n := m.w + m.j;
    hide Rev, Shl, Pow2, Path;
    RevBound(n, Path(m, idx));
    ShlMono(Rev(n, Path(m, idx)), Pow2(n), cx.g - n);
    ShlZero(cx.g - n);
    Pow2Split(n, cx.g);
  }

  /** A leaf whose path the stream follows holds the value of a matching code. */
  lemma LeafMatches(cx: Code, m: Meta, stream: nat, ent: Huft) returns (k: nat, r: nat)
    requires CodeOk(cx) && MetaOk(cx, m) && Low(stream, m.w) == m.pre
    requires LeafOk(cx, m, Low(High(stream, m.w), m.j), ent)
    ensures ent.e <= 16 || ent.e == INVALID
    ensures Finds(cx, At(ent.e, ent.v, ent.b), stream, m.w, k, r) && k <= m.w + cx.l && ent.b <= m.j
  {
    var idx := Low(High(stream, m.w), m.j);
    EntryIndex(cx, m, stream);
    k, r :| LeafFor(cx, m, idx, ent, k, r);
    RevOfLow(k, stream, m.w + m.j);
    hide Rev, Low, High, Shl, NextCode, Offset;
  }

  /** A link that the stream follows leads to a table whose prefix it has. */
  lemma LinkFollows(cx: Code, tables: seq<seq<Huft>>, meta: seq<Meta>, t: nat, stream: nat, ent: Huft)
    requires CodeOk(cx) && Shape(cx, tables, meta) && t < |meta| && Low(stream, meta[t].w) == meta[t].pre
    requires meta[t].j == cx.l && LinkOk(cx, meta, t, Low(High(stream, meta[t].w), meta[t].j), ent)
    ensures t < ent.v < |meta| && 16 < ent.e < INVALID && ent.e - 16 == meta[ent.v].j && ent.b == cx.l
    ensures Low(stream, meta[ent.v].w) == meta[ent.v].pre
    ensures High(High(stream, meta[t].w), ent.b) == High(stream, meta[ent.v].w)
  {
    EntryIndex(cx, meta[t], stream);
    HighHigh(stream, meta[t].w, cx.l);
  }

  /** Without tables wider than l bits, every walk ends with the value of a code
      that is a prefix of the stream, having consumed exactly that code. */
  lemma {:induction false} WalkFinds(cx: Code, tables: seq<seq<Huft>>, meta: seq<Meta>, u: seq<nat>, t: nat,
      stream: nat)
    returns (k: nat, r: nat)
    requires Good(cx, tables, meta, u, Pow2(cx.g)) && !Wide(cx, meta)
    requires t < |meta| && Low(stream, meta[t].w) == meta[t].pre
    ensures Finds(cx, Walk(tables, t, meta[t].j, High(stream, meta[t].w)), stream, meta[t].w, k, r)
    decreases |tables| - t
  {
    hide Rev, Shl, Low, High, Pow2, EntryLo, Stack, Retired, Distinct, Filled, Entries, NextCode, Offset;
    var m := meta[t];
    assert m.j <= cx.l;
    var rest := High(stream, m.w);
    var idx := Low(rest, m.j);
    EntryIndex(cx, m, stream);
    AllWritten(cx, tables, meta, u, t, idx);
    var ent := tables[t][idx];
    if LeafOk(cx, m, idx, ent) {
      k, r := LeafMatches(cx, m, stream, ent);
    } else {
      LinkFollows(cx, tables, meta, t, stream, ent);
      k, r := WalkFinds(cx, tables, meta, u, ent.v, stream);
    }
  }

  /** The walk never asks for more bits than the longest code has. */
  lemma {:induction false} AsksForNoMore(cx: Code, tables: seq<seq<Huft>>, meta: seq<Meta>, u: seq<nat>, t: nat,
      stream: nat)
    requires Good(cx, tables, meta, u, Pow2(cx.g)) && !Wide(cx, meta)
    requires t < |meta| && Low(stream, meta[t].w) == meta[t].pre
    ensures meta[t].w + Lookahead(tables, t, meta[t].j, High(stream, meta[t].w)) <= cx.g
    decreases |tables| - t
  {
    hide Rev, Shl, Low, High, Pow2, EntryLo, Stack, Retired, Distinct, Filled, Entries, NextCode, Offset, Walk;
    var m := meta[t];
    assert m.j <= cx.l;
    var rest := High(stream, m.w);
    var idx := Low(rest, m.j);
    EntryIndex(cx, m, stream);
    AllWritten(cx, tables, meta, u, t, idx);
    var ent := tables[t][idx];
    if LeafOk(cx, m, idx, ent) {
      var k, r := LeafMatches(cx, m, stream, ent);
    } else {
      LinkFollows(cx, tables, meta, t, stream, ent);
      AsksForNoMore(cx, tables, meta, u, ent.v, stream);
    }
  }

  /** The largest number of n bits. */
  function Ones(n: nat): (x: nat)
    ensures x + 1 == Pow2(n)
  {
    ShlZero(n);
    Pow2(n) - 1
  }

  lemma {:induction false} OnesBits(n: nat, j: nat)
    requires j <= n
    ensures High(Ones(n), j) == Ones(n - j) && Low(Ones(n), j) == Ones(j)
  {
    if j > 0 {
      ShlDouble(1, n - 1);
      ShlDouble(1, j - 1);
      OnesBits(n - 1, j - 1);
      assert Ones(n) == 2 * Ones(n - 1) + 1;
    }
  }

  /** The last pattern of a table. */
  lemma {:induction false} LastPattern(pre: nat, w: nat, d: nat, n: nat)
    requires d <= n && pre < Pow2(w)
    ensures Rev(w + d, pre + Shl(Ones(n), w)) == Shl(Rev(w, pre) + 1, d) - 1
    decreases d
  {
    var x := pre + Shl(Ones(n), w);
    Cat(pre, Ones(n), w);
    if d == 0 {
      RevOfLow(w, x, w);
    } else {
      LastPattern(pre, w, d - 1, n);
      HighHigh(x, w, d - 1);
      OnesBits(n, d - 1);
      OddOnes(n - d + 1);
      ShlDouble(Rev(w, pre) + 1, d - 1);
    }
  }

  lemma OddOnes(n: nat)
    requires n > 0
    ensures Ones(n) % 2 == 1
  {
    ShlDouble(1, n - 1);
  }

  /** A code that is a prefix of the stream covers the stream's pattern. */
  lemma MatchCovers(cx: Code, stream: nat, k: nat, r: nat)
    requires CodeOk(cx) && Matches(cx, stream, k, r)
    ensures Rev(cx.g, stream) < End(cx.c, cx.g, k)
  {
    RevPrefix(k, cx.g, stream);
    StartFacts(cx.c, cx.g, k, r);
    StartFacts(cx.c, cx.g, k, r + 1);
  }

  /** The last stream of a table. */
  lemma LastStream(cx: Code, m: Meta)
    requires MetaOk(cx, m)
    ensures Rev(cx.g, Path(m, Ones(cx.g - m.w))) == TableHi(cx, m) - 1
  {
    hide Rev, Shl, Ones, Pow2;
    LastPattern(m.pre, m.w, cx.g - m.w, cx.g - m.w);
  }

  /** No code of at most l more bits than the depth of a wide table covers its last
      stream, so no table down to that depth has a leaf for it. */
  lemma NoLeafForLast(cx: Code, wide: Meta, m: Meta, stream: nat, ent: Huft)
    requires CodeOk(cx) && MetaOk(cx, wide) && MetaOk(cx, m) && m.w <= wide.w && wide.w + cx.l <= cx.g
    requires End(cx.c, cx.g, wide.w + cx.l) < TableHi(cx, wide)
    requires Rev(cx.g, stream) == TableHi(cx, wide) - 1 && Low(stream, m.w) == m.pre
    ensures !LeafOk(cx, m, Low(High(stream, m.w), m.j), ent)
  {
    hide Rev, Shl, Low, High, Pow2, NextCode, Offset, End, TableHi, LeafOk, Matches, MetaOk;
    if LeafOk(cx, m, Low(High(stream, m.w), m.j), ent) {
      var k, r := LeafMatches(cx, m, stream, ent);
      MatchBoundsOf(cx, stream, k, r);
      MatchCovers(cx, stream, k, r);
      EndMono(cx.c, cx.g, k, wide.w + cx.l);
    }
  }

  lemma MatchBoundsOf(cx: Code, stream: nat, k: nat, r: nat)
    requires CodeOk(cx) && Matches(cx, stream, k, r)
    ensures 1 <= k <= cx.g
  {
  }

  lemma WideFacts(cx: Code, tables: seq<seq<Huft>>, meta: seq<Meta>, t: nat)
    requires CodeOk(cx) && Shape(cx, tables, meta) && WideOk(cx, meta) && t < |meta|
    ensures MetaOk(cx, meta[t]) && |tables| == |meta| && |tables[t]| >= Pow2(meta[t].j)
    ensures meta[t].j > cx.l ==> meta[t].w + cx.l <= cx.g && End(cx.c, cx.g, meta[t].w + cx.l) < TableHi(cx, meta[t])
  {
    hide End, Pow2, TableHi, IsLevel;
  }

  lemma EntryIs(cx: Code, tables: seq<seq<Huft>>, meta: seq<Meta>, t: nat, idx: nat)
    requires CodeOk(cx) && Shape(cx, tables, meta) && Entries(cx, tables, meta) && t < |meta| && idx < Pow2(meta[t].j)
    ensures EntryOk(cx, meta, t, idx, tables[t][idx])
  {
    hide EntryOk, Pow2;
  }

  /** The last stream of a table wider than l bits strays: the entry with all
      bits set is beyond the entries that can hold links, and no code of at
      most l more bits covers it. */
  lemma StraysInWide(cx: Code, tables: seq<seq<Huft>>, meta: seq<Meta>, t: nat, stream: nat)
    requires CodeOk(cx) && Shape(cx, tables, meta) && Entries(cx, tables, meta) && WideOk(cx, meta)
    requires t < |meta| && meta[t].j > cx.l && stream == Path(meta[t], Ones(cx.g - meta[t].w))
    ensures Walk(tables, t, meta[t].j, High(stream, meta[t].w)) == Stray
  {
    hide Rev, Shl, Low, High, Pow2, NextCode, Offset, End, Shape, Entries, WideOk, LeafOk, LinkOk, TableHi, Ones, Path;
    WideFacts(cx, tables, meta, t);
    var m := meta[t];
    var n := cx.g - m.w;
    PathParts(m, Ones(n));
    OnesBits(n, m.j);
    WideIndex(cx, m);
    var idx := Ones(m.j);
    EntryIs(cx, tables, meta, t, idx);
    LastStream(cx, m);
    NoLeafForLast(cx, m, m, stream, tables[t][idx]);
    NoLinkThere(cx, tables, meta, t, idx, tables[t][idx]);
  }

  lemma WideIndex(cx: Code, m: Meta)
    requires MetaOk(cx, m) && m.j > cx.l
    ensures Ones(m.j) >= Pow2(cx.l) > 0
  {
    ShlZero(cx.l);
    Pow2Mono(cx.l, m.j);
  }

  lemma NoLinkThere(cx: Code, tables: seq<seq<Huft>>, meta: seq<Meta>, t: nat, idx: nat, ent: Huft)
    requires Shape(cx, tables, meta) && t < |meta| && idx >= Pow2(cx.l)
    ensures !LinkOk(cx, meta, t, idx, ent)
  {
    var m := meta[t];
    if t < ent.v < |meta| && meta[ent.v].w == m.w + cx.l {
      ShlMono(Pow2(cx.l), idx, m.w);
      Pow2Split(cx.l, m.w + cx.l);
      assert MetaOk(cx, meta[ent.v]);
    }
  }

  /** The shallowest table wider than l bits. */
  lemma ShallowestWide(cx: Code, meta: seq<Meta>) returns (t: nat)
    requires Wide(cx, meta)
    ensures t < |meta| && meta[t].j > cx.l
    ensures forall s :: 0 <= s < |meta| && meta[s].j > cx.l ==> meta[t].w <= meta[s].w
  {
    t :| 0 < t < |meta| && meta[t].j > cx.l;
    var n := 0;
    while n < |meta|
      invariant 0 <= n <= |meta| && t < |meta| && meta[t].j > cx.l
      invariant forall s :: 0 <= s < n && meta[s].j > cx.l ==> meta[t].w <= meta[s].w
    {
      if meta[n].j > cx.l && meta[n].w < meta[t].w {
        t := n;
      }
      n := n + 1;
    }
  }

  /** The last stream of the shallowest wide table strays from every table on its path. */
  lemma {:induction false} StraysFrom(cx: Code, tables: seq<seq<Huft>>, meta: seq<Meta>, u: seq<nat>, wide: nat, t: nat,
                                      stream: nat)
    requires Good(cx, tables, meta, u, Pow2(cx.g)) && WideOk(cx, meta)
    requires wide < |meta| && meta[wide].j > cx.l && stream == Path(meta[wide], Ones(cx.g - meta[wide].w))
    requires forall s :: 0 <= s < |meta| && meta[s].j > cx.l ==> meta[wide].w <= meta[s].w
    requires t < |meta| && Low(stream, meta[t].w) == meta[t].pre && meta[t].w <= meta[wide].w
    ensures Walk(tables, t, meta[t].j, High(stream, meta[t].w)) == Stray
    decreases |tables| - t
  {
    hide Rev, Shl, Low, High, Pow2, EntryLo, Stack, Retired, Filled, Entries, NextCode, Offset, End, Ones, WideOk;
    var m := meta[t];
    PathParts(meta[wide], Ones(cx.g - meta[wide].w));
    if m.w == meta[wide].w {
      assert t == wide;
      StraysInWide(cx, tables, meta, t, stream);
    } else {
      var idx := Low(High(stream, m.w), m.j);
      EntryIndex(cx, m, stream);
      AllWritten(cx, tables, meta, u, t, idx);
      var ent := tables[t][idx];
      NoLeafThere(cx, tables, meta, wide, t, stream, ent);
      LinkFollows(cx, tables, meta, t, stream, ent);
      WideLevels(cx, meta, t, wide);
      StraysFrom(cx, tables, meta, u, wide, ent.v, stream);
    }
  }

  lemma WideLevels(cx: Code, meta: seq<Meta>, t: nat, s: nat)
    requires CodeOk(cx) && WideOk(cx, meta) && t < |meta| && s < |meta| && meta[t].w < meta[s].w
    ensures meta[t].w + cx.l <= meta[s].w
  {
    LevelGap(cx.l, meta[t].w, meta[s].w);
  }

  lemma NoLeafThere(cx: Code, tables: seq<seq<Huft>>, meta: seq<Meta>, wide: nat, t: nat, stream: nat, ent: Huft)
    requires CodeOk(cx) && Shape(cx, tables, meta) && WideOk(cx, meta)
    requires wide < |meta| && meta[wide].j > cx.l && stream == Path(meta[wide], Ones(cx.g - meta[wide].w))
    requires t < |meta| && Low(stream, meta[t].w) == meta[t].pre && meta[t].w < meta[wide].w
    ensures !LeafOk(cx, meta[t], Low(High(stream, meta[t].w), meta[t].j), ent)
  {
    hide Rev, Shl, Low, High, Pow2, NextCode, Offset, End, Shape, WideOk, LeafOk, TableHi, Ones, Path;
    WideFacts(cx, tables, meta, wide);
    WideFacts(cx, tables, meta, t);
    LastStream(cx, meta[wide]);
    NoLeafForLast(cx, meta[wide], meta[t], stream, ent);
  }

  /** Every stream is decoded: the walk ends with the value of a code that is a
      prefix of the stream, having consumed exactly that code. */
  ghost predicate Decodes(cx: Code, tables: seq<seq<Huft>>)
    requires CodeOk(cx)
  {
    forall stream: nat :: Found(cx, tables, stream)
  }

  ghost predicate Found(cx: Code, tables: seq<seq<Huft>>, stream: nat)
    requires CodeOk(cx)
  {
    exists k: nat, r: nat :: Finds(cx, Walk(tables, 0, cx.l, stream), stream, 0, k, r)
  }

  /** The finished tables decode every stream if and only if no table below the
      root is crowded. */
  lemma DecodesUnlessCrowded(cx: Code, tables: seq<seq<Huft>>, meta: seq<Meta>, u: seq<nat>)
    requires Good(cx, tables, meta, u, Pow2(cx.g)) && WideOk(cx, meta) && tables != []
    requires Wide(cx, meta) <==> Crowded(cx)
    ensures Decodes(cx, tables) <==> !Crowded(cx)
    ensures Crowded(cx) ==> exists stream: nat :: Walk(tables, 0, cx.l, stream) == Stray
    ensures !Crowded(cx) ==> forall stream: nat :: Lookahead(tables, 0, cx.l, stream) <= cx.g
  {
    hide Rev, Shl, Pow2, Walk, Finds, Crowded, End, Lookahead;
    if Wide(cx, meta) {
      var wide := ShallowestWide(cx, meta);
      var stream := Path(meta[wide], Ones(cx.g - meta[wide].w));
      RootPrefix(stream);
      StraysFrom(cx, tables, meta, u, wide, 0, stream);
      NoneFound(cx, stream);
      assert !Found(cx, tables, stream);
    } else {
      forall stream: nat
        ensures Found(cx, tables, stream) && Lookahead(tables, 0, cx.l, stream) <= cx.g
      {
        RootPrefix(stream);
        AsksForNoMore(cx, tables, meta, u, 0, stream);
        var k, r := WalkFinds(cx, tables, meta, u, 0, stream);
      }
    }
  }

  lemma RootPrefix(stream: nat)
    ensures Low(stream, 0) == 0 && High(stream, 0) == stream
  {
  }

  lemma NoneFound(cx: Code, stream: nat)
    requires CodeOk(cx)
    ensures forall k: nat, r: nat :: !Finds(cx, Stray, stream, 0, k, r)
  {
  }
}
