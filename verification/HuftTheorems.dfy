/** What the tables of huft_build promise to the decoder, in terms of symbols. */
module HuftTheorems {
  import opened HuffmanBits
  import opened HuffmanSpec
  import opened HuftTables
  import opened HuftBuild
  import opened HuftMake
  import opened HuftDecode
  import opened HuftCode
  import opened HuftWhole

  /** The stream's pattern lies in the range of the code that matches it. */
  lemma MatchRange(cx: Code, stream: nat, k: nat, r: nat)
    requires CodeOk(cx) && Matches(cx, stream, k, r)
    ensures Start(cx.c, cx.g, k, r) <= Rev(cx.g, stream) < Start(cx.c, cx.g, k, r + 1) <= End(cx.c, cx.g, k)
  {
    hide Shl, Rev, NextCode, End, Start;
    RevPrefix(k, cx.g, stream);
    StartFacts(cx.c, cx.g, k, r);
    StartFacts(cx.c, cx.g, k, r + 1);
  }

  lemma MatchUnique(cx: Code, stream: nat, k: nat, r: nat, m: nat, q: nat)
    requires CodeOk(cx) && Matches(cx, stream, k, r) && Matches(cx, stream, m, q)
    ensures k == m && r == q
  {
    if k == m {
    } else if k < m {
      Earlier(cx, stream, k, r, m, q);
    } else {
      Earlier(cx, stream, m, q, k, r);
    }
  }

  /** A shorter matching code rules out a longer one. */
  lemma Earlier(cx: Code, stream: nat, k: nat, r: nat, m: nat, q: nat)
    requires CodeOk(cx) && Matches(cx, stream, k, r) && k < m <= cx.g
    ensures !Matches(cx, stream, m, q)
  {
    MatchRange(cx, stream, k, r);
    EndMono(cx.c, cx.g, k, m - 1);
    hide Shl, Rev, NextCode, End;
    if Matches(cx, stream, m, q) {
      MatchRange(cx, stream, m, q);
    }
  }

  lemma PrefixMatches(b: seq<nat>, simple: nat, base: seq<nat>, extra: seq<nat>, cx: Code, s: nat, stream: nat)
    requires InputOk(b, simple, base, extra) && CodeFor(b, simple, base, extra, cx)
    requires s < |b| && b[s] > 0
    ensures IsPrefix(b, s, stream) <==> Matches(cx, stream, b[s], Rank(b, s))
  {
    CompletedIsFull(b, cx.g);
    RankBound(b, s);
    hide Shl, Rev, NextCode, End, Count, Rank, Offset;
  }

  lemma PrefixNonzero(b: seq<nat>, s: nat, stream: nat)
    requires s < |b| && b[s] <= BMAX && IsPrefix(b, s, stream)
    ensures b[s] > 0
  {
  }

  /** Decoding yields the symbol whose canonical code is a prefix of the stream
      and consumes exactly its length. */
  lemma SymbolsDecoded(b: seq<nat>, simple: nat, base: seq<nat>, extra: seq<nat>, cx: Code, tables: seq<seq<Huft>>,
                       s: nat, stream: nat)
    requires InputOk(b, simple, base, extra) && CodeFor(b, simple, base, extra, cx)
    requires Decodes(cx, tables) && s < |b| && IsPrefix(b, s, stream)
    ensures var f := SymbolLeaf(s, simple, base, extra);
      Walk(tables, 0, cx.l, stream) == At(f.e, f.v, b[s])
  {
    hide Shl, Rev, NextCode, End, Count, Rank, Offset, Walk, Matches, IsPrefix, Pow2, Completed;
    assert b[s] > 0 by { PrefixNonzero(b, s, stream); }
    PrefixMatches(b, simple, base, extra, cx, s, stream);
    assert LeafInPlace(b, simple, base, extra, cx, s);
    assert Found(cx, tables, stream);
    var k: nat, r: nat :| Finds(cx, Walk(tables, 0, cx.l, stream), stream, 0, k, r);
    MatchUnique(cx, stream, k, r, b[s], Rank(b, s));
  }

  /** The code that covers a pattern. */
  lemma {:induction false} Covering(c: seq<nat>, g: nat, k: nat, pattern: nat) returns (n: nat, r: nat)
    requires k <= g < |c| && pattern < End(c, g, k)
    ensures 1 <= n <= k && r < c[n] && Start(c, g, n, r) <= pattern < Start(c, g, n, r + 1)
  {
    if k > 0 && pattern >= End(c, g, k - 1) {
      n, r := k, 0;
      StartFacts(c, g, k, 0);
      while pattern >= Start(c, g, k, r + 1)
        invariant r < c[k] && Start(c, g, k, r) <= pattern < End(c, g, k)
        decreases c[k] - r
      {
        StartFacts(c, g, k, r + 1);
        r := r + 1;
      }
    } else {
      n, r := Covering(c, g, k - 1, pattern);
    }
  }

  /** A complete code has a symbol for every stream. */
  lemma CompleteCovers(b: seq<nat>, stream: nat) returns (s: nat)
    requires Complete(b) && forall i :: 0 <= i < |b| ==> b[i] <= BMAX
    ensures s < |b| && IsPrefix(b, s, stream)
  {
    hide Shl, Rev, NextCode, End, Count, Rank, Start, Pow2;
    var c := Counts(b);
    RevBound(BMAX, stream);
    var n, r := Covering(c, BMAX, BMAX, Rev(BMAX, stream));
    s := NthSymbol(b, n, r);
    RevPrefix(n, BMAX, stream);
    StartFacts(c, BMAX, n, r);
    StartFacts(c, BMAX, n, r + 1);
    SameBlock(Rev(n, stream), NextCode(c, n) + r, BMAX - n, Rev(BMAX, stream));
  }

  /** With a complete code every bit stream decodes: to the one symbol whose code is a
      prefix of it, using up just that code. */
  lemma EveryStreamDecodes(b: seq<nat>, simple: nat, base: seq<nat>, extra: seq<nat>, cx: Code, tables: seq<seq<Huft>>,
                           stream: nat)
    returns (s: nat)
    requires InputOk(b, simple, base, extra) && CodeFor(b, simple, base, extra, cx) && Decodes(cx, tables)
    requires Complete(b)
    ensures s < |b| && IsPrefix(b, s, stream)
    ensures var f := SymbolLeaf(s, simple, base, extra); Walk(tables, 0, cx.l, stream) == At(f.e, f.v, b[s])
    ensures forall t: nat :: t < |b| && t != s ==> !IsPrefix(b, t, stream)
  {
    hide IsPrefix, Complete, CodeFor, Decodes, Walk, SymbolLeaf;
    s := CompleteCovers(b, stream);
    SymbolsDecoded(b, simple, base, extra, cx, tables, s, stream);
    forall t: nat | t < |b| && t != s
      ensures !IsPrefix(b, t, stream)
    {
      if t < s {
        PrefixUnique(b, t, s, stream);
      } else {
        PrefixUnique(b, s, t, stream);
      }
    }
  }

  /** Streams that no symbol's code starts: the decoder finds an entry for a
      dummy code.  When every symbol has a code, that entry says so. */
  lemma UnusedPatterns(b: seq<nat>, simple: nat, base: seq<nat>, extra: seq<nat>, cx: Code, tables: seq<seq<Huft>>,
                       stream: nat)
    requires InputOk(b, simple, base, extra) && CodeFor(b, simple, base, extra, cx) && Decodes(cx, tables)
    requires forall s :: 0 <= s < |b| ==> b[s] > 0 && !IsPrefix(b, s, stream)
    ensures Walk(tables, 0, cx.l, stream) == At(INVALID, 0, cx.g)
  {
    CompletedIsFull(b, cx.g);
    hide Shl, Rev, NextCode, End, Count, Rank, Walk, Matches;
    assert Found(cx, tables, stream);
    var k: nat, r: nat :| Finds(cx, Walk(tables, 0, cx.l, stream), stream, 0, k, r);
    MatchBounds(cx, stream, k, r);
    if r < Count(b, k) {
      var s := NthSymbol(b, k, r);
      PrefixMatches(b, simple, base, extra, cx, s, stream);
    } else {
      LastOffset(b, cx, k, r);
    }
  }

  lemma MatchBounds(cx: Code, stream: nat, k: nat, r: nat)
    requires CodeOk(cx) && Matches(cx, stream, k, r)
    ensures 1 <= k <= cx.g && r < cx.c[k]
  {
  }

  lemma LastOffset(b: seq<nat>, cx: Code, k: nat, r: nat)
    requires CodeOk(cx) && Longest(b, cx.g) && End(Counts(b), cx.g, cx.g) <= Pow2(cx.g) && cx.c == Completed(b, cx.g)
    requires forall s :: 0 <= s < |b| ==> b[s] > 0
    requires 1 <= k <= cx.g && Count(b, k) <= r < cx.c[k]
    ensures k == cx.g && Offset(cx.c, k) + r >= |b|
  {
    CompletedIsFull(b, cx.g);
    NoneOf(b, 0);
    CountsAddUp(b);
    TailOffset(b, cx.g, BMAX + 1);
    assert Offset(Counts(b), cx.g + 1) == Offset(Counts(b), cx.g) + Counts(b)[cx.g];
  }

  lemma {:induction false} TailOffset(b: seq<nat>, g: nat, n: nat)
    requires Longest(b, g) && g < n <= BMAX + 1
    ensures Offset(Counts(b), n) == Offset(Counts(b), g + 1)
  {
    if g + 1 < n {
      NoneOf(b, n - 1);
      TailOffset(b, g, n - 1);
    }
  }

  // ----- which codes are not crowded

  /** The longest code is at most twice as long as the first table's bits. */
  lemma ShortCodesNotCrowded(cx: Code)
    requires CodeOk(cx) && cx.g <= 2 * cx.l
    ensures !Crowded(cx)
  {
    forall k: nat, r: nat, w: nat, q: nat | w > 0 && IsLevel(cx.l, w) && Opens(cx, k, r, w, q)
      ensures !CrowdedAt(cx, k, w, q)
    {
      if w + cx.l <= cx.g {
        assert w + cx.l == cx.g;
      }
    }
    assert forall k: nat, r: nat, w: nat, q: nat :: !Crowding(cx, k, r, w, q);
  }

  /** There are fewer codes than entries in a table of l bits. */
  lemma FewCodesNotCrowded(cx: Code)
    requires CodeOk(cx) && Offset(cx.c, cx.g + 1) < Pow2(cx.l)
    ensures !Crowded(cx)
  {
    forall k: nat, r: nat, w: nat, q: nat | w > 0 && IsLevel(cx.l, w) && Opens(cx, k, r, w, q)
      ensures !CrowdedAt(cx, k, w, q)
    {
      if w + cx.l <= k {
        CrowdIsLarge(cx, k, r, w, q);
      }
    }
    assert forall k: nat, r: nat, w: nat, q: nat :: !Crowding(cx, k, r, w, q);
  }

  /** The codes from length m on cover at most their number of patterns of m bits. */
  lemma {:induction false} LongCodesCover(c: seq<nat>, g: nat, m: nat, n: nat)
    requires 1 <= m <= n <= g < |c|
    ensures Offset(c, m) <= Offset(c, n + 1)
    ensures End(c, g, n) - End(c, g, m - 1) <= Shl(Offset(c, n + 1) - Offset(c, m), g - m)
  {
    if m == n {
    } else {
      LongCodesCover(c, g, m, n - 1);
      var d := Offset(c, n) - Offset(c, m);
      ShlAdd(d, c[n], g - m);
      ShlShl(c[n], n - m, g - n);
      ShlGrows(c[n], n - m);
      ShlMono(c[n], Shl(c[n], n - m), g - n);
    }
  }

  lemma CrowdIsLarge(cx: Code, k: nat, r: nat, w: nat, q: nat)
    requires CodeOk(cx) && Opens(cx, k, r, w, q) && w + cx.l <= k
    ensures Offset(cx.c, cx.g + 1) >= Pow2(cx.l)
  {
    hide Shl, End, Offset, Pow2;
    var g, m := cx.g, w + cx.l;
    var total := Offset(cx.c, g + 1);
    LongCodesCover(cx.c, g, m, g);
    EndMono(cx.c, g, m - 1, k - 1);
    ShlMono(total - Offset(cx.c, m), total, g - m);
    OneBlock(q, g - w);
    Pow2Split2(cx.l, g - m);
    assert End(cx.c, g, g) - End(cx.c, g, m - 1) >= Pow2(g - w);
    ShlMono(total, Pow2(cx.l), g - m);
    ShlZero(g - m);
  }

  lemma OneBlock(q: nat, n: nat)
    ensures Shl(q + 1, n) == Shl(q, n) + Pow2(n)
  {
    ShlAdd(q, 1, n);
  }

  lemma Pow2Split2(a: nat, b: nat)
    ensures Shl(Pow2(a), b) == Pow2(a + b)
  {
    ShlShl(1, a, b);
  }

  /** The smallest kind of crowded code: one code of one bit and four of three
      bits, built with a first table of one bit.  The second table is chosen two
      bits wide although tables are linked one bit at a time. */
  lemma CrowdedExample()
    ensures var b := [1, 3, 3, 3, 3];
      && Complete(b) && Longest(b, 3) && End(Counts(b), 3, 3) <= Pow2(3)
      && forall cx: Code | CodeOk(cx) && cx.g == 3 && cx.l == 1 && cx.c == Completed(b, 3) :: Crowded(cx)
  {
    var b := [1, 3, 3, 3, 3];
    ExampleCounts();
    ExampleShifts();
    KraftAtLongest(b, 3);
    forall cx: Code | CodeOk(cx) && cx.g == 3 && cx.l == 1 && cx.c == Completed(b, 3)
      ensures Crowded(cx)
    {
      CompletedIsFull(b, 3);
      assert cx.c[3] == 4 && cx.c[1] == 1 && cx.c[2] == 0;
      assert Start(cx.c, 3, 3, 0) == 4;
      assert Opens(cx, 3, 0, 1, 1);
      assert End(cx.c, 3, 2) == 4;
      assert CrowdedAt(cx, 3, 1, 1);
      assert IsLevel(1, 1);
      assert Crowding(cx, 3, 0, 1, 1);
      assert CrowdedCode(cx, 3, 0);
    }
  }

  lemma ExampleCounts()
    ensures var b := [1, 3, 3, 3, 3];
      Count(b, 0) == 0 && Count(b, 1) == 1 && Count(b, 2) == 0 && Count(b, 3) == 4
    ensures End(Counts([1, 3, 3, 3, 3]), 3, 3) == 8
  {
    var b := [1, 3, 3, 3, 3];
    ExampleCount(0);
    ExampleCount(1);
    ExampleCount(2);
    ExampleCount(3);
    ExampleShifts();
    var c := Counts(b);
    assert c[1] == 1 && c[2] == 0 && c[3] == 4;
    assert End(c, 3, 1) == 4;
    assert End(c, 3, 2) == 4;
    assert End(c, 3, 3) == 8;
  }

  lemma ExampleCount(n: nat)
    ensures Count([1, 3, 3, 3, 3], n) == if n == 1 then 1 else if n == 3 then 4 else 0
  {
    CountSnoc([], 1, n);
    CountSnoc([1], 3, n);
    CountSnoc([1, 3], 3, n);
    CountSnoc([1, 3, 3], 3, n);
    CountSnoc([1, 3, 3, 3], 3, n);
    assert [] + [1] == [1] && [1] + [3] == [1, 3] && [1, 3] + [3] == [1, 3, 3];
    assert [1, 3, 3] + [3] == [1, 3, 3, 3] && [1, 3, 3, 3] + [3] == [1, 3, 3, 3, 3];
  }

  lemma CountSnoc(b: seq<nat>, x: nat, n: nat)
    ensures Count(b + [x], n) == Count(b, n) + (if x == n then 1 else 0)
  {
    assert (b + [x])[..|b|] == b;
  }

  lemma ExampleShifts()
    ensures Shl(1, 2) == 4 && Shl(2, 2) == 8 && Shl(0, 1) == 0 && Shl(4, 0) == 4 && Shl(0, 0) == 0 && Pow2(3) == 8
  {
    assert Shl(1, 2) == Shl(2, 1) == Shl(4, 0);
    assert Shl(2, 2) == Shl(4, 1) == Shl(8, 0);
    assert Shl(1, 3) == Shl(2, 2);
  }
}
