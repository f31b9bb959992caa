/** The calls of huft_build in lib/inflate.c: what each caller may expect of the
    tables it gets. */
module InflateDecoders {
  import opened HuffmanBits
  import opened HuffmanSpec
  import opened HuftTables
  import opened HuftMake
  import opened HuftDecode
  import opened HuftCode
  import opened HuftWhole
  import opened HuftTheorems
  import opened Bytes
  import opened BitReader
  import opened DeflateSpec
  import opened DeflateFormat
  import opened InflateCodes

  // ----- a single code word of one bit

  /** The single code word of one bit is 0. */
  lemma LoneCode(b: seq<nat>, s: nat, stream: nat)
    requires Count(b, 1) == 1 && s < |b| && b[s] == 1
    ensures IsPrefix(b, s, stream) <==> Low(stream, 1) == 0
  {
    RankBound(b, s);
    hide Count;
    assert NextCode(Counts(b), 1) == 0;
    assert Rev(1, stream) == 2 * Rev(0, stream) + Bit(stream, 0);
    assert High(stream, 0) == stream && Low(stream, 1) == stream % 2 + 2 * Low(stream / 2, 0);
  }

  lemma LoneCount(b: seq<nat>)
    requires Longest(b, 1) && !Complete(b) && !Oversubscribed(b)
    ensures Count(b, 1) == 1
  {
    KraftAtLongest(b, 1);
    hide Count, Complete, Oversubscribed;
    var c := Counts(b);
    assert End(c, 1, 1) == End(c, 1, 0) + Shl(c[1], 0) == c[1];
    assert Pow2(1) == Shl(2, 0) == 2;
  }

  /** Where the stream has the bit that no code word starts with, there is no
      symbol; elsewhere there is one. */
  lemma GapIsRight(b: seq<nat>, stream: nat)
    requires Longest(b, 1) && !Complete(b) && !Oversubscribed(b)
    ensures Low(stream, 1) == 1 ==> forall s: nat :: s < |b| ==> !IsPrefix(b, s, stream)
    ensures Low(stream, 1) != 1 ==> exists s: nat :: s < |b| && IsPrefix(b, s, stream)
  {
    LoneCount(b);
    FirstBit(stream, 1);
    forall s: nat | s < |b| && b[s] == 1
      ensures IsPrefix(b, s, stream) <==> Low(stream, 1) == 0
    {
      LoneCode(b, s, stream);
    }
    var s := NthSymbol(b, 1, 0);
    assert Low(stream, 1) == 0 ==> IsPrefix(b, s, stream);
  }

  // ----- the tables as decoders

  /** The walk always ends, within the longest code. */
  lemma WalkEnds(cx: Code, tables: seq<seq<Huft>>, stream: nat)
    requires CodeOk(cx) && Decodes(cx, tables)
    ensures var found := Walk(tables, 0, cx.l, stream); found.At? && found.bits <= cx.g
  {
    hide Walk, Matches, Offset;
    assert Found(cx, tables, stream);
    var k: nat, r: nat :| Finds(cx, Walk(tables, 0, cx.l, stream), stream, 0, k, r);
    MatchBounds(cx, stream, k, r);
  }

  /** How the unused patterns of a code are marked. */
  ghost predicate Marked(b: seq<nat>, gap: bool) {
    if gap then Longest(b, 1) && !Complete(b) && !Oversubscribed(b)
    else Complete(b) || forall s :: 0 <= s < |b| ==> b[s] > 0
  }

  lemma TablesResolve(x: Decoder, b: seq<nat>, simple: nat, base: seq<nat>, extra: seq<nat>, cx: Code, stream: nat)
    requires InputOk(b, simple, base, extra) && CodeFor(b, simple, base, extra, cx)
    requires x.bits == cx.l && Decodes(cx, x.tables) && Marked(b, x.gap)
    requires Lookahead(x.tables, 0, cx.l, stream) <= cx.g
    ensures Resolves(x, b, simple, base, extra, stream)
  {
    hide Walk, Lookahead, IsPrefix, Decodes, Complete, Oversubscribed, Low, SymbolLeaf;
    WalkEnds(cx, x.tables, stream);
    if x.gap {
      GapIsRight(b, stream);
    }
    forall s: nat | s < |b| && IsPrefix(b, s, stream)
      ensures !InGap(x, stream)
      ensures Walk(x.tables, 0, x.bits, stream) ==
              At(SymbolLeaf(s, simple, base, extra).e, SymbolLeaf(s, simple, base, extra).v, b[s])
    {
      SymbolsDecoded(b, simple, base, extra, cx, x.tables, s, stream);
    }
    if !x.gap && forall s: nat :: s < |b| ==> !IsPrefix(b, s, stream) {
      NoneStarts(x, b, simple, base, extra, cx, stream);
    }
  }

  lemma NoneStarts(x: Decoder, b: seq<nat>, simple: nat, base: seq<nat>, extra: seq<nat>, cx: Code, stream: nat)
    requires InputOk(b, simple, base, extra) && CodeFor(b, simple, base, extra, cx)
    requires x.bits == cx.l && Decodes(cx, x.tables) && Marked(b, false)
    requires forall s: nat :: s < |b| ==> !IsPrefix(b, s, stream)
    ensures Walk(x.tables, 0, x.bits, stream) == At(INVALID, 0, cx.g)
  {
    hide Walk, IsPrefix, Decodes, Complete, CodeFor;
    if Complete(b) {
      var s := CompleteCovers(b, stream);
    } else {
      UnusedPatterns(b, simple, base, extra, cx, x.tables, stream);
    }
  }

  // ----- no caller asks for a code that could be crowded

  /** What the callers know about the lengths they pass on with *m == m. */
  ghost predicate Callable(b: seq<nat>, m: nat) {
    (forall s :: 0 <= s < |b| ==> b[s] <= 2 * m) || |b| < Pow2(m)
  }

  lemma NotCrowded(b: seq<nat>, simple: nat, base: seq<nat>, extra: seq<nat>, cx: Code, m: nat, j: nat)
    requires InputOk(b, simple, base, extra) && CodeFor(b, simple, base, extra, cx)
    requires j <= cx.g && cx.l == Bounded(m, j, cx.g) && Callable(b, m)
    requires Complete(b) || cx.g == 1 || forall s :: 0 <= s < |b| ==> b[s] <= 2 * m
    ensures !Crowded(cx)
  {
    hide Crowded, End, Pow2, Count, Complete, Offset, LeafInPlace;
    if cx.g <= 2 * cx.l {
      ShortCodesNotCrowded(cx);
    } else {
      LongestIsThere(b, cx.g);
      FewCodesComplete(b, cx);
      Pow2Mono(m, cx.l);
      FewCodesNotCrowded(cx);
    }
  }

  lemma LongestIsThere(b: seq<nat>, g: nat)
    requires Longest(b, g)
    ensures exists s :: 0 <= s < |b| && b[s] == g
  {
    var s := NthSymbol(b, g, 0);
  }

  lemma FewCodesComplete(b: seq<nat>, cx: Code)
    requires CodeOk(cx) && Longest(b, cx.g) && Complete(b)
    requires End(Counts(b), cx.g, cx.g) <= Pow2(cx.g) && cx.c == Completed(b, cx.g)
    ensures Offset(cx.c, cx.g + 1) <= |b|
  {
    KraftAtLongest(b, cx.g);
    hide End, Pow2, Count, Complete;
    assert cx.c == Counts(b);
    TailOffset(b, cx.g, BMAX + 1);
    CountsAddUp(b);
  }

  // ----- huft_build for its callers

  lemma UsableMeans(b: seq<nat>, g: nat)
    requires !AllZero(b) && Longest(b, g) && !Oversubscribed(b)
    ensures Usable(b) <==> Complete(b) || g == 1
  {
    LongestIsThere(b, g);
    hide Count, Complete, Oversubscribed;
  }

  lemma ZeroUsable(b: seq<nat>)
    requires AllZero(b)
    ensures Usable(b)
  {
    AllZeroMeans(b);
    ZeroIsNotOversubscribed(b);
  }

  lemma OversubscribedUnusable(b: seq<nat>)
    requires Oversubscribed(b)
    ensures !Usable(b)
  {
  }

  lemma OneLength(b: seq<nat>)
    requires |b| == 1 && Longest(b, 1)
    ensures forall s :: 0 <= s < |b| ==> b[s] > 0
  {
    LongestIsThere(b, 1);
  }

  /** A call of huft_build.  The code is rejected exactly when it is not usable, or
      for lack of memory; else the tables decode it.  An incomplete code whose
      symbols all have code words is decoded as well, although it is reported. */
  method MakeDecoder(b: seq<nat>, simple: nat, base: seq<nat>, extra: seq<nat>, m: nat, budget: nat)
    returns (rc: nat, x: Decoder)
    requires InputOk(b, simple, base, extra) && Callable(b, m)
    ensures rc <= 3 && (rc == 2 <==> Oversubscribed(b)) && (rc == 3 ==> budget <= ENOUGH_TABLES)
    ensures (rc == 0 ==> Usable(b)) && (rc == 1 ==> !Usable(b)) && (rc == 2 ==> !Usable(b))
    ensures rc == 0 || (rc == 1 && forall s :: 0 <= s < |b| ==> 0 < b[s] <= 2 * m) ==>
      DecoderFor(x, b, simple, base, extra)
    ensures rc == 0 && x.tables != [] ==> x.gap || Complete(b) || |b| == 1
    ensures rc == 0 && (forall s :: 0 <= s < |b| ==> b[s] <= m) ==> |x.tables| <= 1
  {
    hide Usable, Complete, Oversubscribed, Decodes, Walk, Lookahead, Crowded, CodeFor, Count, Pow2;
    var tables, bits;
    ghost var cx, shortest;
    rc, tables, bits, cx, shortest := BuildTables(b, simple, base, extra, m, budget);
    x := Decoder(tables, bits, rc == 0 && !Complete(b) && |b| > 1);
    if rc == 2 {
      OversubscribedUnusable(b);
    } else if AllZero(b) {
      ZeroUsable(b);
      x := Decoder(tables, bits, false);
    } else if rc <= 1 {
      CodeShape(b, simple, base, extra, cx, shortest);
      UsableMeans(b, cx.g);
      if rc == 0 || forall s :: 0 <= s < |b| ==> 0 < b[s] <= 2 * m {
        NotCrowded(b, simple, base, extra, cx, m, shortest);
        if |b| == 1 && cx.g == 1 {
          OneLength(b);
        }
        forall stream: nat
          ensures Resolves(x, b, simple, base, extra, stream)
        {
          TablesResolve(x, b, simple, base, extra, cx, stream);
        }
      }
    }
  }

  lemma CodeShape(b: seq<nat>, simple: nat, base: seq<nat>, extra: seq<nat>, cx: Code, j: nat)
    requires InputOk(b, simple, base, extra) && CodeFor(b, simple, base, extra, cx) && Shortest(b, j)
    ensures CodeOk(cx) && Longest(b, cx.g) && j <= cx.g
    ensures exists s :: 0 <= s < |b| && b[s] == cx.g
  {
    LongestIsThere(b, cx.g);
    var s := NthSymbol(b, j, 0);
  }

  // ----- bits that no code word starts with

  /** One symbol of two has a code word, of one bit. */
  lemma LoneLengths()
    ensures var b := [1, 0];
      && InputOk(b, 0, CPDIST, CPDEXT) && Callable(b, 6) && !AllZero(b) && Count(b, 1) == 1 && Longest(b, 1)
      && !Oversubscribed(b) && !Complete(b) && Usable(b)
  {
    hide InputOk, Callable;
    LoneInput();
    var b := [1, 0];
    assert b[..1] == [1] && [1][..0] == [];
    assert Count(b, 1) == Count([1], 1) == Count([], 1) + 1 && Count(b, 0) == Count([1], 0) + 1 == 1;
    assert Longest(b, 1);
    KraftAtLongest(b, 1);
    hide Count, Complete, Oversubscribed;
    var c := Counts(b);
    assert End(c, 1, 1) == End(c, 1, 0) + Shl(c[1], 0) == 1;
    assert Pow2(1) == Shl(2, 0) == 2;
  }

  lemma LoneInput()
    ensures InputOk([1, 0], 0, CPDIST, CPDEXT) && Callable([1, 0], 6)
  {
    hide Pow2;
    assert |CPDIST| == |CPDEXT| == 30;
  }

  /** huft_build accepts this code for the distances of a dynamic block.  A stream that
      starts with the other bit is not reported as bad data. */
  method FaultExample() returns (st: Status)
    ensures st.Fault?
  {
    hide DecoderFor, Usable, Complete, Oversubscribed, InputOk, Callable, Count, Walk, Lookahead;
    LoneLengths();
    var rc, x := MakeDecoder([1, 0], 0, CPDIST, CPDEXT, 6, ENOUGH_TABLES + 1);
    var r := new Reader([1, 0]);
    DecoderFacts(x, [1, 0], 0, CPDIST, CPDEXT, High(r.Bits(), 0));
    OneBit(r.input);
    var e, v;
    st, e, v := DecodeSymbol(r, x);
  }

  lemma DecoderFacts(x: Decoder, b: seq<nat>, simple: nat, base: seq<nat>, extra: seq<nat>, stream: nat)
    requires DecoderFor(x, b, simple, base, extra) && !AllZero(b)
    ensures x.tables != [] && Walk(x.tables, 0, x.bits, stream).At?
    ensures x.bits <= Lookahead(x.tables, 0, x.bits, stream) <= BMAX
  {
    hide Walk, Lookahead, IsPrefix;
    assert x.tables != [];
    assert Resolves(x, b, simple, base, extra, stream);
  }

  lemma OneBit(bytes: seq<Byte>)
    requires bytes == [1, 0]
    ensures Low(High(LittleEndian(bytes), 0), 1) == 1
  {
    var x := LittleEndian(bytes);
    assert x == 1 + 256 * LittleEndian(bytes[1..]);
    FirstBit(x, 1);
    hide LittleEndian, High;
    assert Low(x, 1) == x % 2 + 2 * Low(x / 2, 0);
  }
}
