/** inflate_codes and inflate_stored of lib/inflate.c: the data of a block read
    with the tables of huft_build and written through the window. */
module InflateCodes {
  import opened HuffmanBits
  import opened HuffmanSpec
  import opened HuftTables
  import opened HuftDecode
  import opened HuftWhole
  import opened HuftTheorems
  import opened Bytes
  import opened InflateWindow
  import opened BitReader
  import opened Chains
  import opened DeflateSpec
  import opened DeflateFormat

  /** How a step of the decompression ends: with a return code other than zero,
      for lack of input, or by using a table that huft_build did not make or a
      value that it did not set. */
  datatype Status = Fine | Error(code: nat) | NoInput | Fault

  /** A decoding table made by huft_build.  With a gap, the code has a single code
      word of one bit and nothing was ever stored for the other bit. */
  datatype Decoder = Decoder(tables: seq<seq<Huft>>, bits: nat, gap: bool)

  predicate InGap(x: Decoder, stream: nat) {
    x.gap && Low(stream, 1) == 1
  }

  /** The walk finds the symbol whose code word the stream starts with, and looks
      no further ahead than 16 bits. */
  ghost predicate Resolves(x: Decoder, b: seq<nat>, simple: nat, base: seq<nat>, extra: seq<nat>, stream: nat)
    requires InputOk(b, simple, base, extra)
  {
    var found := Walk(x.tables, 0, x.bits, stream);
    && found.At? && found.bits <= BMAX && Lookahead(x.tables, 0, x.bits, stream) <= BMAX
    && (forall s: nat :: s < |b| && IsPrefix(b, s, stream) ==>
          && !InGap(x, stream)
          && found == At(SymbolLeaf(s, simple, base, extra).e, SymbolLeaf(s, simple, base, extra).v, b[s]))
    && (InGap(x, stream) || (!x.gap && found.e == INVALID) || exists s: nat :: s < |b| && IsPrefix(b, s, stream))
  }

  ghost predicate DecoderFor(x: Decoder, b: seq<nat>, simple: nat, base: seq<nat>, extra: seq<nat>) {
    && InputOk(b, simple, base, extra)
    && (x.tables == [] ==> AllZero(b)) && (x.gap ==> !Complete(b))
    && (x.tables != [] ==> forall stream: nat :: Resolves(x, b, simple, base, extra, stream))
  }

  /** After `used` bits of the stream the walk, which is to end as `found`, is at
      table t, to be indexed by n bits. */
  ghost predicate Walking(x: Decoder, stream: nat, found: Walked, used: nat, t: nat, n: nat) {
    && (var here := Walk(x.tables, t, n, High(stream, used));
        here.At? && found == At(here.e, here.v, used + here.bits))
    && used + Lookahead(x.tables, t, n, High(stream, used)) <= BMAX
  }

  lemma WalkStarts(x: Decoder, stream: nat)
    requires Walk(x.tables, 0, x.bits, stream).At? && Lookahead(x.tables, 0, x.bits, stream) <= BMAX
    ensures Walking(x, stream, Walk(x.tables, 0, x.bits, stream), 0, 0, x.bits)
  {
  }

  lemma WalkGoesOn(x: Decoder, stream: nat, found: Walked, used: nat, t: nat, n: nat)
    requires Walking(x, stream, found, used, t, n)
    ensures 0 < n && used + n <= BMAX && t < |x.tables| && Low(High(stream, used), n) < |x.tables[t]|
    ensures var ent := x.tables[t][Low(High(stream, used), n)];
      && ent.b <= n
      && (ent.e <= 16 || ent.e == INVALID ==> found == At(ent.e, ent.v, used + ent.b))
      && (ent.e > 16 && ent.e != INVALID ==> ent.v > t && Walking(x, stream, found, used + ent.b, ent.v, ent.e - 16))
  {
    hide Low, High;
    var ent := x.tables[t][Low(High(stream, used), n)];
    HighHigh(stream, used, ent.b);
  }

  /** The table walk: NEEDBITS, index, DUMPBITS, until an entry is not a link. */
  method DecodeSymbol(r: Reader, x: Decoder) returns (st: Status, e: nat, v: nat)
    requires r.Valid()
    requires x.tables != [] ==> Walk(x.tables, 0, x.bits, High(r.Bits(), r.At())).At?
    requires x.tables != [] ==> Lookahead(x.tables, 0, x.bits, High(r.Bits(), r.At())) <= BMAX
    modifies r
    ensures r.Valid()
    ensures st.Fine? || st.Error? ==>
      && x.tables != [] && !InGap(x, High(r.Bits(), old(r.At())))
      && var found := Walk(x.tables, 0, x.bits, High(r.Bits(), old(r.At())));
         && found.At?
         && (if st.Error? then found.e == INVALID && st.code == 1 else found.e == e != INVALID && found.v == v)
    ensures st.Fine? ==> r.At() == old(r.At()) + Walk(x.tables, 0, x.bits, High(r.Bits(), old(r.At()))).bits
    ensures st.Fault? ==> x.tables == [] || InGap(x, High(r.Bits(), old(r.At())))
    ensures x.tables == [] || (InGap(x, High(r.Bits(), old(r.At()))) && old(r.At()) + x.bits <= r.Size()) ==> st.Fault?
    ensures st.NoInput? ==> r.Size() < old(r.At()) + BMAX
  {
    hide Low, High, Walking, Walk, Lookahead, Buffered;
    e, v := 0, 0;
    if x.tables == [] {
      return Fault, 0, 0;
    }
    var t: nat := 0;
    var n: nat := x.bits;
    ghost var at, used: nat := r.At(), 0;
    ghost var stream := High(r.Bits(), at);
    ghost var found := Walk(x.tables, 0, x.bits, stream);
    WalkStarts(x, stream);
    while true
      invariant r.Valid() && r.At() == at + used && Walking(x, stream, found, used, t, n)
      invariant if t == 0 then used == 0 && n == x.bits else !InGap(x, stream)
      decreases |x.tables| - t
    {
      WalkGoesOn(x, stream, found, used, t, n);
      HighHigh(r.Bits(), at, used);
      var ok := r.NeedBits(n);
      if !ok {
        return NoInput, 0, 0;
      }
      var idx := r.Peek(n);
      if t == 0 {
        FirstBit(stream, n);
        if x.gap && idx % 2 == 1 {
          return Fault, 0, 0;
        }
      }
      var ent := x.tables[t][idx];
      e, v := ent.e, ent.v;
      if e == INVALID {
        return Error(1), e, v;
      }
      r.DumpBits(ent.b);
      used := used + ent.b;
      if e <= 16 {
        return Fine, e, v;
      }
      t, n := ent.v, e - 16;
    }
  }

  lemma FirstBit(x: nat, n: nat)
    ensures n > 0 ==> Low(x, n) % 2 == Low(x, 1)
    ensures High(x, 0) == x
  {
  }

  /** The symbol that the stream starts with: where there is none, the decoder
      stops. */
  method ReadSymbol(r: Reader, x: Decoder, ghost b: seq<nat>, ghost simple: nat, ghost base: seq<nat>,
      ghost extra: seq<nat>)
    returns (st: Status, e: nat, v: nat, ghost s: nat)
    requires r.Valid() && DecoderFor(x, b, simple, base, extra)
    modifies r
    ensures r.Valid()
    ensures st.Fine? ==> s < |b| && IsPrefix(b, s, High(r.Bits(), old(r.At()))) && r.At() == old(r.At()) + b[s]
    ensures st.Fine? ==> e != INVALID && Leaf(e, v) == SymbolLeaf(s, simple, base, extra)
    ensures st.Error? || st.Fault? ==> forall t: nat :: t < |b| && IsPrefix(b, t, High(r.Bits(), old(r.At()))) ==>
      SymbolLeaf(t, simple, base, extra).e == INVALID
    ensures (st.Error? ==> st.code == 1) && (st.Fault? ==> !Complete(b))
    ensures st.NoInput? ==> r.Size() < old(r.At()) + BMAX
  {
    hide Walk, Lookahead, IsPrefix, High, Low, SymbolLeaf, Complete, Buffered;
    ghost var stream := High(r.Bits(), r.At());
    s := 0;
    if x.tables != [] {
      assert Resolves(x, b, simple, base, extra, stream);
    } else {
      NoSymbol(b, stream);
    }
    st, e, v := DecodeSymbol(r, x);
    if st.Fine? {
      s :| s < |b| && IsPrefix(b, s, stream);
    }
  }

  lemma NoSymbol(b: seq<nat>, stream: nat)
    requires AllZero(b) && forall s :: 0 <= s < |b| ==> b[s] <= BMAX
    ensures !Complete(b) && forall s: nat :: s < |b| ==> !IsPrefix(b, s, stream)
  {
    AllZeroMeans(b);
    if Complete(b) {
      var s := CompleteCovers(b, stream);
    }
  }

  /** What the entries of the literal/length table say about the symbol. */
  lemma LiteralLeaf(s: nat)
    requires s < 288
    ensures |CPLENS| == |CPLEXT| == 31
    ensures var f := SymbolLeaf(s, 257, CPLENS, CPLEXT);
      && (f.e == 16 <==> s < 256) && (f.e == 15 <==> s == 256) && (s < 256 ==> f.v == s)
      && (f.e == INVALID <==> s >= 286)
      && (257 <= s < 286 ==> f == Leaf(LengthExtra(s), LengthBase(s)) && f.e <= 5)
  {
    hide LengthBase, LengthExtra, Pow2;
    if s >= 257 {
      var i := s - 257;
      assert CPLEXT[i] <= 5 || CPLEXT[i] == 99;
      if s < 286 {
        LengthTables(s);
      }
    }
  }

  lemma DistanceLeaf(t: nat)
    requires t < 30
    ensures |CPDIST| == |CPDEXT| == 30
    ensures SymbolLeaf(t, 0, CPDIST, CPDEXT) == Leaf(DistanceExtra(t), DistanceBase(t)) && DistanceExtra(t) <= 13
  {
    DistanceTables(t);
  }

  /** The format can name the distances 1 to 32768. */
  lemma DistanceRange(t: nat, x: nat)
    requires t < 30 && x < Pow2(DistanceExtra(t))
    ensures 1 <= DistanceBase(t) + x <= WSIZE
  {
    hide Pow2, DistanceBase;
    SmallPowers();
    DistanceTables(t);
  }

  /** The two decoders of a block. */
  ghost predicate Decoders(lit: Decoder, dist: Decoder, z: Lengths) {
    && LengthsOk(z)
    && DecoderFor(lit, z.lit, 257, CPLENS, CPLEXT) && DecoderFor(dist, z.dist, 0, CPDIST, CPDEXT)
  }

  /** The stream starts neither with a token nor with the end of the block. */
  ghost predicate Garbage(z: Lengths, stream: nat)
    requires LengthsOk(z)
  {
    !IsEnd(z, stream) && forall tok, n: nat :: !Spells(z, stream, tok, n)
  }

  /** Where only unused symbols start, no token does. */
  lemma BadLiteral(z: Lengths, stream: nat)
    requires LengthsOk(z)
    requires forall s: nat :: s < |z.lit| && IsPrefix(z.lit, s, stream) ==>
      SymbolLeaf(s, 257, CPLENS, CPLEXT).e == INVALID
    ensures Garbage(z, stream)
  {
    hide IsPrefix, SymbolLeaf, Spells, SpellsCopy;
    LiteralLeaf(256);
    forall tok, n: nat
      ensures !Spells(z, stream, tok, n)
    {
      if Spells(z, stream, tok, n) {
        var s, t := FirstSymbol(z, stream, tok, n);
        LiteralLeaf(s);
        CopySymbol(z, stream, tok, s, t, n);
      }
    }
  }

  lemma CopySymbol(z: Lengths, stream: nat, tok: Token, s: nat, t: nat, n: nat)
    requires LengthsOk(z) && (tok.Copy? ==> SpellsCopy(z, stream, s, t, tok.len, tok.dist, n))
    ensures tok.Copy? ==> s < 286 && t < |z.dist| && IsPrefix(z.dist, t, High(stream, z.lit[s] + LengthExtra(s)))
  {
  }

  lemma BadDistance(z: Lengths, stream: nat, s: nat, after: nat)
    requires LengthsOk(z) && 257 <= s < 286 && s < |z.lit| && IsPrefix(z.lit, s, stream)
    requires after == High(stream, z.lit[s] + LengthExtra(s))
    requires forall t: nat :: t < |z.dist| ==> !IsPrefix(z.dist, t, after)
    ensures Garbage(z, stream)
  {
    hide IsPrefix, High, Spells, SpellsCopy;
    if IsEnd(z, stream) {
      OnePrefix(z.lit, s, 256, stream);
    }
    forall tok, n: nat
      ensures !Spells(z, stream, tok, n)
    {
      if Spells(z, stream, tok, n) {
        var o, t := FirstSymbol(z, stream, tok, n);
        OnePrefix(z.lit, s, o, stream);
        CopySymbol(z, stream, tok, o, t, n);
      }
    }
  }

  /** The distance symbol t and its extra bits, at the start of `after`. */
  ghost predicate IsDistance(z: Lengths, after: nat, t: nat, d: nat) {
    && LengthsOk(z) && t < |z.dist| && IsPrefix(z.dist, t, after)
    && d == DistanceBase(t) + Low(High(after, z.dist[t]), DistanceExtra(t)) && 1 <= d <= WSIZE
  }

  method ReadDistance(r: Reader, dist: Decoder, ghost lit: Decoder, ghost z: Lengths)
    returns (st: Status, d: nat, ghost t: nat)
    requires r.Valid() && Decoders(lit, dist, z)
    modifies r
    ensures r.Valid()
    ensures st.Fine? ==> t < |z.dist| <= 30 && IsDistance(z, High(r.Bits(), old(r.At())), t, d)
    ensures st.Fine? ==> r.At() == old(r.At()) + z.dist[t] + DistanceExtra(t)
    ensures st.Error? || st.Fault? ==>
      forall o: nat :: o < |z.dist| ==> !IsPrefix(z.dist, o, High(r.Bits(), old(r.At())))
    ensures (st.Error? ==> st.code == 1) && (st.Fault? ==> !Complete(z.dist))
    ensures st.NoInput? ==> r.Size() < old(r.At()) + 32
  {
    hide IsPrefix, High, Low, DecoderFor, Buffered, Complete, SymbolLeaf, DistanceBase, DistanceExtra;
    ghost var at := r.At();
    d := 0;
    var e, v;
    st, e, v, t := ReadSymbol(r, dist, z.dist, 0, CPDIST, CPDEXT);
    if st.Fine? {
      DistanceLeaf(t);
      HighHigh(r.Bits(), at, z.dist[t]);
      var ok, x := r.TakeBits(e);
      if !ok {
        return NoInput, 0, t;
      }
      DistanceRange(t, x);
      d := v + x;
    } else if !st.NoInput? {
      forall o: nat | o < |z.dist|
        ensures SymbolLeaf(o, 0, CPDIST, CPDEXT).e != INVALID
      {
        DistanceLeaf(o);
      }
    }
  }

  /** The pieces of a copy, read one after the other, are its spelling. */
  lemma CopyRead(bits: nat, at: nat, z: Lengths, s: nat, e: nat, v: nat, m: nat, t: nat, x: nat, d: nat, b: nat)
    requires LengthsOk(z) && 257 <= s < 286 && s < |z.lit| && IsPrefix(z.lit, s, High(bits, at))
    requires e == LengthExtra(s) && v == LengthBase(s) && m == at + z.lit[s]
    requires x == Low(High(bits, m), e) && IsDistance(z, High(bits, m + e), t, d)
    requires b == m + e + z.dist[t] + DistanceExtra(t)
    ensures TokenAt(bits, z, at, Copy(v + x, d), b) && 1 <= d <= WSIZE
  {
    hide High, Low, IsPrefix, LengthBase, LengthExtra, DistanceBase, DistanceExtra;
    var stream := High(bits, at);
    HighHigh(bits, at, z.lit[s]);
    HighHigh(bits, at, z.lit[s] + LengthExtra(s));
    HighHigh(stream, z.lit[s] + LengthExtra(s), z.dist[t]);
    assert SpellsCopy(z, stream, s, t, LengthBase(s) + x, d, CopyBits(z, s, t));
  }

  /** After a length symbol: the extra bits and the distance. */
  method ReadCopy(r: Reader, dist: Decoder, e: nat, v: nat, ghost lit: Decoder, ghost z: Lengths, ghost s: nat,
      ghost at: nat)
    returns (st: Status, len: nat, d: nat)
    requires r.Valid() && Decoders(lit, dist, z)
    requires 257 <= s < 286 && s < |z.lit| && e == LengthExtra(s) && v == LengthBase(s)
    requires r.At() == at + z.lit[s] && IsPrefix(z.lit, s, High(r.Bits(), at))
    modifies r
    ensures r.Valid()
    ensures st.Fine? ==> TokenAt(r.Bits(), z, at, Copy(len, d), r.At()) && 1 <= d <= WSIZE
    ensures st.Error? || st.Fault? ==> Garbage(z, High(r.Bits(), at))
    ensures (st.Error? ==> st.code == 1) && (st.Fault? ==> !Complete(z.dist))
    ensures st.NoInput? ==> r.Size() < at + 64
  {
    hide IsPrefix, High, Low, Garbage, TokenAt, Decoders, LengthsOk, IsDistance, Buffered, Complete, LengthBase,
      LengthExtra, DistanceBase, DistanceExtra;
    CopyFields(lit, dist, z, s);
    len, d := 0, 1;
    ghost var m := r.At();
    var ok, x := r.TakeBits(e);
    if !ok {
      return NoInput, 0, 1;
    }
    ghost var t;
    st, d, t := ReadDistance(r, dist, lit, z);
    if st.Fine? {
      CopyRead(r.Bits(), at, z, s, e, v, m, t, x, d, r.At());
      len := v + x;
    } else if !st.NoInput? {
      HighHigh(r.Bits(), at, z.lit[s] + e);
      BadDistance(z, High(r.Bits(), at), s, High(r.Bits(), m + e));
    }
  }

  lemma CopyFields(lit: Decoder, dist: Decoder, z: Lengths, s: nat)
    requires Decoders(lit, dist, z) && 257 <= s < 286 && s < |z.lit|
    ensures LengthsOk(z) && z.lit[s] <= BMAX && LengthExtra(s) <= 5
  {
    LiteralLeaf(s);
  }

  lemma EntryBits(z: Lengths, s: nat, stream: nat)
    requires LengthsOk(z) && s < |z.lit| && IsPrefix(z.lit, s, stream)
    ensures 0 < z.lit[s] <= BMAX && (s < 256 ==> Spells(z, stream, Literal(s), z.lit[s]))
  {
  }

  /** One round of the loop in inflate_codes: a literal, a copy, or the end of the block. */
  method OneToken(r: Reader, win: Window, lit: Decoder, dist: Decoder, ghost z: Lengths)
    returns (st: Status, end: bool, ghost tok: Token)
    requires r.Valid() && win.Valid() && Decoders(lit, dist, z)
    modifies r, win, win.slide
    ensures r.Valid() && win.Valid()
    ensures st.Fine? && end ==> IsEnd(z, High(r.Bits(), old(r.At()))) && r.At() == old(r.At()) + z.lit[256]
    ensures st.Fine? && !end ==>
      TokenAt(r.Bits(), z, old(r.At()), tok, r.At()) && (tok.Copy? ==> 1 <= tok.dist <= WSIZE)
    ensures st.Fine? && !end ==>
      |old(win.prior + win.history)| >= WSIZE && win.prior + win.history == Output(old(win.prior + win.history), tok)
    ensures st.Error? || st.Fault? ==> Garbage(z, High(r.Bits(), old(r.At())))
    ensures (st.Error? ==> st.code == 1) && (st.Fault? ==> !Complete(z.lit) || !Complete(z.dist))
    ensures st.NoInput? ==> r.Size() < old(r.At()) + 64
    ensures !st.Fine? || end ==> win.history == old(win.history)
  {
    hide IsPrefix, High, Low, Garbage, Expand, Holds, Buffered, Complete, DecoderFor, SymbolLeaf, Spells, LengthBase,
      LengthExtra;
    ghost var at := r.At();
    tok, end := Copy(0, 1), false;
    var e, v;
    ghost var s;
    st, e, v, s := ReadSymbol(r, lit, z.lit, 257, CPLENS, CPLEXT);
    if st.NoInput? {
      return;
    }
    if !st.Fine? {
      BadLiteral(z, High(r.Bits(), at));
      return;
    }
    EntryBits(z, s, High(r.Bits(), at));
    LiteralLeaf(s);
    if e == 16 {
      tok := Literal(v);
      ghost var h := win.history;
      win.Put(v);
      assert win.prior + win.history == (win.prior + h) + [v];
    } else if e == 15 {
      end := true;
    } else {
      var len, d;
      st, len, d := ReadCopy(r, dist, e, v, lit, z, s, at);
      if st.Fine? {
        tok := Copy(len, d);
        win.CopyMatch(len, d);
      }
    }
  }

  lemma NothingYet(s: nat, z: Lengths, at: nat, v: seq<Byte>)
    requires |v| >= WSIZE
    ensures Chain(Tokens(s, z), at, [], at) && InFormat([]) && OutputAll(v, []) == v
  {
  }

  /** A token starts with at least one bit. */
  lemma TokenMoves(s: nat, z: Lengths, a: nat, tok: Token, b: nat)
    requires TokenAt(s, z, a, tok, b)
    ensures a < b
  {
    hide Spells, SpellsCopy;
    var u, t := FirstSymbol(z, High(s, a), tok, b - a);
  }

  /** inflate_codes: until the end of the block, the tokens the stream spells are
      written to the output; anything else in the stream stops it. */
  method InflateTokens(r: Reader, win: Window, lit: Decoder, dist: Decoder, ghost z: Lengths)
    returns (st: Status, ghost toks: seq<Token>, ghost n: nat)
    requires r.Valid() && win.Valid() && Decoders(lit, dist, z)
    modifies r, win, win.slide
    ensures r.Valid() && win.Valid()
    ensures Chain(Tokens(r.Bits(), z), old(r.At()), toks, n) && InFormat(toks)
    ensures |old(win.prior + win.history)| >= WSIZE
    ensures win.prior + win.history == OutputAll(old(win.prior + win.history), toks)
    ensures st.Fine? ==> IsEnd(z, High(r.Bits(), n)) && r.At() == n + z.lit[256]
    ensures st.Error? || st.Fault? ==> Garbage(z, High(r.Bits(), n))
    ensures (st.Error? ==> st.code == 1) && (st.Fault? ==> !Complete(z.lit) || !Complete(z.dist))
    ensures st.NoInput? ==> r.Size() < n + 64
  {
    ghost var v0 := win.prior + win.history;
    assert |v0| >= WSIZE && |z.lit| > 256;
    toks, n := [], r.At();
    var end := false;
    st := Fine;
    NothingYet(r.Bits(), z, n, v0);
    ghost var at := n;
    hide High, Spells, TokenAt, Output, OutputAll, InFormat, DecoderFor, Holds, Expand, Garbage, IsEnd, Chain, Buffered,
      Complete, LengthsOk;
    while !end
      invariant r.Valid() && win.Valid() && Chain(Tokens(r.Bits(), z), at, toks, n) && InFormat(toks)
      invariant win.prior + win.history == OutputAll(v0, toks) && st.Fine?
      invariant !end ==> r.At() == n
      invariant end ==> IsEnd(z, High(r.Bits(), n)) && r.At() == n + z.lit[256]
      decreases !end, r.Size() - r.At()
    {
      ghost var tok;
      st, end, tok := OneToken(r, win, lit, dist, z);
      if !st.Fine? {
        break;
      }
      if !end {
        TokenMoves(r.Bits(), z, n, tok, r.At());
        ChainMore(Tokens(r.Bits(), z), at, toks, n, tok, r.At());
        OutputMore(v0, toks, tok);
        toks, n := toks + [tok], r.At();
      }
    }
  }

  /** inflate_stored: skip to the byte boundary, check the length against its
      complement, and copy that many bytes to the output. */
  method InflateStored(r: Reader, win: Window) returns (st: Status, ghost body: Body)
    requires r.Valid() && win.Valid()
    modifies r, win, win.slide
    ensures r.Valid() && win.Valid()
    ensures st.Fine? ==> StoredAt(r.Bits(), old(r.At()), body, r.At()) && win.history == old(win.history) + body.data
    ensures st.Error? ==> st.code == 1 && forall x, b: nat :: !StoredAt(r.Bits(), old(r.At()), x, b)
    ensures st.NoInput? ==> forall x, b: nat :: StoredAt(r.Bits(), old(r.At()), x, b) ==> r.Size() < b
    ensures !st.Fault?
  {
    hide High, Low, Holds, Shl, Buffered, ToByte;
    body := Stored([]);
    ghost var s, at := r.Bits(), r.At();
    r.SkipToByte();
    ghost var f := r.At();
    var ok, len := r.TakeBits(16);
    if !ok {
      return NoInput, body;
    }
    var nlen;
    ok, nlen := r.TakeBits(16);
    if !ok {
      return NoInput, body;
    }
    if len + nlen != 0xffff {
      return Error(1), body;
    }
    for i := 0 to len
      invariant r.Valid() && win.Valid() && r.At() == f + 32 + 8 * i
      invariant win.history == old(win.history) + DataBytes(s, f + 32, i)
    {
      var c;
      ok, c := r.TakeBits(8);
      if !ok {
        return NoInput, body;
      }
      ShlByte(1);
      win.Put(c);
      assert DataBytes(s, f + 32, i + 1) == DataBytes(s, f + 32, i) + [c];
    }
    st, body := Fine, Stored(DataBytes(s, f + 32, len));
  }
}
