/** What a compressed block means (sections 3.2.3 and 3.2.5 of RFC 1951): the
    symbols spelled by the canonical codes, the pairs they form, and the output
    they expand to. */
module DeflateSpec {
  import opened HuffmanBits
  import opened HuffmanSpec
  import opened Bytes
  import opened InflateWindow
  import opened Chains

  // ----- the lengths and distances of a pair

  /** The number of extra bits of a length symbol: groups of four, each with one bit more
      than the one before. */
  function LengthExtra(s: nat): nat
    requires 257 <= s < 286
  {
    if s < 261 || s == 285 then 0 else (s - 261) / 4
  }

  /** The shortest copy of a length symbol: one more than the longest of the symbol before,
      but for the last symbol, which is for the longest copy of all. */
  function LengthBase(s: nat): nat
    requires 257 <= s < 286
  {
    if s == 257 then 3 else if s == 285 then 258 else LengthBase(s - 1) + Pow2(LengthExtra(s - 1))
  }

  /** The number of extra bits of a distance symbol: pairs, each with one bit more. */
  function DistanceExtra(t: nat): nat
    requires t < 30
  {
    if t < 2 then 0 else t / 2 - 1
  }

  /** The least distance of a distance symbol. */
  function DistanceBase(t: nat): nat
    requires t < 30
  {
    if t == 0 then 1 else DistanceBase(t - 1) + Pow2(DistanceExtra(t - 1))
  }

  const CPLENS: seq<nat> := [3, 4, 5, 6, 7, 8, 9, 10, 11, 13, 15, 17, 19, 23, 27, 31,
                   35, 43, 51, 59, 67, 83, 99, 115, 131, 163, 195, 227, 258, 0, 0]
  const CPLEXT: seq<nat> := [0, 0, 0, 0, 0, 0, 0, 0, 1, 1, 1, 1, 2, 2, 2, 2,
                   3, 3, 3, 3, 4, 4, 4, 4, 5, 5, 5, 5, 0, 99, 99]
  const CPDIST: seq<nat> := [1, 2, 3, 4, 5, 7, 9, 13, 17, 25, 33, 49, 65, 97, 129, 193,
                   257, 385, 513, 769, 1025, 1537, 2049, 3073, 4097, 6145,
                   8193, 12289, 16385, 24577]
  const CPDEXT: seq<nat> := [0, 0, 0, 0, 1, 1, 2, 2, 3, 3, 4, 4, 5, 5, 6, 6,
                   7, 7, 8, 8, 9, 9, 10, 10, 11, 11, 12, 12, 13, 13]

  lemma SmallPowers()
    ensures Pow2(0) == 1 && Pow2(1) == 2 && Pow2(2) == 4 && Pow2(3) == 8 && Pow2(4) == 16 && Pow2(5) == 32
    ensures Pow2(6) == 64 && Pow2(7) == 128 && Pow2(8) == 256 && Pow2(9) == 512 && Pow2(10) == 1024
    ensures Pow2(11) == 2048 && Pow2(12) == 4096 && Pow2(13) == 8192
  {
    forall n: nat | n < 13
      ensures Pow2(n + 1) == 2 * Pow2(n)
    {
      ShlDouble(1, n);
    }
    hide Shl;
    assert Pow2(1) == 2 * Pow2(0);
    assert Pow2(2) == 2 * Pow2(1);
    assert Pow2(3) == 2 * Pow2(2);
    assert Pow2(4) == 2 * Pow2(3);
    assert Pow2(5) == 2 * Pow2(4);
    assert Pow2(6) == 2 * Pow2(5);
    assert Pow2(7) == 2 * Pow2(6);
    assert Pow2(8) == 2 * Pow2(7);
    assert Pow2(9) == 2 * Pow2(8);
    assert Pow2(10) == 2 * Pow2(9);
    assert Pow2(11) == 2 * Pow2(10);
    assert Pow2(12) == 2 * Pow2(11);
    assert Pow2(13) == 2 * Pow2(12);
  }

  lemma LengthStep(i: nat)
    requires i < 28
    ensures |CPLENS| == |CPLEXT| == 31 && CPLEXT[i] == LengthExtra(257 + i)
    ensures i < 27 ==> CPLENS[i + 1] == CPLENS[i] + Pow2(CPLEXT[i])
  {
    hide Pow2;
    SmallPowers();
  }

  /** The tables of lengths are those of the format. */
  lemma {:induction false} LengthTables(s: nat)
    requires 257 <= s < 286
    ensures |CPLENS| == |CPLEXT| == 31 && CPLENS[s - 257] == LengthBase(s) && CPLEXT[s - 257] == LengthExtra(s)
  {
    hide Pow2, LengthExtra;
    if s < 285 {
      LengthStep(s - 257);
      if s > 257 {
        LengthTables(s - 1);
        LengthStep(s - 258);
      }
    } else {
      assert LengthExtra(s) == 0 by { NoExtra(); }
    }
  }

  lemma NoExtra()
    ensures LengthExtra(285) == 0
  {
  }

  lemma DistanceStep(t: nat)
    requires t < 30
    ensures |CPDIST| == |CPDEXT| == 30 && CPDEXT[t] == DistanceExtra(t)
    ensures t < 29 ==> CPDIST[t + 1] == CPDIST[t] + Pow2(CPDEXT[t])
  {
    hide Pow2;
    SmallPowers();
  }

  /** The tables of distances are those of the format. */
  lemma {:induction false} DistanceTables(t: nat)
    requires t < 30
    ensures |CPDIST| == |CPDEXT| == 30 && CPDIST[t] == DistanceBase(t) && CPDEXT[t] == DistanceExtra(t)
  {
    hide Pow2, DistanceExtra;
    DistanceStep(t);
    if t > 0 {
      DistanceTables(t - 1);
      DistanceStep(t - 1);
    }
  }

  datatype Token = Literal(c: Byte) | Copy(len: nat, dist: nat)

  /** The code lengths of the literal/length and the distance alphabet. */
  datatype Lengths = Lengths(lit: seq<nat>, dist: seq<nat>)

  ghost predicate LengthsOk(z: Lengths) {
    && 257 <= |z.lit| <= 288 && 1 <= |z.dist| <= 30
    && (forall s :: 0 <= s < |z.lit| ==> z.lit[s] <= BMAX)
    && (forall s :: 0 <= s < |z.dist| ==> z.dist[s] <= BMAX)
  }

  ghost predicate IsEnd(z: Lengths, stream: nat)
    requires LengthsOk(z)
  {
    IsPrefix(z.lit, 256, stream)
  }

  ghost predicate IsLiteral(z: Lengths, stream: nat, c: Byte)
    requires LengthsOk(z)
  {
    IsPrefix(z.lit, c, stream)
  }

  /** Length symbol s, its extra bits, distance symbol t, its extra bits. */
  ghost predicate IsCopy(z: Lengths, stream: nat, s: nat, t: nat)
    requires LengthsOk(z)
  {
    && 257 <= s < |z.lit| && s < 286 && t < |z.dist| && IsPrefix(z.lit, s, stream)
    && IsPrefix(z.dist, t, High(stream, z.lit[s] + LengthExtra(s)))
  }

  function CopyLength(z: Lengths, stream: nat, s: nat): nat
    requires 257 <= s < |z.lit| && s < 286
  {
    LengthBase(s) + Low(High(stream, z.lit[s]), LengthExtra(s))
  }

  function CopyDistance(z: Lengths, stream: nat, s: nat, t: nat): nat
    requires 257 <= s < |z.lit| && s < 286 && t < |z.dist| && t < 30
  {
    DistanceBase(t) + Low(High(stream, z.lit[s] + LengthExtra(s) + z.dist[t]), DistanceExtra(t))
  }

  function CopyBits(z: Lengths, s: nat, t: nat): nat
    requires 257 <= s < |z.lit| && s < 286 && t < |z.dist| && t < 30
  {
    z.lit[s] + LengthExtra(s) + z.dist[t] + DistanceExtra(t)
  }

  /** The first n bits of the stream spell the token. */
  ghost predicate Spells(z: Lengths, stream: nat, tok: Token, n: nat)
    requires LengthsOk(z)
  {
    match tok
    case Literal(c) => IsLiteral(z, stream, c) && n == z.lit[c]
    case Copy(len, dist) => exists s: nat, t: nat :: SpellsCopy(z, stream, s, t, len, dist, n)
  }

  ghost predicate SpellsCopy(z: Lengths, stream: nat, s: nat, t: nat, len: nat, dist: nat, n: nat)
    requires LengthsOk(z)
  {
    && IsCopy(z, stream, s, t) && len == CopyLength(z, stream, s) && dist == CopyDistance(z, stream, s, t)
    && n == CopyBits(z, s, t)
  }

  lemma OnePrefix(b: seq<nat>, s: nat, t: nat, stream: nat)
    requires s < |b| && t < |b| && b[s] <= BMAX && b[t] <= BMAX && IsPrefix(b, s, stream) && IsPrefix(b, t, stream)
    ensures s == t
  {
    hide IsPrefix;
    if s < t {
      PrefixUnique(b, s, t, stream);
    } else if t < s {
      PrefixUnique(b, t, s, stream);
    }
  }

  /** The literal/length symbol a token starts with. */
  lemma FirstSymbol(z: Lengths, stream: nat, tok: Token, n: nat) returns (s: nat, t: nat)
    requires LengthsOk(z) && Spells(z, stream, tok, n)
    ensures s < |z.lit| && IsPrefix(z.lit, s, stream) && s != 256 && n > 0
    ensures tok.Literal? ==> tok.c == s && n == z.lit[s]
    ensures tok.Copy? ==> s > 256 && SpellsCopy(z, stream, s, t, tok.len, tok.dist, n)
  {
    hide High, Low;
    t := 0;
    match tok
    case Literal(c) => s := c;
    case Copy(len, dist) => s, t :| SpellsCopy(z, stream, s, t, len, dist, n);
  }

  /** A stream starts with at most one token, and with none at the end of the block. */
  lemma SpellsOnce(z: Lengths, stream: nat, tok: Token, n: nat, other: Token, m: nat)
    requires LengthsOk(z) && Spells(z, stream, tok, n) && Spells(z, stream, other, m)
    ensures tok == other && n == m
  {
    hide High, Low, IsPrefix, Spells, SpellsCopy;
    var s, t := FirstSymbol(z, stream, tok, n);
    var u, v := FirstSymbol(z, stream, other, m);
    OnePrefix(z.lit, s, u, stream);
    if tok.Copy? && other.Copy? {
      CopyOnce(z, stream, s, t, v, tok, n, other, m);
    }
  }

  lemma CopyOnce(z: Lengths, stream: nat, s: nat, t: nat, v: nat, tok: Token, n: nat, other: Token, m: nat)
    requires LengthsOk(z) && tok.Copy? && other.Copy?
    requires SpellsCopy(z, stream, s, t, tok.len, tok.dist, n) && SpellsCopy(z, stream, s, v, other.len, other.dist, m)
    ensures tok == other && n == m
  {
    hide High, Low, IsPrefix;
    OnePrefix(z.dist, t, v, High(stream, z.lit[s] + LengthExtra(s)));
  }

  lemma EndIsNoToken(z: Lengths, stream: nat, tok: Token, n: nat)
    requires LengthsOk(z) && IsEnd(z, stream)
    ensures !Spells(z, stream, tok, n)
  {
    hide IsPrefix, Spells, SpellsCopy;
    if Spells(z, stream, tok, n) {
      var s, t := FirstSymbol(z, stream, tok, n);
      OnePrefix(z.lit, s, 256, stream);
    }
  }

  /** The bits of s from a up to b spell the token. */
  ghost predicate TokenAt(s: nat, z: Lengths, a: nat, tok: Token, b: nat) {
    LengthsOk(z) && a <= b && Spells(z, High(s, a), tok, b - a)
  }

  ghost function Tokens(s: nat, z: Lengths): Step<Token> {
    (a: nat, tok: Token, b: nat) => TokenAt(s, z, a, tok, b)
  }

  lemma TokensExact(s: nat, z: Lengths)
    ensures Exact(Tokens(s, z))
  {
    hide High, Spells, LengthsOk;
    forall a: nat, x: Token, b: nat, y: Token, c: nat | TokenAt(s, z, a, x, b) && TokenAt(s, z, a, y, c)
      ensures x == y && b == c
    {
      SpellsOnce(z, High(s, a), x, b - a, y, c - a);
    }
  }

  /** The output after a token; distances reach into the 32K before. */
  function Output(h: seq<Byte>, tok: Token): (r: seq<Byte>)
    requires |h| >= WSIZE && (tok.Copy? ==> 1 <= tok.dist <= WSIZE)
    ensures |r| >= |h|
  {
    match tok
    case Literal(c) => h + [c]
    case Copy(len, dist) => Expand(h, len, dist)
  }

  ghost predicate InFormat(toks: seq<Token>) {
    forall i :: 0 <= i < |toks| && toks[i].Copy? ==> 1 <= toks[i].dist <= WSIZE
  }

  function OutputAll(h: seq<Byte>, toks: seq<Token>): (r: seq<Byte>)
    requires |h| >= WSIZE && InFormat(toks)
    ensures |r| >= |h|
  {
    if toks == [] then h
    else Output(OutputAll(h, toks[..|toks| - 1]), toks[|toks| - 1])
  }

  lemma OutputMore(h: seq<Byte>, toks: seq<Token>, tok: Token)
    requires |h| >= WSIZE && InFormat(toks) && (tok.Copy? ==> 1 <= tok.dist <= WSIZE)
    ensures InFormat(toks + [tok])
    ensures OutputAll(h, toks + [tok]) == Output(OutputAll(h, toks), tok)
  {
    var more := toks + [tok];
    assert more[..|more| - 1] == toks;
  }

  /** The number of bytes the tokens produce. */
  function Produced(toks: seq<Token>): nat {
    if toks == [] then 0
    else Produced(toks[..|toks| - 1]) + (match toks[|toks| - 1] case Literal(_) => 1 case Copy(len, _) => len)
  }

  /** No distance reaches back before the start of the output, n bytes back. */
  ghost predicate WithinOutput(n: nat, toks: seq<Token>) {
    forall i :: 0 <= i < |toks| && toks[i].Copy? ==> 1 <= toks[i].dist <= n + Produced(toks[..i])
  }

  lemma WithinFront(n: nat, toks: seq<Token>)
    requires WithinOutput(n, toks) && toks != []
    ensures WithinOutput(n, toks[..|toks| - 1])
  {
    var front := toks[..|toks| - 1];
    forall i | 0 <= i < |front| && front[i].Copy?
      ensures 1 <= front[i].dist <= n + Produced(front[..i])
    {
      assert front[i] == toks[i] && front[..i] == toks[..i];
    }
  }

  /** Byte-by-byte expansion of the tokens after the output h, with no window at all. */
  function Plain(h: seq<Byte>, toks: seq<Token>): (r: seq<Byte>)
    requires WithinOutput(|h|, toks)
    ensures |r| == |h| + Produced(toks)
  {
    if toks == [] then h
    else
      WithinFront(|h|, toks);
      var front := Plain(h, toks[..|toks| - 1]);
      match toks[|toks| - 1]
      case Literal(c) => front + [c]
      case Copy(len, dist) => Expand(front, len, dist)
  }

  /** When no distance reaches back before the start of the output, the contents
      of the window area before it do not matter. */
  lemma {:induction false} PriorIrrelevant(prior: seq<Byte>, h: seq<Byte>, toks: seq<Token>)
    requires |prior| >= WSIZE && InFormat(toks) && WithinOutput(|h|, toks)
    ensures OutputAll(prior + h, toks) == prior + Plain(h, toks)
  {
    if toks != [] {
      var front, tok := toks[..|toks| - 1], toks[|toks| - 1];
      WithinFront(|h|, toks);
      PriorIrrelevant(prior, h, front);
      var p := Plain(h, front);
      match tok
      case Literal(c) => assert (prior + p) + [c] == prior + (p + [c]);
      case Copy(len, dist) => ExpandSuffix(prior, p, len, dist);
    }
  }
}
