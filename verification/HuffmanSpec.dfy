/** The canonical Huffman code of section 3.2.2 of RFC 1951. */
module HuffmanSpec {
  import opened HuffmanBits

  /** BMAX of lib/inflate.c */
  const BMAX := 16

  /** The number of symbols with code length `len`. */
  function Count(b: seq<nat>, len: nat): nat {
    if b == [] then 0 else Count(b[..|b| - 1], len) + (if b[|b| - 1] == len then 1 else 0)
  }

  function Counts(b: seq<nat>): (c: seq<nat>)
    ensures |c| == BMAX + 1
    ensures forall len: nat :: len <= BMAX ==> c[len] == Count(b, len)
  {
    seq(BMAX + 1, (len: nat) => Count(b, len))
  }

  /** next_code of step 2: the first code of each length. */
  function NextCode(c: seq<nat>, len: nat): nat
    requires len < |c|
  {
    if len <= 1 then 0 else 2 * (NextCode(c, len - 1) + c[len - 1])
  }

  /** Symbols of equal length are numbered in the order of the alphabet (step 3). */
  function Rank(b: seq<nat>, s: nat): nat
    requires s < |b|
  {
    Count(b[..s], b[s])
  }

  function Canonical(b: seq<nat>, s: nat): nat
    requires s < |b| && b[s] <= BMAX
  {
    NextCode(Counts(b), b[s]) + Rank(b, s)
  }

  /** The code of symbol s is a prefix of the stream, whose bits are those of
      `stream` from bit 0 upwards. */
  ghost predicate IsPrefix(b: seq<nat>, s: nat, stream: nat)
    requires s < |b| && b[s] <= BMAX
  {
    b[s] > 0 && Rev(b[s], stream) == Canonical(b, s)
  }

  /** How many of the 2^g patterns of g bits start with a code of length at most `len`. */
  function End(c: seq<nat>, g: nat, len: nat): nat
    requires len <= g < |c|
  {
    if len == 0 then 0 else End(c, g, len - 1) + Shl(c[len], g - len)
  }

  predicate Oversubscribed(b: seq<nat>) {
    End(Counts(b), BMAX, BMAX) > Pow2(BMAX)
  }

  predicate Complete(b: seq<nat>) {
    End(Counts(b), BMAX, BMAX) == Pow2(BMAX)
  }

  lemma {:induction false} EndMono(c: seq<nat>, g: nat, a: nat, len: nat)
    requires a <= len <= g < |c|
    ensures End(c, g, a) <= End(c, g, len)
  {
    if a < len {
      EndMono(c, g, a, len - 1);
    }
  }

  /** The codes of length `len` start where the shorter codes end. */
  lemma {:induction false} NextCodeIsEnd(c: seq<nat>, g: nat, len: nat)
    requires 1 <= len <= g < |c|
    ensures Shl(NextCode(c, len), g - len) == End(c, g, len - 1)
  {
    if len == 1 {
      ShlZero(g - 1);
    } else {
      NextCodeIsEnd(c, g, len - 1);
      ShlDouble(NextCode(c, len - 1) + c[len - 1], g - len);
      ShlAdd(NextCode(c, len - 1), c[len - 1], g - len + 1);
    }
  }

  /** Counting in longer patterns only scales. */
  lemma {:induction false} EndScale(c: seq<nat>, g: nat, n: nat, len: nat)
    requires len <= g <= n < |c|
    ensures End(c, n, len) == Shl(End(c, g, len), n - g)
  {
    if len == 0 {
      ShlZero(n - g);
    } else {
      EndScale(c, g, n, len - 1);
      ShlShl(c[len], g - len, n - g);
      ShlAdd(End(c, g, len - 1), Shl(c[len], g - len), n - g);
    }
  }

  /** Where the r-th code of length k starts among the 2^g patterns. */
  function Start(c: seq<nat>, g: nat, k: nat, r: nat): nat
    requires 1 <= k <= g < |c|
  {
    End(c, g, k - 1) + Shl(r, g - k)
  }

  lemma StartFacts(c: seq<nat>, g: nat, k: nat, r: nat)
    requires 1 <= k <= g < |c|
    ensures Start(c, g, k, r) == Shl(NextCode(c, k) + r, g - k)
    ensures Start(c, g, k, r + 1) == Start(c, g, k, r) + Pow2(g - k)
    ensures r <= c[k] ==> Start(c, g, k, r) <= End(c, g, k)
    ensures Start(c, g, k, c[k]) == End(c, g, k)
    ensures Start(c, g, k, 0) == End(c, g, k - 1)
  {
    NextCodeIsEnd(c, g, k);
    ShlAdd(NextCode(c, k), r, g - k);
    ShlAdd(r, 1, g - k);
    ShlMono(r, c[k], g - k);
    ShlZero(g - k);
  }

  lemma {:induction false} CountBound(b: seq<nat>, len: nat)
    ensures Count(b, len) <= |b|
  {
    if b != [] {
      CountBound(b[..|b| - 1], len);
    }
  }

  lemma {:induction false} CountMono(b: seq<nat>, i: nat, len: nat)
    requires i <= |b|
    ensures Count(b[..i], len) <= Count(b, len)
    decreases |b|
  {
    if i < |b| {
      var f := b[..|b| - 1];
      assert f[..i] == b[..i];
      CountMono(f, i, len);
    } else {
      assert b[..i] == b;
    }
  }

  lemma CountStep(b: seq<nat>, i: nat, len: nat)
    requires i < |b|
    ensures Count(b[..i + 1], len) == Count(b[..i], len) + (if b[i] == len then 1 else 0)
  {
    assert b[..i + 1][..i] == b[..i];
  }

  /** A symbol's rank is below the number of symbols of its length, and symbols
      of equal length have different ranks. */
  lemma RankFacts(b: seq<nat>, s: nat, t: nat)
    requires s < t < |b|
    ensures Rank(b, t) < Count(b, b[t])
    ensures b[s] == b[t] ==> Rank(b, s) < Rank(b, t)
  {
    CountStep(b, t, b[t]);
    CountMono(b, t + 1, b[t]);
    CountStep(b, s, b[s]);
    assert b[..t][..s + 1] == b[..s + 1];
    CountMono(b[..t], s + 1, b[s]);
  }

  lemma RankBound(b: seq<nat>, s: nat)
    requires s < |b|
    ensures Rank(b, s) < Count(b, b[s])
  {
    CountStep(b, s, b[s]);
    CountMono(b, s + 1, b[s]);
  }

  /** A code that is a prefix of the stream covers the stream's 16-bit pattern. */
  lemma PrefixCovers(b: seq<nat>, s: nat, stream: nat)
    requires s < |b| && b[s] <= BMAX && IsPrefix(b, s, stream)
    ensures Start(Counts(b), BMAX, b[s], Rank(b, s)) <= Rev(BMAX, stream)
    ensures Rev(BMAX, stream) < Start(Counts(b), BMAX, b[s], Rank(b, s) + 1)
  {
    RevPrefix(b[s], BMAX, stream);
    StartFacts(Counts(b), BMAX, b[s], Rank(b, s));
    StartFacts(Counts(b), BMAX, b[s], Rank(b, s) + 1);
  }

  /** The patterns that start with the codes of two symbols do not meet. */
  lemma PatternsApart(b: seq<nat>, s: nat, t: nat)
    requires s < t < |b| && 0 < b[s] <= BMAX && 0 < b[t] <= BMAX
    ensures var c := Counts(b);
      || Start(c, BMAX, b[s], Rank(b, s) + 1) <= Start(c, BMAX, b[t], Rank(b, t))
      || Start(c, BMAX, b[t], Rank(b, t) + 1) <= Start(c, BMAX, b[s], Rank(b, s))
  {
    var c := Counts(b);
    RankBound(b, s);
    RankBound(b, t);
    RankFacts(b, s, t);
    hide Start, Rank;
    if b[s] == b[t] {
      StartMono(c, b[s], Rank(b, s) + 1, Rank(b, t));
    } else if b[s] < b[t] {
      StartOrder(c, b[s], Rank(b, s) + 1, b[t], Rank(b, t));
    } else {
      StartOrder(c, b[t], Rank(b, t) + 1, b[s], Rank(b, s));
    }
  }

  /** No code is a prefix of another: at most one symbol matches a stream. */
  lemma PrefixUnique(b: seq<nat>, s: nat, t: nat, stream: nat)
    requires s < t < |b| && b[s] <= BMAX && b[t] <= BMAX
    ensures !(IsPrefix(b, s, stream) && IsPrefix(b, t, stream))
  {
    if b[s] > 0 && b[t] > 0 {
      PatternsApart(b, s, t);
    }
    if IsPrefix(b, s, stream) {
      PrefixCovers(b, s, stream);
    }
    if IsPrefix(b, t, stream) {
      PrefixCovers(b, t, stream);
    }
    hide Rev, Canonical, Start, NextCode, Rank;
  }

  lemma StartMono(c: seq<nat>, k: nat, r: nat, q: nat)
    requires |c| == BMAX + 1 && 1 <= k <= BMAX && r <= q
    ensures Start(c, BMAX, k, r) <= Start(c, BMAX, k, q)
  {
    ShlMono(r, q, BMAX - k);
  }

  lemma StartOrder(c: seq<nat>, k: nat, r: nat, l: nat, q: nat)
    requires |c| == BMAX + 1 && 1 <= k < l <= BMAX && r <= c[k]
    ensures Start(c, BMAX, k, r) <= Start(c, BMAX, l, q)
  {
    StartFacts(c, BMAX, k, r);
    EndMono(c, BMAX, k, l - 1);
  }
}
