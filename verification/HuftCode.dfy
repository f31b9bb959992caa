/** Counting, ordering and completing a list of code lengths: the first half of
    huft_build, and what it means for the canonical code. */
module HuftCode {
  import opened HuffmanBits
  import opened HuffmanSpec
  import opened HuftTables

  // ----- facts about counts and offsets

  lemma {:induction false} OffsetMono(c: seq<nat>, a: nat, b: nat)
    requires a < b <= |c| && 1 <= a
    ensures Offset(c, a) + c[a] <= Offset(c, b)
  {
    if a + 1 < b {
      OffsetMono(c, a, b - 1);
    }
  }

  /** Two codes have different places in the canonical order. */
  lemma OffsetInjective(c: seq<nat>, a: nat, i: nat, b: nat, j: nat)
    requires 1 <= a < |c| && 1 <= b < |c| && i < c[a] && j < c[b]
    requires a != b || i != j
    ensures Offset(c, a) + i != Offset(c, b) + j
  {
    if a < b {
      OffsetMono(c, a, b);
    } else if b < a {
      OffsetMono(c, b, a);
    }
  }

  lemma {:induction false} OffsetSame(c: seq<nat>, e: seq<nat>, k: nat)
    requires k <= |c| == |e| && forall n :: 1 <= n < k ==> c[n] == e[n]
    ensures Offset(c, k) == Offset(e, k)
    ensures k < |c| ==> NextCode(c, k) == NextCode(e, k)
  {
    if k > 1 {
      OffsetSame(c, e, k - 1);
    }
  }

  lemma {:induction false} EndSame(c: seq<nat>, e: seq<nat>, g: nat, k: nat)
    requires k <= g < |c| == |e| && forall n :: 1 <= n <= k ==> c[n] == e[n]
    ensures End(c, g, k) == End(e, g, k)
  {
    if k > 0 {
      EndSame(c, e, g, k - 1);
    }
  }

  lemma {:induction false} EndTail(c: seq<nat>, g: nat, a: nat, b: nat)
    requires a <= b <= g < |c| && forall n :: a < n <= b ==> c[n] == 0
    ensures End(c, g, b) == End(c, g, a)
  {
    if a < b {
      EndTail(c, g, a, b - 1);
      ShlZero(g - b);
    }
  }

  /** The counts of the nonzero lengths up to `top` and the rest add up to the number of symbols. */
  lemma {:induction false} CountsAddUp(b: seq<nat>)
    requires forall i :: 0 <= i < |b| ==> b[i] <= BMAX
    ensures Count(b, 0) + Offset(Counts(b), BMAX + 1) == |b|
  {
    if b == [] {
      ZeroOffset(Counts(b), BMAX + 1);
    } else {
      var f := b[..|b| - 1];
      CountsAddUp(f);
      BumpOffset(Counts(f), Counts(b), b[|b| - 1], BMAX + 1);
    }
  }

  lemma {:induction false} ZeroOffset(c: seq<nat>, k: nat)
    requires k <= |c| && forall n :: 0 <= n < |c| ==> c[n] == 0
    ensures Offset(c, k) == 0
  {
    if k > 1 {
      ZeroOffset(c, k - 1);
    }
  }

  lemma {:induction false} BumpOffset(c: seq<nat>, e: seq<nat>, len: nat, k: nat)
    requires len < |c| == |e| && k <= |c|
    requires forall n :: 0 <= n < |c| ==> e[n] == c[n] + (if n == len then 1 else 0)
    ensures Offset(e, k) == Offset(c, k) + (if 1 <= len < k then 1 else 0)
  {
    if k > 1 {
      BumpOffset(c, e, len, k - 1);
    }
  }

  /** The symbol with a given length and rank. */
  lemma {:induction false} NthSymbol(b: seq<nat>, len: nat, r: nat) returns (s: nat)
    requires r < Count(b, len)
    ensures s < |b| && b[s] == len && Rank(b, s) == r
  {
    var f := b[..|b| - 1];
    if r < Count(f, len) {
      s := NthSymbol(f, len, r);
      assert b[..s] == f[..s];
    } else {
      s := |b| - 1;
    }
  }

  // ----- the first loops of huft_build

  /** How many symbols have each length. */
  method CountLengths(b: seq<nat>) returns (c: seq<nat>)
    requires forall i :: 0 <= i < |b| ==> b[i] <= BMAX
    ensures c == Counts(b)
  {
    c := seq(BMAX + 1, _ => 0);
    var i := 0;
    while i < |b|
      invariant 0 <= i <= |b| && c == Counts(b[..i])
    {
      forall len: nat | len <= BMAX
        ensures Count(b[..i + 1], len) == Count(b[..i], len) + (if b[i] == len then 1 else 0)
      {
        CountStep(b, i, len);
      }
      c := c[b[i] := c[b[i]] + 1];
      i := i + 1;
    }
    assert b[..|b|] == b;
  }

  /** The shortest and the longest length that occur. */
  method FindLengths(c: seq<nat>) returns (j: nat, g: nat)
    requires |c| == BMAX + 1 && exists n :: 1 <= n <= BMAX && c[n] > 0
    ensures 1 <= j <= g <= BMAX && c[j] > 0 && c[g] > 0
    ensures forall n :: 1 <= n <= BMAX && c[n] > 0 ==> j <= n <= g
  {
    j := 1;
    while j <= BMAX && c[j] == 0
      invariant 1 <= j <= BMAX + 1 && forall n :: 1 <= n < j ==> c[n] == 0
    {
      j := j + 1;
    }
    g := BMAX;
    while g > 0 && c[g] == 0
      invariant 0 <= g <= BMAX && forall n :: g < n <= BMAX ==> c[n] == 0
    {
      g := g - 1;
    }
  }

  /** The number of patterns of g bits left over, if there are enough. */
  method FillOut(c: seq<nat>, jmin: nat, g: nat) returns (ok: bool, y: int)
    requires |c| == BMAX + 1 && 1 <= jmin <= g <= BMAX && forall n :: 1 <= n < jmin ==> c[n] == 0
    ensures ok <==> End(c, g, g) <= Pow2(g)
    ensures ok ==> y >= 0 && End(c, g, g) + y == Pow2(g)
  {
    y := Pow2(jmin);
    var j := jmin;
    EndTail(c, g, 0, jmin - 1);
    Pow2Split(jmin, g);
    hide Shl, End, Pow2;
    while j < g
      invariant jmin <= j <= g && y >= 0
      invariant Shl(y, g - j) + End(c, g, j - 1) == Pow2(g)
    {
      FillOne(c, g, j, y);
      y := y - c[j];
      if y < 0 {
        return false, y;
      }
      j := j + 1;
      y := 2 * y;
    }
    FillOne(c, g, g, y);
    y := y - c[g];
    ok := y >= 0;
  }

  lemma FillOne(c: seq<nat>, g: nat, j: nat, y: nat)
    requires 1 <= j <= g < |c| && Shl(y, g - j) + End(c, g, j - 1) == Pow2(g)
    ensures y < c[j] ==> End(c, g, g) > Pow2(g)
    ensures y >= c[j] ==> Shl(y - c[j], g - j) + End(c, g, j) == Pow2(g)
    ensures y >= c[j] && j < g ==> Shl(2 * (y - c[j]), g - j - 1) + End(c, g, j) == Pow2(g)
    ensures y >= c[j] && j == g ==> y - c[j] + End(c, g, j) == Pow2(g)
  {
    if y < c[j] {
      ShlMono(y, c[j], g - j);
      EndMono(c, g, j, g);
    } else {
      ShlAdd(y - c[j], c[j], g - j);
      if j < g {
        ShlDouble(y - c[j], g - j - 1);
      }
    }
  }

  /** For each length, how many symbols come before its first one. */
  method Offsets(c: seq<nat>, g: nat) returns (x: seq<nat>)
    requires |c| == BMAX + 1 && 1 <= g <= BMAX
    ensures |x| == BMAX + 1 && forall n :: 1 <= n <= g ==> x[n] == Offset(c, n)
  {
    x := seq(BMAX + 1, _ => 0);
    var j := 0;
    var n := 1;
    while n < g
      invariant 1 <= n <= g && |x| == BMAX + 1 && j == Offset(c, n)
      invariant forall m :: 1 <= m <= n ==> x[m] == Offset(c, m)
    {
      j := j + c[n];
      x := x[n + 1 := j];
      n := n + 1;
    }
  }

  /** The symbols among the first i, each at its place in the canonical order. */
  ghost predicate Sorted(b: seq<nat>, c: seq<nat>, v: seq<nat>, i: nat)
    requires i <= |b| && |c| == BMAX + 1 && forall s :: 0 <= s < |b| ==> b[s] <= BMAX
  {
    forall s :: 0 <= s < i && b[s] > 0 ==>
      Offset(c, b[s]) + Rank(b, s) < |v| && v[Offset(c, b[s]) + Rank(b, s)] == s
  }

  /** The symbols that have a code, sorted by length. */
  method SortValues(b: seq<nat>, x0: seq<nat>, ghost c: seq<nat>, ghost g: nat) returns (v: seq<nat>)
    requires g <= BMAX && forall s :: 0 <= s < |b| ==> b[s] <= g
    requires c == Counts(b) && |x0| == BMAX + 1 && forall n :: 1 <= n <= g ==> x0[n] == Offset(c, n)
    ensures |v| == |b| && Sorted(b, c, v, |b|) && forall p :: 0 <= p < |v| ==> v[p] < |b|
  {
    hide Offset, Count, Sorted;
    v := seq(|b|, _ => 0);
    var x := x0;
    var i := 0;
    NoneYet(b, c, v);
    while i < |b|
      invariant 0 <= i <= |b| && |x| == BMAX + 1 && |v| == |b| && Sorted(b, c, v, i)
      invariant forall n: nat :: 1 <= n <= g ==> x[n] == Offset(c, n) + Count(b[..i], n)
      invariant forall p :: 0 <= p < |v| ==> v[p] < |b|
    {
      var j := b[i];
      CountSteps(b, i);
      if j == 0 {
        SkipStep(b, c, v, i);
      } else {
        SortStep(b, c, v, i);
        v := v[x[j] := i];
        x := x[j := x[j] + 1];
      }
      i := i + 1;
    }
  }

  lemma NoneYet(b: seq<nat>, c: seq<nat>, v: seq<nat>)
    requires |c| == BMAX + 1 && forall s :: 0 <= s < |b| ==> b[s] <= BMAX
    ensures Sorted(b, c, v, 0) && forall n: nat :: Count(b[..0], n) == 0
  {
    assert b[..0] == [];
  }

  lemma CountSteps(b: seq<nat>, i: nat)
    requires i < |b|
    ensures forall n: nat :: Count(b[..i + 1], n) == Count(b[..i], n) + (if b[i] == n then 1 else 0)
  {
    forall n: nat
      ensures Count(b[..i + 1], n) == Count(b[..i], n) + (if b[i] == n then 1 else 0)
    {
      CountStep(b, i, n);
    }
  }

  lemma SkipStep(b: seq<nat>, c: seq<nat>, v: seq<nat>, i: nat)
    requires i < |b| && |c| == BMAX + 1 && forall s :: 0 <= s < |b| ==> b[s] <= BMAX
    requires Sorted(b, c, v, i) && b[i] == 0
    ensures Sorted(b, c, v, i + 1)
  {
  }

  lemma SortStep(b: seq<nat>, c: seq<nat>, v: seq<nat>, i: nat)
    requires i < |b| && forall s :: 0 <= s < |b| ==> b[s] <= BMAX
    requires c == Counts(b) && |v| == |b| && Sorted(b, c, v, i) && b[i] > 0
    ensures var p := Offset(c, b[i]) + Rank(b, i);
      p < |v| && Sorted(b, c, v[p := i], i + 1)
  {
    hide Offset, Rank, Count;
    var p := Offset(c, b[i]) + Rank(b, i);
    RankBound(b, i);
    OffsetMono(c, b[i], BMAX + 1);
    CountsAddUp(b);
    var v' := v[p := i];
    forall s | 0 <= s < i + 1 && b[s] > 0
      ensures Offset(c, b[s]) + Rank(b, s) < |v'| && v'[Offset(c, b[s]) + Rank(b, s)] == s
    {
      if s < i {
        RankBound(b, s);
        RankFacts(b, s, i);
        OffsetInjective(c, b[s], Rank(b, s), b[i], Rank(b, i));
      }
    }
  }
}
