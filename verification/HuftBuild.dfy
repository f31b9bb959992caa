/** huft_build of lib/inflate.c: the loops that fill the decoding tables. */
module HuftBuild {
  import opened HuffmanBits
  import opened HuffmanSpec
  import opened HuftTables

  lemma {:induction false} LowUnique(a: nat, b: nat, d: nat)
    requires Low(a, d) == Low(b, d) && a <= b < a + Pow2(d)
    ensures a == b
    decreases d
  {
    if d > 0 {
      ShlDouble(1, d - 1);
      LowUnique(a / 2, b / 2, d - 1);
    }
  }

  lemma {:induction false} LowPeriod(a: nat, d: nat)
    ensures Low(a + Pow2(d), d) == Low(a, d)
    decreases d
  {
    if d > 0 {
      ShlDouble(1, d - 1);
      LowPeriod(a / 2, d - 1);
      assert (a + Pow2(d)) / 2 == a / 2 + Pow2(d - 1);
    }
  }

  /** The entry goes to every place whose low bits are those of the code. */
  method FillTable(table: seq<Huft>, start: nat, d: nat, ent: Huft) returns (after: seq<Huft>)
    requires start < Pow2(d)
    ensures Overwritten(table, after, d, start, ent)
  {
    hide Shl, Low;
    var f := Pow2(d);
    var j := start;
    after := table;
    LowSmall(start, d);
    LowUniqueBelow(start, d);
    while j < |table|
      invariant Low(j, d) == start && |after| == |table|
      invariant forall x :: 0 <= x < |table| && x < j ==> after[x] == if Low(x, d) == start then ent else table[x]
      invariant forall x :: j <= x < |table| ==> after[x] == table[x]
    {
      ShlZero(d);
      LowPeriod(j, d);
      forall x | j < x < j + f
        ensures Low(x, d) != start
      {
        if Low(x, d) == start {
          LowUnique(j, x, d);
        }
      }
      after := after[j := ent];
      j := j + f;
    }
  }

  lemma LowUniqueBelow(start: nat, d: nat)
    requires start < Pow2(d)
    ensures forall x :: 0 <= x < start ==> Low(x, d) != start
  {
    forall x | 0 <= x < start
      ensures Low(x, d) != start
    {
      LowSmall(x, d);
    }
  }

  /** From the top bit down, bits that are set are cleared, and the first that is not is set. */
  method BackwardsIncrement(k: nat, i0: nat) returns (i: nat)
    requires i0 < Pow2(k)
    ensures i == Successor(k, i0)
  {
    i := i0;
    var n: nat := k;
    while n > 0 && Bit(i, n - 1) == 1
      invariant n <= k && i < Pow2(n) && Successor(n, i) == Successor(k, i0)
    {
      LowSnoc(i, n - 1);
      LowSmall(i, n);
      LowBound(i, n - 1);
      i := i - Pow2(n - 1);
      n := n - 1;
    }
    if n > 0 {
      i := i + Pow2(n - 1);
    } else {
      assert Pow2(0) == 1;
    }
  }

  /** The streams from `lo` on that a table w bits deep would hold, when its
      first code is the r-th code of length k. */
  ghost predicate Opens(cx: Code, k: nat, r: nat, w: nat, q: nat)
    requires CodeOk(cx)
  {
    w < k <= cx.g && r < cx.c[k] && Start(cx.c, cx.g, k, r) == Shl(q, cx.g - w) && Shl(q + 1, cx.g - w) <= Pow2(cx.g)
  }

  /** A table w bits deep whose codes are all at least l bits longer than w, some
      of them more. */
  ghost predicate CrowdedAt(cx: Code, k: nat, w: nat, q: nat)
    requires CodeOk(cx) && w <= cx.g
  {
    w + cx.l <= k && w + cx.l <= cx.g && End(cx.c, cx.g, w + cx.l) < Shl(q + 1, cx.g - w)
  }

  /** After the codes of length n, f patterns of n bits are left before hi. */
  ghost predicate Gap(cx: Code, n: nat, f: nat, hi: nat)
    requires CodeOk(cx) && n <= cx.g
  {
    f > 0 && End(cx.c, cx.g, n) + Shl(f, cx.g - n) == hi && End(cx.c, cx.g, n) < hi
  }

  /** The patterns of a table of which a + 1 codes of length k are still to come. */
  lemma OpenSpan(cx: Code, k: nat, a: nat, w: nat, r: nat, q: nat)
    requires CodeOk(cx) && Opens(cx, k, r, w, q) && r + a + 1 == cx.c[k]
    ensures var s := Start(cx.c, cx.g, k, r);
      && Shl(q + 1, cx.g - w) == s + Shl(Pow2(k - w), cx.g - k) && End(cx.c, cx.g, k) == s + Shl(a + 1, cx.g - k)
      && End(cx.c, cx.g, k - 1) <= s
  {
    hide Shl;
    ShlAdd(q, 1, cx.g - w);
    ShlShl(1, k - w, cx.g - k);
    ShlAdd(r, a + 1, cx.g - k);
  }

  lemma PickStart(cx: Code, k: nat, a: nat, w: nat, r: nat, q: nat)
    requires CodeOk(cx) && Opens(cx, k, r, w, q) && r + a + 1 == cx.c[k]
    ensures var hi := Shl(q + 1, cx.g - w); var f := Pow2(k - w);
      && (f > a + 1 ==> Gap(cx, k, f - (a + 1), hi))
      && (f <= a + 1 ==> End(cx.c, cx.g, k) >= hi)
      && End(cx.c, cx.g, k - 1) < hi
  {
    hide Shl, End, Start, Pow2, Opens, CodeOk;
    OpenSpan(cx, k, a, w, r, q);
    OpenBounds(cx, k, r, w, q);
    var g, f := cx.g, Pow2(k - w);
    ShlZero(k - w);
    ShlMono(0, f, g - k);
    if f > a + 1 {
      ShlAdd(f - (a + 1), a + 1, g - k);
      ShlMono(0, f - (a + 1), g - k);
    } else {
      ShlMono(f, a + 1, g - k);
    }
  }

  lemma OpenBounds(cx: Code, k: nat, r: nat, w: nat, q: nat)
    requires CodeOk(cx) && Opens(cx, k, r, w, q)
    ensures w < k <= cx.g <= BMAX && |cx.c| == BMAX + 1 && r < cx.c[k]
    ensures End(cx.c, cx.g, cx.g) >= Shl(q + 1, cx.g - w)
  {
    hide Shl, End, Start;
  }

  lemma EndBefore(cx: Code, n: nat, k: nat, hi: nat)
    requires CodeOk(cx) && n < k <= cx.g && End(cx.c, cx.g, k - 1) < hi
    ensures End(cx.c, cx.g, n) < hi
  {
    EndMono(cx.c, cx.g, n, k - 1);
  }

  lemma PickMore(cx: Code, n: nat, f: nat, hi: nat)
    requires CodeOk(cx) && 1 <= n <= cx.g && Gap(cx, n - 1, f, hi)
    ensures 2 * f <= cx.c[n] ==> End(cx.c, cx.g, n) >= hi
    ensures 2 * f > cx.c[n] ==> Gap(cx, n, 2 * f - cx.c[n], hi)
  {
    ShlDouble(f, cx.g - n);
    if 2 * f <= cx.c[n] {
      ShlMono(2 * f, cx.c[n], cx.g - n);
    } else {
      ShlAdd(2 * f - cx.c[n], cx.c[n], cx.g - n);
      ShlMono(0, 2 * f - cx.c[n], cx.g - n);
    }
  }

  /** Whether the table is crowded, by where the codes of length k end. */
  lemma CrowdedOrNot(cx: Code, k: nat, w: nat, q: nat)
    requires CodeOk(cx) && w < k <= cx.g && End(cx.c, cx.g, k - 1) < Shl(q + 1, cx.g - w)
    ensures w + cx.l < k ==> CrowdedAt(cx, k, w, q)
    ensures w + cx.l == k ==> (CrowdedAt(cx, k, w, q) <==> End(cx.c, cx.g, k) < Shl(q + 1, cx.g - w))
    ensures k < w + cx.l ==> !CrowdedAt(cx, k, w, q)
  {
    hide Shl, End;
    if w + cx.l < k {
      EndBefore(cx, w + cx.l, k, Shl(q + 1, cx.g - w));
    }
  }

  /** The number of bits grows from j as long as patterns are left before hi, but not
      beyond z. */
  method GrowBits(cx: Code, w: nat, z: nat, j0: nat, f0: nat, ghost hi: nat) returns (j: nat)
    requires CodeOk(cx) && 0 < j0 && w + j0 <= cx.g && w + z <= cx.g && Gap(cx, w + j0 - 1, f0, hi)
    ensures j == j0 || j0 < j <= z
    ensures j < z ==> End(cx.c, cx.g, w + j) >= hi
  {
    hide Shl, End, CodeOk, Gap;
    CodeFacts(cx);
    j := j0;
    var f: nat := f0;
    while j < z
      invariant 0 < j && (j == j0 || j0 < j <= z) && w + j <= cx.g && Gap(cx, w + j - 1, f, hi)
    {
      PickMore(cx, w + j, f, hi);
      f := 2 * f;
      if f <= cx.c[w + j] {
        return;
      }
      f := f - cx.c[w + j];
      j := j + 1;
    }
  }

  lemma CodeFacts(cx: Code)
    requires CodeOk(cx)
    ensures 1 <= cx.l <= cx.g <= BMAX && |cx.c| == BMAX + 1
  {
  }

  /** The choice of the number of bits of a new table. */
  method PickBits(cx: Code, k: nat, a: nat, w: nat, ghost r: nat, ghost q: nat) returns (j: nat)
    requires CodeOk(cx) && Opens(cx, k, r, w, q) && r + a + 1 == cx.c[k]
    ensures k - w <= j && w + j <= cx.g
    ensures j < cx.l ==> End(cx.c, cx.g, w + j) >= Shl(q + 1, cx.g - w)
    ensures j > cx.l ==> CrowdedAt(cx, k, w, q)
    ensures j <= cx.l ==> !CrowdedAt(cx, k, w, q)
  {
    hide Shl, End, Start, Pow2, Opens, CodeOk, CrowdedAt, Gap;
    CodeFacts(cx);
    OpenBounds(cx, k, r, w, q);
    PickStart(cx, k, a, w, r, q);
    CrowdedOrNot(cx, k, w, q);
    ghost var hi := Shl(q + 1, cx.g - w);
    var z := if cx.g - w > cx.l then cx.l else cx.g - w;
    j := k - w;
    var f: nat := Pow2(j);
    if f <= a + 1 {
      return;
    }
    GapMeans(cx, k, f - (a + 1), hi);
    j := GrowBits(cx, w, z, j + 1, f - (a + 1), hi);
  }

  lemma GapMeans(cx: Code, n: nat, f: nat, hi: nat)
    requires CodeOk(cx) && n <= cx.g && Gap(cx, n, f, hi)
    ensures End(cx.c, cx.g, n) < hi && (n == cx.g ==> End(cx.c, cx.g, cx.g) < hi)
  {
  }
}
