/** Shifts, masks and bit reversal on natural numbers.  The deflate format packs
    a Huffman code most significant bit first into a stream that is read least
    significant bit first. */
module HuffmanBits {

  /** x shifted up by n bits. */
  function Shl(x: nat, n: nat): nat
    decreases n
  {
    if n == 0 then x else Shl(2 * x, n - 1)
  }

  /** x without its n low bits. */
  function High(x: nat, n: nat): nat {
    if n == 0 then x else High(x / 2, n - 1)
  }

  /** The n low bits of x. */
  function Low(x: nat, n: nat): nat {
    if n == 0 then 0 else x % 2 + 2 * Low(x / 2, n - 1)
  }

  function Pow2(n: nat): nat {
    Shl(1, n)
  }

  function Bit(x: nat, n: nat): nat {
    High(x, n) % 2
  }

  /** The code formed by the first k stream bits: bit 0 of x is its most significant bit. */
  function Rev(k: nat, x: nat): nat {
    if k == 0 then 0 else 2 * Rev(k - 1, x) + Bit(x, k - 1)
  }

  lemma {:induction false} ShlAdd(x: nat, y: nat, n: nat)
    ensures Shl(x + y, n) == Shl(x, n) + Shl(y, n)
    decreases n
  {
    if n > 0 {
      ShlAdd(2 * x, 2 * y, n - 1);
    }
  }

  lemma {:induction false} ShlShl(x: nat, m: nat, n: nat)
    ensures Shl(Shl(x, m), n) == Shl(x, m + n)
    decreases m
  {
    if m > 0 {
      ShlShl(2 * x, m - 1, n);
    }
  }

  lemma ShlDouble(x: nat, n: nat)
    ensures Shl(2 * x, n) == 2 * Shl(x, n) == Shl(x, n + 1)
  {
    ShlAdd(x, x, n);
  }

  lemma ShlMono(x: nat, y: nat, n: nat)
    ensures x <= y ==> Shl(x, n) <= Shl(y, n)
    ensures x < y ==> Shl(x, n) + Pow2(n) <= Shl(y, n)
    ensures Shl(0, n) == 0 && Pow2(n) > 0
  {
    ShlZero(n);
    if x < y {
      ShlAdd(x, 1, n);
      ShlAdd(x + 1, y - x - 1, n);
    }
  }

  lemma {:induction false} ShlZero(n: nat)
    ensures Shl(0, n) == 0 && Pow2(n) > 0
  {
    if n > 0 {
      ShlZero(n - 1);
      ShlDouble(1, n - 1);
    }
  }

  lemma Pow2Mono(m: nat, n: nat)
    requires m <= n
    ensures 0 < Pow2(m) <= Pow2(n)
    ensures m < n ==> 2 * Pow2(m) <= Pow2(n)
  {
    ShlZero(m);
    ShlZero(n - m);
    ShlShl(1, n - m, m);
    ShlMono(1, Pow2(n - m), m);
    if m < n {
      ShlZero(n - m - 1);
      ShlDouble(1, n - m - 1);
      ShlMono(2, Pow2(n - m), m);
      ShlDouble(1, m);
    }
  }

  lemma Pow2Split(m: nat, n: nat)
    requires m <= n
    ensures Shl(Pow2(m), n - m) == Pow2(n)
  {
    ShlShl(1, m, n - m);
  }

  /** Two multiples of 2^n whose blocks share a point are the same. */
  lemma SameBlock(a: nat, b: nat, n: nat, x: nat)
    requires Shl(a, n) <= x < Shl(a + 1, n) && Shl(b, n) <= x < Shl(b + 1, n)
    ensures a == b
  {
    ShlMono(a + 1, b, n);
    ShlMono(b + 1, a, n);
  }

  lemma {:induction false} LowBound(x: nat, n: nat)
    ensures Low(x, n) < Pow2(n)
  {
    if n > 0 {
      LowBound(x / 2, n - 1);
      ShlDouble(1, n - 1);
    }
  }

  lemma {:induction false} LowSmall(x: nat, n: nat)
    requires x < Pow2(n)
    ensures Low(x, n) == x && High(x, n) == 0
  {
    if n > 0 {
      ShlDouble(1, n - 1);
      LowSmall(x / 2, n - 1);
    }
  }

  lemma {:induction false} LowLow(x: nat, m: nat, n: nat)
    requires m <= n
    ensures Low(Low(x, n), m) == Low(x, m)
  {
    if m > 0 {
      LowLow(x / 2, m - 1, n - 1);
    }
  }

  lemma {:induction false} HighHigh(x: nat, m: nat, n: nat)
    ensures High(High(x, m), n) == High(x, m + n)
  {
    if m > 0 {
      HighHigh(x / 2, m - 1, n);
    }
  }

  /** Putting y in front of the low bits p and taking it apart again. */
  lemma {:induction false} Cat(p: nat, y: nat, n: nat)
    requires p < Pow2(n)
    ensures Low(p + Shl(y, n), n) == p
    ensures High(p + Shl(y, n), n) == y
  {
    if n > 0 {
      ShlDouble(1, n - 1);
      ShlDouble(y, n - 1);
      Cat(p / 2, y, n - 1);
      assert (p + Shl(y, n)) / 2 == p / 2 + Shl(y, n - 1);
    }
  }

  lemma {:induction false} SplitLow(x: nat, m: nat, n: nat)
    ensures Low(x, m + n) == Low(x, m) + Shl(Low(High(x, m), n), m)
    ensures Low(x, m) < Pow2(m)
  {
    LowBound(x, m);
    if m > 0 {
      SplitLow(x / 2, m - 1, n);
      ShlDouble(Low(High(x, m), n), m - 1);
    }
  }

  lemma LowHigh(x: nat, m: nat, n: nat)
    ensures High(Low(x, m + n), m) == Low(High(x, m), n)
  {
    SplitLow(x, m, n);
    Cat(Low(x, m), Low(High(x, m), n), m);
  }

  lemma {:induction false} BitOfLow(x: nat, n: nat, j: nat)
    requires j < n
    ensures Bit(Low(x, n), j) == Bit(x, j)
  {
    if j > 0 {
      BitOfLow(x / 2, n - 1, j - 1);
    }
  }

  lemma {:induction false} RevOfLow(k: nat, x: nat, n: nat)
    requires k <= n
    ensures Rev(k, Low(x, n)) == Rev(k, x)
  {
    if k > 0 {
      RevOfLow(k - 1, x, n);
      BitOfLow(x, n, k - 1);
    }
  }

  lemma {:induction false} RevBound(k: nat, x: nat)
    ensures Rev(k, x) < Pow2(k)
  {
    if k > 0 {
      RevBound(k - 1, x);
      ShlDouble(1, k - 1);
    }
  }

  /** The first k bits fix the code up to the bits that follow. */
  lemma {:induction false} RevPrefix(k: nat, n: nat, x: nat)
    requires k <= n
    ensures Shl(Rev(k, x), n - k) <= Rev(n, x) < Shl(Rev(k, x) + 1, n - k)
  {
    if k < n {
      RevPrefix(k, n - 1, x);
      ShlDouble(Rev(k, x), n - 1 - k);
      ShlDouble(Rev(k, x) + 1, n - 1 - k);
    }
  }

  lemma {:induction false} LowSnoc(x: nat, n: nat)
    ensures Low(x, n + 1) == Low(x, n) + Shl(Bit(x, n), n)
  {
    if n > 0 {
      LowSnoc(x / 2, n - 1);
      ShlDouble(Bit(x, n), n - 1);
    }
  }

  lemma {:induction false} RevInjective(k: nat, x: nat, y: nat)
    requires Rev(k, x) == Rev(k, y)
    ensures Low(x, k) == Low(y, k)
  {
    if k > 0 {
      RevInjective(k - 1, x, y);
      LowSnoc(x, k - 1);
      LowSnoc(y, k - 1);
    }
  }

  /** Zero bits above position k only shift the code. */
  lemma {:induction false} RevSmall(k: nat, n: nat, x: nat)
    requires k <= n && x < Pow2(k)
    ensures Rev(n, x) == Shl(Rev(k, x), n - k)
  {
    if k < n {
      RevSmall(k, n - 1, x);
      Pow2Mono(k, n - 1);
      LowSmall(x, n - 1);
      ShlDouble(Rev(k, x), n - 1 - k);
    }
  }

  /** A code that is a multiple of 2^(n-k) has only zero bits above position k. */
  lemma RevMultiple(k: nat, n: nat, x: nat, c: nat)
    requires k <= n && x < Pow2(n) && Rev(n, x) == Shl(c, n - k)
    ensures x < Pow2(k) && c == Rev(k, x)
  {
    RevPrefix(k, n, x);
    ShlMono(c, c + 1, n - k);
    SameBlock(c, Rev(k, x), n - k, Rev(n, x));
    var y := Low(x, k);
    LowBound(x, k);
    RevSmall(k, n, y);
    RevOfLow(k, x, k);
    RevInjective(n, x, y);
    Pow2Mono(k, n);
    LowSmall(x, n);
    LowSmall(y, n);
  }

  /** The step of the code generator in reversed bits: clear ones from bit k-1
      downwards, then set the first zero. */
  function Successor(k: nat, i: nat): nat {
    if k == 0 then 0
    else if Bit(i, k - 1) == 0 then i + Pow2(k - 1)
    else Successor(k - 1, Low(i, k - 1))
  }

  lemma {:induction false} SuccessorIsNextCode(k: nat, i: nat)
    requires i < Pow2(k)
    ensures Rev(k, i) + 1 < Pow2(k) ==> Successor(k, i) < Pow2(k) && Rev(k, Successor(k, i)) == Rev(k, i) + 1
    ensures Rev(k, i) + 1 == Pow2(k) ==> Successor(k, i) == 0
    ensures Rev(k, i) < Pow2(k)
  {
    RevBound(k, i);
    if k > 0 {
      hide Rev, Low, High, Shl;
      if Bit(i, k - 1) == 0 {
        SetTopBit(k - 1, i);
        TopBitClear(k, i);
      } else {
        var y := Low(i, k - 1);
        LowBound(i, k - 1);
        SuccessorIsNextCode(k - 1, y);
        TopBitSet(k, i, Successor(k - 1, y));
      }
    } else {
      assert Rev(0, i) == 0 && Pow2(0) == 1;
    }
  }

  lemma TopBitClear(k: nat, i: nat)
    requires k > 0 && i < Pow2(k - 1) && Bit(i, k - 1) == 0
    ensures i + Pow2(k - 1) < Pow2(k) && Rev(k, i) + 1 < Pow2(k)
  {
    ShlDouble(1, k - 1);
    RevBound(k - 1, i);
    hide Low, High, Shl;
    assert Rev(k, i) == 2 * Rev(k - 1, i) + Bit(i, k - 1);
  }

  /** What clearing the top bit and going on with z does to the code. */
  lemma TopBitSet(k: nat, i: nat, z: nat)
    requires k > 0 && Bit(i, k - 1) != 0
    ensures Pow2(k) == 2 * Pow2(k - 1) && Rev(k, i) == 2 * Rev(k - 1, Low(i, k - 1)) + 1
    ensures z < Pow2(k - 1) ==> Rev(k, z) == 2 * Rev(k - 1, z)
  {
    ShlDouble(1, k - 1);
    RevOfLow(k - 1, i, k - 1);
    if z < Pow2(k - 1) {
      LowSmall(z, k - 1);
    }
    hide Low, High, Shl;
    assert Rev(k, i) == 2 * Rev(k - 1, i) + Bit(i, k - 1);
    assert Rev(k, z) == 2 * Rev(k - 1, z) + Bit(z, k - 1);
  }

  lemma SetTopBit(k: nat, i: nat)
    requires i < Pow2(k + 1) && Bit(i, k) == 0
    ensures i < Pow2(k) && Rev(k + 1, i + Pow2(k)) == Rev(k + 1, i) + 1
  {
    LowSnoc(i, k);
    LowSmall(i, k + 1);
    ShlZero(k);
    LowBound(i, k);
    Cat(i, 1, k);
    RevOfLow(k, i + Pow2(k), k);
  }
}
