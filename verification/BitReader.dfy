/** The bit cursor of lib/inflate.c: NEEDBITS and DUMPBITS on a bit buffer that
    is filled from the input a byte at a time. */
module BitReader {
  import opened HuffmanBits
  import opened Bytes

  /** The number whose bits, from bit 0 up, are the bits of the bytes in turn. */
  function LittleEndian(s: seq<Byte>): nat {
    if s == [] then 0 else s[0] + 256 * LittleEndian(s[1..])
  }

  lemma ShlByte(x: nat)
    ensures Shl(x, 8) == 256 * x
  {
    ShlDouble(x, 7);
    ShlDouble(x, 6);
    ShlDouble(x, 5);
    ShlDouble(x, 4);
    ShlDouble(x, 3);
    ShlDouble(x, 2);
    ShlDouble(x, 1);
    ShlDouble(x, 0);
  }

  /** One more byte in the buffer. */
  lemma Refill(b: nat, k: nat, c: Byte, rest: nat)
    requires b < Pow2(k)
    ensures b + Shl(c, k) < Pow2(k + 8)
    ensures (b + Shl(c, k)) + Shl(rest, k + 8) == b + Shl(c + 256 * rest, k)
  {
    hide Shl, Pow2;
    ShlAdd(c, 256 * rest, k);
    ShlByte(rest);
    ShlShl(rest, 8, k);
    FullByte(k);
    ShlMono(c, 256, k);
  }

  lemma FullByte(k: nat)
    ensures Shl(256, k) == Pow2(k + 8)
  {
    ShlByte(1);
    ShlShl(1, 8, k);
  }

  /** The k bits before byte `pos` are in the buffer b, and nothing else is. */
  ghost predicate Buffered(input: seq<Byte>, pos: nat, b: nat, k: nat) {
    && pos <= |input| && b < Pow2(k) && k <= 8 * pos
    && b + Shl(LittleEndian(input[pos..]), k) == High(LittleEndian(input), 8 * pos - k)
  }

  lemma FillByte(input: seq<Byte>, pos: nat, b: nat, k: nat)
    requires Buffered(input, pos, b, k) && pos < |input|
    ensures Buffered(input, pos + 1, b + Shl(input[pos], k), k + 8)
  {
    hide Shl, Pow2, High;
    Refill(b, k, input[pos], LittleEndian(input[pos + 1..]));
    assert input[pos..][1..] == input[pos + 1..];
  }

  lemma LowOfBuffer(input: seq<Byte>, pos: nat, b: nat, k: nat, n: nat)
    requires Buffered(input, pos, b, k) && n <= k
    ensures Low(b, n) == Low(High(LittleEndian(input), 8 * pos - k), n)
  {
    hide Shl, Low, High, LittleEndian;
    Cat(b, LittleEndian(input[pos..]), k);
    LowLow(High(LittleEndian(input), 8 * pos - k), n, k);
  }

  lemma DumpedBuffer(input: seq<Byte>, pos: nat, b: nat, k: nat, n: nat)
    requires Buffered(input, pos, b, k) && n <= k
    ensures Buffered(input, pos, High(b, n), k - n)
  {
    hide Shl, Pow2, High, LittleEndian;
    Dumped(b, LittleEndian(input[pos..]), k, n);
    HighHigh(LittleEndian(input), 8 * pos - k, n);
  }

  class Reader {
    const input: seq<Byte>
    var pos: nat
    var b: nat
    var k: nat

    ghost predicate Valid()
      reads this
    {
      Buffered(input, pos, b, k)
    }

    /** All the bits of the input. */
    ghost function Bits(): nat {
      LittleEndian(input)
    }

    /** Their number. */
    ghost function Size(): nat {
      8 * |input|
    }

    /** The number of bits used up. */
    ghost function At(): (n: nat)
      requires Valid()
      ensures n <= Size()
      reads this
    {
      8 * pos - k
    }

    constructor (bytes: seq<Byte>)
      ensures Valid() && input == bytes && At() == 0
    {
      input, pos, b, k := bytes, 0, 0, 0;
      new;
      assert bytes[0..] == bytes;
    }

    /** NEEDBITS(n): succeeds exactly when n bits are left, and uses up none. */
    method NeedBits(n: nat) returns (ok: bool)
      requires Valid()
      modifies this
      ensures Valid() && At() == old(At())
      ensures ok <==> At() + n <= Size()
      ensures ok ==> n <= k && k <= if old(k) < n then n + 7 else old(k)
    {
      hide Buffered;
      InInput();
      while k < n && pos < |input|
        invariant Valid() && pos <= |input| && k <= 8 * pos && 8 * pos - k == old(8 * pos - k)
        invariant k == old(k) || k <= n + 7
        decreases |input| - pos
      {
        FillByte(input, pos, b, k);
        b := b + Shl(input[pos], k);
        k := k + 8;
        pos := pos + 1;
        InInput();
      }
      ok := k >= n;
    }

    lemma InInput()
      requires Valid()
      ensures pos <= |input| && k <= 8 * pos
    {
    }

    /** The next n bits. */
    method Peek(n: nat) returns (x: nat)
      requires Valid() && n <= k
      ensures x == Low(High(Bits(), At()), n) < Pow2(n)
    {
      x := Low(b, n);
      LowBound(b, n);
      LowOfBuffer(input, pos, b, k, n);
    }

    /** DUMPBITS(n) */
    method DumpBits(n: nat)
      requires Valid() && n <= k
      modifies this
      ensures Valid() && At() == old(At()) + n
      ensures pos == old(pos)
    {
      DumpedBuffer(input, pos, b, k, n);
      hide High, Buffered;
      InInput();
      b := High(b, n);
      k := k - n;
    }

    /** The next n bits, which are used up. */
    method TakeBits(n: nat) returns (ok: bool, x: nat)
      requires Valid()
      modifies this
      ensures Valid()
      ensures ok <==> old(At()) + n <= Size()
      ensures ok ==> x == Low(High(Bits(), old(At())), n) < Pow2(n)
      ensures At() == old(At()) + if ok then n else 0
    {
      hide Low, High, Buffered;
      x := 0;
      ok := NeedBits(n);
      if ok {
        x := Peek(n);
        DumpBits(n);
      }
    }

    /** The bits up to the next byte boundary are dropped. */
    method SkipToByte()
      requires Valid()
      modifies this
      ensures Valid() && At() == ToByte(old(At()))
    {
      hide Buffered, ToByte;
      InInput();
      Boundary(pos, k);
      DumpBits(k % 8);
    }

    /** Whole bytes in the buffer are given back to the input. */
    method Unread()
      requires Valid()
      modifies this
      ensures 8 * pos == ToByte(old(At()))
    {
      hide Buffered, ToByte;
      InInput();
      ghost var at := At();
      while k >= 8
        invariant k <= 8 * pos && 8 * pos - k == at
      {
        k := k - 8;
        pos := pos - 1;
      }
      LastByte(pos, k, at);
    }
  }

  lemma Boundary(pos: nat, k: nat)
    requires k <= 8 * pos
    ensures 8 * pos - k + k % 8 == ToByte(8 * pos - k)
  {
  }

  lemma LastByte(pos: nat, k: nat, at: nat)
    requires k < 8 && 8 * pos - k == at
    ensures 8 * pos == ToByte(at)
  {
  }

  /** The next byte boundary. */
  function ToByte(at: nat): (n: nat)
    ensures n % 8 == 0 && at <= n < at + 8
  {
    (at + 7) / 8 * 8
  }

  lemma {:induction false} Dumped(b: nat, rest: nat, k: nat, n: nat)
    requires b < Pow2(k) && n <= k
    ensures High(b, n) < Pow2(k - n)
    ensures High(b + Shl(rest, k), n) == High(b, n) + Shl(rest, k - n)
    decreases n
  {
    if n > 0 {
      ShlDouble(1, k - 1);
      ShlDouble(rest, k - 1);
      Dumped(b / 2, rest, k - 1, n - 1);
      assert (b + Shl(rest, k)) / 2 == b / 2 + Shl(rest, k - 1);
    }
  }
}
