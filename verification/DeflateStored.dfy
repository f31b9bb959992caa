/** The plainest compressed form: the data in stored blocks.  It shows that every
    string of bytes has a compressed form, and that inflate gives it back. */
module DeflateStored {
  import opened HuffmanBits
  import opened HuftWhole
  import opened Bytes
  import opened BitReader
  import opened InflateWindow
  import opened Chains
  import opened DeflateFormat
  import opened InflateCodes
  import opened Inflate

  const LIMIT := 0xffff

  /** The header of a stored block that starts at a byte: the bits and the padding,
      the length, and its complement. */
  function Head(last: bool, len: nat): (h: seq<Byte>)
    requires len <= LIMIT
    ensures |h| == 5
  {
    var not := LIMIT - len;
    [if last then 1 else 0, len % 256, len / 256, not % 256, not / 256]
  }

  /** The data in blocks of at most 65535 bytes. */
  function Packed(data: seq<Byte>): seq<Byte>
    decreases |data|
  {
    if |data| <= LIMIT then Head(true, |data|) + data
    else Head(false, LIMIT) + data[..LIMIT] + Packed(data[LIMIT..])
  }

  function Chunks(data: seq<Byte>): (bs: seq<Block>)
    ensures bs != []
    decreases |data|
  {
    if |data| <= LIMIT then [Block(true, Stored(data))]
    else [Block(false, Stored(data[..LIMIT]))] + Chunks(data[LIMIT..])
  }

  // ----- bits of bytes

  lemma FirstByte(s: seq<Byte>)
    requires s != []
    ensures Low(LittleEndian(s), 8) == s[0] && High(LittleEndian(s), 8) == LittleEndian(s[1..])
  {
    var rest := LittleEndian(s[1..]);
    ShlByte(rest);
    ShlByte(1);
    hide Low, High, Shl;
    Cat(s[0], rest, 8);
  }

  lemma {:induction false} SkipBytes(s: seq<Byte>, i: nat)
    requires i <= |s|
    ensures High(LittleEndian(s), 8 * i) == LittleEndian(s[i..])
  {
    hide Low, High, LittleEndian;
    if i == 0 {
      assert s[0..] == s;
      FirstBit(LittleEndian(s), 0);
    } else {
      FirstByte(s);
      SkipBytes(s[1..], i - 1);
      assert s[1..][i - 1..] == s[i..];
      HighHigh(LittleEndian(s), 8, 8 * (i - 1));
    }
  }

  lemma ByteAt(s: seq<Byte>, i: nat)
    requires i < |s|
    ensures Low(High(LittleEndian(s), 8 * i), 8) == s[i]
  {
    hide Low, High, LittleEndian;
    SkipBytes(s, i);
    FirstByte(s[i..]);
  }

  lemma PairAt(s: seq<Byte>, i: nat)
    requires i + 1 < |s|
    ensures Low(High(LittleEndian(s), 8 * i), 16) == (s[i] as nat) + 256 * (s[i + 1] as nat)
  {
    hide Low, High, Shl, LittleEndian;
    var x := High(LittleEndian(s), 8 * i);
    SplitLow(x, 8, 8);
    HighHigh(LittleEndian(s), 8 * i, 8);
    ByteAt(s, i);
    ByteAt(s, i + 1);
    ShlByte(s[i + 1]);
  }

  lemma DataIs(s: seq<Byte>, i: nat, n: nat)
    requires i + n <= |s|
    ensures DataBytes(LittleEndian(s), 8 * i, n) == s[i..i + n]
  {
    hide Low, High, LittleEndian;
    forall j: nat | j < n
      ensures DataByte(LittleEndian(s), 8 * i, j) == s[i + j]
    {
      ByteAt(s, i + j);
      assert 8 * i + 8 * j == 8 * (i + j);
    }
  }

  lemma ThreeBitsOf(h: nat, rest: nat)
    requires h <= 1
    ensures Low(h + 256 * rest, 1) == h && Low(High(h + 256 * rest, 1), 2) == 0
  {
    var x := h + 256 * rest;
    var y := 128 * rest;
    assert x / 2 == y && x % 2 == h && y / 2 == 64 * rest && y % 2 == 0 && 64 * rest % 2 == 0;
    assert High(x, 1) == High(x / 2, 0) == y;
    assert Low(x, 1) == x % 2 + 2 * Low(x / 2, 0);
    assert Low(y, 2) == y % 2 + 2 * Low(y / 2, 1);
    assert Low(64 * rest, 1) == 64 * rest % 2 + 2 * Low(32 * rest, 0);
  }

  /** The first three bits of the header. */
  lemma HeadBits(s: seq<Byte>, i: nat)
    requires i < |s| && s[i] <= 1
    ensures Low(High(LittleEndian(s), 8 * i), 1) == s[i] && BlockType(LittleEndian(s), 8 * i) == 0
  {
    hide Low, High;
    SkipBytes(s, i);
    HighHigh(LittleEndian(s), 8 * i, 1);
    ThreeBitsOf(s[i], LittleEndian(s[i..][1..]));
  }

  lemma LengthFields(s: seq<Byte>, i: nat, last: bool, len: nat)
    requires len <= LIMIT && i + 5 <= |s| && s[i..i + 5] == Head(last, len)
    ensures s[i] == if last then 1 else 0
    ensures s[i + 1] + 256 * (s[i + 2] as nat) == len && s[i + 3] + 256 * (s[i + 4] as nat) == LIMIT - len
  {
    var h := s[i..i + 5];
    assert h[0] == s[i] && h[1] == s[i + 1] && h[2] == s[i + 2] && h[3] == s[i + 3] && h[4] == s[i + 4];
  }

  lemma BlockThere(s: seq<Byte>, i: nat, last: bool, data: seq<Byte>)
    requires |data| <= LIMIT && i + 5 + |data| <= |s|
    requires s[i..i + 5] == Head(last, |data|) && s[i + 5..i + 5 + |data|] == data
    ensures BlockAt(LittleEndian(s), 8 * i, Block(last, Stored(data)), 8 * (i + 5 + |data|))
  {
    hide Low, High, LittleEndian, BlockType, Head, StoredAt, CodedAt, OwnCodesAt;
    LengthFields(s, i, last, |data|);
    HeadBits(s, i);
    StoredThere(s, i, last, data);
  }

  lemma StoredThere(s: seq<Byte>, i: nat, last: bool, data: seq<Byte>)
    requires |data| <= LIMIT && i + 5 + |data| <= |s|
    requires s[i..i + 5] == Head(last, |data|) && s[i + 5..i + 5 + |data|] == data
    ensures StoredAt(LittleEndian(s), 8 * i + 3, Stored(data), 8 * (i + 5 + |data|))
  {
    hide Low, High, LittleEndian, Head, DataBytes, ToByte;
    LengthFields(s, i, last, |data|);
    PairAt(s, i + 1);
    PairAt(s, i + 3);
    DataIs(s, i + 5, |data|);
    NextByte(i);
  }

  lemma NextByte(i: nat)
    ensures ToByte(8 * i + 3) == 8 * (i + 1) && 8 * (i + 1) + 16 == 8 * (i + 3) && 8 * (i + 1) + 32 == 8 * (i + 5)
  {
  }

  // ----- the blocks of the packed form

  /** The packed form starts with the header and the data of the first block. */
  lemma FirstChunk(pre: seq<Byte>, data: seq<Byte>, tail: seq<Byte>)
    ensures var s := pre + Packed(data) + tail;
      var first := if |data| <= LIMIT then data else data[..LIMIT];
      var i := |pre|;
      && i + 5 + |first| <= |s| && |first| <= LIMIT
      && s[i..i + 5] == Head(|data| <= LIMIT, |first|) && s[i + 5..i + 5 + |first|] == first
  {
    hide Head;
    var first := if |data| <= LIMIT then data else data[..LIMIT];
    var head := Head(|data| <= LIMIT, |first|);
    var more := if |data| <= LIMIT then [] else Packed(data[LIMIT..]);
    assert Packed(data) == head + first + more;
    Slices(pre, head, first, more + tail);
    assert pre + (head + first + more) + tail == pre + head + first + (more + tail);
  }

  lemma Slices(a: seq<Byte>, b: seq<Byte>, c: seq<Byte>, d: seq<Byte>)
    ensures var s := a + b + c + d;
      s[|a|..|a| + |b|] == b && s[|a| + |b|..|a| + |b| + |c|] == c
  {
  }

  /** Behind the first block comes the packed form of the rest. */
  lemma NextChunk(pre: seq<Byte>, data: seq<Byte>, tail: seq<Byte>)
    requires |data| > LIMIT
    ensures var more, rest := pre + Head(false, LIMIT) + data[..LIMIT], Packed(data[LIMIT..]);
      && pre + Packed(data) + tail == more + rest + tail
      && |more| == |pre| + 5 + LIMIT && |Packed(data)| == 5 + LIMIT + |rest|
  {
    hide Head, Packed;
    PackedMore(data);
    Regroup(pre, Head(false, LIMIT), data[..LIMIT], Packed(data[LIMIT..]), tail);
  }

  lemma PackedMore(data: seq<Byte>)
    requires |data| > LIMIT
    ensures Packed(data) == Head(false, LIMIT) + data[..LIMIT] + Packed(data[LIMIT..])
  {
    hide Head;
  }

  lemma Regroup(a: seq<Byte>, b: seq<Byte>, c: seq<Byte>, d: seq<Byte>, e: seq<Byte>)
    ensures a + (b + c + d) + e == a + b + c + d + e
  {
    assert a + (b + c + d) == a + b + c + d;
  }

  lemma {:induction false} PackedChain(pre: seq<Byte>, data: seq<Byte>, tail: seq<Byte>)
    ensures Chain(Blocks(LittleEndian(pre + Packed(data) + tail)), 8 * |pre|, Chunks(data),
      8 * (|pre| + |Packed(data)|))
    decreases |data|
  {
    hide BlockAt, LittleEndian, Head, Packed, Chain;
    var s := pre + Packed(data) + tail;
    var first := if |data| <= LIMIT then data else data[..LIMIT];
    var last := |data| <= LIMIT;
    var i := |pre|;
    FirstChunk(pre, data, tail);
    BlockThere(s, i, last, first);
    var step := Blocks(LittleEndian(s));
    var m := 8 * (i + 5 + |first|);
    ChainOne(step, 8 * i, Block(last, Stored(first)), m);
    if last {
      LastSize(data);
    } else {
      NextChunk(pre, data, tail);
      PackedChain(pre + Head(false, LIMIT) + first, data[LIMIT..], tail);
      ChainJoin(step, 8 * i, [Block(last, Stored(first))], m, Chunks(data[LIMIT..]), 8 * (i + |Packed(data)|));
    }
  }

  lemma LastSize(data: seq<Byte>)
    requires |data| <= LIMIT
    ensures |Packed(data)| == 5 + |data|
  {
    hide Head;
  }

  lemma ChainOne<T(!new)>(step: Step<T>, a: nat, x: T, b: nat)
    requires step(a, x, b)
    ensures Chain(step, a, [x], b)
  {
    ChainMore(step, a, [], a, x, b);
    assert [] + [x] == [x];
  }

  lemma {:induction false} ChainJoin<T(!new)>(step: Step<T>, a: nat, xs: seq<T>, m: nat, ys: seq<T>, b: nat)
    requires Chain(step, a, xs, m) && Chain(step, m, ys, b)
    ensures Chain(step, a, xs + ys, b)
    decreases |ys|
  {
    if ys == [] {
      assert xs + ys == xs;
    } else {
      var n: nat :| ChainTo(step, m, ys, n, b);
      ChainJoin(step, a, xs, m, ys[..|ys| - 1], n);
      ChainMore(step, a, xs + ys[..|ys| - 1], n, ys[|ys| - 1], b);
      assert xs + ys == xs + ys[..|ys| - 1] + [ys[|ys| - 1]];
    }
  }

  lemma {:induction false} ChunksEnd(data: seq<Byte>)
    ensures Ended(Chunks(data)) && forall i :: 0 <= i < |Chunks(data)| ==> Chunks(data)[i].body.Stored?
    decreases |data|
  {
    if |data| > LIMIT {
      ChunksEnd(data[LIMIT..]);
    }
  }

  /** The data of stored blocks, one after the other. */
  function Joined(bs: seq<Block>): seq<Byte>
    requires forall i :: 0 <= i < |bs| ==> bs[i].body.Stored?
  {
    if bs == [] then [] else Joined(bs[..|bs| - 1]) + bs[|bs| - 1].body.data
  }

  lemma {:induction false} JoinedFront(b: Block, bs: seq<Block>)
    requires b.body.Stored? && forall i :: 0 <= i < |bs| ==> bs[i].body.Stored?
    ensures Joined([b] + bs) == b.body.data + Joined(bs)
    decreases |bs|
  {
    var all := [b] + bs;
    if bs == [] {
      assert all[..|all| - 1] == [] && all[|all| - 1] == b;
    } else {
      var front, last := bs[..|bs| - 1], bs[|bs| - 1].body.data;
      assert all[..|all| - 1] == [b] + front && all[|all| - 1] == bs[|bs| - 1];
      JoinedFront(b, front);
      assert (b.body.data + Joined(front)) + last == b.body.data + (Joined(front) + last);
    }
  }

  lemma {:induction false} JoinedIsOriginal(bs: seq<Block>)
    requires forall i :: 0 <= i < |bs| ==> bs[i].body.Stored?
    ensures BlocksWithin(bs) && Original(bs) == Joined(bs)
  {
    if bs != [] {
      JoinedIsOriginal(bs[..|bs| - 1]);
    }
  }

  lemma {:induction false} ChunksJoined(data: seq<Byte>)
    requires forall i :: 0 <= i < |Chunks(data)| ==> Chunks(data)[i].body.Stored?
    ensures Joined(Chunks(data)) == data
    decreases |data|
  {
    if |data| > LIMIT {
      var rest := data[LIMIT..];
      ChunksEnd(rest);
      ChunksJoined(rest);
      JoinedFront(Block(false, Stored(data[..LIMIT])), Chunks(rest));
      assert data == data[..LIMIT] + rest;
    } else {
      var b := Block(true, Stored(data));
      JoinedFront(b, []);
      assert [b] + [] == [b];
    }
  }

  /** Every string of bytes has a compressed form whose original it is. */
  lemma PackedIsCompressed(data: seq<Byte>, tail: seq<Byte>)
    ensures Compressed(LittleEndian(Packed(data) + tail), Chunks(data), 8 * |Packed(data)|)
    ensures BlocksWithin(Chunks(data)) && Original(Chunks(data)) == data
  {
    hide Chain, Original, BlocksWithin, LittleEndian;
    PackedChain([], data, tail);
    assert [] + Packed(data) + tail == Packed(data) + tail;
    ChunksEnd(data);
    JoinedIsOriginal(Chunks(data));
    ChunksJoined(data);
  }

  /** inflate gives back what was packed, whatever follows and whatever was in the window. */
  method RoundTrip(data: seq<Byte>, tail: seq<Byte>, area: array<Byte>, budget: nat) returns (out: seq<Byte>, used: nat)
    requires |tail| >= 8 && area.Length == WSIZE && budget > ENOUGH_TABLES
    modifies area
    ensures out == data && used == |Packed(data)|
  {
    hide Compressed, Original, BlocksWithin, LittleEndian, Packed;
    PackedIsCompressed(data, tail);
    var st;
    ghost var blocks, end;
    st, out, used, blocks, end := Decompress(Packed(data) + tail, area, budget);
  }
}
