/** The format of a whole compressed stream (sections 3.2.3 to 3.2.7 of RFC 1951):
    blocks, the header of a block with its own codes, and what they expand to. */
module DeflateFormat {
  import opened HuffmanBits
  import opened HuffmanSpec
  import opened Bytes
  import opened BitReader
  import opened InflateWindow
  import opened Chains
  import opened DeflateSpec

  // ----- the header of a block with its own codes

  /** When the length of a code length symbol is given: those for runs come first, then
      zero, and then the lengths by their distance from 8, the greater one first. */
  function Place(sym: nat): (p: nat)
    requires sym < 19
    ensures p < 19
  {
    if sym >= 16 then sym - 16
    else if sym == 0 then 3
    else if sym >= 8 then 4 + 2 * (sym - 8)
    else 3 + 2 * (8 - sym)
  }

  function ThreeBits(s: nat): (x: nat)
    ensures x <= 7
  {
    LowBound(s, 3);
    assert Pow2(3) == 8 by { assert Shl(1, 3) == Shl(2, 2) == Shl(4, 1); }
    Low(s, 3)
  }

  predicate LengthCodeOk(b: seq<nat>) {
    |b| == 19 && forall i :: 0 <= i < 19 ==> b[i] <= 7
  }

  /** The code lengths of the code length alphabet; nb of them are given, the rest are zero. */
  function LengthCode(s: nat, at: nat, nb: nat): (b: seq<nat>)
    ensures LengthCodeOk(b)
  {
    seq(19, i requires 0 <= i < 19 => if Place(i) < nb then ThreeBits(High(s, at + 3 * Place(i))) else 0)
  }

  /** A code length, a run of the length before, or a run of zeros. */
  datatype Item = Length(x: nat) | Again(times: nat) | Zeros(times: nat)

  function Last(l: seq<nat>): nat {
    if l == [] then 0 else l[|l| - 1]
  }

  function Repeat(x: nat, n: nat): (r: seq<nat>)
    ensures |r| == n && forall i :: 0 <= i < n ==> r[i] == x
  {
    seq(n, _ => x)
  }

  /** The lengths after one more item. */
  function Extended(l: seq<nat>, item: Item): seq<nat> {
    match item
    case Length(x) => l + [x]
    case Again(times) => l + Repeat(Last(l), times)
    case Zeros(times) => l + Repeat(0, times)
  }

  function Unrolled(items: seq<Item>): seq<nat> {
    if items == [] then [] else Extended(Unrolled(items[..|items| - 1]), items[|items| - 1])
  }

  /** The bits of s from a up to c spell the item, with the code length code b. */
  ghost predicate ItemAt(s: nat, b: seq<nat>, a: nat, item: Item, c: nat) {
    && LengthCodeOk(b)
    && match item
       case Length(x) => x < 16 && IsPrefix(b, x, High(s, a)) && c == a + b[x]
       case Again(times) => RunAt(s, b, a, 16, 3, 2, times, c)
       case Zeros(times) => RunAt(s, b, a, 17, 3, 3, times, c) || RunAt(s, b, a, 18, 11, 7, times, c)
  }

  /** Symbol `sym` and then so many extra bits, to be added to the least number of repetitions. */
  ghost predicate RunAt(s: nat, b: seq<nat>, a: nat, sym: nat, least: nat, extra: nat, times: nat, c: nat)
    requires LengthCodeOk(b) && sym < 19
  {
    IsPrefix(b, sym, High(s, a)) && times == least + Low(High(s, a + b[sym]), extra) && c == a + b[sym] + extra
  }

  ghost function Items(s: nat, b: seq<nat>): Step<Item> {
    (a: nat, item: Item, c: nat) => ItemAt(s, b, a, item, c)
  }

  lemma ItemOnce(s: nat, b: seq<nat>, a: nat, x: Item, c: nat, y: Item, d: nat)
    requires ItemAt(s, b, a, x, c) && ItemAt(s, b, a, y, d)
    ensures x == y && c == d
  {
    hide High, Low, IsPrefix;
    var i := ItemSymbol(s, b, a, x, c);
    var j := ItemSymbol(s, b, a, y, d);
    OnePrefix(b, i, j, High(s, a));
  }

  lemma ItemSymbol(s: nat, b: seq<nat>, a: nat, x: Item, c: nat) returns (i: nat)
    requires ItemAt(s, b, a, x, c)
    ensures i < 19 && IsPrefix(b, i, High(s, a)) && a < c
    ensures x.Length? ==> i == x.x < 16 && c == a + b[i]
    ensures x.Again? ==> i == 16 && x.times >= 3 && RunAt(s, b, a, 16, 3, 2, x.times, c)
    ensures x.Zeros? ==> (i == 17 || i == 18) && x.times >= 3
    ensures x.Zeros? ==> RunAt(s, b, a, i, if i == 17 then 3 else 11, if i == 17 then 3 else 7, x.times, c)
  {
    hide High, Low;
    match x
    case Length(l) => i := l;
    case Again(times) => i := 16;
    case Zeros(times) => i := if RunAt(s, b, a, 17, 3, 3, times, c) then 17 else 18;
  }

  lemma ItemsExact(s: nat, b: seq<nat>)
    ensures Exact(Items(s, b))
  {
    hide ItemAt;
    forall a: nat, x: Item, c: nat | ItemAt(s, b, a, x, c)
      ensures a <= c
    {
      var i := ItemSymbol(s, b, a, x, c);
    }
    forall a: nat, x: Item, c: nat, y: Item, d: nat | ItemAt(s, b, a, x, c) && ItemAt(s, b, a, y, d)
      ensures x == y && c == d
    {
      ItemOnce(s, b, a, x, c, y, d);
    }
  }

  /** Every item stands for at least one length. */
  lemma {:induction false} UnrolledGrows(s: nat, b: seq<nat>, a: nat, items: seq<Item>, c: nat, i: nat)
    requires Chain(Items(s, b), a, items, c) && i < |items|
    ensures |Unrolled(items[..i])| < |Unrolled(items)|
  {
    hide ItemAt;
    var m: nat :| ChainTo(Items(s, b), a, items, m, c);
    var front := items[..|items| - 1];
    var sym := ItemSymbol(s, b, m, items[|items| - 1], c);
    assert |Unrolled(front)| < |Unrolled(items)|;
    if i < |front| {
      assert front[..i] == items[..i];
      UnrolledGrows(s, b, a, front, m, i);
    } else {
      assert front == items[..i];
    }
  }

  /** A code is complete, or has at most one code word, of one bit. */
  ghost predicate Usable(b: seq<nat>) {
    Complete(b) || (!Oversubscribed(b) && forall i :: 0 <= i < |b| ==> b[i] <= 1)
  }

  /** The three numbers at the start of the header. */
  function LitCodes(s: nat, at: nat): nat {
    257 + Low(High(s, at), 5)
  }

  function DistCodes(s: nat, at: nat): nat {
    1 + Low(High(s, at + 5), 5)
  }

  function LengthCodes(s: nat, at: nat): nat {
    4 + Low(High(s, at + 10), 4)
  }

  /** The code length code of the header at bit `at`. */
  function HeaderCode(s: nat, at: nat): (b: seq<nat>)
    ensures LengthCodeOk(b)
  {
    LengthCode(s, at + 14, LengthCodes(s, at))
  }

  /** Where the list of code lengths starts. */
  function ListStart(s: nat, at: nat): nat {
    at + 14 + 3 * LengthCodes(s, at)
  }

  /** From bit `at` the list of the code lengths l, up to bit m. */
  ghost predicate ListAt(s: nat, at: nat, items: seq<Item>, l: seq<nat>, m: nat) {
    && Chain(Items(s, HeaderCode(s, at)), ListStart(s, at), items, m)
    && l == Unrolled(items) && |l| == LitCodes(s, at) + DistCodes(s, at)
  }

  /** From bit `at` the header of a block with the codes z, up to bit m. */
  ghost predicate HeaderWith(s: nat, at: nat, items: seq<Item>, l: seq<nat>, z: Lengths, m: nat) {
    && LitCodes(s, at) <= 286 && DistCodes(s, at) <= 30 && Usable(HeaderCode(s, at))
    && ListAt(s, at, items, l, m) && z == Lengths(l[..LitCodes(s, at)], l[LitCodes(s, at)..])
    && LengthsOk(z) && Usable(z.lit) && Usable(z.dist)
  }

  ghost predicate HeaderAt(s: nat, at: nat, z: Lengths, m: nat) {
    exists items, l :: HeaderWith(s, at, items, l, z, m)
  }

  lemma ListOnce(s: nat, at: nat, items: seq<Item>, l: seq<nat>, m: nat, others: seq<Item>, k: seq<nat>, n: nat)
    requires ListAt(s, at, items, l, m) && ListAt(s, at, others, k, n)
    ensures l == k && m == n
  {
    hide ItemAt, HeaderCode, Chain, Unrolled;
    var b := HeaderCode(s, at);
    ItemsExact(s, b);
    if |items| > |others| {
      ChainsAgree(Items(s, b), ListStart(s, at), others, n, items, m);
      UnrolledGrows(s, b, ListStart(s, at), items, m, |others|);
    } else {
      ChainsAgree(Items(s, b), ListStart(s, at), items, m, others, n);
      assert others[..|others|] == others;
      if |items| < |others| {
        UnrolledGrows(s, b, ListStart(s, at), others, n, |items|);
      }
    }
  }

  lemma HeaderOnce(s: nat, at: nat, z: Lengths, m: nat, y: Lengths, n: nat)
    requires HeaderAt(s, at, z, m) && HeaderAt(s, at, y, n)
    ensures z == y && m == n
  {
    hide ListAt, Usable, LengthsOk;
    var items, l :| HeaderWith(s, at, items, l, z, m);
    var others, k :| HeaderWith(s, at, others, k, y, n);
    ListOnce(s, at, items, l, m, others, k, n);
  }

  // ----- blocks

  /** The code of section 3.2.6. */
  function FixedLit(i: nat): nat {
    if i < 144 then 8 else if i < 256 then 9 else if i < 280 then 7 else 8
  }

  function Fixed(): (z: Lengths)
    ensures |z.lit| == 288 && |z.dist| == 30
  {
    Lengths(seq(288, (i: nat) => FixedLit(i)), Repeat(5, 30))
  }

  datatype Body = Stored(data: seq<Byte>) | Coded(z: Lengths, toks: seq<Token>)

  datatype Block = Block(last: bool, body: Body)

  /** Byte i of the data that starts at bit `at`. */
  function DataByte(s: nat, at: nat, i: nat): (x: Byte) {
    LowBound(High(s, at + 8 * i), 8);
    ShlByte(1);
    Low(High(s, at + 8 * i), 8)
  }

  function DataBytes(s: nat, at: nat, n: nat): (d: seq<Byte>)
    ensures |d| == n && forall i :: 0 <= i < n ==> d[i] == DataByte(s, at, i)
  {
    seq(n, i requires 0 <= i => DataByte(s, at, i))
  }

  /** Where the length field of a stored block is, if its header ends at bit `at`. */
  ghost predicate StoredAt(s: nat, at: nat, body: Body, b: nat) {
    var f := ToByte(at);
    var len := Low(High(s, f), 16);
    && len + Low(High(s, f + 16), 16) == 0xffff
    && body == Stored(DataBytes(s, f + 32, len)) && b == f + 32 + 8 * len
  }

  /** From bit `at` the tokens of a block with the codes z and the end of the block, up to bit b. */
  ghost predicate CodedAt(s: nat, at: nat, z: Lengths, body: Body, b: nat) {
    && LengthsOk(z) && body.Coded? && body.z == z && b >= z.lit[256]
    && Chain(Tokens(s, z), at, body.toks, b - z.lit[256]) && IsEnd(z, High(s, b - z.lit[256]))
  }

  ghost predicate OwnCodesAt(s: nat, at: nat, body: Body, m: nat, b: nat) {
    body.Coded? && HeaderAt(s, at, body.z, m) && CodedAt(s, m, body.z, body, b)
  }

  function BlockType(s: nat, at: nat): nat {
    Low(High(s, at + 1), 2)
  }

  ghost predicate BodyAt(s: nat, at: nat, kind: nat, body: Body, b: nat) {
    if kind == 0 then StoredAt(s, at, body, b)
    else if kind == 1 then CodedAt(s, at, Fixed(), body, b)
    else if kind == 2 then exists m: nat :: OwnCodesAt(s, at, body, m, b)
    else false
  }

  ghost predicate BlockAt(s: nat, a: nat, blk: Block, b: nat) {
    (blk.last <==> Low(High(s, a), 1) == 1) && BodyAt(s, a + 3, BlockType(s, a), blk.body, b)
  }

  ghost function Blocks(s: nat): Step<Block> {
    (a: nat, blk: Block, b: nat) => BlockAt(s, a, blk, b)
  }

  lemma CodedOnce(s: nat, at: nat, z: Lengths, x: Body, b: nat, y: Body, c: nat)
    requires CodedAt(s, at, z, x, b) && CodedAt(s, at, z, y, c)
    ensures x == y && b == c
  {
    if |x.toks| <= |y.toks| {
      CodedFirst(s, at, z, x, b, y, c);
    } else {
      CodedFirst(s, at, z, y, c, x, b);
    }
  }

  lemma CodedFirst(s: nat, at: nat, z: Lengths, x: Body, b: nat, y: Body, c: nat)
    requires CodedAt(s, at, z, x, b) && CodedAt(s, at, z, y, c) && |x.toks| <= |y.toks|
    ensures x == y && b == c
  {
    hide Chain;
    var e := b - z.lit[256];
    TokensExact(s, z);
    ChainsAgree(Tokens(s, z), at, x.toks, e, y.toks, c - z.lit[256]);
    NoTokenAtEnd(s, z, e);
  }

  lemma NoTokenAtEnd(s: nat, z: Lengths, e: nat)
    requires LengthsOk(z) && IsEnd(z, High(s, e))
    ensures Stuck(Tokens(s, z), e)
  {
    hide Spells, LengthsOk, IsEnd, High;
    forall tok: Token, d: nat
      ensures !TokenAt(s, z, e, tok, d)
    {
      if TokenAt(s, z, e, tok, d) {
        EndIsNoToken(z, High(s, e), tok, d - e);
      }
    }
  }

  /** What is found at a given bit is the only thing to be found there. */
  lemma BodyOnce(s: nat, at: nat, kind: nat, x: Body, b: nat, y: Body, c: nat)
    requires BodyAt(s, at, kind, x, b) && BodyAt(s, at, kind, y, c)
    ensures x == y && b == c
  {
    hide CodedAt, HeaderAt;
    if kind == 1 {
      CodedOnce(s, at, Fixed(), x, b, y, c);
    } else if kind == 2 {
      var m: nat :| OwnCodesAt(s, at, x, m, b);
      var n: nat :| OwnCodesAt(s, at, y, n, c);
      HeaderOnce(s, at, x.z, m, y.z, n);
      CodedOnce(s, m, x.z, x, b, y, c);
    }
  }

  lemma BodyAhead(s: nat, at: nat, kind: nat, x: Body, b: nat)
    requires BodyAt(s, at, kind, x, b)
    ensures at <= b
  {
    hide HeaderAt;
    if kind == 1 {
      CodedAhead(s, at, Fixed(), x, b);
    } else if kind == 2 {
      var m: nat :| OwnCodesAt(s, at, x, m, b);
      HeaderAhead(s, at, x.z, m);
      CodedAhead(s, m, x.z, x, b);
    }
  }

  lemma CodedAhead(s: nat, at: nat, z: Lengths, x: Body, b: nat)
    requires CodedAt(s, at, z, x, b)
    ensures at <= b - z.lit[256] <= b
  {
    hide Spells;
    TokensExact(s, z);
    ChainsAgree(Tokens(s, z), at, [], at, x.toks, b - z.lit[256]);
  }

  lemma HeaderAhead(s: nat, at: nat, z: Lengths, m: nat)
    requires HeaderAt(s, at, z, m)
    ensures ListStart(s, at) <= m
  {
    hide ItemAt, LengthsOk, Usable, Unrolled;
    var items, l :| HeaderWith(s, at, items, l, z, m);
    ItemsExact(s, HeaderCode(s, at));
    ChainsAgree(Items(s, HeaderCode(s, at)), ListStart(s, at), [], ListStart(s, at), items, m);
  }

  lemma BlocksExact(s: nat)
    ensures Exact(Blocks(s))
  {
    hide BodyAt, High, Low;
    forall a: nat, x: Block, b: nat | BlockAt(s, a, x, b)
      ensures a <= b
    {
      BodyAhead(s, a + 3, BlockType(s, a), x.body, b);
    }
    forall a: nat, x: Block, b: nat, y: Block, c: nat | BlockAt(s, a, x, b) && BlockAt(s, a, y, c)
      ensures x == y && b == c
    {
      BodyOnce(s, a + 3, BlockType(s, a), x.body, b, y.body, c);
    }
  }

  /** The last block, and no other, is marked as the last. */
  ghost predicate Ended(blocks: seq<Block>) {
    blocks != [] && forall i :: 0 <= i < |blocks| ==> (blocks[i].last <==> i == |blocks| - 1)
  }

  /** The bits of s up to b are the compressed form of these blocks. */
  ghost predicate Compressed(s: nat, blocks: seq<Block>, b: nat) {
    Chain(Blocks(s), 0, blocks, b) && Ended(blocks)
  }

  /** A stream is the compressed form of at most one list of blocks. */
  lemma CompressedOnce(s: nat, xs: seq<Block>, b: nat, ys: seq<Block>, c: nat)
    requires Compressed(s, xs, b) && Compressed(s, ys, c)
    ensures xs == ys && b == c
  {
    hide Blocks, Chain;
    BlocksExact(s);
    if |xs| <= |ys| {
      ChainsAgree(Blocks(s), 0, xs, b, ys, c);
      EndedOnce(xs, ys);
    } else {
      ChainsAgree(Blocks(s), 0, ys, c, xs, b);
      EndedOnce(ys, xs);
    }
  }

  lemma EndedOnce(xs: seq<Block>, ys: seq<Block>)
    requires Ended(xs) && Ended(ys) && |xs| <= |ys| && xs == ys[..|xs|]
    ensures xs == ys
  {
    assert ys[|xs| - 1] == xs[|xs| - 1];
  }

  // ----- what the blocks expand to

  ghost predicate BodyInFormat(body: Body) {
    body.Coded? ==> InFormat(body.toks)
  }

  /** The output after a block; distances reach into the 32K before. */
  function BodyOutput(v: seq<Byte>, body: Body): (r: seq<Byte>)
    requires |v| >= WSIZE && BodyInFormat(body)
    ensures |r| >= |v|
  {
    match body
    case Stored(data) => v + data
    case Coded(_, toks) => OutputAll(v, toks)
  }

  ghost predicate AllInFormat(blocks: seq<Block>) {
    forall i :: 0 <= i < |blocks| ==> BodyInFormat(blocks[i].body)
  }

  function BlocksOutput(v: seq<Byte>, blocks: seq<Block>): (r: seq<Byte>)
    requires |v| >= WSIZE && AllInFormat(blocks)
    ensures |r| >= |v|
  {
    if blocks == [] then v else BodyOutput(BlocksOutput(v, blocks[..|blocks| - 1]), blocks[|blocks| - 1].body)
  }

  lemma BlocksOutputMore(v: seq<Byte>, blocks: seq<Block>, blk: Block)
    requires |v| >= WSIZE && AllInFormat(blocks) && BodyInFormat(blk.body)
    ensures AllInFormat(blocks + [blk])
    ensures BlocksOutput(v, blocks + [blk]) == BodyOutput(BlocksOutput(v, blocks), blk.body)
  {
    hide BodyInFormat;
    var more := blocks + [blk];
    assert more[..|more| - 1] == blocks;
  }

  function BodySize(body: Body): nat {
    match body
    case Stored(data) => |data|
    case Coded(_, toks) => Produced(toks)
  }

  function BlocksSize(blocks: seq<Block>): nat {
    if blocks == [] then 0 else BlocksSize(blocks[..|blocks| - 1]) + BodySize(blocks[|blocks| - 1].body)
  }

  ghost predicate BodyWithin(n: nat, body: Body) {
    body.Coded? ==> WithinOutput(n, body.toks)
  }

  /** No distance in any block reaches back before the start of the output. */
  ghost predicate BlocksWithin(blocks: seq<Block>) {
    forall i :: 0 <= i < |blocks| ==> BodyWithin(BlocksSize(blocks[..i]), blocks[i].body)
  }

  lemma BlocksWithinFront(blocks: seq<Block>)
    requires BlocksWithin(blocks) && blocks != []
    ensures BlocksWithin(blocks[..|blocks| - 1])
    ensures BodyWithin(BlocksSize(blocks[..|blocks| - 1]), blocks[|blocks| - 1].body)
  {
    hide BodyWithin;
    var front := blocks[..|blocks| - 1];
    forall i | 0 <= i < |front|
      ensures BodyWithin(BlocksSize(front[..i]), front[i].body)
    {
      assert front[i] == blocks[i] && front[..i] == blocks[..i];
    }
  }

  /** The original data: the blocks expanded byte by byte, with no window at all. */
  function Original(blocks: seq<Block>): (r: seq<Byte>)
    requires BlocksWithin(blocks)
    ensures |r| == BlocksSize(blocks)
  {
    if blocks == [] then []
    else
      BlocksWithinFront(blocks);
      var front := Original(blocks[..|blocks| - 1]);
      match blocks[|blocks| - 1].body
      case Stored(data) => front + data
      case Coded(_, toks) => Plain(front, toks)
  }

  /** When no distance reaches back before the start of the output, the output is
      the original data, whatever was in the window area before. */
  lemma {:induction false} OutputIsOriginal(prior: seq<Byte>, blocks: seq<Block>)
    requires |prior| >= WSIZE && AllInFormat(blocks) && BlocksWithin(blocks)
    ensures BlocksOutput(prior, blocks) == prior + Original(blocks)
  {
    hide WithinOutput, InFormat, OutputAll, Plain;
    if blocks != [] {
      var front, body := blocks[..|blocks| - 1], blocks[|blocks| - 1].body;
      BlocksWithinFront(blocks);
      assert BodyInFormat(body);
      OutputIsOriginal(prior, front);
      var h := Original(front);
      match body
      case Stored(data) => assert (prior + h) + data == prior + (h + data);
      case Coded(_, toks) => PriorIrrelevant(prior, h, toks);
    }
  }
}
