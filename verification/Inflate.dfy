/** inflate_fixed, inflate_dynamic, inflate_block and inflate of lib/inflate.c: a
    whole compressed stream. */
module Inflate {
  import opened HuffmanBits
  import opened HuffmanSpec
  import opened HuftCode
  import opened HuftWhole
  import opened Bytes
  import opened InflateWindow
  import opened BitReader
  import opened Chains
  import opened DeflateSpec
  import opened DeflateFormat
  import opened InflateCodes
  import opened InflateDecoders
  import opened InflateHeader

  // ----- the data of a block, given its decoders

  /** From bit `at` no data of a block with the codes z. */
  ghost predicate NoData(s: nat, at: nat, z: Lengths) {
    forall body, b: nat :: !CodedAt(s, at, z, body, b)
  }

  /** The data of a block from bit `at` does not end 64 bits before the end of the input. */
  ghost predicate DataCut(s: nat, at: nat, z: Lengths, size: nat) {
    forall body, b: nat :: CodedAt(s, at, z, body, b) ==> size < b + 64
  }

  /** The tokens up to bit n, where there is none, are all there is. */
  lemma GarbageAhead(s: nat, at: nat, z: Lengths, toks: seq<Token>, n: nat)
    requires LengthsOk(z) && Chain(Tokens(s, z), at, toks, n) && Garbage(z, High(s, n))
    ensures NoData(s, at, z)
  {
    hide Spells, IsEnd, High, Chain;
    TokensExact(s, z);
    assert Stuck(Tokens(s, z), n);
    forall body, b: nat
      ensures !CodedAt(s, at, z, body, b)
    {
      if CodedAt(s, at, z, body, b) {
        NotPastStuck(Tokens(s, z), at, toks, n, body.toks, b - z.lit[256]);
        NoTokenAtEnd(s, z, b - z.lit[256]);
      }
    }
  }

  lemma DataGoesOn(s: nat, at: nat, z: Lengths, toks: seq<Token>, n: nat, size: nat)
    requires LengthsOk(z) && Chain(Tokens(s, z), at, toks, n) && size < n + 64
    ensures DataCut(s, at, z, size)
  {
    hide Spells, IsEnd, High, Chain, Stuck;
    TokensExact(s, z);
    forall body, b: nat | CodedAt(s, at, z, body, b)
      ensures size < b + 64
    {
      var c := b - z.lit[256];
      NoTokenAtEnd(s, z, c);
      if |body.toks| < |toks| {
        ChainsAgree(Tokens(s, z), at, body.toks, c, toks, n);
        NotStuck(Tokens(s, z), c, toks[|body.toks|]);
      } else {
        ChainsAgree(Tokens(s, z), at, toks, n, body.toks, c);
      }
    }
  }

  lemma NotStuck<T(!new)>(step: Step<T>, a: nat, x: T)
    requires exists d: nat :: step(a, x, d)
    ensures !Stuck(step, a)
  {
  }

  /** inflate_codes, for a block with the codes z. */
  method InflateData(r: Reader, win: Window, lit: Decoder, dist: Decoder, ghost z: Lengths)
    returns (st: Status, ghost body: Body)
    requires r.Valid() && win.Valid() && Decoders(lit, dist, z)
    modifies r, win, win.slide
    ensures r.Valid() && win.Valid()
    ensures st.Fine? ==> CodedAt(r.Bits(), old(r.At()), z, body, r.At()) && BodyInFormat(body)
    ensures |old(win.prior + win.history)| >= WSIZE
    ensures st.Fine? ==> win.prior + win.history == BodyOutput(old(win.prior + win.history), body)
    ensures st.Error? || st.Fault? ==> NoData(r.Bits(), old(r.At()), z)
    ensures st.NoInput? ==> DataCut(r.Bits(), old(r.At()), z, r.Size())
    ensures st.Error? ==> st.code == 1
  {
    hide LengthsOk, DecoderFor, Chain, InFormat, OutputAll, IsEnd, Garbage, High, NoData, DataCut, Holds, Buffered,
      Complete;
    ghost var s, at := r.Bits(), r.At();
    ghost var toks, n;
    st, toks, n := InflateTokens(r, win, lit, dist, z);
    body := Coded(z, toks);
    if st.NoInput? {
      DataGoesOn(s, at, z, toks, n, r.Size());
    } else if !st.Fine? {
      GarbageAhead(s, at, z, toks, n);
    }
  }

  // ----- the fixed codes

  lemma {:induction false} CountRun(b: seq<nat>, x: nat, n: nat, len: nat)
    ensures Count(b + Repeat(x, n), len) == Count(b, len) + if x == len then n else 0
  {
    var run := b + Repeat(x, n);
    if n == 0 {
      assert run == b;
    } else {
      CountRun(b, x, n - 1, len);
      assert run[..|run| - 1] == b + Repeat(x, n - 1);
    }
  }

  lemma FixedRuns()
    ensures Fixed().lit == Repeat(8, 144) + Repeat(9, 112) + Repeat(7, 24) + Repeat(8, 8)
  {
  }

  lemma FixedCount(len: nat)
    ensures Count(Fixed().lit, len) == if len == 7 then 24 else if len == 8 then 152 else if len == 9 then 112 else 0
  {
    FixedRuns();
    var a := Repeat(8, 144);
    var b := a + Repeat(9, 112);
    var c := b + Repeat(7, 24);
    assert a == [] + Repeat(8, 144);
    CountRun([], 8, 144, len);
    CountRun(a, 9, 112, len);
    CountRun(b, 7, 24, len);
    CountRun(c, 8, 8, len);
    hide Count;
  }

  /** The fixed literal/length code uses every pattern. */
  lemma FixedComplete()
    ensures Complete(Fixed().lit)
  {
    var b := Fixed().lit;
    var c := Counts(b);
    FixedCount(7);
    FixedCount(8);
    FixedCount(9);
    forall n: nat | 1 <= n <= 6
      ensures c[n] == 0
    {
      FixedCount(n);
    }
    hide Count;
    assert Longest(b, 9);
    EndTail(c, 9, 0, 6);
    assert End(c, 9, 7) == End(c, 9, 6) + Shl(24, 2);
    assert End(c, 9, 8) == End(c, 9, 7) + Shl(152, 1);
    assert End(c, 9, 9) == End(c, 9, 8) + Shl(112, 0);
    assert Shl(24, 2) == Shl(48, 1) == 96 && Shl(152, 1) == 304;
    SmallPowers();
    KraftAtLongest(b, 9);
  }

  /** The fixed distance code leaves two of its 32 patterns unused. */
  lemma FixedDistances()
    ensures var b := Fixed().dist; !Oversubscribed(b) && !Complete(b)
  {
    var b := Fixed().dist;
    var c := Counts(b);
    assert b == [] + Repeat(5, 30);
    forall n: nat | 1 <= n <= 5
      ensures c[n] == if n == 5 then 30 else 0
    {
      CountRun([], 5, 30, n);
    }
    hide Count;
    assert Longest(b, 5);
    EndTail(c, 5, 0, 4);
    assert End(c, 5, 5) == End(c, 5, 4) + Shl(30, 0);
    SmallPowers();
    KraftAtLongest(b, 5);
  }

  lemma FixedOk()
    ensures var z := Fixed(); LengthsOk(z) && InputOk(z.lit, 257, CPLENS, CPLEXT) && InputOk(z.dist, 0, CPDIST, CPDEXT)
    ensures var z := Fixed(); Callable(z.lit, 7) && Callable(z.dist, 5)
    ensures var z := Fixed(); |z.lit| == 288 && |z.dist| == 30 && forall i :: 0 <= i < |z.dist| ==> 0 < z.dist[i] <= 10
  {
    ExtraBits();
  }

  lemma ExtraBits()
    ensures |CPLENS| == |CPLEXT| == 31 && |CPDIST| == |CPDEXT| == 30
    ensures (forall i :: 0 <= i < 31 ==> CPLEXT[i] <= 16 || CPLEXT[i] == 99)
    ensures forall i :: 0 <= i < 30 ==> CPDEXT[i] <= 16
  {
  }

  /** The four loops that set up the literal/length table. */
  method FixedLengths() returns (l: array<nat>)
    ensures fresh(l) && l[..] == Fixed().lit
  {
    l := new nat[288];
    var i := 0;
    while i < 144
      invariant 0 <= i <= 144 && forall k :: 0 <= k < i ==> l[k] == FixedLit(k)
    {
      l[i] := 8;
      i := i + 1;
    }
    while i < 256
      invariant 144 <= i <= 256 && forall k :: 0 <= k < i ==> l[k] == FixedLit(k)
    {
      l[i] := 9;
      i := i + 1;
    }
    while i < 280
      invariant 256 <= i <= 280 && forall k :: 0 <= k < i ==> l[k] == FixedLit(k)
    {
      l[i] := 7;
      i := i + 1;
    }
    while i < 288
      invariant 280 <= i <= 288 && forall k :: 0 <= k < i ==> l[k] == FixedLit(k)
    {
      l[i] := 8;
      i := i + 1;
    }
  }

  /** inflate_fixed */
  method InflateFixed(r: Reader, win: Window, budget: nat) returns (st: Status, ghost body: Body)
    requires r.Valid() && win.Valid()
    modifies r, win, win.slide
    ensures r.Valid() && win.Valid()
    ensures st.Fine? ==> CodedAt(r.Bits(), old(r.At()), Fixed(), body, r.At()) && BodyInFormat(body)
    ensures |old(win.prior + win.history)| >= WSIZE
    ensures st.Fine? ==> win.prior + win.history == BodyOutput(old(win.prior + win.history), body)
    ensures st.Error? ==> st.code == 1 || (st.code == 3 && budget <= ENOUGH_TABLES)
    ensures (st.Error? && st.code < 3) || st.Fault? ==> NoData(r.Bits(), old(r.At()), Fixed())
    ensures st.NoInput? ==> DataCut(r.Bits(), old(r.At()), Fixed(), r.Size())
  {
    hide LengthsOk, DecoderFor, CodedAt, BodyInFormat, BodyOutput, NoData, DataCut, Holds, Buffered, Complete,
      Oversubscribed, Usable, InputOk, Callable, Fixed;
    body := Stored([]);
    FixedOk();
    FixedComplete();
    FixedDistances();
    FixedUsable();
    var l := FixedLengths();
    var rc, lit := MakeDecoder(l[..], 257, CPLENS, CPLEXT, 7, budget);
    if rc != 0 {
      return Error(rc), body;
    }
    Fill(l, 0, 30, 5);
    FixedIsRepeat(l[..30]);
    var dist;
    rc, dist := MakeDecoder(l[..30], 0, CPDIST, CPDEXT, 5, budget);
    if rc > 1 {
      return Error(rc), body;
    }
    st, body := InflateData(r, win, lit, dist, Fixed());
  }

  lemma FixedUsable()
    ensures Usable(Fixed().lit) && !Oversubscribed(Fixed().lit)
  {
    FixedComplete();
  }

  lemma FixedIsRepeat(l: seq<nat>)
    requires l == Repeat(5, 30) || l == [] + Repeat(5, 30)
    ensures l == Fixed().dist
  {
  }

  // ----- a block with its own codes

  /** From bit `at` no block of this type. */
  ghost predicate NoBody(s: nat, at: nat, kind: nat) {
    forall body, b: nat :: !BodyAt(s, at, kind, body, b)
  }

  ghost predicate BodyCut(s: nat, at: nat, kind: nat, size: nat) {
    forall body, b: nat :: BodyAt(s, at, kind, body, b) ==> size < b + 64
  }

  lemma NoHeaderNoBody(s: nat, at: nat, size: nat)
    ensures NoHeader(s, at) ==> NoBody(s, at, 2)
    ensures HeaderCut(s, at, size) ==> BodyCut(s, at, 2, size)
  {
    hide HeaderAt, CodedAt;
    forall body, b: nat | BodyAt(s, at, 2, body, b)
      ensures !NoHeader(s, at) && (HeaderCut(s, at, size) ==> size < b + 64)
    {
      var m: nat :| OwnCodesAt(s, at, body, m, b);
      CodedAhead(s, m, body.z, body, b);
    }
  }

  lemma NoDataNoBody(s: nat, at: nat, z: Lengths, m: nat, size: nat)
    requires HeaderAt(s, at, z, m)
    ensures NoData(s, m, z) ==> NoBody(s, at, 2)
    ensures DataCut(s, m, z, size) ==> BodyCut(s, at, 2, size)
  {
    hide HeaderAt, CodedAt;
    forall body, b: nat | BodyAt(s, at, 2, body, b)
      ensures CodedAt(s, m, z, body, b)
    {
      var n: nat :| OwnCodesAt(s, at, body, n, b);
      HeaderOnce(s, at, z, m, body.z, n);
    }
  }

  /** The codes that a list of lengths gives. */
  function Codes(l: seq<nat>, nl: nat): Lengths
    requires nl <= |l|
  {
    Lengths(l[..nl], l[nl..])
  }

  lemma CodesOk(l: seq<nat>, nl: nat, nd: nat)
    requires 257 <= nl <= 286 && 1 <= nd <= 30 && |l| == nl + nd && forall i :: 0 <= i < |l| ==> l[i] <= 15
    ensures var z := Codes(l, nl); LengthsOk(z) && |z.dist| == nd
    ensures var z := Codes(l, nl); InputOk(z.lit, 257, CPLENS, CPLEXT) && InputOk(z.dist, 0, CPDIST, CPDEXT)
    ensures var z := Codes(l, nl); Callable(z.lit, 9) && Callable(z.dist, 6)
  {
    ExtraBits();
    SmallPowers();
    hide Pow2;
    var z := Codes(l, nl);
    assert forall i :: 0 <= i < |z.lit| ==> z.lit[i] == l[i];
    assert forall i :: 0 <= i < |z.dist| ==> z.dist[i] == l[nl + i];
  }

  /** The list that was read is the only one, so its codes decide. */
  lemma HeaderIs(s: nat, at: nat, items: seq<Item>, l: seq<nat>, m: nat)
    requires LitCodes(s, at) <= 286 && DistCodes(s, at) <= 30 && Usable(HeaderCode(s, at))
    requires ListAt(s, at, items, l, m) && LengthsOk(Codes(l, LitCodes(s, at)))
    ensures var z := Codes(l, LitCodes(s, at));
      if Usable(z.lit) && Usable(z.dist) then HeaderAt(s, at, z, m) else NoHeader(s, at)
  {
    hide LitCodes, DistCodes, HeaderCode, Usable, LengthsOk, ListAt;
    ListLength(s, at, items, l, m);
    var z := Codes(l, LitCodes(s, at));
    if Usable(z.lit) && Usable(z.dist) {
      assert HeaderWith(s, at, items, l, z, m);
    } else {
      forall y, n: nat
        ensures !HeaderAt(s, at, y, n)
      {
        if HeaderAt(s, at, y, n) {
          var others, k :| HeaderWith(s, at, others, k, y, n);
          ListOnce(s, at, items, l, m, others, k, n);
        }
      }
    }
  }

  lemma ListLength(s: nat, at: nat, items: seq<Item>, l: seq<nat>, m: nat)
    requires ListAt(s, at, items, l, m)
    ensures |l| == LitCodes(s, at) + DistCodes(s, at) && LitCodes(s, at) >= 257 && DistCodes(s, at) >= 1
  {
    hide Low, High, Chain, Unrolled, HeaderCode;
  }

  /** The error for codes that cannot be used: 2 for one with too many code words, and 1 for
      one with too few. */
  ghost function CodesError(z: Lengths): nat {
    var bad := if Usable(z.lit) then z.dist else z.lit;
    if Usable(bad) then 0 else if Oversubscribed(bad) then 2 else 1
  }

  /** The decoders for the lengths of a header. */
  method MakeDecoders(l: seq<nat>, nl: nat, nd: nat, budget: nat) returns (st: Status, lit: Decoder, dist: Decoder)
    requires 257 <= nl <= 286 && 1 <= nd <= 30 && |l| == nl + nd && forall i :: 0 <= i < |l| ==> l[i] <= 15
    ensures st.Fine? || (st.Error? && st.code <= 3)
    ensures var z := Codes(l, nl);
      && (st.Fine? ==> Usable(z.lit) && Usable(z.dist) && Decoders(lit, dist, z))
      && (st.Error? && st.code < 3 ==> !Usable(z.lit) || !Usable(z.dist))
      && (st.Error? && st.code < 3 ==> st.code == CodesError(z))
    ensures st.Error? && st.code == 3 ==> budget <= ENOUGH_TABLES
  {
    hide LengthsOk, DecoderFor, Complete, Oversubscribed, Usable, InputOk, Callable;
    CodesOk(l, nl, nd);
    var rc;
    rc, lit := MakeDecoder(l[..nl], 257, CPLENS, CPLEXT, 9, budget);
    dist := lit;
    if rc != 0 {
      return Error(rc), lit, dist;
    }
    rc, dist := MakeDecoder(l[nl..], 0, CPDIST, CPDEXT, 6, budget);
    st := if rc != 0 then Error(rc) else Fine;
  }

  /** inflate_dynamic */
  method InflateDynamic(r: Reader, win: Window, budget: nat) returns (st: Status, ghost body: Body)
    requires r.Valid() && win.Valid()
    modifies r, win, win.slide
    ensures r.Valid() && win.Valid()
    ensures st.Fine? ==> BodyAt(r.Bits(), old(r.At()), 2, body, r.At()) && BodyInFormat(body)
    ensures |old(win.prior + win.history)| >= WSIZE
    ensures st.Fine? ==> win.prior + win.history == BodyOutput(old(win.prior + win.history), body)
    ensures st.Error? ==> st.code <= 3 && (st.code == 3 ==> budget <= ENOUGH_TABLES)
    ensures (st.Error? && st.code < 3) || st.Fault? ==> NoBody(r.Bits(), old(r.At()), 2)
    ensures st.NoInput? ==> BodyCut(r.Bits(), old(r.At()), 2, r.Size())
  {
    hide LengthsOk, DecoderFor, CodedAt, HeaderAt, ListAt, BodyInFormat, BodyOutput, NoData, DataCut, NoHeader,
      HeaderCut, NoBody, BodyCut, Holds, Buffered, Usable, HeaderCode, LitCodes, DistCodes;
    body := Stored([]);
    ghost var s, at := r.Bits(), r.At();
    var ll := new nat[316];
    NoHeaderNoBody(s, at, r.Size());
    var nl, nd;
    ghost var items;
    st, nl, nd, items := ReadHeader(r, ll, budget);
    if !st.Fine? {
      return;
    }
    ghost var m := r.At();
    var l := ll[..nl + nd];
    ListLength(s, at, items, l, m);
    CodesOk(l, nl, nd);
    HeaderIs(s, at, items, l, m);
    var lit, dist;
    st, lit, dist := MakeDecoders(l, nl, nd, budget);
    if !st.Fine? {
      return;
    }
    ghost var z := Codes(l, nl);
    NoDataNoBody(s, at, z, m, r.Size());
    st, body := InflateData(r, win, lit, dist, z);
    if st.Fine? {
      OwnBody(s, at, z, m, body, r.At());
    }
  }

  lemma OwnBody(s: nat, at: nat, z: Lengths, m: nat, body: Body, b: nat)
    requires HeaderAt(s, at, z, m) && CodedAt(s, m, z, body, b)
    ensures BodyAt(s, at, 2, body, b)
  {
    hide HeaderAt;
    assert OwnCodesAt(s, at, body, m, b);
  }

  // ----- blocks

  /** A block from bit a does not end 64 bits before the end of the input. */
  ghost predicate BlockCut(s: nat, a: nat, size: nat) {
    forall blk, b: nat :: BlockAt(s, a, blk, b) ==> size < b + 64
  }

  lemma NoBodyNoBlock(s: nat, a: nat, size: nat)
    ensures NoBody(s, a + 3, BlockType(s, a)) ==> Stuck(Blocks(s), a)
    ensures BodyCut(s, a + 3, BlockType(s, a), size) || size < a + 3 ==> BlockCut(s, a, size)
  {
    hide BodyAt, High, Low, BlockType;
    forall blk, b: nat | BlockAt(s, a, blk, b)
      ensures a + 3 <= b && !NoBody(s, a + 3, BlockType(s, a))
      ensures BodyCut(s, a + 3, BlockType(s, a), size) ==> size < b + 64
    {
      BodyAhead(s, a + 3, BlockType(s, a), blk.body, b);
    }
  }

  /** The four ways to go on after the type of the block. */
  method InflateBody(r: Reader, win: Window, kind: nat, budget: nat) returns (st: Status, ghost body: Body)
    requires r.Valid() && win.Valid()
    modifies r, win, win.slide
    ensures r.Valid() && win.Valid()
    ensures st.Fine? ==> BodyAt(r.Bits(), old(r.At()), kind, body, r.At()) && BodyInFormat(body)
    ensures |old(win.prior + win.history)| >= WSIZE
    ensures st.Fine? ==> win.prior + win.history == BodyOutput(old(win.prior + win.history), body)
    ensures st.Error? ==> st.code <= 3 && (st.code == 3 ==> budget <= ENOUGH_TABLES)
    ensures (st.Error? && st.code < 3) || st.Fault? ==> NoBody(r.Bits(), old(r.At()), kind)
    ensures st.NoInput? ==> BodyCut(r.Bits(), old(r.At()), kind, r.Size())
    ensures kind > 2 ==> st == Error(2)
    ensures st.Error? && kind < 2 ==> st.code == 1 || st.code == 3
  {
    hide CodedAt, StoredAt, OwnCodesAt, InFormat, OutputAll, Holds, Buffered;
    if kind == 2 {
      st, body := InflateDynamic(r, win, budget);
    } else if kind == 0 {
      ghost var h := win.history;
      st, body := InflateStored(r, win);
      if st.Fine? {
        StoredData(r.Bits(), old(r.At()), body, r.At());
        assert win.prior + (h + body.data) == (win.prior + h) + body.data;
      }
    } else if kind == 1 {
      st, body := InflateFixed(r, win, budget);
    } else {
      st, body := Error(2), Stored([]);
    }
  }

  lemma StoredData(s: nat, at: nat, body: Body, b: nat)
    requires StoredAt(s, at, body, b)
    ensures body.Stored?
  {
  }

  /** inflate_block */
  method InflateBlock(r: Reader, win: Window, budget: nat) returns (st: Status, last: bool, ghost blk: Block)
    requires r.Valid() && win.Valid()
    modifies r, win, win.slide
    ensures r.Valid() && win.Valid()
    ensures st.Fine? ==> BlockAt(r.Bits(), old(r.At()), blk, r.At()) && blk.last == last && BodyInFormat(blk.body)
    ensures |old(win.prior + win.history)| >= WSIZE
    ensures st.Fine? ==> win.prior + win.history == BodyOutput(old(win.prior + win.history), blk.body)
    ensures st.Fine? ==> r.At() > old(r.At())
    ensures st.Error? ==> st.code <= 3 && (st.code == 3 ==> budget <= ENOUGH_TABLES)
    ensures (st.Error? && st.code < 3) || st.Fault? ==> Stuck(Blocks(r.Bits()), old(r.At()))
    ensures st.NoInput? ==> BlockCut(r.Bits(), old(r.At()), r.Size())
  {
    hide BodyAt, BodyInFormat, BodyOutput, NoBody, BodyCut, BlockCut, Stuck, High, Low, Holds, Buffered;
    ghost var s, at := r.Bits(), r.At();
    last, blk := false, Block(false, Stored([]));
    NoBodyNoBlock(s, at, r.Size());
    var ok, e := r.TakeBits(1);
    if !ok {
      return NoInput, last, blk;
    }
    last := e == 1;
    var kind;
    ok, kind := r.TakeBits(2);
    if !ok {
      return NoInput, last, blk;
    }
    ghost var body;
    st, body := InflateBody(r, win, kind, budget);
    blk := Block(last, body);
    if st.Fine? {
      BodyAhead(s, at + 3, kind, body, r.At());
    }
  }

  // ----- the whole stream

  ghost predicate NoneLast(blocks: seq<Block>) {
    forall i :: 0 <= i < |blocks| ==> !blocks[i].last
  }

  lemma NotJustThese(blocks: seq<Block>, bs: seq<Block>)
    requires NoneLast(blocks) && Ended(bs) && |bs| <= |blocks|
    ensures bs != blocks[..|bs|]
  {
    var i := |bs| - 1;
    assert blocks[..|bs|][i] == blocks[i];
  }

  /** Blocks none of which is the last one are not all. */
  lemma MoreBlocks(s: nat, blocks: seq<Block>, at: nat, bs: seq<Block>, e: nat)
    requires Chain(Blocks(s), 0, blocks, at) && NoneLast(blocks) && Compressed(s, bs, e)
    ensures exists blk, d: nat :: BlockAt(s, at, blk, d) && d <= e
  {
    hide BlockAt, Chain;
    BlocksExact(s);
    if |bs| <= |blocks| {
      NotJustThese(blocks, bs);
      ChainsAgree(Blocks(s), 0, bs, e, blocks, at);
    } else {
      ChainsAgree(Blocks(s), 0, blocks, at, bs, e);
      var d: nat :| BlockAt(s, at, bs[|blocks|], d) && d <= e;
    }
  }

  /** Nothing is the original of this stream. */
  ghost predicate NotCompressed(s: nat) {
    forall bs, e: nat :: !Compressed(s, bs, e)
  }

  /** If the stream is valid, fewer than 64 bits follow its end. */
  ghost predicate CutShort(s: nat, size: nat) {
    forall bs, e: nat :: Compressed(s, bs, e) ==> size < e + 64
  }

  lemma StreamStops(s: nat, blocks: seq<Block>, at: nat, size: nat)
    requires Chain(Blocks(s), 0, blocks, at) && NoneLast(blocks)
    ensures Stuck(Blocks(s), at) ==> NotCompressed(s)
    ensures BlockCut(s, at, size) ==> CutShort(s, size)
  {
    hide BlockAt, Chain, Compressed, NoneLast;
    forall bs, e: nat | Compressed(s, bs, e)
      ensures !Stuck(Blocks(s), at) && (BlockCut(s, at, size) ==> size < e + 64)
    {
      MoreBlocks(s, blocks, at, bs, e);
      var blk, d: nat :| BlockAt(s, at, blk, d) && d <= e;
      assert Blocks(s)(at, blk, d);
    }
  }

  /** The loop of inflate: blocks up to the one marked as the last. */
  method InflateBlocks(r: Reader, win: Window, budget: nat) returns (st: Status, ghost blocks: seq<Block>)
    requires r.Valid() && win.Valid() && r.At() == 0
    modifies r, win, win.slide
    ensures r.Valid() && win.Valid()
    ensures st.Fine? ==> Compressed(r.Bits(), blocks, r.At()) && AllInFormat(blocks)
    ensures |old(win.prior + win.history)| >= WSIZE
    ensures st.Fine? ==> win.prior + win.history == BlocksOutput(old(win.prior + win.history), blocks)
    ensures st.Error? ==> st.code <= 3 && (st.code == 3 ==> budget <= ENOUGH_TABLES)
    ensures (st.Error? && st.code < 3) || st.Fault? ==> NotCompressed(r.Bits())
    ensures st.NoInput? ==> CutShort(r.Bits(), r.Size())
  {
    hide BlockAt, Chain, BodyInFormat, AllInFormat, BodyOutput, BlocksOutput, NotCompressed, CutShort, BlockCut, Stuck,
      Holds, Buffered;
    ghost var s := r.Bits();
    ghost var v := win.prior + win.history;
    WindowSize(win);
    blocks := [];
    NoBlocks(s, v);
    var last := false;
    st := Fine;
    while !last
      invariant r.Valid() && win.Valid() && Chain(Blocks(s), 0, blocks, r.At()) && AllInFormat(blocks) && st.Fine?
      invariant win.prior + win.history == BlocksOutput(v, blocks)
      invariant if last then Ended(blocks) else NoneLast(blocks)
      decreases !last, r.Size() - r.At()
    {
      ghost var at := r.At();
      StreamStops(s, blocks, at, r.Size());
      ghost var blk;
      st, last, blk := InflateBlock(r, win, budget);
      if !st.Fine? {
        return;
      }
      ChainMore(Blocks(s), 0, blocks, at, blk, r.At());
      BlocksOutputMore(v, blocks, blk);
      blocks := blocks + [blk];
    }
  }

  lemma WindowSize(win: Window)
    requires win.Valid()
    ensures |win.prior + win.history| >= WSIZE
  {
  }

  lemma NoBlocks(s: nat, v: seq<Byte>)
    requires |v| >= WSIZE
    ensures Chain(Blocks(s), 0, [], 0) && AllInFormat([]) && BlocksOutput(v, []) == v
  {
  }

  /** inflate: the blocks, the unused bytes given back, the window flushed.  `used`
      is the number of input bytes used up.  A valid stream that is followed by
      eight bytes, as the checksum and the size follow it in a gzip file, is
      decompressed to its original; what is not valid is rejected. */
  method Decompress(input: seq<Byte>, area: array<Byte>, budget: nat)
    returns (st: Status, out: seq<Byte>, used: nat, ghost blocks: seq<Block>, ghost end: nat)
    requires area.Length == WSIZE
    modifies area
    ensures st.Fine? ==> Compressed(LittleEndian(input), blocks, end) && 8 * used == ToByte(end) && used <= |input|
    ensures st.Fine? ==> AllInFormat(blocks) && old(area[..]) + out == BlocksOutput(old(area[..]), blocks)
    ensures st.Fine? && BlocksWithin(blocks) ==> out == Original(blocks)
    ensures (st.Error? && st.code < 3) || st.Fault? ==> NotCompressed(LittleEndian(input))
    ensures st.NoInput? ==> CutShort(LittleEndian(input), 8 * |input|)
    ensures st.Error? ==> st.code <= 3 && (st.code == 3 ==> budget <= ENOUGH_TABLES)
    ensures budget > ENOUGH_TABLES ==>
      forall bs, e: nat :: Compressed(LittleEndian(input), bs, e) && e + 64 <= 8 * |input| ==>
        st.Fine? && blocks == bs && end == e
  {
    hide Compressed, BlocksOutput, Original, BlocksWithin, AllInFormat, LittleEndian, Holds, Buffered;
    out, used, end := [], 0, 0;
    var r := new Reader(input);
    var win := new Window(area);
    WindowSize(win);
    ghost var prior := area[..];
    assert prior + [] == prior;
    st, blocks := InflateBlocks(r, win, budget);
    if st.Fine? {
      end := r.At();
      forall bs, e: nat | Compressed(LittleEndian(input), bs, e)
        ensures blocks == bs && end == e
      {
        CompressedOnce(LittleEndian(input), blocks, end, bs, e);
      }
      if BlocksWithin(blocks) {
        OutputIsOriginal(prior, blocks);
        SamePrefix(prior, win.history, Original(blocks));
      }
      r.Unread();
      win.FlushRest();
      out, used := win.flushed, r.pos;
    }
  }
}
