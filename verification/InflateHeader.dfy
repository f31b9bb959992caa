/** The first half of inflate_dynamic of lib/inflate.c: the code lengths in the
    header of a block with its own codes. */
module InflateHeader {
  import opened HuffmanBits
  import opened HuffmanSpec
  import opened HuftTables
  import opened HuftDecode
  import opened HuftWhole
  import opened HuftTheorems
  import opened BitReader
  import opened Chains
  import opened DeflateSpec
  import opened DeflateFormat
  import opened InflateCodes
  import opened InflateDecoders

  /** The table of the order in which the lengths of the code length code are given. */
  const BORDER: seq<nat> := [16, 17, 18, 0, 8, 7, 9, 6, 10, 5, 11, 4, 12, 3, 13, 2, 14, 1, 15]

  /** The table is the order of the format. */
  lemma OrderFacts(j: nat)
    requires j < 19
    ensures |BORDER| == 19 && BORDER[j] < 19 && Place(BORDER[j]) == j && BORDER[Place(j)] == j
  {
  }

  /** The lengths whose place is before j are in ll. */
  ghost predicate FirstLengths(s: nat, at: nat, nb: nat, ll: seq<nat>, j: nat) {
    |ll| >= 19 && forall i :: 0 <= i < 19 && Place(i) < j ==> ll[i] == LengthCode(s, at, nb)[i]
  }

  lemma MoreLengths(s: nat, at: nat, nb: nat, ll: seq<nat>, j: nat)
    requires FirstLengths(s, at, nb, ll, j) && j < 19
    ensures BORDER[j] < 19
    ensures j < nb ==> FirstLengths(s, at, nb, ll[BORDER[j] := Low(High(s, at + 3 * j), 3)], j + 1)
    ensures j >= nb ==> FirstLengths(s, at, nb, ll[BORDER[j] := 0], j + 1)
  {
    hide High, Low, Place;
    OrderFacts(j);
    forall i: nat | i < 19
      ensures Place(i) < 19 && (Place(i) == j <==> i == BORDER[j])
    {
      OrderFacts(i);
    }
  }

  lemma AllLengths(s: nat, at: nat, nb: nat, ll: seq<nat>)
    requires FirstLengths(s, at, nb, ll, 19)
    ensures ll[..19] == LengthCode(s, at, nb)
  {
    hide LengthCode;
    forall i: nat | i < 19
      ensures ll[..19][i] == LengthCode(s, at, nb)[i]
    {
      OrderFacts(i);
    }
  }

  /** The code lengths of the code length codes, in their own order. */
  method ReadLengthCode(r: Reader, ll: array<nat>, nb: nat) returns (ok: bool)
    requires r.Valid() && nb <= 19 <= ll.Length
    modifies r, ll
    ensures r.Valid()
    ensures ok ==> r.At() == old(r.At()) + 3 * nb && ll[..19] == LengthCode(r.Bits(), old(r.At()), nb)
    ensures !ok ==> r.Size() < old(r.At()) + 3 * nb
  {
    hide High, Low, FirstLengths, LengthCode, Buffered;
    ghost var s, at := r.Bits(), r.At();
    var j := 0;
    NoLengths(s, at, nb, ll[..]);
    while j < nb
      invariant 0 <= j <= nb && r.Valid() && r.At() == at + 3 * j && FirstLengths(s, at, nb, ll[..], j)
    {
      var x;
      ok, x := r.TakeBits(3);
      if !ok {
        return;
      }
      MoreLengths(s, at, nb, ll[..], j);
      ghost var was := ll[..];
      ll[BORDER[j]] := x;
      assert ll[..] == was[BORDER[j] := x];
      j := j + 1;
    }
    while j < 19
      invariant nb <= j <= 19 && r.Valid() && r.At() == at + 3 * nb && FirstLengths(s, at, nb, ll[..], j)
    {
      MoreLengths(s, at, nb, ll[..], j);
      ghost var was := ll[..];
      ll[BORDER[j]] := 0;
      assert ll[..] == was[BORDER[j] := 0];
      j := j + 1;
    }
    AllLengths(s, at, nb, ll[..]);
    assert ll[..][..19] == ll[..19];
    ok := true;
  }

  lemma NoLengths(s: nat, at: nat, nb: nat, ll: seq<nat>)
    requires |ll| >= 19
    ensures FirstLengths(s, at, nb, ll, 0)
  {
  }

  // ----- the list of code lengths

  /** The decoder of the code length code: a single table. */
  ghost predicate LengthDecoder(x: Decoder, b: seq<nat>) {
    LengthCodeOk(b) && DecoderFor(x, b, 19, [], []) && |x.tables| <= 1 && (x.tables != [] ==> x.gap || Complete(b))
  }

  /** With a single table the first entry is the last. */
  lemma SingleEntry(x: Decoder, b: seq<nat>, stream: nat) returns (s: nat)
    requires LengthDecoder(x, b) && x.tables != [] && !InGap(x, stream)
    ensures 0 < x.bits <= BMAX && |x.tables| == 1 && Low(stream, x.bits) < |x.tables[0]|
    ensures var ent := x.tables[0][Low(stream, x.bits)];
      s < 19 && IsPrefix(b, s, stream) && ent.v == s && ent.b == b[s] && ent.b <= x.bits
  {
    hide IsPrefix, Low, High, Complete, Walk;
    assert Resolves(x, b, 19, [], [], stream);
    s := SymbolThere(x, b, stream);
    assert SymbolLeaf(s, 19, [], []) == Leaf(16, s);
    assert Lookahead(x.tables, 0, x.bits, stream) >= x.bits;
    NoSecondTable(x.tables, x.bits, stream);
  }

  lemma NoSecondTable(tables: seq<seq<Huft>>, bits: nat, stream: nat)
    requires |tables| == 1 && Walk(tables, 0, bits, stream).At?
    ensures bits > 0 && Low(stream, bits) < |tables[0]|
    ensures var ent := tables[0][Low(stream, bits)];
      ent.b <= bits && Walk(tables, 0, bits, stream) == At(ent.e, ent.v, ent.b)
  {
    hide Low, High;
    var ent := tables[0][Low(stream, bits)];
    assert ent.e > 16 && ent.v > 0 ==> Walk(tables, ent.v, ent.e - 16, High(stream, ent.b)) == Stray;
  }

  lemma SymbolThere(x: Decoder, b: seq<nat>, stream: nat) returns (s: nat)
    requires LengthDecoder(x, b) && x.tables != [] && !InGap(x, stream)
    ensures s < 19 && IsPrefix(b, s, stream)
  {
    hide IsPrefix, Low, High;
    if Complete(b) {
      s := CompleteCovers(b, stream);
    } else {
      assert Resolves(x, b, 19, [], [], stream);
      s :| s < |b| && IsPrefix(b, s, stream);
    }
  }

  /** Index the table, dump the bits of the entry and take its value. */
  method LookUp(r: Reader, x: Decoder, ghost b: seq<nat>) returns (st: Status, j: nat)
    requires r.Valid() && LengthDecoder(x, b)
    modifies r
    ensures r.Valid() && !st.Error?
    ensures st.Fine? ==> j < 19 && IsPrefix(b, j, High(r.Bits(), old(r.At()))) && r.At() == old(r.At()) + b[j]
    ensures st.Fault? ==> forall i: nat :: i < 19 ==> !IsPrefix(b, i, High(r.Bits(), old(r.At())))
    ensures st.NoInput? ==> r.Size() < old(r.At()) + BMAX
  {
    hide IsPrefix, Low, High, Walk, Lookahead, Complete, AllZero, Buffered;
    j := 0;
    ghost var stream := High(r.Bits(), r.At());
    if x.tables == [] {
      NoSymbol(b, stream);
      return Fault, 0;
    }
    assert Resolves(x, b, 19, [], [], stream);
    FirstBit(stream, x.bits);
    TableBits(x, b, stream);
    var ok := r.NeedBits(x.bits);
    if !ok {
      return NoInput, 0;
    }
    var idx := r.Peek(x.bits);
    if x.gap && idx % 2 == 1 {
      return Fault, 0;
    }
    ghost var s := SingleEntry(x, b, stream);
    var ent := x.tables[0][idx];
    r.DumpBits(ent.b);
    st, j := Fine, ent.v;
  }

  lemma TableBits(x: Decoder, b: seq<nat>, stream: nat)
    requires LengthDecoder(x, b) && x.tables != [] && Resolves(x, b, 19, [], [], stream)
    ensures 0 < x.bits <= BMAX
  {
    hide Low, High, IsPrefix, Walk;
    assert Lookahead(x.tables, 0, x.bits, stream) >= x.bits;
    NoSecondTable(x.tables, x.bits, stream);
  }

  /** One round of the loop that reads the list: a symbol and its extra bits. */
  method ReadItem(r: Reader, x: Decoder, ghost b: seq<nat>) returns (st: Status, item: Item)
    requires r.Valid() && LengthDecoder(x, b)
    modifies r
    ensures r.Valid() && !st.Error?
    ensures st.Fine? ==> ItemAt(r.Bits(), b, old(r.At()), item, r.At())
    ensures st.Fault? ==> Stuck(Items(r.Bits(), b), old(r.At()))
    ensures st.NoInput? ==> r.Size() < old(r.At()) + 32
  {
    hide IsPrefix, Low, High, DecoderFor, Complete, Buffered, ItemAt, Stuck;
    ghost var s, a := r.Bits(), r.At();
    item := Length(0);
    var j;
    st, j := LookUp(r, x, b);
    if st.Fault? {
      NoItem(s, b, a);
    }
    if !st.Fine? {
      return;
    }
    if j < 16 {
      item := Length(j);
    } else {
      var extra := if j == 16 then 2 else if j == 17 then 3 else 7;
      var ok, n := r.TakeBits(extra);
      if !ok {
        return NoInput, item;
      }
      item := if j == 16 then Again(3 + n) else if j == 17 then Zeros(3 + n) else Zeros(11 + n);
    }
    ItemRead(s, b, a, j, item, r.At());
  }

  lemma ItemRead(s: nat, b: seq<nat>, a: nat, j: nat, item: Item, c: nat)
    requires LengthCodeOk(b) && j < 19 && IsPrefix(b, j, High(s, a))
    requires j < 16 ==> item == Length(j) && c == a + b[j]
    requires j == 16 ==> item == Again(3 + Low(High(s, a + b[j]), 2)) && c == a + b[j] + 2
    requires j == 17 ==> item == Zeros(3 + Low(High(s, a + b[j]), 3)) && c == a + b[j] + 3
    requires j == 18 ==> item == Zeros(11 + Low(High(s, a + b[j]), 7)) && c == a + b[j] + 7
    ensures ItemAt(s, b, a, item, c)
  {
    hide IsPrefix, Low, High;
  }

  lemma NoItem(s: nat, b: seq<nat>, a: nat)
    requires LengthCodeOk(b) && forall i: nat :: i < 19 ==> !IsPrefix(b, i, High(s, a))
    ensures Stuck(Items(s, b), a)
  {
    hide IsPrefix, ItemAt, High;
    forall item: Item, c: nat
      ensures !ItemAt(s, b, a, item, c)
    {
      if ItemAt(s, b, a, item, c) {
        var i := ItemSymbol(s, b, a, item, c);
      }
    }
  }

  /** A run of one length. */
  method Fill(ll: array<nat>, i: nat, times: nat, l: nat)
    requires i + times <= ll.Length
    modifies ll
    ensures ll[..i + times] == old(ll[..i]) + Repeat(l, times)
  {
    for j := 0 to times
      invariant ll[..i + j] == old(ll[..i]) + Repeat(l, j)
    {
      ll[i + j] := l;
      assert ll[..i + j + 1] == ll[..i + j] + [l];
    }
  }

  /** A list that is not long enough goes on where this one ends. */
  lemma StillToCome(s: nat, b: seq<nat>, at: nat, items: seq<Item>, m: nat, ys: seq<Item>, c: nat)
    requires Chain(Items(s, b), at, items, m) && Chain(Items(s, b), at, ys, c) && |Unrolled(items)| < |Unrolled(ys)|
    ensures |items| < |ys| && m <= c && !Stuck(Items(s, b), m)
  {
    hide ItemAt, Unrolled, Chain;
    ItemsExact(s, b);
    if |ys| <= |items| {
      assert |ys| == |items| ==> items[..|ys|] == items;
      ChainsAgree(Items(s, b), at, ys, c, items, m);
      if |ys| < |items| {
        UnrolledGrows(s, b, at, items, m, |ys|);
      }
    } else {
      ChainsAgree(Items(s, b), at, items, m, ys, c);
    }
  }

  /** A list that skips a number of lengths never comes back to it. */
  lemma Overrun(s: nat, b: seq<nat>, at: nat, items: seq<Item>, m: nat, item: Item, d: nat, ys: seq<Item>, c: nat)
    requires Chain(Items(s, b), at, items, m) && ItemAt(s, b, m, item, d) && Chain(Items(s, b), at, ys, c)
    ensures |Unrolled(items)| < |Unrolled(ys)| ==> |Unrolled(items + [item])| <= |Unrolled(ys)|
  {
    hide ItemAt, Unrolled, Chain;
    if |Unrolled(items)| < |Unrolled(ys)| {
      StillToCome(s, b, at, items, m, ys, c);
      ChainMore(Items(s, b), at, items, m, item, d);
      ItemsExact(s, b);
      var more := items + [item];
      ChainsAgree(Items(s, b), at, more, d, ys, c);
      if |more| < |ys| {
        UnrolledGrows(s, b, at, ys, c, |more|);
      } else {
        assert ys[..|more|] == ys;
      }
    }
  }

  lemma UnrolledMore(items: seq<Item>, item: Item)
    ensures Unrolled(items + [item]) == Extended(Unrolled(items), item)
  {
    var more := items + [item];
    assert more[..|more| - 1] == items;
  }

  /** From bit `at` no list of n lengths. */
  ghost predicate NoList(s: nat, b: seq<nat>, at: nat, n: nat) {
    forall ys, c: nat :: Chain(Items(s, b), at, ys, c) ==> |Unrolled(ys)| != n
  }

  /** A list of n lengths from bit `at` does not end 64 bits before the end of the input. */
  ghost predicate ListCut(s: nat, b: seq<nat>, at: nat, n: nat, size: nat) {
    forall ys, c: nat :: Chain(Items(s, b), at, ys, c) && |Unrolled(ys)| == n ==> size < c + 64
  }

  /** What stops the loop in the middle of the list. */
  lemma ListStops(s: nat, b: seq<nat>, at: nat, items: seq<Item>, m: nat, n: nat, size: nat)
    requires Chain(Items(s, b), at, items, m) && |Unrolled(items)| < n
    ensures Stuck(Items(s, b), m) ==> NoList(s, b, at, n)
    ensures size < m + 64 ==> ListCut(s, b, at, n, size)
    ensures forall item, d: nat :: ItemAt(s, b, m, item, d) && |Unrolled(items + [item])| > n ==> NoList(s, b, at, n)
  {
    hide ItemAt, Unrolled, Chain, Stuck;
    forall ys, c: nat | Chain(Items(s, b), at, ys, c) && |Unrolled(ys)| == n
      ensures m <= c && !Stuck(Items(s, b), m)
      ensures forall item, d: nat :: ItemAt(s, b, m, item, d) ==> |Unrolled(items + [item])| <= n
    {
      StillToCome(s, b, at, items, m, ys, c);
      forall item, d: nat | ItemAt(s, b, m, item, d)
        ensures |Unrolled(items + [item])| <= n
      {
        Overrun(s, b, at, items, m, item, d, ys, c);
      }
    }
  }

  lemma EmptyList(s: nat, b: seq<nat>, at: nat)
    ensures Chain(Items(s, b), at, [], at) && Unrolled([]) == []
  {
  }

  lemma ItemFacts(s: nat, b: seq<nat>, a: nat, item: Item, c: nat)
    requires ItemAt(s, b, a, item, c)
    ensures a < c && (item.Length? ==> item.x <= 15) && (item.Again? || item.Zeros? ==> item.times >= 3)
  {
    hide ItemAt;
    var i := ItemSymbol(s, b, a, item, c);
  }

  /** The n lengths of the list, one item after the other. */
  method ReadList(r: Reader, x: Decoder, ll: array<nat>, n: nat, ghost b: seq<nat>)
    returns (st: Status, ghost items: seq<Item>)
    requires r.Valid() && LengthDecoder(x, b) && n <= ll.Length
    modifies r, ll
    ensures r.Valid()
    ensures st.Fine? ==> Chain(Items(r.Bits(), b), old(r.At()), items, r.At()) && ll[..n] == Unrolled(items)
    ensures st.Fine? ==> forall i :: 0 <= i < n ==> ll[i] <= 15
    ensures st.Error? || st.Fault? ==> NoList(r.Bits(), b, old(r.At()), n)
    ensures st.NoInput? ==> ListCut(r.Bits(), b, old(r.At()), n, r.Size())
    ensures st.Error? ==> st.code == 1
  {
    hide LengthDecoder, Chain, ItemAt, Unrolled, NoList, ListCut, Stuck, Buffered;
    ghost var s, at := r.Bits(), r.At();
    items := [];
    EmptyList(s, b, at);
    var i: nat := 0;
    var l: nat := 0;
    assert ll[..0] == [];
    while i < n
      invariant i <= n && r.Valid() && Chain(Items(s, b), at, items, r.At()) && Unrolled(items) == ll[..i]
      invariant l == Last(ll[..i]) && l <= 15 && forall j :: 0 <= j < i ==> ll[j] <= 15
      decreases n - i
    {
      ghost var m := r.At();
      ListStops(s, b, at, items, m, n, r.Size());
      var item;
      st, item := ReadItem(r, x, b);
      if !st.Fine? {
        return;
      }
      ItemFacts(s, b, m, item, r.At());
      UnrolledMore(items, item);
      ChainMore(Items(s, b), at, items, m, item, r.At());
      ghost var was := ll[..i];
      if item.Length? {
        ll[i] := item.x;
        l, i := item.x, i + 1;
        assert ll[..i] == was + [l];
      } else {
        if i + item.times > n {
          return Error(1), items;
        }
        if item.Zeros? {
          l := 0;
        }
        Fill(ll, i, item.times, l);
        i := i + item.times;
      }
      items := items + [item];
    }
    st := Fine;
  }

  // ----- the whole header

  /** From bit `at` no header. */
  ghost predicate NoHeader(s: nat, at: nat) {
    forall z, m: nat :: !HeaderAt(s, at, z, m)
  }

  /** A header from bit `at` does not end 64 bits before the end of the input. */
  ghost predicate HeaderCut(s: nat, at: nat, size: nat) {
    forall z, m: nat :: HeaderAt(s, at, z, m) ==> size < m + 64
  }

  lemma CutInFront(s: nat, at: nat, size: nat)
    requires size < ListStart(s, at) + 64
    ensures HeaderCut(s, at, size)
  {
    hide HeaderAt, ListStart;
    forall z, m: nat | HeaderAt(s, at, z, m)
      ensures size < m + 64
    {
      HeaderAhead(s, at, z, m);
    }
  }

  lemma NoListNoHeader(s: nat, at: nat, size: nat)
    ensures var n := LitCodes(s, at) + DistCodes(s, at);
      && (NoList(s, HeaderCode(s, at), ListStart(s, at), n) ==> NoHeader(s, at))
      && (ListCut(s, HeaderCode(s, at), ListStart(s, at), n, size) ==> HeaderCut(s, at, size))
  {
    hide LitCodes, DistCodes, HeaderCode, ListStart, Chain, Unrolled, Usable, LengthsOk;
  }

  lemma BadHeader(s: nat, at: nat)
    requires LitCodes(s, at) > 286 || DistCodes(s, at) > 30 || !Usable(HeaderCode(s, at))
    ensures NoHeader(s, at)
  {
    hide ListAt, Usable, LengthsOk, LitCodes, DistCodes, HeaderCode;
  }

  lemma FieldBounds(s: nat, at: nat)
    ensures LitCodes(s, at) <= 288 && DistCodes(s, at) <= 32 && LengthCodes(s, at) <= 19
  {
    SmallPowers();
    LowBound(High(s, at), 5);
    LowBound(High(s, at + 5), 5);
    LowBound(High(s, at + 10), 4);
  }

  lemma LengthInput(b: seq<nat>)
    requires LengthCodeOk(b)
    ensures InputOk(b, 19, [], []) && Callable(b, 7) && forall i :: 0 <= i < |b| ==> b[i] <= 7
  {
  }

  /** The numbers of codes. */
  method ReadCounts(r: Reader) returns (ok: bool, nl: nat, nd: nat, nb: nat)
    requires r.Valid()
    modifies r
    ensures r.Valid()
    ensures ok ==> nl == LitCodes(r.Bits(), old(r.At())) && nd == DistCodes(r.Bits(), old(r.At()))
    ensures ok ==> nb == LengthCodes(r.Bits(), old(r.At())) && r.At() == old(r.At()) + 14
    ensures !ok ==> r.Size() < old(r.At()) + 14
  {
    hide High, Low, Buffered;
    nl, nd, nb := 0, 0, 0;
    ok, nl := r.TakeBits(5);
    if !ok {
      return;
    }
    ok, nd := r.TakeBits(5);
    if !ok {
      return;
    }
    ok, nb := r.TakeBits(4);
    nl, nd, nb := 257 + nl, 1 + nd, 4 + nb;
  }

  /** The code length code of a header with proper counts has too many code words. */
  ghost predicate CodeOverfull(s: nat, at: nat) {
    LitCodes(s, at) <= 286 && DistCodes(s, at) <= 30 && Oversubscribed(HeaderCode(s, at))
  }

  /** The first half of inflate_dynamic: the numbers of codes, the code length
      code, and the list of code lengths. */
  method ReadHeader(r: Reader, ll: array<nat>, budget: nat)
    returns (st: Status, nl: nat, nd: nat, ghost items: seq<Item>)
    requires r.Valid() && ll.Length == 316
    modifies r, ll
    ensures r.Valid()
    ensures st.Fine? ==> nl == LitCodes(r.Bits(), old(r.At())) <= 286 && nd == DistCodes(r.Bits(), old(r.At())) <= 30
    ensures st.Fine? ==> Usable(HeaderCode(r.Bits(), old(r.At())))
    ensures st.Fine? ==> ListAt(r.Bits(), old(r.At()), items, ll[..nl + nd], r.At())
    ensures st.Fine? ==> forall i :: 0 <= i < nl + nd ==> ll[i] <= 15
    ensures st.Error? ==> st.code <= 3
    ensures (st.Error? && st.code < 3) || st.Fault? ==> NoHeader(r.Bits(), old(r.At()))
    ensures st.Error? && st.code == 3 ==> budget <= ENOUGH_TABLES
    ensures st.Error? ==> (st.code == 2 <==> CodeOverfull(r.Bits(), old(r.At()))) && st.code > 0
    ensures st.NoInput? ==> HeaderCut(r.Bits(), old(r.At()), r.Size())
  {
    hide LitCodes, DistCodes, LengthCodes, LengthCode, NoHeader, HeaderCut, NoList, ListCut, DecoderFor, Usable,
      Complete, Oversubscribed, Chain, Unrolled, Buffered;
    items := [];
    ghost var s, at := r.Bits(), r.At();
    FieldBounds(s, at);
    NoListNoHeader(s, at, r.Size());
    var ok, nb;
    ok, nl, nd, nb := ReadCounts(r);
    if !ok {
      CutInFront(s, at, r.Size());
      return NoInput, 0, 0, [];
    }
    if nl > 286 || nd > 30 {
      BadHeader(s, at);
      return Error(1), 0, 0, [];
    }
    ok := ReadLengthCode(r, ll, nb);
    if !ok {
      CutInFront(s, at, r.Size());
      return NoInput, 0, 0, [];
    }
    ghost var b := HeaderCode(s, at);
    LengthInput(b);
    var rc, x := MakeDecoder(ll[..19], 19, [], [], 7, budget);
    if rc != 0 {
      if rc < 3 {
        BadHeader(s, at);
      }
      return Error(rc), 0, 0, [];
    }
    st, items := ReadList(r, x, ll, nl + nd, b);
  }
}
