/** block_write_partial_page of fs/buffer.c: a write into a page, block by block. */
module PageWrite {
  import opened Bytes

  const PAGE_SIZE: nat := 4096
  const EIO := 5

  /** The bits of a buffer head that matter here. */
  datatype Buffer = Buffer(mapped: bool, uptodate: bool, isNew: bool, dirty: bool)

  /** What get_block says about a block that is not mapped. */
  datatype Get = Fails(err: int) | Maps(made: bool)

  /** One write: block size and number, where, what, and what the file system and
      the disk will answer. */
  datatype Write = Write(bs: nat, blocks: nat, offset: nat, data: seq<Byte>, gets: nat -> Get, readOk: nat -> bool,
      disk: seq<Byte>)

  ghost predicate Fits(w: Write) {
    && w.bs > 0 && w.blocks * w.bs == PAGE_SIZE && |w.disk| == PAGE_SIZE
    && w.data != [] && w.offset + |w.data| <= PAGE_SIZE
    && forall k :: w.gets(k).Fails? ==> w.gets(k).err < 0
  }

  function Stop(w: Write): nat {
    w.offset + |w.data|
  }

  /** Where block i starts in the page. */
  function Base(w: Write, i: nat): nat {
    i * w.bs
  }

  /** Block k has bytes of the write. */
  predicate Touched(w: Write, k: nat) {
    Base(w, k) < Stop(w) && w.offset < Base(w, k) + w.bs
  }

  /** The block has just been allocated by the file system. */
  predicate IsNew(w: Write, b: Buffer, k: nat) {
    b.isNew || (!b.mapped && w.gets(k) == Maps(true))
  }

  /** The error for a block: it cannot be mapped, or it is needed from disk and cannot be
      read. */
  function BlockError(w: Write, b: Buffer, k: nat): int {
    if !b.mapped && w.gets(k).Fails? then w.gets(k).err
    else if !b.uptodate && !IsNew(w, b, k) && !Covered(w, k) && !w.readOk(k) then -EIO
    else 0
  }

  /** The write covers all of block k. */
  predicate Covered(w: Write, k: nat) {
    w.offset <= Base(w, k) && Base(w, k) + w.bs <= Stop(w)
  }

  /** The buffer of a block that has been written. */
  function Written(w: Write, b: Buffer, k: nat): Buffer {
    Buffer(true, true, IsNew(w, b, k), true)
  }

  /** Byte x of block k after the write: the user's byte in the range, and elsewhere
      what the block held: in the page, on disk, or zero when it is new. */
  ghost function Expected(w: Write, page: seq<Byte>, b: Buffer, k: nat, x: nat): Byte
    requires Fits(w) && |page| == PAGE_SIZE && x < PAGE_SIZE
  {
    if w.offset <= x < Stop(w) then w.data[x - w.offset]
    else if !Touched(w, k) || b.uptodate then page[x]
    else if IsNew(w, b, k) then 0
    else w.disk[x]
  }

  ghost predicate BlockDone(w: Write, old_: seq<Byte>, page: seq<Byte>, b: Buffer, k: nat)
    requires Fits(w) && |old_| == PAGE_SIZE && |page| == PAGE_SIZE
  {
    forall x: nat :: Base(w, k) <= x < Base(w, k) + w.bs && x < PAGE_SIZE ==> page[x] == Expected(w, old_, b, k, x)
  }

  /** Nothing outside block i has changed. */
  ghost predicate OnlyBlock(w: Write, p: seq<Byte>, p': seq<Byte>, i: nat)
    requires |p| == |p'| == PAGE_SIZE
  {
    forall x :: 0 <= x < PAGE_SIZE && !(Base(w, i) <= x < Base(w, i) + w.bs) ==> p'[x] == p[x]
  }

  lemma Quotient(x: nat, bs: nat)
    requires bs > 0
    ensures x / bs * bs <= x < x / bs * bs + bs && x % bs == x - x / bs * bs
  {
  }

  lemma Order(i: nat, j: nat, bs: nat)
    ensures i < j ==> i * bs + bs <= j * bs
    ensures i <= j ==> i * bs <= j * bs
  {
    if i < j {
      Grow(i + 1, j, bs);
      assert (i + 1) * bs == i * bs + bs;
    } else if i == j {
      Grow(i, j, bs);
    }
  }

  lemma Grow(a: nat, b: nat, c: nat)
    requires a <= b
    ensures a * c <= b * c
  {
  }

  function StartBlock(w: Write): nat
    requires w.bs > 0
  {
    w.offset / w.bs
  }

  function EndBlock(w: Write): nat
    requires w.bs > 0 && Stop(w) > 0
  {
    (Stop(w) - 1) / w.bs
  }

  /** The blocks between the first and the last are those with bytes of the write. */
  lemma TouchedIs(w: Write, i: nat)
    requires Fits(w)
    ensures StartBlock(w) <= i <= EndBlock(w) <==> Touched(w, i)
  {
    Quotient(w.offset, w.bs);
    Quotient(Stop(w) - 1, w.bs);
    Order(i, StartBlock(w), w.bs);
    Order(StartBlock(w), i, w.bs);
    Order(i, EndBlock(w), w.bs);
    Order(EndBlock(w), i, w.bs);
  }

  function Low(w: Write, i: nat): nat {
    if w.offset > Base(w, i) then w.offset else Base(w, i)
  }

  function High(w: Write, i: nat): nat {
    if Stop(w) < Base(w, i) + w.bs then Stop(w) else Base(w, i) + w.bs
  }

  /** start_bytes and end_bytes */
  function StartBytes(w: Write): nat
    requires w.bs > 0
  {
    var n := w.bs - w.offset % w.bs;
    if n > |w.data| then |w.data| else n
  }

  function EndBytes(w: Write): nat
    requires w.bs > 0
  {
    var n := Stop(w) % w.bs;
    if n > |w.data| then |w.data| else n
  }

  /** The length computed for a block is that of the write's bytes in it, and the block
      counts as partly written when it is not covered. */
  lemma LengthIs(w: Write, i: nat, startOffset: nat, endBytes: nat)
    requires Fits(w) && Touched(w, i)
    requires startOffset == (if i == StartBlock(w) then w.offset % w.bs else 0) && endBytes == EndBytes(w)
    ensures var len :=
        if startOffset != 0 then StartBytes(w)
        else if endBytes != 0 && i == EndBlock(w) then endBytes
        else w.bs;
      len == High(w, i) - Low(w, i)
    ensures startOffset != 0 || (endBytes != 0 && i == EndBlock(w)) <==> High(w, i) - Low(w, i) < w.bs
  {
    TouchedIs(w, i);
    Quotient(w.offset, w.bs);
    Quotient(Stop(w) - 1, w.bs);
    Quotient(Stop(w), w.bs);
    Order(StartBlock(w), i, w.bs);
    Order(i, EndBlock(w), w.bs);
    LastBlock(w);
  }

  /** The end of the write in its last block. */
  lemma LastBlock(w: Write)
    requires Fits(w)
    ensures Stop(w) % w.bs == 0 ==> Stop(w) == EndBlock(w) * w.bs + w.bs
    ensures Stop(w) % w.bs != 0 ==> Stop(w) % w.bs == Stop(w) - EndBlock(w) * w.bs
  {
    Quotient(Stop(w) - 1, w.bs);
    Quotient(Stop(w), w.bs);
    Order(Stop(w) / w.bs, EndBlock(w), w.bs);
    Order(EndBlock(w), Stop(w) / w.bs, w.bs);
    Order(EndBlock(w) + 1, Stop(w) / w.bs, w.bs);
    assert (EndBlock(w) + 1) * w.bs == EndBlock(w) * w.bs + w.bs;
  }

  /** The page when the block at `base` has been made ready. */
  function Ready(w: Write, page: seq<Byte>, b: Buffer, isNew: bool, base: nat, partly: bool): (r: seq<Byte>)
    requires Fits(w) && base + w.bs <= |page| == PAGE_SIZE
    ensures |r| == |page|
  {
    if b.uptodate || !partly then page
    else if isNew then Patched(page, base, seq(w.bs, _ => 0))
    else Patched(page, base, w.disk[base..base + w.bs])
  }

  /** A block that the write touches: mapped, made ready, and its bytes copied. */
  method DoBlock(page: array<Byte>, w: Write, b: Buffer, i: nat, partly: bool) returns (err: int, b': Buffer)
    requires Fits(w) && page.Length == PAGE_SIZE && i < w.blocks && Touched(w, i)
    requires partly <==> High(w, i) - Low(w, i) < w.bs
    modifies page
    ensures OnlyBlock(w, old(page[..]), page[..], i)
    ensures err == BlockError(w, b, i)
    ensures err == 0 ==> BlockDone(w, old(page[..]), page[..], b, i) && b' == Written(w, b, i)
    ensures err != 0 ==> err < 0 && page[..] == old(page[..])
  {
    PartlyIs(w, i);
    hide Covered, BlockDone, OnlyBlock, Patched, Low, High, Touched, Ready, Fits, Base;
    Span(w, i);
    BlockInPage(w, i);
    ghost var p0 := page[..];
    SamePage(w, p0, i);
    var base, lo, hi := Base(w, i), Low(w, i), High(w, i);
    ReadyIs(w, p0, b, IsNew(w, b, i), base, partly);
    b', err := b, 0;
    if !b'.mapped {
      match w.gets(i) {
        case Fails(e) =>
          return e, b';
        case Maps(made) =>
          b' := b'.(mapped := true, isNew := b'.isNew || made);
      }
    }
    if !b'.uptodate && partly {
      if b'.isNew {
        CopyIn(page, base, seq(w.bs, _ => 0));
      } else {
        if !w.readOk(i) {
          return -EIO, b';
        }
        CopyIn(page, base, w.disk[base..base + w.bs]);
        b' := b'.(uptodate := true);
      }
    }
    ghost var p1 := page[..];
    assert p1 == Ready(w, p0, b, IsNew(w, b, i), base, partly);
    CopyIn(page, lo, w.data[lo - w.offset..hi - w.offset]);
    BlockWritten(w, p0, p1, page[..], b, i, partly);
    b' := b'.(uptodate := true, dirty := true);
  }

  lemma PartlyIs(w: Write, i: nat)
    requires Fits(w) && Touched(w, i)
    ensures High(w, i) - Low(w, i) < w.bs <==> !Covered(w, i)
  {
  }

  lemma BlockInPage(w: Write, i: nat)
    requires Fits(w) && i < w.blocks
    ensures Base(w, i) + w.bs <= PAGE_SIZE && forall k :: w.gets(k).Fails? ==> w.gets(k).err < 0
  {
    Order(i, w.blocks, w.bs);
  }

  lemma ReadyIs(w: Write, p0: seq<Byte>, b: Buffer, isNew: bool, base: nat, partly: bool)
    requires Fits(w) && base + w.bs <= |p0| == PAGE_SIZE
    ensures b.uptodate || !partly ==> Ready(w, p0, b, isNew, base, partly) == p0
    ensures !b.uptodate && partly && isNew ==>
      Ready(w, p0, b, isNew, base, partly) == Patched(p0, base, seq(w.bs, _ => 0))
    ensures !b.uptodate && partly && !isNew ==>
      Ready(w, p0, b, isNew, base, partly) == Patched(p0, base, w.disk[base..base + w.bs])
  {
  }

  lemma BlockWritten(w: Write, p0: seq<Byte>, p1: seq<Byte>, p2: seq<Byte>, b: Buffer, i: nat, partly: bool)
    requires Fits(w) && |p0| == |p1| == PAGE_SIZE && Touched(w, i) && Base(w, i) + w.bs <= PAGE_SIZE
    requires partly <==> High(w, i) - Low(w, i) < w.bs
    requires p1 == Ready(w, p0, b, IsNew(w, b, i), Base(w, i), partly)
    requires p2 == Patched(p1, Low(w, i), w.data[Low(w, i) - w.offset..High(w, i) - w.offset])
    ensures BlockDone(w, p0, p2, b, i)
    ensures OnlyBlock(w, p0, p2, i)
  {
    hide Expected, Low, High, Touched, Ready, Patched, IsNew, Fits, Base;
    Span(w, i);
    forall x: nat | x < PAGE_SIZE
      ensures if Base(w, i) <= x < Base(w, i) + w.bs then p2[x] == Expected(w, p0, b, i, x) else p2[x] == p0[x]
    {
      if Base(w, i) <= x < Base(w, i) + w.bs {
        SpanAt(w, i, x);
      }
      ByteWritten(w, p0, p1, p2, b, i, Base(w, i), Low(w, i), High(w, i), partly, x);
    }
  }

  /** Where the write's bytes in block i are. */
  lemma Span(w: Write, i: nat)
    requires Fits(w) && Touched(w, i)
    ensures var base, lo, hi := Base(w, i), Low(w, i), High(w, i);
      && w.bs > 0 && |w.disk| == PAGE_SIZE && base <= lo < hi <= base + w.bs && w.offset <= lo
      && hi <= Stop(w) <= PAGE_SIZE
  {
    hide Base;
  }

  lemma SpanAt(w: Write, i: nat, x: nat)
    requires Fits(w) && Touched(w, i) && Base(w, i) <= x < Base(w, i) + w.bs
    ensures w.offset <= x < Stop(w) <==> Low(w, i) <= x < High(w, i)
  {
    hide Base;
  }

  lemma ByteWritten(w: Write, p0: seq<Byte>, p1: seq<Byte>, p2: seq<Byte>, b: Buffer, i: nat, base: nat, lo: nat,
      hi: nat, partly: bool, x: nat)
    requires Fits(w) && |p0| == |p1| == PAGE_SIZE && Touched(w, i) && base + w.bs <= PAGE_SIZE && x < PAGE_SIZE
    requires base <= lo < hi <= base + w.bs && w.offset <= lo && hi <= Stop(w) && (partly <==> hi - lo < w.bs)
    requires base <= x < base + w.bs ==> (w.offset <= x < Stop(w) <==> lo <= x < hi)
    requires p1 == Ready(w, p0, b, IsNew(w, b, i), base, partly)
    requires p2 == Patched(p1, lo, w.data[lo - w.offset..hi - w.offset])
    ensures |p2| == PAGE_SIZE && if base <= x < base + w.bs then p2[x] == Expected(w, p0, b, i, x) else p2[x] == p0[x]
  {
    hide Patched, Ready, IsNew, Touched, Fits;
    PatchedAt(p1, lo, w.data[lo - w.offset..hi - w.offset], x);
    ReadyAt(w, p0, b, i, base, partly, x);
  }

  lemma ReadyAt(w: Write, p0: seq<Byte>, b: Buffer, i: nat, base: nat, partly: bool, x: nat)
    requires Fits(w) && base + w.bs <= |p0| == PAGE_SIZE && x < PAGE_SIZE
    ensures var p1 := Ready(w, p0, b, IsNew(w, b, i), base, partly);
      p1[x] ==
        if b.uptodate || !partly || !(base <= x < base + w.bs) then p0[x]
        else if IsNew(w, b, i) then 0
        else w.disk[x]
  {
    PatchedAt(p0, base, seq(w.bs, _ => 0), x);
    PatchedAt(p0, base, w.disk[base..base + w.bs], x);
  }

  /** What has been done up to block i. */
  ghost predicate Half(w: Write, p0: seq<Byte>, page: seq<Byte>, bufs0: seq<Buffer>, bufs: seq<Buffer>, i: nat)
    requires Fits(w) && |p0| == PAGE_SIZE && |page| == PAGE_SIZE
  {
    && |bufs0| == |bufs| == w.blocks && i <= w.blocks
    && (forall k :: 0 <= k < i ==> BlockDone(w, p0, page, bufs0[k], k))
    && (forall x :: Base(w, i) <= x < PAGE_SIZE ==> page[x] == p0[x])
    && (forall k :: 0 <= k < i ==> bufs[k] == if Touched(w, k) then Written(w, bufs0[k], k) else bufs0[k])
    && (forall k :: i <= k < w.blocks ==> bufs[k] == bufs0[k])
  }

  /** A block done stays done when a later one is written. */
  lemma NextHalf(w: Write, p0: seq<Byte>, p: seq<Byte>, p': seq<Byte>, bufs0: seq<Buffer>, bufs: seq<Buffer>, i: nat,
      b: Buffer)
    requires Fits(w) && |p0| == |p| == |p'| == PAGE_SIZE && i < w.blocks && Half(w, p0, p, bufs0, bufs, i)
    requires OnlyBlock(w, p, p', i)
    requires BlockDone(w, p, p', bufs0[i], i)
    requires b == if Touched(w, i) then Written(w, bufs0[i], i) else bufs0[i]
    ensures Half(w, p0, p', bufs0, bufs[i := b], i + 1)
  {
    hide BlockDone, Touched, OnlyBlock;
    assert (i + 1) * w.bs == Base(w, i) + w.bs;
    forall k | 0 <= k < i + 1
      ensures BlockDone(w, p0, p', bufs0[k], k)
    {
      if k < i {
        StaysDone(w, p0, p, p', bufs0[k], k, i);
      } else {
        FirstDone(w, p0, p, p', bufs0[i], i);
      }
    }
    RestSame(w, p0, p, p', i);
  }

  lemma StaysDone(w: Write, p0: seq<Byte>, p: seq<Byte>, p': seq<Byte>, b: Buffer, k: nat, i: nat)
    requires Fits(w) && |p0| == |p| == |p'| == PAGE_SIZE && k < i && BlockDone(w, p0, p, b, k) && OnlyBlock(w, p, p', i)
    ensures BlockDone(w, p0, p', b, k)
  {
    hide Touched, IsNew;
    Order(k, i, w.bs);
  }

  lemma FirstDone(w: Write, p0: seq<Byte>, p: seq<Byte>, p': seq<Byte>, b: Buffer, i: nat)
    requires Fits(w) && |p0| == |p| == |p'| == PAGE_SIZE && BlockDone(w, p, p', b, i)
    requires forall x :: Base(w, i) <= x < PAGE_SIZE ==> p[x] == p0[x]
    ensures BlockDone(w, p0, p', b, i)
  {
    hide Touched, IsNew;
  }

  lemma RestSame(w: Write, p0: seq<Byte>, p: seq<Byte>, p': seq<Byte>, i: nat)
    requires |p0| == |p| == |p'| == PAGE_SIZE && OnlyBlock(w, p, p', i)
    requires forall x :: Base(w, i) <= x < PAGE_SIZE ==> p[x] == p0[x]
    ensures forall x :: Base(w, i) + w.bs <= x < PAGE_SIZE ==> p'[x] == p0[x]
  {
  }

  /** A block outside the write is left alone. */
  lemma SkipDone(w: Write, p: seq<Byte>, b: Buffer, i: nat)
    requires Fits(w) && |p| == PAGE_SIZE && !Touched(w, i)
    ensures BlockDone(w, p, p, b, i) && OnlyBlock(w, p, p, i)
  {
  }

  lemma SamePage(w: Write, p: seq<Byte>, i: nat)
    requires |p| == PAGE_SIZE
    ensures OnlyBlock(w, p, p, i)
  {
  }

  lemma FitsFacts(w: Write)
    requires Fits(w)
    ensures w.bs > 0 && Stop(w) > 0 && StartBlock(w) <= EndBlock(w)
  {
    Quotient(w.offset, w.bs);
    Quotient(Stop(w) - 1, w.bs);
    Order(EndBlock(w), StartBlock(w), w.bs);
  }

  /** block_write_partial_page; `upToDate` is the bit of the page. */
  method WritePartialPage(page: array<Byte>, bufs0: seq<Buffer>, w: Write, upToDate0: bool)
    returns (result: int, bufs: seq<Buffer>, upToDate: bool)
    requires Fits(w) && page.Length == PAGE_SIZE && |bufs0| == w.blocks
    modifies page
    ensures result == |w.data| || (result < 0 && !upToDate)
    ensures result == |w.data| <==> NoError(w, bufs0, w.blocks)
    ensures result == |w.data| ==> Half(w, old(page[..]), page[..], bufs0, bufs, w.blocks)
    ensures result == |w.data| ==> |bufs| == w.blocks && (upToDate <==> upToDate0 || AllUptodate(bufs, w.blocks))
    ensures result < 0 ==>
      exists k: nat :: FailsAt(w, bufs0, k, result) && Half(w, old(page[..]), page[..], bufs0, bufs, k)
  {
    hide NoError, BlockError, IsNew, Half, BlockDone, Touched, OnlyBlock, Fits, StartBlock, EndBlock, StartBytes,
      EndBytes, High, Low, AllUptodate;
    FitsFacts(w);
    var startBlock, endBlock := StartBlock(w), EndBlock(w);
    var startOffset, startBytes, endBytes := w.offset % w.bs, StartBytes(w), EndBytes(w);
    ghost var p0 := page[..];
    var i, partial := 0, false;
    bufs := bufs0;
    HalfStart(w, p0, bufs0);
    NothingFails(w, bufs0);
    while i < w.blocks
      invariant 0 <= i <= w.blocks && |bufs| == w.blocks && Half(w, p0, page[..], bufs0, bufs, i)
      invariant startOffset == (if i <= startBlock then w.offset % w.bs else 0)
      invariant i <= endBlock ==> endBytes == EndBytes(w)
      invariant !partial <==> AllUptodate(bufs, i)
      invariant NoError(w, bufs0, i)
    {
      MoreBlocks(w, bufs0, i);
      TouchedIs(w, i);
      HalfAt(w, p0, page[..], bufs0, bufs, i);
      ghost var p := page[..];
      if i < startBlock || i > endBlock {
        if !bufs[i].uptodate {
          partial := true;
        }
        SkipDone(w, p, bufs0[i], i);
        NextHalf(w, p0, p, p, bufs0, bufs, i, bufs[i]);
        OneMoreUptodate(bufs, i, bufs[i]);
        assert bufs[i := bufs[i]] == bufs;
      } else {
        LengthIs(w, i, startOffset, endBytes);
        var err, b := DoBlock(page, w, bufs[i], i, startOffset != 0 || (endBytes != 0 && i == endBlock));
        if err != 0 {
          StillError(w, bufs0, i, w.blocks);
          assert FailsAt(w, bufs0, i, err);
          return err, bufs, false;
        }
        NextHalf(w, p0, p, page[..], bufs0, bufs, i, b);
        if startOffset != 0 {
          startOffset := 0;
        } else if endBytes != 0 && i == endBlock {
          endBytes := 0;
        }
        OneMoreUptodate(bufs, i, b);
        bufs := bufs[i := b];
      }
      i := i + 1;
    }
    upToDate := upToDate0 || !partial;
    result := |w.data|;
  }

  /** No block of the write up to i fails. */
  ghost predicate NoError(w: Write, bufs: seq<Buffer>, i: nat) {
    i <= |bufs| && forall k :: 0 <= k < i && Touched(w, k) ==> BlockError(w, bufs[k], k) == 0
  }

  /** Block k is the first that fails. */
  ghost predicate FailsAt(w: Write, bufs: seq<Buffer>, k: nat, err: int) {
    k < |bufs| && Touched(w, k) && NoError(w, bufs, k) && err == BlockError(w, bufs[k], k) < 0
  }

  lemma MoreBlocks(w: Write, bufs: seq<Buffer>, i: nat)
    requires NoError(w, bufs, i) && i < |bufs|
    ensures NoError(w, bufs, i + 1) <==> !Touched(w, i) || BlockError(w, bufs[i], i) == 0
  {
    hide BlockError, Touched;
  }

  lemma StillError(w: Write, bufs: seq<Buffer>, i: nat, n: nat)
    requires i < n <= |bufs| && Touched(w, i) && BlockError(w, bufs[i], i) != 0
    ensures !NoError(w, bufs, n)
  {
    hide BlockError, Touched;
  }

  lemma NothingFails(w: Write, bufs: seq<Buffer>)
    ensures NoError(w, bufs, 0)
  {
  }

  /** The first i buffers are up to date. */
  ghost predicate AllUptodate(bufs: seq<Buffer>, i: nat)
    requires i <= |bufs|
  {
    forall k :: 0 <= k < i ==> bufs[k].uptodate
  }

  lemma OneMoreUptodate(bufs: seq<Buffer>, i: nat, b: Buffer)
    requires i < |bufs|
    ensures AllUptodate(bufs[i := b], i + 1) <==> AllUptodate(bufs, i) && b.uptodate
  {
    var bufs' := bufs[i := b];
    assert forall k :: 0 <= k < i ==> bufs'[k] == bufs[k];
    if AllUptodate(bufs', i + 1) {
      assert bufs'[i].uptodate;
      forall k | 0 <= k < i
        ensures bufs[k].uptodate
      {
        assert bufs'[k].uptodate;
      }
    }
  }

  lemma HalfStart(w: Write, p0: seq<Byte>, bufs0: seq<Buffer>)
    requires Fits(w) && |p0| == PAGE_SIZE && |bufs0| == w.blocks
    ensures Half(w, p0, p0, bufs0, bufs0, 0) && AllUptodate(bufs0, 0)
  {
  }

  lemma HalfAt(w: Write, p0: seq<Byte>, p: seq<Byte>, bufs0: seq<Buffer>, bufs: seq<Buffer>, i: nat)
    requires Fits(w) && |p0| == |p| == PAGE_SIZE && i < w.blocks && Half(w, p0, p, bufs0, bufs, i)
    ensures |bufs| == |bufs0| == w.blocks && bufs[i] == bufs0[i]
  {
  }
}
