/** The boot-time allocator of mm/bootmem.c: a bitmap of pages, and the tail of
    the last allocation that the next one may be merged into. */
module Bootmem {
  import opened Options

  const PAGE_SIZE: nat := 4096

  /** 2^32 bytes of memory at most. */
  const MAX_PAGES: nat := 0x10_0000
  const WORD: nat := 0x1_0000_0000

  /** A power of two up to a page. */
  predicate GoodAlign(align: nat) {
    align in {1, 2, 4, 8, 16, 32, 64, 128, 256, 512, 1024, 2048, 4096}
  }

  /** x rounded up to a multiple of a power of two. */
  function AlignUp(x: nat, align: nat): nat
    requires align > 0
  {
    (x + align - 1) / align * align
  }

  lemma AlignPage(align: nat) returns (k: nat)
    requires GoodAlign(align)
    ensures k * align == PAGE_SIZE
  {
    k := PAGE_SIZE / align;
  }

  lemma AlignFacts(x: nat, align: nat)
    requires GoodAlign(align) && x < PAGE_SIZE
    ensures x <= AlignUp(x, align) <= PAGE_SIZE && AlignUp(x, align) % align == 0 && AlignUp(x, align) < x + align
  {
    hide GoodAlign;
    var k := AlignPage(align);
    var q := (x + align - 1) / align;
    assert align > 0 by { Positive(align); }
    Quotient(x + align - 1, align);
    MulMono(k + 1, q, align);
    MulMono(q, k, align);
    assert (k + 1) * align == k * align + align;
    Multiple(q, align);
  }

  lemma Positive(align: nat)
    requires GoodAlign(align)
    ensures align > 0
  {
  }

  lemma Quotient(a: nat, b: nat)
    requires b > 0
    ensures a / b * b <= a < a / b * b + b
  {
  }

  lemma MulMono(a: nat, b: nat, c: nat)
    ensures a <= b ==> a * c <= b * c
  {
  }

  lemma {:induction false} Multiple(q: nat, a: nat)
    requires a > 0
    ensures q * a % a == 0
  {
    var x := q * a;
    Quotient(x, a);
    var d := x / a;
    MulMono(d + 1, q, a);
    MulMono(q + 1, d, a);
    assert (d + 1) * a == d * a + a && (q + 1) * a == q * a + a;
    Remainder(x, a);
  }

  lemma Remainder(x: nat, a: nat)
    requires a > 0
    ensures x % a == x - x / a * a
  {
  }

  /** A page boundary plus an aligned offset is aligned. */
  lemma AlignedAt(page: nat, offset: nat, align: nat)
    requires GoodAlign(align) && offset % align == 0
    ensures (page * PAGE_SIZE + offset) % align == 0
  {
    var k := AlignPage(align);
    var q := offset / align;
    Remainder(offset, align);
    Regroup(page, k, q, align);
    Multiple(page * k + q, align);
  }

  lemma Regroup(page: nat, k: nat, q: nat, a: nat)
    ensures page * (k * a) + q * a == (page * k + q) * a
  {
    assert page * (k * a) == (page * k) * a;
  }

  /** A range of bytes handed out. */
  datatype Range = Range(addr: nat, size: nat)

  function End(r: Range): nat {
    r.addr + r.size
  }

  predicate Disjoint(a: Range, b: Range) {
    End(a) <= b.addr || End(b) <= a.addr
  }

  /** The range lies in reserved pages. */
  ghost predicate InReserved(map_: seq<bool>, r: Range) {
    forall p: nat :: Touches(r, p) ==> p < |map_| && map_[p]
  }

  /** The range has a byte in page p. */
  predicate Touches(r: Range, p: nat) {
    r.size > 0 && r.addr < (p + 1) * PAGE_SIZE && p * PAGE_SIZE < End(r)
  }

  /** The tail of page `pos` from `offset` on is reserved and belongs to nobody. */
  ghost predicate TailFree(map_: seq<bool>, allocs: seq<Range>, pos: nat, offset: nat) {
    offset < PAGE_SIZE && (offset != 0 ==>
      && pos < |map_| && map_[pos] && (exists k :: 0 <= k < |allocs| && Touches(allocs[k], pos))
      && forall k :: 0 <= k < |allocs| ==>
        End(allocs[k]) <= pos * PAGE_SIZE + offset || (pos + 1) * PAGE_SIZE <= allocs[k].addr)
  }

  /** What has been handed out is reserved and disjoint. */
  ghost predicate Sound(map_: seq<bool>, allocs: seq<Range>) {
    && (forall k :: 0 <= k < |allocs| ==> allocs[k].size > 0 && InReserved(map_, allocs[k]))
    && (forall j, k :: 0 <= j < k < |allocs| ==> Disjoint(allocs[j], allocs[k]))
  }

  ghost predicate AllFree(map_: seq<bool>, start: nat, n: nat) {
    start + n <= |map_| && forall p :: start <= p < start + n ==> !map_[p]
  }

  /** A run of n free pages from s on that a pass from page `lo` sees.  A pass that takes
      over a stretch of free pages from the pass before is blind up to the first
      reserved page. */
  ghost predicate Visible(map_: seq<bool>, lo: nat, n: nat, blind: bool, s: nat) {
    lo <= s && AllFree(map_, s, n) && (blind ==> exists p :: 0 <= p < s && p < |map_| && map_[p])
  }

  ghost predicate AnyVisible(map_: seq<bool>, lo: nat, n: nat, blind: bool) {
    exists s: nat :: Visible(map_, lo, n, blind, s)
  }

  /** No run that the pass sees ends before page i. */
  ghost predicate NoneBefore(map_: seq<bool>, lo: nat, n: nat, blind: bool, i: nat) {
    forall s: nat :: Visible(map_, lo, n, blind, s) ==> s + n > i
  }

  /** Where a stretch of free pages can start. */
  ghost predicate Edge(map_: seq<bool>, lo: nat, blind: bool, s: nat) {
    (s == lo && !blind) || (lo < s <= |map_| && map_[s - 1])
  }

  /** The last page is free, so the scan ends in a stretch of free pages. */
  predicate Open(map_: seq<bool>) {
    map_ != [] && !map_[|map_| - 1]
  }

  lemma NotInRun(m: seq<bool>, s: nat, n: nat, p: nat)
    requires AllFree(m, s, n) && p < |m| && m[p]
    ensures p < s || s + n <= p
  {
  }

  /** A stretch that is not long enough yet ends no run. */
  lemma StillNone(m: seq<bool>, lo: nat, n: nat, blind: bool, start: nat, i: nat)
    requires NoneBefore(m, lo, n, blind, i) && Edge(m, lo, blind, start) && start <= i < |m| && i - start + 1 < n
    ensures NoneBefore(m, lo, n, blind, i + 1)
  {
    forall s: nat | Visible(m, lo, n, blind, s)
      ensures s + n > i + 1
    {
      if start > lo {
        NotInRun(m, s, n, start - 1);
      }
    }
  }

  lemma SeesEdge(m: seq<bool>, lo: nat, n: nat, blind: bool, s: nat)
    requires Edge(m, lo, blind, s) && AllFree(m, s, n)
    ensures Visible(m, lo, n, blind, s)
  {
  }

  /** One pass of the scan; area and start are what the pass before has left.  It finds
      the first run that it sees. */
  method ScanFrom(bits: array<bool>, preferred: nat, areasize: nat, area0: bool, start0: nat)
    returns (found: bool, area: bool, start: nat)
    requires preferred <= bits.Length <= MAX_PAGES && 0 < areasize <= MAX_PAGES && (area0 ==> preferred == 0)
    requires area0 ==> start0 < bits.Length < start0 + areasize && Open(bits[..])
    ensures found <==> AnyVisible(bits[..], preferred, areasize, area0)
    ensures found ==> Visible(bits[..], preferred, areasize, area0, start)
    ensures found ==> NoneBefore(bits[..], preferred, areasize, area0, start + areasize - 1)
    ensures !found ==> (area <==> preferred < bits.Length && Open(bits[..]))
    ensures !found && area ==> start < bits.Length < start + areasize
  {
    hide Visible, NoneBefore, AllFree;
    found, area, start := false, area0, start0;
    var i := preferred;
    ghost var m, blind := bits[..], area0;
    NoneAtFirst(m, preferred, areasize, area0);
    while i < bits.Length
      invariant preferred <= i <= bits.Length && m == bits[..] && NoneBefore(m, preferred, areasize, area0, i)
      invariant blind ==> area0 && area && start == start0 && forall p :: 0 <= p < i ==> !m[p]
      invariant !blind && area ==> start < i && i - start < areasize && Edge(m, preferred, area0, start)
      invariant !blind && area ==> forall p :: start <= p < i ==> !m[p]
      invariant !blind && !area ==> Edge(m, preferred, area0, i)
    {
      assert bits[i] == m[i];
      if !bits[i] {
        if !area {
          area, start := true, i;
        }
        if (i - start + 1) % WORD == areasize {
          assert AllFree(m, start, areasize) by { IsFree(m, start, areasize); }
          SeesEdge(m, preferred, areasize, area0, start);
          return true, area, start;
        }
        if blind {
          BlindStep(m, areasize, i);
        } else {
          StillNone(m, preferred, areasize, area0, start, i);
        }
      } else {
        ReservedStep(m, preferred, areasize, area0, i);
        area, start, blind := false, WORD - 1, false;
      }
      i := i + 1;
    }
    NoneAtAll(m, preferred, areasize, area0);
  }

  lemma IsFree(m: seq<bool>, start: nat, n: nat)
    requires start + n <= |m| && forall p :: start <= p < start + n ==> !m[p]
    ensures AllFree(m, start, n)
  {
  }

  lemma NoneAtFirst(m: seq<bool>, lo: nat, n: nat, blind: bool)
    requires n > 0
    ensures NoneBefore(m, lo, n, blind, lo)
  {
  }

  lemma BlindStep(m: seq<bool>, n: nat, i: nat)
    requires NoneBefore(m, 0, n, true, i) && i < |m| && n > 0 && forall p :: 0 <= p <= i ==> !m[p]
    ensures NoneBefore(m, 0, n, true, i + 1)
  {
    forall s: nat | Visible(m, 0, n, true, s)
      ensures s + n > i + 1
    {
      var p :| 0 <= p < s && p < |m| && m[p];
    }
  }

  lemma ReservedStep(m: seq<bool>, lo: nat, n: nat, blind: bool, i: nat)
    requires NoneBefore(m, lo, n, blind, i) && lo <= i < |m| && m[i] && n > 0
    ensures NoneBefore(m, lo, n, blind, i + 1) && Edge(m, lo, blind, i + 1)
  {
    forall s: nat | Visible(m, lo, n, blind, s)
      ensures s + n > i + 1
    {
      NotInRun(m, s, n, i);
    }
  }

  lemma NoneAtAll(m: seq<bool>, lo: nat, n: nat, blind: bool)
    requires NoneBefore(m, lo, n, blind, |m|)
    ensures !AnyVisible(m, lo, n, blind)
  {
  }

  /** What has been handed out lies before or behind pages that are free. */
  lemma FreeApart(m: seq<bool>, r: Range, start: nat, n: nat)
    requires InReserved(m, r) && r.size > 0 && AllFree(m, start, n)
    ensures End(r) <= start * PAGE_SIZE || (start + n) * PAGE_SIZE <= r.addr || n == 0
  {
    var p := if r.addr < start * PAGE_SIZE then start else r.addr / PAGE_SIZE;
    assert Touches(r, p) ==> p < |m| && m[p];
  }

  /** Pages are taken: [start, start + n) is reserved. */
  ghost predicate TookPages(m: seq<bool>, m': seq<bool>, start: nat, n: nat) {
    && |m'| == |m| && start + n <= |m| && AllFree(m, start, n)
    && forall p :: 0 <= p < |m| ==> m'[p] == (m[p] || start <= p < start + n)
  }

  lemma StaysReserved(m: seq<bool>, m': seq<bool>, start: nat, n: nat, r: Range)
    requires TookPages(m, m', start, n) && InReserved(m, r)
    ensures InReserved(m', r)
  {
    forall p: nat | Touches(r, p)
      ensures p < |m'| && m'[p]
    {
      assert m[p];
    }
  }

  /** A range that begins in the tail or in the pages taken, and ends in them. */
  lemma HandOut(m: seq<bool>, m': seq<bool>, allocs: seq<Range>, pos: nat, offset: nat, start: nat, n: nat, r: Range)
    requires Sound(m, allocs) && TookPages(m, m', start, n) && r.size > 0
    requires InReserved(m', r)
    requires End(r) <= (start + n) * PAGE_SIZE
    requires r.addr >= start * PAGE_SIZE ||
      (TailFree(m, allocs, pos, offset) && offset != 0 && start == pos + 1 && r.addr >= pos * PAGE_SIZE + offset)
    ensures Sound(m', allocs + [r])
  {
    var a := allocs + [r];
    forall k | 0 <= k < |allocs|
      ensures InReserved(m', allocs[k]) && Disjoint(allocs[k], r)
    {
      StaysReserved(m, m', start, n, allocs[k]);
      FreeApart(m, allocs[k], start, n);
    }
  }

  /** Behind a range that ends in the last page taken, the tail of that page is free. */
  lemma NewTail(m: seq<bool>, m': seq<bool>, allocs: seq<Range>, pos: nat, offset: nat, start: nat, n: nat, r: Range,
                pos': nat, offset': nat)
    requires Sound(m, allocs) && TookPages(m, m', start, n) && n > 0 && r.size > 0
    requires r.addr >= start * PAGE_SIZE ||
      (TailFree(m, allocs, pos, offset) && offset != 0 && start == pos + 1 && r.addr >= pos * PAGE_SIZE + offset)
    requires pos' == start + n - 1 && offset' < PAGE_SIZE && (offset' != 0 ==> End(r) == pos' * PAGE_SIZE + offset')
    ensures TailFree(m', allocs + [r], pos', offset')
  {
    if offset' != 0 {
      var a := allocs + [r];
      assert a[|allocs|] == r;
      assert Touches(a[|allocs|], pos');
      forall k | 0 <= k < |allocs|
        ensures End(a[k]) <= pos' * PAGE_SIZE + offset' || (pos' + 1) * PAGE_SIZE <= a[k].addr
      {
        FreeApart(m, allocs[k], start, n);
      }
    }
  }

  /** A range inside the tail. */
  lemma TailTaken(m: seq<bool>, allocs: seq<Range>, pos: nat, offset: nat, r: Range)
    requires Sound(m, allocs) && TailFree(m, allocs, pos, offset) && offset != 0 && r.size > 0
    requires r.addr >= pos * PAGE_SIZE + offset && End(r) <= (pos + 1) * PAGE_SIZE
    ensures Sound(m, allocs + [r])
    ensures var o := End(r) - pos * PAGE_SIZE; TailFree(m, allocs + [r], pos, if o == PAGE_SIZE then 0 else o)
  {
    var a := allocs + [r];
    forall p: nat | Touches(r, p)
      ensures p == pos
    {
    }
    assert a[|allocs|] == r && Touches(a[|allocs|], pos);
  }

  /** A range from the tail, or the beginning of the pages taken, lies in reserved pages. */
  lemma CoversReserved(m: seq<bool>, m': seq<bool>, pos: nat, start: nat, n: nat, r: Range)
    requires TookPages(m, m', start, n) && End(r) <= (start + n) * PAGE_SIZE
    requires r.addr >= start * PAGE_SIZE || (start == pos + 1 && pos < |m| && m[pos] && r.addr >= pos * PAGE_SIZE)
    ensures InReserved(m', r)
  {
    forall p: nat | Touches(r, p)
      ensures p < |m'| && m'[p]
    {
      assert p < start + n;
      assert p == pos || start <= p;
    }
  }

  /** The number of pages for a size, and where its last page ends. */
  lemma Pages(size: nat)
    requires size > 0
    ensures var n := (size + PAGE_SIZE - 1) / PAGE_SIZE;
      && n > 0 && (n - 1) * PAGE_SIZE < size <= n * PAGE_SIZE
      && (size % PAGE_SIZE != 0 ==> size == (n - 1) * PAGE_SIZE + size % PAGE_SIZE)
  {
  }

  /** The page from which the first pass starts. */
  function Preferred(map_: seq<bool>, goal: nat): nat {
    if goal / PAGE_SIZE >= |map_| then 0 else goal / PAGE_SIZE
  }

  /** One of the two passes sees a run of n free pages. */
  ghost predicate CanFind(map_: seq<bool>, goal: nat, n: nat) {
    var lo := Preferred(map_, goal);
    AnyVisible(map_, lo, n, false) || (lo != 0 && AnyVisible(map_, 0, n, Open(map_)))
  }

  /** There is a run of n free pages. */
  ghost predicate HasRun(map_: seq<bool>, n: nat) {
    exists s: nat :: AllFree(map_, s, n)
  }

  /** A run is found whenever there is one, unless the goal is not in the first page,
      there is no run from the goal on, the last page is free, and every run comes
      before the first reserved page. */
  lemma FindIsExact(m: seq<bool>, goal: nat, n: nat)
    ensures CanFind(m, goal, n) ==> HasRun(m, n)
    ensures HasRun(m, n) && !CanFind(m, goal, n) <==>
      && HasRun(m, n) && Preferred(m, goal) != 0 && Open(m)
      && forall s: nat :: AllFree(m, s, n) ==> s < Preferred(m, goal) && forall p :: 0 <= p < s && p < |m| ==> !m[p]
  {
    hide AllFree;
    var lo := Preferred(m, goal);
    if CanFind(m, goal, n) {
      if AnyVisible(m, lo, n, false) {
        var s: nat :| Visible(m, lo, n, false, s);
      } else {
        var s: nat :| Visible(m, 0, n, Open(m), s);
      }
    }
    forall s: nat | AllFree(m, s, n)
      ensures lo <= s ==> AnyVisible(m, lo, n, false)
      ensures !Open(m) || (exists p :: 0 <= p < s && p < |m| && m[p]) ==> AnyVisible(m, 0, n, Open(m))
    {
      if lo <= s {
        assert Visible(m, lo, n, false, s);
      }
      if !Open(m) || exists p :: 0 <= p < s && p < |m| && m[p] {
        assert Visible(m, 0, n, Open(m), s);
      }
    }
  }

  /** Two free pages in front of a reserved one are not found for a goal in the free
      page behind it. */
  lemma MissedExample()
    ensures var m := [false, false, true, false]; HasRun(m, 2) && !CanFind(m, 3 * PAGE_SIZE, 2)
  {
    var m := [false, false, true, false];
    assert AllFree(m, 0, 2);
    FindIsExact(m, 3 * PAGE_SIZE, 2);
    forall s: nat | AllFree(m, s, 2)
      ensures s == 0
    {
      assert s + 2 <= 4 && !m[s] && !m[s + 1];
    }
  }

  /** The run that is taken: the first that the first pass sees, and the first that the
      second pass sees if there is none. */
  ghost predicate Chosen(map_: seq<bool>, goal: nat, n: nat, s: nat) {
    var lo := Preferred(map_, goal);
    if AnyVisible(map_, lo, n, false) then FirstVisible(map_, lo, n, false, s)
    else lo != 0 && FirstVisible(map_, 0, n, Open(map_), s)
  }

  ghost predicate FirstVisible(map_: seq<bool>, lo: nat, n: nat, blind: bool, s: nat) {
    Visible(map_, lo, n, blind, s) && forall t: nat :: Visible(map_, lo, n, blind, t) ==> s <= t
  }

  /** Where an allocation begins whose run of pages begins at s: in the tail of the last one
      if that is in the page before. */
  ghost predicate BeginsAt(addr: nat, align: nat, pos: nat, offset: nat, s: nat)
    requires align > 0
  {
    if offset != 0 && pos + 1 == s then
      && pos * PAGE_SIZE + offset <= addr < pos * PAGE_SIZE + offset + align && addr % align == 0
    else addr == s * PAGE_SIZE
  }

  ghost predicate Placed(map_: seq<bool>, goal: nat, n: nat, addr: nat, align: nat, pos: nat, offset: nat)
    requires align > 0
  {
    exists s: nat :: Chosen(map_, goal, n, s) && BeginsAt(addr, align, pos, offset, s)
  }

  /** What is reserved, and which tail is left, after a range has been handed out. */
  ghost predicate HandedOut(before: seq<bool>, after: seq<bool>, r: Range, pos: nat, offset: nat) {
    && |after| == |before| && (forall p: nat :: p < |after| ==> (after[p] <==> before[p] || Touches(r, p)))
    && r.size > 0 && pos == (End(r) - 1) / PAGE_SIZE && offset == End(r) % PAGE_SIZE
  }

  /** Whether a size can be had: for a goal in the first page, whenever there is a run. */
  ghost predicate CanAlloc(map_: seq<bool>, goal: nat, size: nat) {
    size > 0 && CanFind(map_, goal, (size + PAGE_SIZE - 1) / PAGE_SIZE)
  }

  class Boot {
    const bits: array<bool>
    var lastPos: nat
    var lastOffset: nat
    ghost var allocs: seq<Range>

    ghost predicate Valid()
      reads this, bits
    {
      bits.Length <= MAX_PAGES && Sound(bits[..], allocs) && TailFree(bits[..], allocs, lastPos, lastOffset)
    }

    /** init_bootmem: everything is reserved at first. */
    constructor (pages: nat)
      requires pages <= MAX_PAGES
      ensures Valid() && fresh(bits) && bits.Length == pages && allocs == [] && forall p :: 0 <= p < pages ==> bits[p]
    {
      bits := new bool[pages](_ => true);
      lastPos, lastOffset, allocs := 0, 0, [];
    }

    /** Both passes of the scan for a run of free pages. */
    method Find(goal: nat, areasize: nat) returns (found: bool, start: nat)
      requires bits.Length <= MAX_PAGES && 0 < areasize <= MAX_PAGES
      ensures found ==> AllFree(bits[..], start, areasize)
      ensures found <==> CanFind(bits[..], goal, areasize)
      ensures found ==> Chosen(bits[..], goal, areasize, start)
    {
      hide AnyVisible, NoneBefore, AllFree;
      var preferred := goal / PAGE_SIZE;
      if preferred >= bits.Length {
        preferred := 0;
      }
      var area;
      found, area, start := ScanFrom(bits, preferred, areasize, false, 0);
      if found {
        IsFirst(bits[..], preferred, areasize, false, start);
      } else if preferred != 0 {
        found, area, start := ScanFrom(bits, 0, areasize, area, start);
        if found {
          IsFirst(bits[..], 0, areasize, Open(bits[..]), start);
        }
      }
    }

    /** The pages are reserved now. */
    method Reserve(start: nat, n: nat)
      requires AllFree(bits[..], start, n)
      modifies bits
      ensures TookPages(old(bits[..]), bits[..], start, n)
    {
      var i := start;
      while i < start + n
        invariant start <= i <= start + n <= bits.Length
        invariant forall p :: 0 <= p < bits.Length ==> bits[p] == (old(bits[p]) || start <= p < i)
      {
        bits[i] := true;
        i := i + 1;
      }
    }

    /** __alloc_bootmem; None is BUG(). */
    method Alloc(size: nat, align: nat, goal: nat) returns (r: Option<nat>)
      requires Valid() && GoodAlign(align) && size + PAGE_SIZE <= WORD
      modifies this, bits
      ensures Valid()
      ensures r.Some? ==> r.value % align == 0 && allocs == old(allocs) + [Range(r.value, size)]
      ensures r.Some? <==> CanAlloc(old(bits[..]), goal, size)
      ensures r.None? ==> allocs == old(allocs) && bits[..] == old(bits[..])
      ensures r.None? ==> lastPos == old(lastPos) && lastOffset == old(lastOffset)
      ensures r.Some? ==>
        Placed(old(bits[..]), goal, (size + PAGE_SIZE - 1) / PAGE_SIZE, r.value, align, old(lastPos), old(lastOffset))
      ensures r.Some? ==> HandedOut(old(bits[..]), bits[..], Range(r.value, size), lastPos, lastOffset)
    {
      hide Sound, TailFree, CanFind, Chosen, HandedOut, GoodAlign;
      if size == 0 {
        return None;
      }
      var areasize := (size + PAGE_SIZE - 1) / PAGE_SIZE;
      Pages(size);
      var found, start := Find(goal, areasize);
      if !found {
        return None;
      }
      Positive(align);
      ghost var m, pos, off := bits[..], lastPos, lastOffset;
      if lastOffset != 0 && lastPos + 1 == start {
        r := Merge(size, align, start, areasize);
      } else {
        r := Some(start * PAGE_SIZE);
        AlignedAt(start, 0, align);
        TakeFresh(size, start, areasize);
      }
      assert Chosen(m, goal, areasize, start) && BeginsAt(r.value, align, pos, off, start);
    }

    /** A new run of pages. */
    method TakeFresh(size: nat, start: nat, n: nat)
      requires Valid() && size > 0 && n == (size + PAGE_SIZE - 1) / PAGE_SIZE && AllFree(bits[..], start, n)
      modifies this, bits
      ensures Valid() && allocs == old(allocs) + [Range(start * PAGE_SIZE, size)]
      ensures HandedOut(old(bits[..]), bits[..], Range(start * PAGE_SIZE, size), lastPos, lastOffset)
    {
      hide Sound, TailFree, InReserved, AllFree, HandedOut;
      ghost var m, new_ := bits[..], Range(start * PAGE_SIZE, size);
      Pages(size);
      lastPos := start + n - 1;
      lastOffset := size % PAGE_SIZE;
      Reserve(start, n);
      CoversReserved(m, bits[..], 0, start, n, new_);
      HandOut(m, bits[..], allocs, 0, 0, start, n, new_);
      NewTail(m, bits[..], allocs, 0, 0, start, n, new_, lastPos, lastOffset);
      TookRange(m, bits[..], start, n, new_, size);
      allocs := allocs + [new_];
    }

    /** Merging with the tail of the last allocation. */
    method Merge(size: nat, align: nat, start: nat, n0: nat) returns (r: Option<nat>)
      requires Valid() && GoodAlign(align) && size > 0 && lastOffset != 0 && lastPos + 1 == start
      requires n0 == (size + PAGE_SIZE - 1) / PAGE_SIZE && AllFree(bits[..], start, n0)
      modifies this, bits
      ensures Valid() && r.Some? && r.value % align == 0 && allocs == old(allocs) + [Range(r.value, size)]
      ensures BeginsAt(r.value, align, old(lastPos), old(lastOffset), start)
      ensures HandedOut(old(bits[..]), bits[..], Range(r.value, size), lastPos, lastOffset)
    {
      hide Sound, InReserved, GoodAlign, AlignUp, AllFree, Touches, HandedOut, TailFree;
      assert lastOffset < PAGE_SIZE by { TailOffset(bits[..], allocs, lastPos, lastOffset); }
      Positive(align);
      AlignFacts(lastOffset, align);
      var offset := AlignUp(lastOffset, align);
      AlignedAt(lastPos, offset, align);
      r := Some(lastPos * PAGE_SIZE + offset);
      var remaining := PAGE_SIZE - offset;
      if size <= remaining {
        FillTail(size, start, offset);
      } else {
        SpillOver(size, start, offset, n0);
      }
    }

    /** An allocation that fits into the tail; no page is taken. */
    method FillTail(size: nat, start: nat, offset: nat)
      requires Valid() && lastOffset != 0 && lastPos + 1 == start && lastOffset <= offset
      requires 0 < size <= PAGE_SIZE - offset
      modifies this
      ensures Valid() && allocs == old(allocs) + [Range(old(lastPos) * PAGE_SIZE + offset, size)]
      ensures HandedOut(bits[..], bits[..], Range(old(lastPos) * PAGE_SIZE + offset, size), lastPos, lastOffset)
    {
      hide Sound, InReserved, Touches, HandedOut;
      ghost var new_ := Range(lastPos * PAGE_SIZE + offset, size);
      TailTaken(bits[..], allocs, lastPos, lastOffset, new_);
      InTail(bits[..], lastPos, offset, size);
      if size < PAGE_SIZE - offset {
        lastOffset := offset + size;
      } else {
        lastPos, lastOffset := start - 1, 0;
      }
      allocs := allocs + [new_];
    }

    /** An allocation that begins in the tail and goes on in new pages. */
    method SpillOver(size: nat, start: nat, offset: nat, n0: nat)
      requires Valid() && lastOffset != 0 && lastPos + 1 == start && lastOffset <= offset <= PAGE_SIZE
      requires size > PAGE_SIZE - offset
      requires n0 == (size + PAGE_SIZE - 1) / PAGE_SIZE && AllFree(bits[..], start, n0)
      modifies this, bits
      ensures Valid() && allocs == old(allocs) + [Range(old(lastPos) * PAGE_SIZE + offset, size)]
      ensures HandedOut(old(bits[..]), bits[..], Range(old(lastPos) * PAGE_SIZE + offset, size), lastPos, lastOffset)
    {
      hide Sound, InReserved, HandedOut;
      var rest := size - (PAGE_SIZE - offset);
      var n := (rest + PAGE_SIZE - 1) / PAGE_SIZE;
      Pages(rest);
      Pages(size);
      ghost var m, pos, off, new_ := bits[..], lastPos, lastOffset, Range(lastPos * PAGE_SIZE + offset, size);
      lastPos := start + n - 1;
      lastOffset := rest % PAGE_SIZE;
      Reserve(start, n);
      CoversReserved(m, bits[..], pos, start, n, new_);
      HandOut(m, bits[..], allocs, pos, off, start, n, new_);
      NewTail(m, bits[..], allocs, pos, off, start, n, new_, lastPos, lastOffset);
      TookRange(m, bits[..], start, n, new_, rest);
      allocs := allocs + [new_];
    }

    /** reserve_bootmem; false is BUG(). */
    method ReserveBootmem(addr: nat, size: nat) returns (ok: bool)
      requires Valid()
      modifies bits
      ensures Valid()
      ensures ok <==>
        size > 0 && forall p: nat :: Touches(Range(addr, size), p) ==> p < bits.Length && !old(bits[..])[p]
      ensures ok ==>
        forall p: nat :: p < bits.Length ==> (bits[p] <==> old(bits[..])[p] || Touches(Range(addr, size), p))
      ensures forall p: nat :: p < bits.Length && old(bits[p]) ==> bits[p]
    {
      hide Sound, TailFree, Touches, AllBits;
      var end := (addr + size + PAGE_SIZE - 1) / PAGE_SIZE;
      if size > 0 {
        TouchedPages(bits[..], addr, size);
      }
      NoBits(bits[..], addr / PAGE_SIZE, false);
      if size == 0 || end > bits.Length {
        return false;
      }
      ghost var m := bits[..];
      ok := true;
      var i := addr / PAGE_SIZE;
      while i < end
        invariant addr / PAGE_SIZE <= i <= end <= bits.Length
        invariant forall p :: 0 <= p < bits.Length ==> bits[p] == (m[p] || addr / PAGE_SIZE <= p < i)
        invariant ok <==> AllBits(m, addr / PAGE_SIZE, i, false)
      {
        MoreBits(m, addr / PAGE_SIZE, i, false);
        ok := ok && !bits[i];
        bits[i] := true;
        i := i + 1;
      }
      MoreReserved(m, bits[..], allocs, lastPos, lastOffset);
    }

    /** free_bootmem of pages that nothing was allocated from; false is BUG(). */
    method FreeBootmem(addr: nat, size: nat) returns (ok: bool)
      requires Valid()
      requires forall p: nat, k :: 0 <= k < |allocs| && Within(Range(addr, size), p) ==> !Touches(allocs[k], p)
      modifies bits
      ensures Valid()
      ensures ok <==>
        && size > 0 && (addr + size) / PAGE_SIZE <= bits.Length
        && forall p: nat :: Within(Range(addr, size), p) ==> p < bits.Length && old(bits[..])[p]
      ensures ok ==>
        forall p: nat :: p < bits.Length ==> (bits[p] <==> old(bits[..])[p] && !Within(Range(addr, size), p))
    {
      hide Sound, TailFree, Touches, Within, AllBits;
      var end := (addr + size) / PAGE_SIZE;
      WholePages(bits[..], addr, size);
      NoBits(bits[..], (addr + PAGE_SIZE - 1) / PAGE_SIZE, true);
      if size == 0 || end > bits.Length {
        return false;
      }
      var start := (addr + PAGE_SIZE - 1) / PAGE_SIZE;
      ghost var m := bits[..];
      ok := true;
      var i := start;
      while i < end
        invariant start <= i && end <= bits.Length && if start <= end then i <= end else i == start
        invariant forall p :: 0 <= p < bits.Length ==> bits[p] == (m[p] && !(start <= p < i && p < end))
        invariant ok <==> AllBits(m, start, i, true)
      {
        MoreBits(m, start, i, true);
        ok := ok && bits[i];
        bits[i] := false;
        i := i + 1;
      }
      LessReserved(m, bits[..], allocs, lastPos, lastOffset, addr, size);
    }
  }

  /** Page p lies in the range as a whole. */
  predicate Within(r: Range, p: nat) {
    r.addr <= p * PAGE_SIZE && (p + 1) * PAGE_SIZE <= End(r)
  }

  /** The pages from a up to b are there, with that bit. */
  ghost predicate AllBits(m: seq<bool>, a: nat, b: nat, bit: bool) {
    forall p: nat :: a <= p < b ==> BitAt(m, p, bit)
  }

  predicate BitAt(m: seq<bool>, p: nat, bit: bool) {
    p < |m| && m[p] == bit
  }

  lemma NoBits(m: seq<bool>, a: nat, bit: bool)
    ensures forall b: nat :: b <= a ==> AllBits(m, a, b, bit)
  {
  }

  lemma MoreBits(m: seq<bool>, a: nat, i: nat, bit: bool)
    requires a <= i < |m|
    ensures AllBits(m, a, i + 1, bit) <==> AllBits(m, a, i, bit) && m[i] == bit
  {
    assert AllBits(m, a, i + 1, bit) ==> BitAt(m, i, bit);
  }

  /** The pages that a range has bytes in. */
  lemma TouchedPages(m: seq<bool>, addr: nat, size: nat)
    requires size > 0
    ensures var a, b := addr / PAGE_SIZE, (addr + size + PAGE_SIZE - 1) / PAGE_SIZE;
      && a < b && (forall p: nat :: Touches(Range(addr, size), p) <==> a <= p < b)
      && (b > |m| ==> !AllBits(m, a, b, false))
      && ((forall p: nat :: Touches(Range(addr, size), p) ==> p < |m| && !m[p]) <==> AllBits(m, a, b, false))
  {
    var a, b := addr / PAGE_SIZE, (addr + size + PAGE_SIZE - 1) / PAGE_SIZE;
    assert forall p: nat :: Touches(Range(addr, size), p) <==> a <= p < b;
    assert AllBits(m, a, b, false) ==> BitAt(m, b - 1, false);
    if forall p: nat :: Touches(Range(addr, size), p) ==> p < |m| && !m[p] {
      forall p: nat | a <= p < b
        ensures BitAt(m, p, false)
      {
        assert Touches(Range(addr, size), p);
      }
    }
    if AllBits(m, a, b, false) {
      forall p: nat | Touches(Range(addr, size), p)
        ensures p < |m| && !m[p]
      {
        assert BitAt(m, p, false);
      }
    }
  }

  /** The pages that lie in a range as a whole. */
  lemma WholePages(m: seq<bool>, addr: nat, size: nat)
    ensures var a, b := (addr + PAGE_SIZE - 1) / PAGE_SIZE, (addr + size) / PAGE_SIZE;
      && (forall p: nat :: Within(Range(addr, size), p) <==> a <= p < b)
      && ((forall p: nat :: Within(Range(addr, size), p) ==> p < |m| && m[p]) <==> AllBits(m, a, b, true))
  {
    var a, b := (addr + PAGE_SIZE - 1) / PAGE_SIZE, (addr + size) / PAGE_SIZE;
    assert forall p: nat :: Within(Range(addr, size), p) <==> a <= p < b;
    if forall p: nat :: Within(Range(addr, size), p) ==> p < |m| && m[p] {
      forall p: nat | a <= p < b
        ensures BitAt(m, p, true)
      {
        assert Within(Range(addr, size), p);
      }
    }
    if AllBits(m, a, b, true) {
      forall p: nat | Within(Range(addr, size), p)
        ensures p < |m| && m[p]
      {
        assert BitAt(m, p, true);
      }
    }
  }

  lemma MoreReserved(m: seq<bool>, m': seq<bool>, allocs: seq<Range>, pos: nat, offset: nat)
    requires Sound(m, allocs) && TailFree(m, allocs, pos, offset) && |m'| == |m|
    requires forall p :: 0 <= p < |m| && m[p] ==> m'[p]
    ensures Sound(m', allocs) && TailFree(m', allocs, pos, offset)
  {
    forall k, p: nat | 0 <= k < |allocs| && Touches(allocs[k], p)
      ensures p < |m'| && m'[p]
    {
      assert InReserved(m, allocs[k]);
    }
  }

  lemma LessReserved(m: seq<bool>, m': seq<bool>, allocs: seq<Range>, pos: nat, offset: nat, addr: nat, size: nat)
    requires Sound(m, allocs) && TailFree(m, allocs, pos, offset) && |m'| == |m|
    requires forall p: nat, k :: 0 <= k < |allocs| && Within(Range(addr, size), p) ==> !Touches(allocs[k], p)
    requires forall p: nat :: p < |m| && m[p] && !m'[p] ==> Within(Range(addr, size), p)
    ensures Sound(m', allocs) && TailFree(m', allocs, pos, offset)
  {
    forall k, p: nat | 0 <= k < |allocs| && Touches(allocs[k], p)
      ensures p < |m'| && m'[p]
    {
      assert InReserved(m, allocs[k]);
    }
  }

  /** A range that fills n new pages from `start` on, the last with what is left of it. */
  lemma TookRange(m: seq<bool>, m': seq<bool>, start: nat, n: nat, r: Range, rest: nat)
    requires TookPages(m, m', start, n) && n == (rest + PAGE_SIZE - 1) / PAGE_SIZE && 0 < rest <= r.size
    requires End(r) == start * PAGE_SIZE + rest
    requires r.addr < start * PAGE_SIZE ==>
      start > 0 && (start - 1) * PAGE_SIZE <= r.addr && start - 1 < |m| && m[start - 1]
    requires start + n <= |m|
    ensures HandedOut(m, m', r, start + n - 1, rest % PAGE_SIZE)
  {
    forall p: nat | p < |m'|
      ensures m'[p] <==> m[p] || Touches(r, p)
    {
      assert p < start ==> (p + 1) * PAGE_SIZE <= start * PAGE_SIZE;
    }
  }

  /** A range in the tail of a reserved page. */
  lemma InTail(m: seq<bool>, pos: nat, offset: nat, size: nat)
    requires pos < |m| && m[pos] && 0 < size && offset + size <= PAGE_SIZE
    ensures HandedOut(m, m, Range(pos * PAGE_SIZE + offset, size), pos, (offset + size) % PAGE_SIZE)
  {
  }

  lemma IsFirst(m: seq<bool>, lo: nat, n: nat, blind: bool, s: nat)
    requires n > 0 && Visible(m, lo, n, blind, s) && NoneBefore(m, lo, n, blind, s + n - 1)
    ensures FirstVisible(m, lo, n, blind, s) && AnyVisible(m, lo, n, blind)
  {
  }

  lemma TailOffset(m: seq<bool>, allocs: seq<Range>, pos: nat, offset: nat)
    requires TailFree(m, allocs, pos, offset)
    ensures offset < PAGE_SIZE
  {
  }
}
