/** The steps of the second half of posix_lock_file on one owner's locks. */
module LockSteps {
  import opened Options
  import opened LockSpec

  /** Where the walk over the owner's locks stands.  `seen` are the locks it has
      passed, as they were.  Of these, `kept` lie before the request and are
      untouched, `left` is the one that the request cuts off at its end, and
      `new` is the list entry that has become the requested lock.  [s, e] is the
      request, grown by the locks merged into it. */
  datatype Walk = Walk(seen: seq<Entry>, kept: seq<Entry>, left: seq<Entry>, new_: seq<Entry>, s: int, e: int,
      added: bool)

  ghost predicate Inv(r: Request, w: Walk) {
    && Normal(w.seen, r.owner) && |w.left| <= 1 && |w.new_| <= 1
    && w.kept <= w.seen
    && (forall i :: 0 <= i < |w.kept| ==>
      w.kept[i].end < w.s && (r.kind == Some(w.kept[i].kind) ==> w.kept[i].end < w.s - 1))
    && (w.left != [] ==> |w.kept| < |w.seen| && w.left[0] == w.seen[|w.kept|] && Cut(r, w, w.left[0]))
    && (forall i :: |w.kept| + |w.left| <= i < |w.seen| ==> w.s <= w.seen[i].start && w.seen[i].end <= w.e)
    && 0 <= w.s <= r.start <= r.end <= w.e <= OFFSET_MAX
    && (r.kind == None ==> w.s == r.start && w.e == r.end && w.new_ == [] && (w.added <==> |w.seen| > |w.kept|))
    && (r.kind.Some? ==> (w.added <==> w.new_ != []))
    && (r.kind.Some? && !w.added ==> |w.seen| == |w.kept| + |w.left| && w.s == r.start && w.e == r.end)
    && (w.new_ != [] ==> |w.seen| > |w.kept| + |w.left| && IsNew(r, w, w.new_[0]))
    && (forall x :: w.s <= x <= w.e && !(r.start <= x <= r.end) ==> HeldBy(w.seen, r.owner, x) == r.kind)
  }

  ghost predicate Cut(r: Request, w: Walk, f: Entry) {
    r.kind != Some(f.kind) && f.start < w.s <= f.end <= w.e
  }

  ghost predicate IsNew(r: Request, w: Walk, f: Entry) {
    Mine(f, r.owner) && r.kind == Some(f.kind) && f.start == w.s && f.end == w.e
  }

  /** f is the next lock of the owner. */
  ghost predicate Next(r: Request, w: Walk, f: Entry) {
    Normal(w.seen + [f], r.owner)
  }

  lemma AfterAll(seen: seq<Entry>, f: Entry, o: Owner)
    requires Normal(seen + [f], o)
    ensures Mine(f, o) && 0 <= f.start <= f.end <= OFFSET_MAX
    ensures forall i :: 0 <= i < |seen| ==> Apart(seen[i], f)
  {
    var all := seen + [f];
    assert all[|seen|] == f;
    forall i | 0 <= i < |seen|
      ensures Apart(seen[i], f)
    {
      assert all[i] == seen[i];
    }
  }

  /** A lock that starts before the request comes before all locks that the
      request has touched. */
  lemma NothingTouched(r: Request, w: Walk, f: Entry)
    requires Inv(r, w) && Next(r, w, f) && f.start < w.s
    ensures w.seen == w.kept && w.left == [] && w.new_ == []
  {
    AfterAll(w.seen, f, r.owner);
    assert |w.kept| < |w.seen| ==> Apart(w.seen[|w.kept|], f);
  }

  /** next_lock before the request is reached. */
  lemma SkipStep(r: Request, w: Walk, f: Entry)
    requires Inv(r, w) && Next(r, w, f)
    requires if r.kind == Some(f.kind) then f.end < w.s - 1 else f.end < w.s
    ensures Inv(r, w.(seen := w.seen + [f], kept := w.kept + [f]))
    ensures w.left == [] && w.new_ == []
  {
    AfterAll(w.seen, f, r.owner);
    NothingTouched(r, w, f);
    MoreSeen(r, w, f);
  }

  function Min(a: int, b: int): int { if a < b then a else b }
  function Max(a: int, b: int): int { if a > b then a else b }

  /** Merge with a lock of the same kind that touches the request. */
  lemma MergeStep(r: Request, w: Walk, f: Entry, blocked: seq<Request>)
    requires Inv(r, w) && Next(r, w, f) && r.kind == Some(f.kind) && f.end >= w.s - 1 && f.start <= w.e + 1
    ensures var s, e := Min(w.s, f.start), Max(w.e, f.end);
      Inv(r, w.(seen := w.seen + [f], new_ := [Entry(true, r.owner, f.kind, s, e, blocked)], s := s, e := e,
        added := true))
    ensures w.added ==> w.s < f.start
  {
    var s, e := Min(w.s, f.start), Max(w.e, f.end);
    var seen := w.seen + [f];
    AfterAll(w.seen, f, r.owner);
    if f.start < w.s {
      NothingTouched(r, w, f);
    }
    if w.added {
      assert Apart(w.seen[|w.seen| - 1], f);
    }
    forall i | 0 <= i < |w.kept|
      ensures w.kept[i].end < s && (r.kind == Some(w.kept[i].kind) ==> w.kept[i].end < s - 1)
    {
      assert w.seen[i] == w.kept[i];
    }
    forall x | s <= x <= e && !(r.start <= x <= r.end)
      ensures HeldBy(seen, r.owner, x) == r.kind
    {
      HeldConcat(w.seen, [f], r.owner, x);
      if w.s <= x <= w.e {
      } else {
        assert Covers(f, x);
        NotBoth(w.seen, f, r.owner, x);
      }
    }
  }

  /** Locks of one owner do not overlap. */
  lemma NotBoth(seen: seq<Entry>, f: Entry, o: Owner, x: int)
    requires Normal(seen + [f], o) && Covers(f, x)
    ensures HeldBy(seen, o, x) == None && HeldBy([f], o, x) == Some(f.kind)
  {
    AfterAll(seen, f, o);
    forall i | 0 <= i < |seen|
      ensures !Covers(seen[i], x)
    {
      assert Apart(seen[i], f);
    }
    HeldNone(seen, o, x);
  }

  /** A lock of another kind that the request cuts off at its end. */
  lemma CutStep(r: Request, w: Walk, f: Entry)
    requires Inv(r, w) && Next(r, w, f) && Cut(r, w, f)
    ensures Inv(r, w.(seen := w.seen + [f], left := [f], added := w.added || r.kind == None))
    ensures w.left == [] && w.new_ == []
  {
    AfterAll(w.seen, f, r.owner);
    NothingTouched(r, w, f);
    MoreSeen(r, w, f);
  }

  /** What is held beyond the request stays known when one more lock has been passed. */
  lemma MoreSeen(r: Request, w: Walk, f: Entry)
    requires Inv(r, w) && Next(r, w, f)
    ensures forall x :: w.s <= x <= w.e && !(r.start <= x <= r.end) ==> HeldBy(w.seen + [f], r.owner, x) == r.kind
  {
    forall x | w.s <= x <= w.e && !(r.start <= x <= r.end)
      ensures HeldBy(w.seen + [f], r.owner, x) == r.kind
    {
      HeldConcat(w.seen, [f], r.owner, x);
    }
  }

  /** A lock of another kind inside the request is replaced by it, or deleted
      when the requested lock is on the list already. */
  lemma CoverStep(r: Request, w: Walk, f: Entry, new_: seq<Entry>)
    requires Inv(r, w) && Next(r, w, f) && r.kind != Some(f.kind) && w.s <= f.start && f.end <= w.e
    requires r.kind == None ==> new_ == []
    requires r.kind.Some? ==> |new_| == 1 && IsNew(r, w, new_[0])
    ensures Inv(r, w.(seen := w.seen + [f], new_ := new_, added := true))
  {
    AfterAll(w.seen, f, r.owner);
    MoreSeen(r, w, f);
  }

  // ----- what the walk leaves behind

  /** The lock that the request cuts off, ending before it; everybody waiting
      for it has been woken. */
  function Trimmed(left: seq<Entry>, s: int): (t: seq<Entry>)
    ensures |t| == |left|
  {
    seq(|left|, i requires 0 <= i < |left| => left[i].(end := s - 1, blocked := []))
  }

  /** The requested lock as a list entry. */
  function NewEntry(r: Request, w: Walk): (n: seq<Entry>)
    ensures r.kind == None ==> n == []
    ensures r.kind.Some? ==> |n| >= 1
  {
    if r.kind == None then []
    else if w.new_ != [] then w.new_
    else [Entry(true, r.owner, r.kind.value, w.s, w.e, [])]
  }

  /** The remaining lock that the request cuts off at its start. */
  function Shortened(f: Entry, e: int): Entry {
    f.(start := e + 1, blocked := [])
  }

  lemma NormalJoin(p: seq<Entry>, q: seq<Entry>, o: Owner)
    requires Normal(p, o) && Normal(q, o) && (p != [] && q != [] ==> Apart(p[|p| - 1], q[0]))
    ensures Normal(p + q, o)
  {
    var l := p + q;
    forall i, j | 0 <= i < j < |l|
      ensures Apart(l[i], l[j])
    {
      if i < |p| <= j {
        assert i < |p| - 1 ==> Apart(p[i], p[|p| - 1]);
        assert |p| < j ==> Apart(q[0], q[j - |p|]);
      }
    }
  }

  /** What is left of an owner's locks: those before the request, the trimmed
      one, the requested one, and the rest. */
  function Assemble(kept: seq<Entry>, left: seq<Entry>, new_: seq<Entry>, rest: seq<Entry>): seq<Entry> {
    (kept + left) + (new_ + rest)
  }

  /** The pieces lie where they belong. */
  ghost predicate Pieces(r: Request, w: Walk, left: seq<Entry>, rest: seq<Entry>) {
    && Normal(w.kept + left, r.owner) && Normal(rest, r.owner)
    && (forall i :: 0 <= i < |left| ==> left[i].end == w.s - 1 && r.kind != Some(left[i].kind))
    && (rest != [] ==> rest[0].start > w.e && (r.kind == Some(rest[0].kind) ==> rest[0].start > w.e + 1))
  }

  lemma AssembleNormal(r: Request, w: Walk, left: seq<Entry>, rest: seq<Entry>)
    requires Inv(r, w) && Pieces(r, w, left, rest)
    ensures Normal(Assemble(w.kept, left, NewEntry(r, w), rest), r.owner)
    ensures forall i :: 0 <= i < |w.kept + left| ==> (w.kept + left)[i].end < w.s
    ensures forall i :: 0 <= i < |rest| ==> rest[i].start > w.e
  {
    hide Inv, NewEntry, Normal;
    var p, n := w.kept + left, NewEntry(r, w);
    EndsBefore(r, w, left, rest);
    NewFacts(r, w);
    if p != [] {
      LastBefore(r, w, left, rest);
    }
    NormalJoin(n, rest, r.owner);
    assert n + rest != [] ==> (n + rest)[0] == if n != [] then n[0] else rest[0];
    NormalJoin(p, n + rest, r.owner);
  }

  lemma NewFacts(r: Request, w: Walk)
    requires Inv(r, w)
    ensures var n := NewEntry(r, w);
      Normal(n, r.owner) && |n| <= 1 && (n != [] ==> n[0].start == w.s && n[0].end == w.e && r.kind == Some(n[0].kind))
  {
  }

  lemma LastBefore(r: Request, w: Walk, left: seq<Entry>, rest: seq<Entry>)
    requires Inv(r, w) && Pieces(r, w, left, rest) && w.kept + left != []
    ensures var p, n := w.kept + left, NewEntry(r, w);
      && (n != [] ==> Apart(p[|p| - 1], n[0]))
      && (n == [] && rest != [] ==> Apart(p[|p| - 1], rest[0]))
  {
    var p := w.kept + left;
    var last := p[|p| - 1];
    if left != [] {
      assert last == left[|left| - 1];
    } else {
      assert last == w.kept[|w.kept| - 1];
    }
    NewFacts(r, w);
    hide Normal;
  }

  lemma EndsBefore(r: Request, w: Walk, left: seq<Entry>, rest: seq<Entry>)
    requires Inv(r, w) && Pieces(r, w, left, rest)
    ensures forall i :: 0 <= i < |w.kept + left| ==> (w.kept + left)[i].end < w.s
    ensures forall i :: 0 <= i < |rest| ==> rest[i].start > w.e
  {
    forall i | 0 <= i < |rest|
      ensures rest[i].start > w.e
    {
      assert i > 0 ==> Apart(rest[0], rest[i]);
    }
  }

  /** Byte by byte: before the request, within it, and behind it. */
  lemma SpanFacts(r: Request, w: Walk)
    requires Inv(r, w)
    ensures w.s <= w.e && (r.kind == None <==> NewEntry(r, w) == [])
    ensures forall i :: 0 <= i < |NewEntry(r, w)| ==> Mine(NewEntry(r, w)[i], r.owner)
  {
    hide Normal;
  }

  lemma AssembleHeld(r: Request, w: Walk, left: seq<Entry>, rest: seq<Entry>, x: int)
    requires Inv(r, w) && Pieces(r, w, left, rest)
    ensures HeldBy(Assemble(w.kept, left, NewEntry(r, w), rest), r.owner, x) ==
      if x < w.s then HeldBy(w.kept + left, r.owner, x)
      else if x <= w.e then r.kind
      else HeldBy(rest, r.owner, x)
  {
    hide Inv, Normal, Pieces, NewEntry;
    var o := r.owner;
    var p, n := w.kept + left, NewEntry(r, w);
    AssembleNormal(r, w, left, rest);
    NewFacts(r, w);
    SpanFacts(r, w);
    HeldConcat(p, n + rest, o, x);
    HeldConcat(n, rest, o, x);
    if x >= w.s {
      HeldNone(p, o, x);
    }
    if x <= w.e {
      HeldNone(rest, o, x);
    }
    if n != [] && w.s <= x <= w.e {
      HeldAt(n, o, x, 0);
    } else {
      HeldNone(n, o, x);
    }
  }

  /** The owner's locks after the walk, pointwise: the requested kind on the
      requested bytes, and what was there before elsewhere. */
  ghost predicate Updated(r: Request, before: seq<Entry>, after: seq<Entry>) {
    && Normal(after, r.owner)
    && forall x :: HeldBy(after, r.owner, x) ==
         if r.start <= x <= r.end then r.kind else HeldBy(before, r.owner, x)
  }

  lemma SeenBeyond(r: Request, w: Walk, x: int)
    requires Inv(r, w) && x > w.e
    ensures HeldBy(w.seen, r.owner, x) == None
  {
    forall i | 0 <= i < |w.seen|
      ensures w.seen[i].end <= w.e
    {
      assert i < |w.kept| ==> w.seen[i] == w.kept[i];
      assert i == |w.kept| && w.left != [] ==> w.seen[i] == w.left[0];
    }
    HeldNone(w.seen, r.owner, x);
  }

  lemma SeenBefore(r: Request, w: Walk, x: int)
    requires Inv(r, w) && x < w.s
    ensures HeldBy(w.seen, r.owner, x) == HeldBy(w.kept + w.left, r.owner, x)
  {
    var n := |w.kept| + |w.left|;
    assert w.seen[..n] == w.kept + w.left by {
      assert w.left != [] ==> w.left[0] == w.seen[|w.kept|];
    }
    assert w.seen == w.seen[..n] + w.seen[n..];
    HeldConcat(w.seen[..n], w.seen[n..], r.owner, x);
    HeldNone(w.seen[n..], r.owner, x);
  }

  lemma TrimmedHeld(kept: seq<Entry>, left: seq<Entry>, o: Owner, s: int, x: int)
    requires |left| <= 1 && x < s && (left != [] ==> Mine(left[0], o) && s <= left[0].end)
    ensures HeldBy(kept + Trimmed(left, s), o, x) == HeldBy(kept + left, o, x)
  {
    HeldConcat(kept, Trimmed(left, s), o, x);
    HeldConcat(kept, left, o, x);
  }

  lemma NormalSlice(run: seq<Entry>, o: Owner, a: nat, b: nat)
    requires Normal(run, o) && a <= b <= |run|
    ensures Normal(run[a..b], o)
  {
    var l := run[a..b];
    forall i, j | 0 <= i < j < |l|
      ensures Apart(l[i], l[j])
    {
      assert Apart(run[a + i], run[a + j]);
    }
  }

  /** The locks before the request and the trimmed one are in normal form. */
  lemma LeftPiece(kept: seq<Entry>, f: Entry, o: Owner, s: int)
    requires Normal(kept + [f], o) && f.start < s <= f.end
    ensures Normal(kept + Trimmed([f], s), o)
  {
    AfterAll(kept, f, o);
    NormalSlice(kept + [f], o, 0, |kept|);
    assert (kept + [f])[0..|kept|] == kept;
    NormalJoin(kept, Trimmed([f], s), o);
  }

  lemma KeptNormal(r: Request, w: Walk)
    requires Inv(r, w)
    ensures Normal(w.kept + Trimmed(w.left, w.s), r.owner)
  {
    NormalSlice(w.seen, r.owner, 0, |w.kept|);
    assert w.seen[0..|w.kept|] == w.kept;
    if w.left != [] {
      NormalSlice(w.seen, r.owner, 0, |w.kept| + 1);
      assert w.seen[0..|w.kept| + 1] == w.kept + [w.left[0]];
      assert w.left == [w.left[0]];
      LeftPiece(w.kept, w.left[0], r.owner, w.s);
    } else {
      assert w.kept + Trimmed(w.left, w.s) == w.kept;
    }
  }

  /** The walk stopped in front of a lock beyond the request, or at the end. */
  ghost predicate Beyond(r: Request, w: Walk, rest: seq<Entry>) {
    rest != [] ==> if r.kind == Some(rest[0].kind) then rest[0].start > w.e + 1 else rest[0].start > w.e
  }

  lemma FinishBeyond(r: Request, w: Walk, rest: seq<Entry>)
    requires Inv(r, w) && Normal(w.seen + rest, r.owner) && Beyond(r, w, rest)
    ensures Updated(r, w.seen + rest, Assemble(w.kept, Trimmed(w.left, w.s), NewEntry(r, w), rest))
  {
    var o := r.owner;
    var left := Trimmed(w.left, w.s);
    KeptNormal(r, w);
    NormalSlice(w.seen + rest, o, |w.seen|, |w.seen + rest|);
    assert (w.seen + rest)[|w.seen|..|w.seen + rest|] == rest;
    assert Pieces(r, w, left, rest);
    AssembleNormal(r, w, left, rest);
    hide Normal, Assemble, NewEntry;
    forall x
      ensures HeldBy(Assemble(w.kept, left, NewEntry(r, w), rest), o, x) ==
        if r.start <= x <= r.end then r.kind else HeldBy(w.seen + rest, o, x)
    {
      AssembleHeld(r, w, left, rest, x);
      HeldConcat(w.seen, rest, o, x);
      if x < w.s {
        EndsBefore(r, w, left, rest);
        HeldNone(rest, o, x);
        SeenBefore(r, w, x);
        TrimmedHeld(w.kept, w.left, o, w.s, x);
      } else if x > w.e {
        SeenBeyond(r, w, x);
      }
    }
  }

  /** The walk stopped at a lock of another kind that reaches beyond the request. */
  ghost predicate Splits(r: Request, w: Walk, f: Entry) {
    r.kind != Some(f.kind) && f.start <= w.e < f.end && w.s <= f.end
  }

  /** The lock cut off at its end: the one at which the walk stopped when it
      starts before the request too, and then in a new entry. */
  function LeftOf(w: Walk, f: Entry): (l: seq<Entry>)
    ensures w.left == [] ==> |l| <= 1
  {
    if f.start < w.s then [f] else w.left
  }

  lemma FinishSplit(r: Request, w: Walk, f: Entry, more: seq<Entry>)
    requires Inv(r, w) && Normal(w.seen + ([f] + more), r.owner) && Splits(r, w, f)
    ensures Updated(r, w.seen + ([f] + more),
                    Assemble(w.kept, Trimmed(LeftOf(w, f), w.s), NewEntry(r, w), [Shortened(f, w.e)] + more))
  {
    var o := r.owner;
    var run := w.seen + ([f] + more);
    var left, rest := Trimmed(LeftOf(w, f), w.s), [Shortened(f, w.e)] + more;
    SplitPieces(r, w, f, more);
    AssembleNormal(r, w, left, rest);
    hide Normal, Assemble, NewEntry, Inv;
    forall x
      ensures HeldBy(Assemble(w.kept, left, NewEntry(r, w), rest), o, x) ==
        if r.start <= x <= r.end then r.kind else HeldBy(run, o, x)
    {
      AssembleHeld(r, w, left, rest, x);
      SplitHeld(r, w, f, more, x);
    }
  }

  lemma SplitPieces(r: Request, w: Walk, f: Entry, more: seq<Entry>)
    requires Inv(r, w) && Normal(w.seen + ([f] + more), r.owner) && Splits(r, w, f)
    ensures Next(r, w, f) && Mine(f, r.owner) && (f.start < w.s ==> w.left == [] && w.seen == w.kept)
    ensures Pieces(r, w, Trimmed(LeftOf(w, f), w.s), [Shortened(f, w.e)] + more)
    ensures Normal([f] + more, r.owner)
  {
    hide Inv, Normal;
    var o := r.owner;
    RunParts(w.seen, f, more, o);
    AfterAll(w.seen, f, o);
    KeptNormal(r, w);
    LeftFacts(r, w);
    if f.start < w.s {
      NothingTouched(r, w, f);
      LeftPiece(w.kept, f, o, w.s);
    }
    ShortenedNormal(f, w.e, o);
    NormalJoin([Shortened(f, w.e)], more, o);
  }

  /** The parts of a run are runs. */
  lemma RunParts(seen: seq<Entry>, f: Entry, more: seq<Entry>, o: Owner)
    requires Normal(seen + ([f] + more), o)
    ensures Normal(seen + [f], o) && Normal([f] + more, o) && Normal(more, o) && (more != [] ==> Apart(f, more[0]))
  {
    var run := seen + ([f] + more);
    NormalSlice(run, o, 0, |seen| + 1);
    assert run[0..|seen| + 1] == seen + [f];
    NormalSlice(run, o, |seen|, |run|);
    assert run[|seen|..|run|] == [f] + more;
    NormalSlice([f] + more, o, 1, |[f] + more|);
    assert ([f] + more)[1..|[f] + more|] == more;
    if more != [] {
      assert ([f] + more)[0] == f && ([f] + more)[1] == more[0];
    }
  }

  lemma LeftFacts(r: Request, w: Walk)
    requires Inv(r, w)
    ensures |w.left| <= 1 && (w.left != [] ==> r.kind != Some(w.left[0].kind)) && 0 <= w.s <= w.e <= OFFSET_MAX
  {
    hide Normal;
  }

  lemma ShortenedNormal(f: Entry, e: int, o: Owner)
    requires Mine(f, o) && 0 <= e < f.end <= OFFSET_MAX
    ensures Normal([Shortened(f, e)], o)
  {
  }

  lemma SplitHeld(r: Request, w: Walk, f: Entry, more: seq<Entry>, x: int)
    requires Inv(r, w) && Normal(w.seen + ([f] + more), r.owner) && Splits(r, w, f)
    ensures var run := w.seen + ([f] + more);
      && (x < w.s ==> HeldBy(w.kept + Trimmed(LeftOf(w, f), w.s), r.owner, x) == HeldBy(run, r.owner, x))
      && (w.s <= x <= w.e && !(r.start <= x <= r.end) ==> HeldBy(run, r.owner, x) == r.kind)
      && (x > w.e ==> HeldBy([Shortened(f, w.e)] + more, r.owner, x) == HeldBy(run, r.owner, x))
  {
    var o := r.owner;
    SplitPieces(r, w, f, more);
    HeldConcat(w.seen, [f] + more, o, x);
    HeldConcat([f], more, o, x);
    HeldConcat([Shortened(f, w.e)], more, o, x);
    if x < w.s {
      EndsBefore(r, w, Trimmed(LeftOf(w, f), w.s), [Shortened(f, w.e)] + more);
      assert forall i :: 0 <= i < |more| ==> more[i] == ([Shortened(f, w.e)] + more)[i + 1];
      HeldNone(more, o, x);
      SeenBefore(r, w, x);
      if f.start < w.s {
        TrimmedHeld(w.kept, [f], o, w.s, x);
        HeldConcat(w.kept, [f], o, x);
        assert w.kept + w.left == w.kept;
      } else {
        TrimmedHeld(w.kept, w.left, o, w.s, x);
      }
    } else if x > w.e {
      SeenBeyond(r, w, x);
    }
  }
}
