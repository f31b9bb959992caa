/** posix_lock_file of fs/locks.c, once the request conflicts with nobody: the
    walk over the inode's lock list that merges, cuts, replaces and deletes. */
module LockFile {
  import opened Options
  import opened LockSpec
  import opened LockSteps

  /** x + 1 in off_t, as in the test whether the next lock lies beyond the request. */
  function Succ(x: int): int {
    if x == OFFSET_MAX then -OFFSET_MAX - 1 else x + 1
  }

  /** It is the value of x + 1 in 32 bits. */
  lemma SuccIs(x: int)
    requires -OFFSET_MAX - 1 <= x <= OFFSET_MAX
    ensures -OFFSET_MAX - 1 <= Succ(x) <= OFFSET_MAX && (Succ(x) - (x + 1)) % 0x1_0000_0000 == 0
  {
  }

  predicate GoodRequest(r: Request) {
    r.owner != NO_OWNER && 0 <= r.start <= r.end <= OFFSET_MAX
  }

  /** The request ends at the largest offset, and the owner has a lock of the
      same kind that touches it. */
  ghost predicate Wraps(l: seq<Entry>, r: Request) {
    && r.end == OFFSET_MAX
    && exists i :: 0 <= i < |l| && Mine(l[i], r.owner) && r.kind == Some(l[i].kind) && l[i].end >= r.start - 1
  }

  /** The list with the cursor `before`: done + rest.  The owner's locks in rest
      come first; behind them are other owners' locks. */
  ghost predicate AtCursor(r: Request, l0: seq<Entry>, pre: seq<Entry>, w: Walk, own: seq<Entry>, post: seq<Entry>,
                           done: seq<Entry>, rest: seq<Entry>)
  {
    && l0 == pre + (w.seen + own) + post && Inv(r, w) && Normal(w.seen + own, r.owner)
    && (forall i :: 0 <= i < |pre| ==> !Mine(pre[i], r.owner))
    && (forall i :: 0 <= i < |post| ==> !Mine(post[i], r.owner))
    && done == pre + (w.kept + w.left) + w.new_ && rest == own + post
  }

  /** The requests woken so far and those still on block lists are those that
      were asleep, and the latter still wait for a conflicting lock. */
  ghost predicate Tallied(l0: seq<Entry>, l: seq<Entry>, woken: seq<Request>) {
    && AllBlocked(l0) == AllBlocked(l) + multiset(woken)
    && (StillBlocked(l0) ==> StillBlocked(l))
  }

  /** Nobody has come to wait for an owner anew. */
  ghost predicate NoNewWait(l0: seq<Entry>, l: seq<Entry>) {
    forall q, p :: WaitsOn(l, q, p) ==> WaitsOn(l0, q, p)
  }

  ghost predicate Accounted(l0: seq<Entry>, l: seq<Entry>, woken: seq<Request>) {
    Tallied(l0, l, woken) && NoNewWait(l0, l)
  }

  /** An entry on whose block list sleepers are comes from one of the same owner
      with those sleepers. */
  lemma WaitsFrom(l0: seq<Entry>, l: seq<Entry>, m: seq<Entry>)
    requires NoNewWait(l0, l)
    requires forall j, q :: 0 <= j < |m| && q in m[j].blocked ==> WaitsOn(l, q, m[j].owner)
    ensures NoNewWait(l0, m)
  {
  }

  lemma NextOwn(r: Request, l0: seq<Entry>, pre: seq<Entry>, w: Walk, own: seq<Entry>, post: seq<Entry>,
                done: seq<Entry>, rest: seq<Entry>)
    requires AtCursor(r, l0, pre, w, own, post, done, rest) && own != []
    ensures Next(r, w, own[0]) && rest != [] && rest[0] == own[0] && rest[1..] == own[1..] + post
    ensures w.seen + own == (w.seen + [own[0]]) + own[1..]
    ensures Mine(own[0], r.owner) && 0 <= own[0].start <= own[0].end <= OFFSET_MAX
  {
    var run := w.seen + own;
    NormalSlice(run, r.owner, 0, |w.seen| + 1);
    assert run[0..|w.seen| + 1] == w.seen + [own[0]];
    AfterAll(w.seen, own[0], r.owner);
  }

  /** Dropping the first entry of the rest wakes everybody waiting for it. */
  lemma DropAccounted(l0: seq<Entry>, done: seq<Entry>, rest: seq<Entry>, woken: seq<Request>)
    requires rest != [] && Accounted(l0, done + rest, woken)
    ensures Accounted(l0, done + rest[1..], woken + rest[0].blocked)
  {
    hide NoNewWait;
    BlockedConcat(done, rest);
    BlockedConcat(done, rest[1..]);
    HeadBlocked(rest);
    if StillBlocked(done + rest) {
      DropStill(done, rest);
    }
    DropWaits(l0, done, rest);
    hide AllBlocked, StillBlocked;
    assert multiset(woken + rest[0].blocked) == multiset(woken) + multiset(rest[0].blocked);
  }

  lemma HeadBlocked(l: seq<Entry>)
    requires l != []
    ensures AllBlocked(l) == multiset(l[0].blocked) + AllBlocked(l[1..])
  {
  }

  lemma DropStill(done: seq<Entry>, rest: seq<Entry>)
    requires rest != [] && StillBlocked(done + rest)
    ensures StillBlocked(done + rest[1..])
  {
    var l, m := done + rest, done + rest[1..];
    forall i, q | 0 <= i < |m| && q in m[i].blocked
      ensures Conflicts(q, m[i])
    {
      assert m[i] == l[if i < |done| then i else i + 1];
    }
  }

  lemma DropWaits(l0: seq<Entry>, done: seq<Entry>, rest: seq<Entry>)
    requires rest != [] && NoNewWait(l0, done + rest)
    ensures NoNewWait(l0, done + rest[1..])
  {
    var l, m := done + rest, done + rest[1..];
    forall i, q | 0 <= i < |m| && q in m[i].blocked
      ensures WaitsOn(l, q, m[i].owner)
    {
      assert m[i] == l[if i < |done| then i else i + 1];
    }
    WaitsFrom(l0, l, m);
  }

  /** Changing one entry without touching its block list keeps the account, if
      the waiting requests still conflict with it. */
  lemma ChangeAccounted(l0: seq<Entry>, l: seq<Entry>, i: nat, f: Entry, woken: seq<Request>)
    requires i < |l| && Accounted(l0, l, woken)
    requires f.blocked == l[i].blocked && f.owner == l[i].owner
    requires forall q :: q in f.blocked && Conflicts(q, l[i]) ==> Conflicts(q, f)
    ensures Accounted(l0, l[i := f], woken)
  {
    hide NoNewWait;
    BlockedSplit(l, i);
    BlockedSplit(l[i := f], i);
    assert l[i := f][..i] == l[..i] && l[i := f][i + 1..] == l[i + 1..];
    SetWaits(l0, l, i, f);
  }

  lemma SetWaits(l0: seq<Entry>, l: seq<Entry>, i: nat, f: Entry)
    requires i < |l| && NoNewWait(l0, l)
    requires f.blocked == [] || (f.blocked == l[i].blocked && f.owner == l[i].owner)
    ensures NoNewWait(l0, l[i := f])
  {
    WaitsFrom(l0, l, l[i := f]);
  }

  /** Changing one entry after waking everybody who waits for it. */
  lemma WakeAccounted(l0: seq<Entry>, l: seq<Entry>, i: nat, f: Entry, woken: seq<Request>)
    requires i < |l| && Accounted(l0, l, woken) && f.blocked == []
    ensures Accounted(l0, l[i := f], woken + l[i].blocked)
  {
    hide NoNewWait, StillBlocked, AllBlocked;
    BlockedSplit(l, i);
    BlockedSplit(l[i := f], i);
    assert l[i := f][..i] == l[..i] && l[i := f][i + 1..] == l[i + 1..];
    assert multiset(woken + l[i].blocked) == multiset(woken) + multiset(l[i].blocked);
    SetWaits(l0, l, i, f);
    WakeStill(l, i, f);
  }

  lemma WakeStill(l: seq<Entry>, i: nat, f: Entry)
    requires i < |l| && f.blocked == []
    ensures StillBlocked(l) ==> StillBlocked(l[i := f])
  {
  }

  lemma InsertAccounted(l0: seq<Entry>, done: seq<Entry>, rest: seq<Entry>, f: Entry, woken: seq<Request>)
    requires Accounted(l0, done + rest, woken) && f.blocked == []
    ensures Accounted(l0, done + ([f] + rest), woken)
  {
    hide NoNewWait, StillBlocked;
    assert AllBlocked([f]) == multiset{};
    hide AllBlocked;
    BlockedConcat(done, rest);
    BlockedConcat(done, [f] + rest);
    BlockedConcat([f], rest);
    InsertWaits(l0, done, rest, f);
    InsertStill(done, rest, f);
  }

  lemma InsertStill(done: seq<Entry>, rest: seq<Entry>, f: Entry)
    requires f.blocked == []
    ensures StillBlocked(done + rest) ==> StillBlocked(done + ([f] + rest))
  {
    var l, m := done + rest, done + ([f] + rest);
    forall i | 0 <= i < |m| && i != |done|
      ensures m[i] == l[if i < |done| then i else i - 1]
    {
    }
  }

  lemma InsertWaits(l0: seq<Entry>, done: seq<Entry>, rest: seq<Entry>, f: Entry)
    requires NoNewWait(l0, done + rest) && f.blocked == []
    ensures NoNewWait(l0, done + ([f] + rest))
  {
    var l, m := done + rest, done + ([f] + rest);
    forall i, q | 0 <= i < |m| && q in m[i].blocked
      ensures WaitsOn(l, q, m[i].owner)
    {
      assert m[i] == l[if i < |done| then i else i - 1];
    }
    WaitsFrom(l0, l, m);
  }

  lemma BlockedSplit(l: seq<Entry>, i: nat)
    requires i < |l|
    ensures AllBlocked(l) == AllBlocked(l[..i]) + multiset(l[i].blocked) + AllBlocked(l[i + 1..])
  {
    assert l == l[..i] + l[i..];
    BlockedConcat(l[..i], l[i..]);
    HeadBlocked(l[i..]);
    assert l[i..][1..] == l[i + 1..];
    hide AllBlocked;
  }

  /** The cursor passes one of the owner's locks. */
  lemma Moved(r: Request, l0: seq<Entry>, pre: seq<Entry>, w: Walk, own: seq<Entry>, post: seq<Entry>,
              done: seq<Entry>, rest: seq<Entry>, w': Walk, done': seq<Entry>)
    requires AtCursor(r, l0, pre, w, own, post, done, rest) && own != []
    requires Inv(r, w') && w'.seen == w.seen + [own[0]] && done' == pre + (w'.kept + w'.left) + w'.new_
    ensures rest != [] && AtCursor(r, l0, pre, w', own[1..], post, done', rest[1..])
  {
    NextOwn(r, l0, pre, w, own, post, done, rest);
    hide Inv, Normal;
  }

  /** How the loop over the owner's locks can end. */
  datatype Stop = Behind | AtSplit | AtWrap

  /** What the walk promises when it stops with the owner's locks `own` ahead. */
  ghost predicate Stopped(r: Request, w: Walk, own: seq<Entry>, stop: Stop) {
    match stop
    case Behind => Beyond(r, w, own)
    case AtSplit => own != [] && Splits(r, w, own[0])
    case AtWrap => own != [] && r.end == OFFSET_MAX && r.kind == Some(own[0].kind) && own[0].end >= r.start - 1
  }

  /** As long as the walk has not met a lock of the same kind that touches the
      request, a request up to the largest offset has not grown. */
  ghost predicate NoWrapSoFar(r: Request, w: Walk) {
    r.end == OFFSET_MAX ==>
      && w.s == r.start && w.e == OFFSET_MAX
      && forall i :: 0 <= i < |w.seen| && r.kind == Some(w.seen[i].kind) ==> w.seen[i].end < r.start - 1
  }

  /** The local variables of the loop; `left` is the position in `done` of the
      lock to be cut off at its end, or -1. */
  datatype Locals = Locals(done: seq<Entry>, rest: seq<Entry>, s: int, e: int, added: bool, left: int,
      woken: seq<Request>)

  ghost predicate InLoop(r: Request, l0: seq<Entry>, pre: seq<Entry>, w: Walk, own: seq<Entry>, post: seq<Entry>,
      v: Locals) {
    && AtCursor(r, l0, pre, w, own, post, v.done, v.rest) && Accounted(l0, v.done + v.rest, v.woken)
    && v.s == w.s && v.e == w.e && v.added == w.added && NoWrapSoFar(r, w)
    && v.left == if w.left == [] then -1 else |pre| + |w.kept|
  }

  /** A lock of the same kind. */
  method SameKind(r: Request, v: Locals, ghost l0: seq<Entry>, ghost pre: seq<Entry>, ghost w: Walk,
      ghost own: seq<Entry>, ghost post: seq<Entry>)
    returns (stop: bool, v': Locals, ghost w': Walk)
    requires GoodRequest(r) && InLoop(r, l0, pre, w, own, post, v) && own != [] && r.kind == Some(own[0].kind)
    ensures v.rest != []
    ensures stop ==> v' == v && w' == w && (Beyond(r, w, own) || Stopped(r, w, own, AtWrap))
    ensures !stop ==> InLoop(r, l0, pre, w', own[1..], post, v')
  {
    NextOwn(r, l0, pre, w, own, post, v.done, v.rest);
    var f := v.rest[0];
    v', w', stop := v, w, false;
    if f.end < v.s - 1 {
      SkipStep(r, w, f);
      w' := w.(seen := w.seen + [f], kept := w.kept + [f]);
      v' := v.(done := v.done + [f], rest := v.rest[1..]);
      Moved(r, l0, pre, w, own, post, v.done, v.rest, w', v'.done);
      assert v'.done + v'.rest == v.done + v.rest;
    } else if f.start > Succ(v.e) {
      stop := true;
      WrapOrBeyond(r, w, own);
    } else {
      var s, e := Min(v.s, f.start), Max(v.e, f.end);
      v', w' := Merge(r, v, s, e, l0, pre, w, own, post);
    }
  }

  lemma WrapOrBeyond(r: Request, w: Walk, own: seq<Entry>)
    requires Inv(r, w) && own != [] && Next(r, w, own[0]) && NoWrapSoFar(r, w)
    requires r.kind == Some(own[0].kind) && own[0].end >= w.s - 1 && own[0].start > Succ(w.e)
    ensures Beyond(r, w, own) || Stopped(r, w, own, AtWrap)
  {
    AfterAll(w.seen, own[0], r.owner);
    if w.e == OFFSET_MAX && r.end < OFFSET_MAX {
      GrownEnd(r, w, own[0]);
    }
  }

  /** A request that has grown to the largest offset has no lock behind it. */
  lemma GrownEnd(r: Request, w: Walk, f: Entry)
    requires Inv(r, w) && Next(r, w, f) && r.end < w.e
    ensures w.e < OFFSET_MAX
  {
    var x := w.e;
    assert HeldBy(w.seen, r.owner, x) == r.kind;
    AfterAll(w.seen, f, r.owner);
    if r.kind.Some? {
      var i := HeldSome(w.seen, r.owner, x);
      assert Apart(w.seen[i], f);
    }
  }

  /** Merging with a lock that touches the request. */
  method Merge(r: Request, v: Locals, s: int, e: int, ghost l0: seq<Entry>, ghost pre: seq<Entry>, ghost w: Walk,
               ghost own: seq<Entry>, ghost post: seq<Entry>)
    returns (v': Locals, ghost w': Walk)
    requires GoodRequest(r) && InLoop(r, l0, pre, w, own, post, v) && own != [] && r.kind == Some(own[0].kind)
    requires v.rest != [] && v.rest[0] == own[0] && own[0].end >= v.s - 1 && own[0].start <= Succ(v.e)
    requires s == Min(v.s, own[0].start) && e == Max(v.e, own[0].end)
    ensures InLoop(r, l0, pre, w', own[1..], post, v')
  {
    hide Inv, Normal, Accounted, AllBlocked;
    NextOwn(r, l0, pre, w, own, post, v.done, v.rest);
    MergeFits(r, w, own[0]);
    WalkFacts(r, w);
    var f := v.rest[0];
    if v.added {
      var c := |v.done| - 1;
      MergeStep(r, w, f, w.new_[0].blocked);
      var g := v.done[c].(start := s, end := e);
      w' := w.(seen := w.seen + [f], new_ := [g], s := s, e := e);
      v' := v.(done := v.done[c := g], rest := v.rest[1..], s := s, e := e, woken := v.woken + f.blocked);
      Moved(r, l0, pre, w, own, post, v.done, v.rest, w', v'.done);
      DropAccounted(l0, v.done, v.rest, v.woken);
      ChangeAccounted(l0, v.done + v.rest[1..], c, g, v'.woken);
      assert (v.done + v.rest[1..])[c := g] == v'.done + v'.rest;
    } else {
      MergeStep(r, w, f, f.blocked);
      var g := f.(start := s, end := e);
      w' := w.(seen := w.seen + [f], new_ := [g], s := s, e := e, added := true);
      v' := v.(done := v.done + [g], rest := v.rest[1..], s := s, e := e, added := true);
      Moved(r, l0, pre, w, own, post, v.done, v.rest, w', v'.done);
      ChangeAccounted(l0, v.done + v.rest, |v.done|, g, v.woken);
      assert (v.done + v.rest)[|v.done| := g] == v'.done + v'.rest;
    }
  }

  lemma MergeFits(r: Request, w: Walk, f: Entry)
    requires Inv(r, w) && Next(r, w, f) && NoWrapSoFar(r, w) && r.kind == Some(f.kind) && f.end >= w.s - 1
    requires f.start <= Succ(w.e)
    ensures r.end < OFFSET_MAX && f.start <= w.e + 1
  {
    AfterAll(w.seen, f, r.owner);
  }

  /** A lock of another kind, or any lock when unlocking. */
  method OtherKind(r: Request, v: Locals, ghost l0: seq<Entry>, ghost pre: seq<Entry>, ghost w: Walk,
      ghost own: seq<Entry>, ghost post: seq<Entry>)
    returns (stop: bool, split: bool, v': Locals, ghost w': Walk)
    requires GoodRequest(r) && InLoop(r, l0, pre, w, own, post, v) && own != [] && r.kind != Some(own[0].kind)
    ensures v.rest != []
    ensures stop ==> v' == v && w' == w && Stopped(r, w, own, if split then AtSplit else Behind)
    ensures !stop ==> InLoop(r, l0, pre, w', own[1..], post, v')
  {
    NextOwn(r, l0, pre, w, own, post, v.done, v.rest);
    var f := v.rest[0];
    v', w', stop, split := v, w, false, false;
    if f.end < v.s {
      SkipStep(r, w, f);
      w' := w.(seen := w.seen + [f], kept := w.kept + [f]);
      v' := v.(done := v.done + [f], rest := v.rest[1..]);
      Moved(r, l0, pre, w, own, post, v.done, v.rest, w', v'.done);
      assert v'.done + v'.rest == v.done + v.rest;
    } else if f.start > v.e {
      stop := true;
    } else if f.end > v.e {
      stop, split := true, true;
    } else if f.start < v.s {
      CutStep(r, w, f);
      w' := w.(seen := w.seen + [f], left := [f], added := w.added || r.kind == None);
      v' := v.(done := v.done + [f], rest := v.rest[1..], added := v.added || r.kind == None, left := |v.done|);
      Moved(r, l0, pre, w, own, post, v.done, v.rest, w', v'.done);
      assert v'.done + v'.rest == v.done + v.rest;
    } else {
      v', w' := Cover(r, v, l0, pre, w, own, post);
    }
  }

  /** A lock of another kind that lies inside the request. */
  method Cover(r: Request, v: Locals, ghost l0: seq<Entry>, ghost pre: seq<Entry>, ghost w: Walk, ghost own: seq<Entry>,
               ghost post: seq<Entry>)
    returns (v': Locals, ghost w': Walk)
    requires GoodRequest(r) && InLoop(r, l0, pre, w, own, post, v) && own != [] && r.kind != Some(own[0].kind)
    requires v.rest != [] && v.rest[0] == own[0] && v.s <= own[0].start && own[0].end <= v.e
    ensures InLoop(r, l0, pre, w', own[1..], post, v')
  {
    hide Inv, Normal, Accounted, AllBlocked;
    NextOwn(r, l0, pre, w, own, post, v.done, v.rest);
    WalkFacts(r, w);
    var f := v.rest[0];
    if v.added || r.kind == None {
      CoverStep(r, w, f, w.new_);
      w' := w.(seen := w.seen + [f], added := true);
      v' := v.(rest := v.rest[1..], added := true, woken := v.woken + f.blocked);
      Moved(r, l0, pre, w, own, post, v.done, v.rest, w', v'.done);
      DropAccounted(l0, v.done, v.rest, v.woken);
    } else {
      var g := f.(start := v.s, end := v.e, kind := r.kind.value, blocked := []);
      CoverStep(r, w, f, [g]);
      w' := w.(seen := w.seen + [f], new_ := [g], added := true);
      v' := v.(done := v.done + [g], rest := v.rest[1..], added := true, woken := v.woken + f.blocked);
      Moved(r, l0, pre, w, own, post, v.done, v.rest, w', v'.done);
      WakeAccounted(l0, v.done + v.rest, |v.done|, g, v.woken);
      assert (v.done + v.rest)[|v.done| := g] == v'.done + v'.rest;
    }
  }

  lemma WalkFacts(r: Request, w: Walk)
    requires Inv(r, w)
    ensures |w.left| <= 1 && |w.new_| <= 1 && (r.kind == None ==> w.new_ == [])
    ensures r.kind.Some? ==> (w.added <==> w.new_ != [])
    ensures w.new_ != [] ==> IsNew(r, w, w.new_[0])
    ensures 0 <= w.s <= r.start <= r.end <= w.e <= OFFSET_MAX
  {
    hide Normal;
  }

  /** The walk over the owner's entries, up to the first that settles the request. */
  method WalkOwn(r: Request, v0: Locals, ghost l0: seq<Entry>, ghost pre: seq<Entry>, ghost w0: Walk,
      ghost own0: seq<Entry>, ghost post: seq<Entry>)
    returns (stop: Stop, v: Locals, ghost w: Walk, ghost own: seq<Entry>)
    requires GoodRequest(r) && InLoop(r, l0, pre, w0, own0, post, v0)
    requires forall i :: 0 <= i < |post| ==> post[i].owner != r.owner
    ensures InLoop(r, l0, pre, w, own, post, v) && Stopped(r, w, own, stop)
  {
    v, w, own := v0, w0, own0;
    while v.rest != [] && v.rest[0].owner == r.owner
      invariant InLoop(r, l0, pre, w, own, post, v)
      decreases |v.rest|
    {
      HeadIsOwn(r, l0, pre, w, own, post, v);
      var halt;
      if r.kind == Some(v.rest[0].kind) {
        ghost var w' := w;
        var v' := v;
        halt, v', w' := SameKind(r, v, l0, pre, w, own, post);
        if halt {
          return if v.rest[0].start > v.e + 1 then Behind else AtWrap, v, w, own;
        }
        RestShrinks(r, l0, pre, w, own, post, v, w', v');
        v, w, own := v', w', own[1..];
      } else {
        var split;
        ghost var w' := w;
        var v' := v;
        halt, split, v', w' := OtherKind(r, v, l0, pre, w, own, post);
        if halt {
          return if split then AtSplit else Behind, v, w, own;
        }
        RestShrinks(r, l0, pre, w, own, post, v, w', v');
        v, w, own := v', w', own[1..];
      }
    }
    NoneLeft(r, l0, pre, w, own, post, v);
    stop := Behind;
  }

  lemma HeadIsOwn(r: Request, l0: seq<Entry>, pre: seq<Entry>, w: Walk, own: seq<Entry>, post: seq<Entry>, v: Locals)
    requires InLoop(r, l0, pre, w, own, post, v) && v.rest != [] && v.rest[0].owner == r.owner
    requires forall i :: 0 <= i < |post| ==> post[i].owner != r.owner
    ensures own != [] && own[0] == v.rest[0]
  {
  }

  lemma NoneLeft(r: Request, l0: seq<Entry>, pre: seq<Entry>, w: Walk, own: seq<Entry>, post: seq<Entry>, v: Locals)
    requires InLoop(r, l0, pre, w, own, post, v) && (v.rest != [] ==> v.rest[0].owner != r.owner)
    ensures own == []
  {
    if own != [] {
      NextOwn(r, l0, pre, w, own, post, v.done, v.rest);
    }
  }

  lemma RestShrinks(r: Request, l0: seq<Entry>, pre: seq<Entry>, w: Walk, own: seq<Entry>, post: seq<Entry>, v: Locals,
                    w': Walk, v': Locals)
    requires InLoop(r, l0, pre, w, own, post, v) && own != [] && InLoop(r, l0, pre, w', own[1..], post, v')
    ensures |v'.rest| < |v.rest|
  {
  }

  /** The list after the walk, in its parts. */
  ghost function Result(r: Request, pre: seq<Entry>, w: Walk, own: seq<Entry>, post: seq<Entry>, stop: Stop): seq<Entry>
    requires stop.AtSplit? ==> own != []
  {
    if stop.AtSplit? then
      pre + Assemble(w.kept, Trimmed(LeftOf(w, own[0]), w.s), NewEntry(r, w),
        [Shortened(own[0], w.e)] + own[1..]) + post
    else
      pre + Assemble(w.kept, Trimmed(w.left, w.s), NewEntry(r, w), own) + post
  }

  /** Inserting the new lock at the cursor, unless it is on the list already. */
  method InsertNew(r: Request, v: Locals, ghost l0: seq<Entry>) returns (rest: seq<Entry>, at: nat)
    requires Accounted(l0, v.done + v.rest, v.woken)
    ensures Accounted(l0, v.done + rest, v.woken)
    ensures at == if v.added || r.kind == None then 0 else 1
    ensures rest == (if at == 0 then [] else [Entry(true, r.owner, r.kind.value, v.s, v.e, [])]) + v.rest
  {
    rest, at := v.rest, 0;
    if !v.added && r.kind != None {
      var n := Entry(true, r.owner, r.kind.value, v.s, v.e, []);
      InsertAccounted(l0, v.done, v.rest, n, v.woken);
      rest, at := [n] + v.rest, 1;
    } else {
      assert [] + v.rest == v.rest;
    }
  }

  /** Cutting off the lock at which the walk stopped; when it starts before the
      request too, its first part becomes a new entry in front. */
  method SplitRight(s: int, e: int, done: seq<Entry>, rest0: seq<Entry>, at: nat, woken0: seq<Request>,
      ghost l0: seq<Entry>)
    returns (rest: seq<Entry>, woken: seq<Request>)
    requires at < |rest0| && Accounted(l0, done + rest0, woken0)
    ensures Accounted(l0, done + rest, woken)
    ensures var f := rest0[at];
      rest == (if f.start < s then Trimmed([f], s) else []) + rest0[..at] + [Shortened(f, e)] + rest0[at + 1..]
  {
    hide Accounted;
    var f := rest0[at];
    rest, woken := rest0, woken0;
    WakeAccounted(l0, done + rest, |done| + at, Shortened(f, e), woken);
    assert (done + rest)[|done| + at := Shortened(f, e)] == done + rest[at := Shortened(f, e)];
    woken, rest := woken + f.blocked, rest[at := Shortened(f, e)];
    if f.start < s {
      var g := f.(end := s - 1, blocked := []);
      InsertAccounted(l0, done, rest, g, woken);
      rest := [g] + rest;
      assert Trimmed([f], s) == [g];
    }
  }

  /** Cutting off the lock noted on the way. */
  method TrimLeft(s: int, done0: seq<Entry>, rest: seq<Entry>, left: int, woken0: seq<Request>, ghost l0: seq<Entry>)
    returns (done: seq<Entry>, woken: seq<Request>)
    requires -1 <= left < |done0| && Accounted(l0, done0 + rest, woken0)
    ensures Accounted(l0, done + rest, woken)
    ensures done == if left < 0 then done0 else done0[left := done0[left].(end := s - 1, blocked := [])]
  {
    done, woken := done0, woken0;
    if left >= 0 {
      var g := done[left].(end := s - 1, blocked := []);
      WakeAccounted(l0, done + rest, left, g, woken);
      assert (done + rest)[left := g] == done[left := g] + rest;
      woken, done := woken + done[left].blocked, done[left := g];
    }
  }

  /** After the loop: insert, split and trim. */
  method Epilogue(r: Request, v: Locals, stop: Stop, ghost l0: seq<Entry>, ghost pre: seq<Entry>, ghost w: Walk,
                  ghost own: seq<Entry>, ghost post: seq<Entry>)
    returns (l: seq<Entry>, woken: seq<Request>)
    requires GoodRequest(r) && InLoop(r, l0, pre, w, own, post, v) && Stopped(r, w, own, stop)
    ensures Accounted(l0, l, woken) && l == Result(r, pre, w, own, post, stop)
  {
    hide Accounted;
    assert Accounted(l0, v.done + v.rest, v.woken);
    hide Inv, Normal;
    var rest, at := InsertNew(r, v, l0);
    woken := v.woken;
    ghost var inserted := rest[..at];
    if stop.AtSplit? {
      NextOwn(r, l0, pre, w, own, post, v.done, v.rest);
      rest, woken := SplitRight(v.s, v.e, v.done, rest, at, woken, l0);
    }
    var done;
    LeftInDone(r, l0, pre, w, own, post, v);
    done, woken := TrimLeft(v.s, v.done, rest, v.left, woken, l0);
    l := done + rest;
    SameResult(r, l0, pre, w, own, post, v, stop, done, rest, at);
  }

  lemma LeftInDone(r: Request, l0: seq<Entry>, pre: seq<Entry>, w: Walk, own: seq<Entry>, post: seq<Entry>, v: Locals)
    requires InLoop(r, l0, pre, w, own, post, v)
    ensures -1 <= v.left < |v.done| && (v.left >= 0 ==> v.done[v.left] == w.left[0])
    ensures v.done == pre + (w.kept + w.left) + w.new_
    ensures var done := if v.left < 0 then v.done else v.done[v.left := v.done[v.left].(end := v.s - 1, blocked := [])];
      done == pre + (w.kept + Trimmed(w.left, w.s)) + w.new_
  {
    hide Inv, Normal;
    assert |w.left| <= 1 by { LeftOne(r, w); }
    if w.left == [] {
      assert Trimmed(w.left, w.s) == [];
    } else {
      var g := w.left[0].(end := w.s - 1, blocked := []);
      assert Trimmed(w.left, w.s) == [g];
      assert w.left == [w.left[0]];
    }
  }

  lemma LeftOne(r: Request, w: Walk)
    requires Inv(r, w)
    ensures |w.left| <= 1 && (w.new_ == [] && r.kind.Some? <==> !w.added && r.kind.Some?)
    ensures r.kind == None ==> w.new_ == []
  {
  }

  lemma SameResult(r: Request, l0: seq<Entry>, pre: seq<Entry>, w: Walk, own: seq<Entry>, post: seq<Entry>, v: Locals,
                   stop: Stop, done: seq<Entry>, rest: seq<Entry>, at: nat)
    requires InLoop(r, l0, pre, w, own, post, v) && Stopped(r, w, own, stop)
    requires done == pre + (w.kept + Trimmed(w.left, w.s)) + w.new_
    requires at == if v.added || r.kind == None then 0 else 1
    requires var n := if at == 0 then [] else [Entry(true, r.owner, r.kind.value, v.s, v.e, [])];
      if stop.AtSplit? then
        var f := own[0];
        rest == (if f.start < v.s then Trimmed([f], v.s) else []) + n + [Shortened(f, v.e)] + (n + v.rest)[at + 1..]
      else rest == n + v.rest
    ensures done + rest == Result(r, pre, w, own, post, stop)
  {
    LeftOne(r, w);
    var n := if at == 0 then [] else [Entry(true, r.owner, r.kind.value, v.s, v.e, [])];
    assert w.new_ + n == NewEntry(r, w);
    if stop.AtSplit? {
      NextOwn(r, l0, pre, w, own, post, v.done, v.rest);
      var f := own[0];
      assert (n + v.rest)[at + 1..] == v.rest[1..];
      if f.start < v.s {
        SplitsFirst(r, w, own);
        assert Trimmed(w.left, w.s) == [];
        SplitJoin(pre, w.kept, Trimmed([f], w.s), n, Shortened(f, w.e), own[1..], post);
      } else {
        PlainJoin(pre, w.kept + Trimmed(w.left, w.s), w.new_, n, [Shortened(f, w.e)] + own[1..], post);
        Regroup(n, Shortened(f, w.e), own[1..], post);
      }
    } else {
      PlainJoin(pre, w.kept + Trimmed(w.left, w.s), w.new_, n, own, post);
    }
  }

  lemma PlainJoin(pre: seq<Entry>, kl: seq<Entry>, m: seq<Entry>, n: seq<Entry>, own: seq<Entry>, post: seq<Entry>)
    ensures (pre + kl + m) + (n + (own + post)) == pre + (kl + ((m + n) + own)) + post
  {
  }

  lemma Regroup(n: seq<Entry>, g: Entry, own: seq<Entry>, post: seq<Entry>)
    ensures [] + n + [g] + (own + post) == n + (([g] + own) + post)
  {
  }

  lemma SplitJoin(pre: seq<Entry>, kept: seq<Entry>, t: seq<Entry>, n: seq<Entry>, g: Entry, own: seq<Entry>,
      post: seq<Entry>)
    ensures (pre + (kept + []) + []) + (t + n + [g] + (own + post)) ==
      pre + ((kept + t) + (([] + n) + ([g] + own))) + post
  {
  }

  lemma SplitsFirst(r: Request, w: Walk, own: seq<Entry>)
    requires Inv(r, w) && Normal(w.seen + own, r.owner) && own != [] && own[0].start < w.s
    ensures w.left == [] && w.new_ == []
  {
    NormalSlice(w.seen + own, r.owner, 0, |w.seen| + 1);
    assert (w.seen + own)[0..|w.seen| + 1] == w.seen + [own[0]];
    NothingTouched(r, w, own[0]);
  }

  /** The other owners do not notice. */
  ghost predicate OthersSame(l0: seq<Entry>, l: seq<Entry>, o: Owner) {
    forall p: Owner, x: int :: p != o ==> HeldBy(l, p, x) == HeldBy(l0, p, x)
  }

  ghost predicate AllMine(run: seq<Entry>, o: Owner) {
    forall i :: 0 <= i < |run| ==> Mine(run[i], o)
  }

  ghost predicate NoneMine(l: seq<Entry>, o: Owner) {
    forall i :: 0 <= i < |l| ==> !Mine(l[i], o)
  }

  lemma MiddleHeld(pre: seq<Entry>, run: seq<Entry>, post: seq<Entry>, o: Owner, p: Owner, x: int)
    requires AllMine(run, o) && NoneMine(pre, o) && NoneMine(post, o)
    ensures HeldBy(pre + run + post, o, x) == HeldBy(run, o, x)
    ensures p != o ==> HeldBy(pre + run + post, p, x) == HeldBy(pre + post, p, x)
  {
    HeldConcat(pre + run, post, o, x);
    HeldConcat(pre, run, o, x);
    HeldNone(pre, o, x);
    HeldNone(post, o, x);
    HeldConcat(pre + run, post, p, x);
    HeldConcat(pre, run, p, x);
    HeldConcat(pre, post, p, x);
    if p != o {
      HeldNone(run, p, x);
    }
  }

  /** Where an entry outside the replaced run was before. */
  function Was(i: nat, pre: nat, run: nat, after: nat): int {
    if i < pre then i else i - after + run
  }

  /** Replacing one owner's run keeps the list well formed, if the new run is. */
  lemma ReplaceRun(pre: seq<Entry>, run: seq<Entry>, after: seq<Entry>, post: seq<Entry>, o: Owner)
    requires WellFormed(pre + run + post) && AllMine(run, o) && Normal(after, o) && NoneMine(pre, o)
    requires NoneMine(post, o)
    requires run == [] ==> post == []
    ensures WellFormed(pre + after + post)
  {
    hide WellFormed, Normal, AllMine, NoneMine;
    var l := pre + after + post;
    forall i | 0 <= i < |l|
      ensures if l[i].posix then 0 <= l[i].start <= l[i].end <= OFFSET_MAX else l[i].owner == NO_OWNER
    {
      EntryAfter(pre, run, after, post, o, i);
    }
    forall i, j | 0 <= i < j < |l| && SameOwner(l[i], l[j])
      ensures Apart(l[i], l[j])
    {
      EntryAfter(pre, run, after, post, o, i);
      EntryAfter(pre, run, after, post, o, j);
      PairAfter(pre, run, after, post, o, i, j);
    }
    forall i, j, k | 0 <= i < j < k < |l| && SameOwner(l[i], l[k])
      ensures SameOwner(l[i], l[j])
    {
      TripleAfter(pre, run, after, post, o, i, j, k);
    }
    AreWellFormed(l);
  }

  lemma AreWellFormed(l: seq<Entry>)
    requires forall i :: 0 <= i < |l| ==>
      if l[i].posix then 0 <= l[i].start <= l[i].end <= OFFSET_MAX else l[i].owner == NO_OWNER
    requires forall i, j :: 0 <= i < j < |l| && SameOwner(l[i], l[j]) ==> Apart(l[i], l[j])
    requires forall i, j, k :: 0 <= i < j < k < |l| && SameOwner(l[i], l[k]) ==> SameOwner(l[i], l[j])
    ensures WellFormed(l)
  {
  }

  /** An entry of the new run belongs to the owner; the others are old ones and do not. */
  lemma EntryAfter(pre: seq<Entry>, run: seq<Entry>, after: seq<Entry>, post: seq<Entry>, o: Owner, i: nat)
    requires WellFormed(pre + run + post) && Normal(after, o) && NoneMine(pre, o) && NoneMine(post, o)
    requires i < |pre + after + post|
    ensures var l, l0, p := pre + after + post, pre + run + post, |pre|;
      if p <= i < p + |after| then l[i] == after[i - p] && Mine(l[i], o) && 0 <= l[i].start <= l[i].end <= OFFSET_MAX
      else
        var j := Was(i, p, |run|, |after|);
        && 0 <= j < |l0| && l[i] == l0[j] && !Mine(l[i], o)
        && if l[i].posix then 0 <= l[i].start <= l[i].end <= OFFSET_MAX else l[i].owner == NO_OWNER
  {
    hide Apart, SameOwner;
  }

  lemma PairAfter(pre: seq<Entry>, run: seq<Entry>, after: seq<Entry>, post: seq<Entry>, o: Owner, i: nat, j: nat)
    requires WellFormed(pre + run + post) && Normal(after, o) && NoneMine(pre, o) && NoneMine(post, o)
    requires i < j < |pre + after + post| && SameOwner((pre + after + post)[i], (pre + after + post)[j])
    ensures Apart((pre + after + post)[i], (pre + after + post)[j])
  {
    hide WellFormed, Normal, NoneMine, Apart;
    EntryAfter(pre, run, after, post, o, i);
    EntryAfter(pre, run, after, post, o, j);
    var p, m := |pre|, |pre| + |after|;
    if p <= i < m || p <= j < m {
      NormalPair(after, o, i - p, j - p);
    } else {
      FormedPair(pre + run + post, Was(i, p, |run|, |after|), Was(j, p, |run|, |after|));
    }
  }

  lemma NormalPair(l: seq<Entry>, o: Owner, i: nat, j: nat)
    requires Normal(l, o) && i < j < |l|
    ensures Apart(l[i], l[j])
  {
  }

  lemma FormedPair(l: seq<Entry>, i: nat, j: nat)
    requires WellFormed(l) && i < j < |l| && SameOwner(l[i], l[j])
    ensures Apart(l[i], l[j])
  {
  }

  lemma TripleAfter(pre: seq<Entry>, run: seq<Entry>, after: seq<Entry>, post: seq<Entry>, o: Owner, i: nat, j: nat,
      k: nat)
    requires WellFormed(pre + run + post) && AllMine(run, o) && Normal(after, o) && NoneMine(pre, o)
    requires NoneMine(post, o)
    requires run == [] ==> post == []
    requires i < j < k < |pre + after + post| && SameOwner((pre + after + post)[i], (pre + after + post)[k])
    ensures SameOwner((pre + after + post)[i], (pre + after + post)[j])
  {
    hide WellFormed, Normal, NoneMine;
    EntryAfter(pre, run, after, post, o, i);
    EntryAfter(pre, run, after, post, o, j);
    EntryAfter(pre, run, after, post, o, k);
    var p, m, l0 := |pre|, |pre| + |after|, pre + run + post;
    if !(p <= i < m || p <= k < m) {
      if p <= j < m {
        assert run[0] == l0[p];
        StandTogether(l0, i, p, Was(k, p, |run|, |after|));
      } else {
        StandTogether(l0, Was(i, p, |run|, |after|), Was(j, p, |run|, |after|), Was(k, p, |run|, |after|));
      }
    }
  }

  lemma StandTogether(l: seq<Entry>, i: nat, j: nat, k: nat)
    requires WellFormed(l) && i < j < k < |l|
    ensures SameOwner(l[i], l[k]) ==> SameOwner(l[i], l[j])
  {
  }

  /** Two entries of one owner out of order spoil the list. */
  lemma Spoiled(l: seq<Entry>, i: nat, j: nat)
    requires i < j < |l| && SameOwner(l[i], l[j]) && !Apart(l[i], l[j])
    ensures !WellFormed(l)
  {
  }

  /** An owner's locks found in a well formed list. */
  lemma OwnRun(l: seq<Entry>, o: Owner, a: nat) returns (b: nat)
    requires WellFormed(l) && a <= |l| && NoneMine(l[..a], o) && (a < |l| ==> Mine(l[a], o))
    ensures a <= b <= |l| && Normal(l[a..b], o) && NoneMine(l[b..], o) && (a < |l| ==> a < b)
    ensures o != NO_OWNER ==> forall i :: b <= i < |l| ==> l[i].owner != o
  {
    b := a;
    while b < |l| && Mine(l[b], o)
      invariant a <= b <= |l| && forall i :: a <= i < b ==> Mine(l[i], o)
    {
      b := b + 1;
    }
    var run := l[a..b];
    forall i, j | 0 <= i < j < |run|
      ensures Apart(run[i], run[j])
    {
      assert SameOwner(l[a + i], l[a + j]);
    }
    forall i | b <= i < |l|
      ensures !Mine(l[i], o)
    {
      if i > b {
        StandTogether(l, a, b, i);
      }
    }
    assert forall i :: 0 <= i < |l| - b ==> l[b..][i] == l[b + i];
  }

  /** The place of the owner's first entry. */
  method SkipOthers(l: seq<Entry>, o: Owner) returns (a: nat)
    ensures a <= |l| && NoneMine(l[..a], o) && (a < |l| ==> Mine(l[a], o))
  {
    a := 0;
    while a < |l| && !Mine(l[a], o)
      invariant a <= |l| && NoneMine(l[..a], o)
    {
      a := a + 1;
    }
  }

  /** posix_lock_file on the lock list of an inode, for a request that conflicts
      with no lock on it. */
  method ApplyLock(l0: seq<Entry>, r: Request) returns (l: seq<Entry>, woken: seq<Request>)
    requires GoodRequest(r) && WellFormed(l0)
    ensures Accounted(l0, l, woken)
    ensures OthersSame(l0, l, r.owner) && LeftAlone(l0, l, r)
    ensures WellFormed(l) <==> !Wraps(l0, r)
    ensures !Wraps(l0, r) ==> forall x ::
      HeldBy(l, r.owner, x) == if r.start <= x <= r.end then r.kind else HeldBy(l0, r.owner, x)
  {
    hide Inv, Normal, WellFormed, Accounted, Wraps, OthersSame, HeldBy, InLoop, Result, LeftAlone;
    var a := SkipOthers(l0, r.owner);
    ghost var b := OwnRun(l0, r.owner, a);
    ghost var pre, run, post := l0[..a], l0[a..b], l0[b..];
    ghost var w0 := Walk([], [], [], [], r.start, r.end, false);
    var v := Locals(l0[..a], l0[a..], r.start, r.end, false, -1, []);
    WalkStart(r, l0, a, b, w0, v);
    var stop;
    ghost var w, own;
    stop, v, w, own := WalkOwn(r, v, l0, pre, w0, run, post);
    l, woken := Epilogue(r, v, stop, l0, pre, w, own, post);
    ResultIsRight(r, l0, pre, run, post, w, own, v, stop);
    ResultAlone(r, l0, pre, run, post, w, own, v, stop);
  }

  lemma WalkStart(r: Request, l0: seq<Entry>, a: nat, b: nat, w0: Walk, v: Locals)
    requires GoodRequest(r) && a <= b <= |l0| && Normal(l0[a..b], r.owner)
    requires NoneMine(l0[..a], r.owner) && NoneMine(l0[b..], r.owner)
    requires w0 == Walk([], [], [], [], r.start, r.end, false)
    requires v == Locals(l0[..a], l0[a..], r.start, r.end, false, -1, [])
    ensures InLoop(r, l0, l0[..a], w0, l0[a..b], l0[b..], v)
    ensures l0 == l0[..a] + l0[a..b] + l0[b..]
  {
    hide Inv, Normal, Accounted, NoWrapSoFar;
    ThreeParts(l0, a, b);
    EmptyWalk(r, w0);
    NothingWoken(l0);
  }

  lemma ThreeParts(l: seq<Entry>, a: nat, b: nat)
    requires a <= b <= |l|
    ensures l[..a] + l[a..b] + l[b..] == l && [] + l[a..b] == l[a..b] && l[a..] == l[a..b] + l[b..]
    ensures l[..a] + l[a..] == l && l[..a] == l[..a] + ([] + []) + []
  {
  }

  lemma EmptyWalk(r: Request, w: Walk)
    requires GoodRequest(r) && w == Walk([], [], [], [], r.start, r.end, false)
    ensures Inv(r, w) && NoWrapSoFar(r, w)
  {
  }

  lemma NothingWoken(l: seq<Entry>)
    ensures Accounted(l, l, [])
  {
  }

  /** The owner's new locks. */
  ghost function NewRun(r: Request, w: Walk, own: seq<Entry>, stop: Stop): seq<Entry>
    requires stop.AtSplit? ==> own != []
  {
    if stop.AtSplit? then
      Assemble(w.kept, Trimmed(LeftOf(w, own[0]), w.s), NewEntry(r, w), [Shortened(own[0], w.e)] + own[1..])
    else
      Assemble(w.kept, Trimmed(w.left, w.s), NewEntry(r, w), own)
  }

  lemma ResultIsRight(r: Request, l0: seq<Entry>, pre: seq<Entry>, run: seq<Entry>, post: seq<Entry>, w: Walk,
                      own: seq<Entry>, v: Locals, stop: Stop)
    requires GoodRequest(r) && WellFormed(l0) && l0 == pre + run + post && Normal(run, r.owner)
    requires NoneMine(pre, r.owner) && NoneMine(post, r.owner) && (run == [] ==> post == [])
    requires InLoop(r, l0, pre, w, own, post, v) && Stopped(r, w, own, stop)
    ensures var l := Result(r, pre, w, own, post, stop);
      && OthersSame(l0, l, r.owner)
      && (WellFormed(l) <==> !Wraps(l0, r))
      && (!Wraps(l0, r) ==> forall x ::
            HeldBy(l, r.owner, x) == if r.start <= x <= r.end then r.kind else HeldBy(l0, r.owner, x))
  {
    var o := r.owner;
    var after := NewRun(r, w, own, stop);
    var l := pre + after + post;
    assert w.seen + own == run by { SameMiddle(pre, w.seen + own, run, post); }
    NewRunMine(r, w, own, stop);
    assert AllMine(run, o);
    forall p: Owner, x: int | p != o
      ensures HeldBy(l, p, x) == HeldBy(l0, p, x)
    {
      MiddleHeld(pre, run, post, o, p, x);
      MiddleHeld(pre, after, post, o, p, x);
    }
    if stop.AtWrap? {
      WrapSpoils(r, l0, pre, run, post, w, own);
    } else {
      NoWrap(r, l0, pre, run, post, w, own, stop);
      RunUpdated(r, w, own, stop);
      ReplaceRun(pre, run, after, post, o);
      forall x
        ensures HeldBy(l, o, x) == if r.start <= x <= r.end then r.kind else HeldBy(l0, o, x)
      {
        MiddleHeld(pre, run, post, o, o, x);
        MiddleHeld(pre, after, post, o, o, x);
      }
    }
  }

  // ----- locks that a request leaves alone, with their sleepers

  /** The locks of other owners. */
  function Foreign(l: seq<Entry>, o: Owner): seq<Entry> {
    if l == [] then [] else Foreign(l[..|l| - 1], o) + (if Mine(l[|l| - 1], o) then [] else [l[|l| - 1]])
  }

  /** The lock does not touch the request. */
  predicate Far(f: Entry, r: Request) {
    f.end < r.start - 1 || f.start > r.end + 1
  }

  /** The locks of other owners are as they were, and so are those of the owner that do not
      touch the request; nobody is woken who sleeps on one of them. */
  ghost predicate LeftAlone(l0: seq<Entry>, l: seq<Entry>, r: Request) {
    && Foreign(l, r.owner) == Foreign(l0, r.owner)
    && forall f :: f in l0 && Mine(f, r.owner) && Far(f, r) ==> f in l
  }

  lemma {:induction false} ForeignConcat(p: seq<Entry>, q: seq<Entry>, o: Owner)
    ensures Foreign(p + q, o) == Foreign(p, o) + Foreign(q, o)
  {
    if q == [] {
      assert p + q == p;
    } else {
      var n := |q| - 1;
      assert (p + q)[..|p| + n] == p + q[..n];
      ForeignConcat(p, q[..n], o);
    }
  }

  lemma {:induction false} ForeignNone(l: seq<Entry>, o: Owner)
    requires AllMine(l, o)
    ensures Foreign(l, o) == []
  {
    if l != [] {
      ForeignNone(l[..|l| - 1], o);
    }
  }

  lemma ForeignAround(pre: seq<Entry>, run: seq<Entry>, post: seq<Entry>, o: Owner)
    requires AllMine(run, o)
    ensures Foreign(pre + run + post, o) == Foreign(pre, o) + Foreign(post, o)
  {
    hide Foreign;
    ForeignConcat(pre + run, post, o);
    ForeignConcat(pre, run, o);
    ForeignNone(run, o);
    assert Foreign(pre, o) + [] == Foreign(pre, o);
  }

  lemma ResultAlone(r: Request, l0: seq<Entry>, pre: seq<Entry>, run: seq<Entry>, post: seq<Entry>, w: Walk,
                    own: seq<Entry>, v: Locals, stop: Stop)
    requires GoodRequest(r) && l0 == pre + run + post && Normal(run, r.owner)
    requires NoneMine(pre, r.owner) && NoneMine(post, r.owner)
    requires InLoop(r, l0, pre, w, own, post, v) && Stopped(r, w, own, stop)
    ensures LeftAlone(l0, Result(r, pre, w, own, post, stop), r)
  {
    var after := NewRun(r, w, own, stop);
    assert w.seen + own == run by { SameMiddle(pre, w.seen + own, run, post); }
    NewRunMine(r, w, own, stop);
    assert AllMine(run, r.owner);
    ForeignAround(pre, run, post, r.owner);
    ForeignAround(pre, after, post, r.owner);
    hide Inv, Normal, Foreign, Stopped, NewRun, Far;
    forall f | f in l0 && Mine(f, r.owner) && Far(f, r)
      ensures f in pre + after + post
    {
      assert f in run;
      FarStays(r, w, own, stop, f);
    }
  }

  lemma FarStays(r: Request, w: Walk, own: seq<Entry>, stop: Stop, f: Entry)
    requires Inv(r, w) && Normal(w.seen + own, r.owner) && Stopped(r, w, own, stop) && f in w.seen + own && Far(f, r)
    ensures f in NewRun(r, w, own, stop)
  {
    hide Normal, Far, Trimmed, LeftOf, NewEntry;
    var k :| 0 <= k < |w.seen + own| && (w.seen + own)[k] == f;
    if k < |w.kept| {
      assert f == w.kept[k];
    } else if k < |w.seen| {
      SeenNormal(w.seen, own, r.owner);
      InnerNear(r, w, k);
    } else if stop.AtSplit? && k == |w.seen| {
      SplitNear(r, w, own);
    } else {
      assert f == own[k - |w.seen|];
      assert stop.AtSplit? ==> f == own[1..][k - |w.seen| - 1];
    }
  }

  lemma SeenNormal(seen: seq<Entry>, own: seq<Entry>, o: Owner)
    requires Normal(seen + own, o)
    ensures Normal(seen, o)
  {
    NormalSlice(seen + own, o, 0, |seen|);
    assert (seen + own)[0..|seen|] == seen;
  }

  /** In a run in normal form the entry that covers a byte is the only one. */
  lemma OnlyCover(l: seq<Entry>, o: Owner, i: nat, x: int)
    requires Normal(l, o) && i < |l| && Covers(l[i], x)
    ensures HeldBy(l, o, x) == Some(l[i].kind)
  {
    forall j | 0 <= j < i
      ensures !Covers(l[j], x)
    {
      assert Apart(l[j], l[i]);
    }
    HeldAt(l, o, x, i);
  }

  /** Bytes next to an entry are not held with its kind. */
  lemma NotNext(l: seq<Entry>, o: Owner, i: nat)
    requires Normal(l, o) && i < |l|
    ensures HeldBy(l, o, l[i].end + 1) != Some(l[i].kind) && HeldBy(l, o, l[i].start - 1) != Some(l[i].kind)
  {
    hide HeldBy;
    forall x | (x == l[i].end + 1 || x == l[i].start - 1) && HeldBy(l, o, x).Some?
      ensures HeldBy(l, o, x) != Some(l[i].kind)
    {
      var j := HeldSome(l, o, x);
      OtherKinds(l, o, i, j, x);
    }
  }

  lemma OtherKinds(l: seq<Entry>, o: Owner, i: nat, j: nat, x: int)
    requires Normal(l, o) && i < |l| && j < |l| && Covers(l[j], x) && (x == l[i].end + 1 || x == l[i].start - 1)
    ensures l[j].kind != l[i].kind
  {
    assert i < j ==> Apart(l[i], l[j]);
    assert j < i ==> Apart(l[j], l[i]);
  }

  /** What the walk has seen and not kept touches the request. */
  lemma InnerNear(r: Request, w: Walk, i: nat)
    requires Inv(r, w) && Normal(w.seen, r.owner) && |w.kept| <= i < |w.seen|
    ensures !Far(w.seen[i], r)
  {
    hide HeldBy;
    var f := w.seen[i];
    assert f.start <= f.end;
    OnlyCover(w.seen, r.owner, i, f.end);
    OnlyCover(w.seen, r.owner, i, f.start);
    NotNext(w.seen, r.owner, i);
    if w.left != [] && i == |w.kept| {
      assert f == w.left[0] && Cut(r, w, f);
    } else {
      assert w.s <= f.start && f.end <= w.e;
    }
  }

  /** So does a lock that is split. */
  lemma SplitNear(r: Request, w: Walk, own: seq<Entry>)
    requires Inv(r, w) && Normal(w.seen + own, r.owner) && own != [] && Splits(r, w, own[0])
    ensures !Far(own[0], r)
  {
    hide HeldBy;
    var f := own[0];
    forall j | 0 <= j < |w.seen|
      ensures w.seen[j].end < f.start
    {
      assert (w.seen + own)[|w.seen|] == f && (w.seen + own)[j] == w.seen[j];
      assert Apart((w.seen + own)[j], (w.seen + own)[|w.seen|]);
    }
    HeldNone(w.seen, r.owner, f.start);
  }

  lemma SameMiddle(pre: seq<Entry>, a: seq<Entry>, b: seq<Entry>, post: seq<Entry>)
    requires pre + a + post == pre + b + post
    ensures a == b
  {
    var l := pre + a + post;
    assert |a| == |b|;
    assert l[|pre|..|pre| + |a|] == a && l[|pre|..|pre| + |b|] == b;
  }

  lemma RunUpdated(r: Request, w: Walk, own: seq<Entry>, stop: Stop)
    requires Inv(r, w) && Normal(w.seen + own, r.owner) && Stopped(r, w, own, stop) && !stop.AtWrap?
    ensures Updated(r, w.seen + own, NewRun(r, w, own, stop))
  {
    if stop.AtSplit? {
      assert own == [own[0]] + own[1..];
      FinishSplit(r, w, own[0], own[1..]);
    } else {
      FinishBeyond(r, w, own);
    }
  }

  lemma NewRunMine(r: Request, w: Walk, own: seq<Entry>, stop: Stop)
    requires Inv(r, w) && Normal(w.seen + own, r.owner) && Stopped(r, w, own, stop)
    ensures AllMine(NewRun(r, w, own, stop), r.owner)
  {
    hide Inv, Normal;
    PartsMine(r, w, own);
    NewMine(r, w);
  }

  lemma PartsMine(r: Request, w: Walk, own: seq<Entry>)
    requires Inv(r, w) && Normal(w.seen + own, r.owner)
    ensures AllMine(own, r.owner) && AllMine(w.kept, r.owner) && AllMine(w.left, r.owner)
  {
    assert forall i :: 0 <= i < |own| ==> (w.seen + own)[|w.seen| + i] == own[i];
    assert AllMine(w.seen, r.owner);
  }

  lemma NewMine(r: Request, w: Walk)
    requires Inv(r, w)
    ensures AllMine(NewEntry(r, w), r.owner)
  {
    hide Normal;
  }

  /** Stopping at the overflow leaves two locks of the owner out of order. */
  lemma WrapSpoils(r: Request, l0: seq<Entry>, pre: seq<Entry>, run: seq<Entry>, post: seq<Entry>, w: Walk,
      own: seq<Entry>)
    requires Inv(r, w) && l0 == pre + run + post && run == w.seen + own && Normal(run, r.owner)
    requires Stopped(r, w, own, AtWrap) && NoWrapSoFar(r, w)
    ensures Wraps(l0, r) && !WellFormed(pre + NewRun(r, w, own, AtWrap) + post)
  {
    var l := pre + NewRun(r, w, own, AtWrap) + post;
    var t, n := Trimmed(w.left, w.s), NewEntry(r, w);
    NewFacts(r, w);
    var i := |pre| + |w.kept| + |t|;
    assert l[i] == n[0] && l[i + 1] == own[0];
    assert run[|w.seen|] == own[0];
    Spoiled(l, i, i + 1);
    assert l0[|pre| + |w.seen|] == own[0];
  }

  lemma NoWrap(r: Request, l0: seq<Entry>, pre: seq<Entry>, run: seq<Entry>, post: seq<Entry>, w: Walk, own: seq<Entry>,
      stop: Stop)
    requires Inv(r, w) && l0 == pre + run + post && run == w.seen + own && Normal(run, r.owner)
    requires NoneMine(pre, r.owner) && NoneMine(post, r.owner)
    requires Stopped(r, w, own, stop) && !stop.AtWrap? && NoWrapSoFar(r, w)
    ensures !Wraps(l0, r)
  {
    if r.end == OFFSET_MAX {
      if own != [] {
        InRange(run, r.owner, |w.seen|);
      }
      forall i | 0 <= i < |l0| && Mine(l0[i], r.owner) && r.kind == Some(l0[i].kind)
        ensures l0[i].end < r.start - 1
      {
        Locate(pre, run, post, i);
      }
    }
  }

  lemma InRange(run: seq<Entry>, o: Owner, i: nat)
    requires Normal(run, o) && i < |run|
    ensures run[i].start <= run[i].end <= OFFSET_MAX
  {
  }

  lemma Locate(pre: seq<Entry>, run: seq<Entry>, post: seq<Entry>, i: nat)
    requires i < |pre + run + post|
    ensures i < |pre| ==> (pre + run + post)[i] == pre[i]
    ensures |pre| <= i < |pre| + |run| ==> (pre + run + post)[i] == run[i - |pre|]
    ensures |pre| + |run| <= i ==> (pre + run + post)[i] == post[i - |pre| - |run|]
  {
  }
}
