/** The traversals of fs/dcache.c over the descendants of a dentry, and the test
    whether a root is busy. */
module DentryBusy {
  import opened Lists
  import opened DentryTree
  import opened DentryWalk
  import opened DentryState

  ghost function SumRefs(refs: Id -> nat, l: seq<Id>): nat {
    if l == [] then 0 else SumRefs(refs, l[..|l| - 1]) + refs(l[|l| - 1])
  }

  lemma {:induction false} SumZero(refs: Id -> nat, l: seq<Id>)
    ensures SumRefs(refs, l) == 0 <==> forall x :: x in l ==> refs(x) == 0
  {
    if l != [] {
      var n := |l| - 1;
      SumZero(refs, l[..n]);
      assert forall x :: x in l <==> x in l[..n] || x == l[n];
    }
  }

  lemma SumSnoc(refs: Id -> nat, l: seq<Id>, x: Id)
    ensures SumRefs(refs, l + [x]) == SumRefs(refs, l) + refs(x)
  {
    assert (l + [x])[..|l|] == l;
  }

  /** x lies properly below d. */
  ghost predicate Descendant(s: State, x: Id, d: Id) {
    x in s.parent && Below(s.parent, x, d) && x != d
  }

  ghost predicate BusyLeaf(s: State, refs: Id -> nat, root: Id, x: Id) {
    Descendant(s, x, root) && x in s.kids && s.kids[x] == [] && refs(x) > 0
  }

  /** A walk that has come to its end has seen the descendants, each once. */
  ghost predicate SeesAll(s: State, root: Id, seen: seq<Id>) {
    NoDup(seen) && forall x :: x in seen <==> Descendant(s, x, root)
  }

  /** What the cursor of a traversal stands for. */
  datatype Walk = Walk(path: seq<Id>, pos: seq<nat>, seen: seq<Id>)

  ghost predicate Cursor(s: State, depth: Id -> nat, root: Id, at: Id, next: nat, w: Walk) {
    && Tree(s.parent, s.kids, depth) && Walking(s.parent, s.kids, depth, root, w.path, w.pos, w.seen)
    && at in s.kids && at == w.path[|w.path| - 1] && next == w.pos[|w.path| - 1] && next <= |s.kids[at]|
  }

  ghost predicate OnTree(s: State, w: Walk) {
    |w.path| == |w.pos| && forall k :: 0 <= k < |w.path| ==> w.path[k] in s.kids
  }

  /** The children on the path still to be passed. */
  ghost function Left(s: State, w: Walk): int
    requires OnTree(s, w)
  {
    Pending(s.kids, w.path, w.pos)
  }

  ghost function Unseen(s: State, w: Walk): set<Id> {
    s.parent.Keys - set x | x in w.seen
  }

  lemma CursorFacts(s: State, depth: Id -> nat, root: Id, at: Id, next: nat, w: Walk)
    requires Cursor(s, depth, root, at, next, w)
    ensures at in s.kids && next <= |s.kids[at]| && at in s.parent && s.kids.Keys == s.parent.Keys
    ensures OnPath(s.kids, root, w.path, w.pos) && OnTree(s, w) && |w.path| == |w.pos| > 0
    ensures at == w.path[|w.path| - 1] && next == w.pos[|w.path| - 1]
    ensures NoDup(w.seen) && forall x :: x in w.seen ==> Descendant(s, x, root)
  {
    hide Ahead, Under, Below, ChildrenOf, Closed, Ranked;
    forall x | x in w.seen
      ensures Descendant(s, x, root)
    {
      UnderIsBelow(s.parent, s.kids, depth, x, root);
    }
  }

  lemma StartCursor(s: State, depth: Id -> nat, root: Id)
    requires Tree(s.parent, s.kids, depth) && root in s.parent
    ensures var w := Walk([root], [0], []);
      Cursor(s, depth, root, root, 0, w) && OnTree(s, w) && Left(s, w) == |s.kids[root]|
  {
    hide Walking, Pending, Closed, Ranked, ChildrenOf;
    StartWalk(s.parent, s.kids, depth, root);
  }

  lemma SeenAll(s: State, depth: Id -> nat, root: Id, w: Walk)
    requires Tree(s.parent, s.kids, depth) && Walking(s.parent, s.kids, depth, root, w.path, w.pos, w.seen)
    requires |w.path| == 1 && w.pos[0] == |s.kids[root]|
    ensures SeesAll(s, root, w.seen) && OnTree(s, w) && Left(s, w) == 0
  {
    hide Ahead, Under, Below, ChildrenOf, Closed, Ranked;
    WalkDone(s.parent, s.kids, depth, root, w.path, w.pos, w.seen);
    forall x
      ensures x in w.seen <==> Descendant(s, x, root)
    {
      if x in s.parent {
        UnderIsBelow(s.parent, s.kids, depth, x, root);
      }
    }
  }

  /** Only the start of the path is the root. */
  lemma AtRoot(parent: map<Id, Id>, kids: map<Id, seq<Id>>, depth: Id -> nat, root: Id, path: seq<Id>, pos: seq<nat>)
    requires Tree(parent, kids, depth) && OnPath(kids, root, path, pos)
    ensures path[|path| - 1] == root <==> |path| == 1
  {
    hide Tree, Under;
    var n := |path| - 1;
    if n > 0 {
      PathUnder(parent, kids, depth, root, path, pos, 0, n - 1);
      UnderDepth(parent, depth, path[n - 1], root);
      PathInTree(parent, kids, depth, root, path, pos, n - 1);
      ChildUnder(parent, kids, depth, path[n - 1], pos[n - 1] - 1);
    }
  }

  ghost function Down(s: State, w: Walk, c: Id): Walk
    requires |w.path| == |w.pos| > 0
  {
    var n := |w.path| - 1;
    Walk(w.path + [c], w.pos[n := w.pos[n] + 1] + [0], w.seen + [c])
  }

  ghost function Back(w: Walk): Walk
    requires |w.path| == |w.pos| > 0
  {
    var n := |w.path| - 1;
    w.(path := w.path[..n], pos := w.pos[..n])
  }

  /** Passing the child at the cursor and descending to it. */
  lemma StepDown(s: State, depth: Id -> nat, root: Id, at: Id, next: nat, w: Walk)
    requires Cursor(s, depth, root, at, next, w) && next < |s.kids[at]|
    ensures var c := s.kids[at][next];
      && c in s.parent && c in s.kids && c !in w.seen && Descendant(s, c, root)
      && Unseen(s, Down(s, w, c)) < Unseen(s, w)
      && OnTree(s, w) && OnTree(s, Down(s, w, c)) && Left(s, Down(s, w, c)) == Left(s, w) - 1 + |s.kids[c]|
      && Cursor(s, depth, root, c, 0, Down(s, w, c))
  {
    hide Tree, Under, Ahead, Below, Pending, Descendant, OnPath, NoDup;
    var c := s.kids[at][next];
    CursorFacts(s, depth, root, at, next, w);
    Descend(s.parent, s.kids, depth, root, w.path, w.pos, w.seen);
    CursorFacts(s, depth, root, c, 0, Down(s, w, c));
    assert (w.seen + [c])[|w.seen|] == c;
    assert c in Unseen(s, w) && c !in Unseen(s, Down(s, w, c));
  }

  /** Leaving an exhausted child list. */
  lemma StepUp(s: State, depth: Id -> nat, root: Id, at: Id, w: Walk)
    requires at in s.kids && Cursor(s, depth, root, at, |s.kids[at]|, w) && |w.path| > 1
    ensures at in s.parent && s.parent[at] in s.kids && at in s.kids[s.parent[at]] && NoDup(s.kids[s.parent[at]])
    ensures var n := |w.path| - 1;
      && w.pos[n - 1] > 0 && w.pos[n - 1] <= |s.kids[s.parent[at]]| && s.kids[s.parent[at]][w.pos[n - 1] - 1] == at
      && Cursor(s, depth, root, s.parent[at], w.pos[n - 1], Back(w)) && OnTree(s, w) && OnTree(s, Back(w))
      && Left(s, Back(w)) == Left(s, w)
  {
    hide Walking, Closed, Ranked, Pending, Below, Descendant;
    CursorFacts(s, depth, root, at, |s.kids[at]|, w);
    var n := |w.path| - 1;
    Ascend(s.parent, s.kids, depth, root, w.path, w.pos, w.seen);
    assert ChildrenOf(s.parent, s.kids[w.path[n - 1]], w.path[n - 1]);
  }

  datatype Turn = Visit(c: Id) | Ascended | Done

  /** One turn of the traversal loop: on to the next child, descending when it
      has children; or back up; or done. */
  method Advance(s: State, root: Id, at: Id, next: nat, ghost depth: Id -> nat, ghost w: Walk)
    returns (turn: Turn, at': Id, next': nat, ghost w': Walk)
    requires Cursor(s, depth, root, at, next, w)
    ensures Cursor(s, depth, root, at', next', w') && OnTree(s, w) && OnTree(s, w')
    ensures turn.Visit? ==>
      && turn.c in s.parent && turn.c in s.kids && Descendant(s, turn.c, root) && turn.c !in w.seen
                            && w'.seen == w.seen + [turn.c] && Unseen(s, w') < Unseen(s, w)
                            && Left(s, w') == Left(s, w) - 1 + |s.kids[turn.c]|
    ensures turn.Ascended? ==> w'.seen == w.seen && |w'.path| < |w.path| && Left(s, w') == Left(s, w)
    ensures turn.Done? ==> w' == w && SeesAll(s, root, w.seen) && Left(s, w) == 0
  {
    hide Walking, Tree, Pending, Descendant, Left, Cursor, OnPath, OnTree, SeesAll, NoDup;
    CursorFacts(s, depth, root, at, next, w);
    if next < |s.kids[at]| {
      var c := s.kids[at][next];
      StepDown(s, depth, root, at, next, w);
      turn, at', next', w' := Visit(c), c, 0, Down(s, w, c);
      if s.kids[c] == [] {
        CursorFacts(s, depth, root, c, 0, w');
        StepUp(s, depth, root, c, w');
        BackDown(s, depth, root, at, next, w);
        at', next', w' := at, next + 1, Back(w');
      }
    } else {
      AtRootCursor(s, depth, root, at, w);
      if at == root {
        DoneCursor(s, depth, root, w);
        return Done, at, next, w;
      }
      StepUp(s, depth, root, at, w);
      turn, at', w' := Ascended, s.parent[at], Back(w);
      next' := IndexAfter(s.kids[at'], at);
      SamePlace(s.kids[at'], next', w.pos[|w.path| - 2]);
    }
  }

  lemma AtRootCursor(s: State, depth: Id -> nat, root: Id, at: Id, w: Walk)
    requires at in s.kids && Cursor(s, depth, root, at, |s.kids[at]|, w)
    ensures at == root <==> |w.path| == 1
  {
    hide Walking, Tree, Below;
    CursorFacts(s, depth, root, at, |s.kids[at]|, w);
    AtRoot(s.parent, s.kids, depth, root, w.path, w.pos);
  }

  lemma DoneCursor(s: State, depth: Id -> nat, root: Id, w: Walk)
    requires root in s.kids && Cursor(s, depth, root, root, |s.kids[root]|, w) && |w.path| == 1
    ensures SeesAll(s, root, w.seen) && OnTree(s, w) && Left(s, w) == 0
  {
    hide Walking, Tree, Below;
    SeenAll(s, depth, root, w);
  }

  /** Down to a childless dentry and back is one place further on. */
  lemma BackDown(s: State, depth: Id -> nat, root: Id, at: Id, next: nat, w: Walk)
    requires Cursor(s, depth, root, at, next, w) && next < |s.kids[at]|
    ensures |w.path| == |w.pos| > 0
    ensures var c := s.kids[at][next];
      && |Back(Down(s, w, c)).path| == |w.path| && c in s.parent && s.parent[c] == at
      && Back(Down(s, w, c)).pos[|w.path| - 1] == next + 1
  {
    hide Walking, Closed, Ranked, Below, Descendant;
    CursorFacts(s, depth, root, at, next, w);
    assert ChildrenOf(s.parent, s.kids[at], at) && s.kids[at][next] in s.kids[at];
  }

  /** When somebody uses the root, it is not busy exactly when nobody else uses
      it and nobody uses anything below. */
  lemma BusyMeansUsed(s: State, refs: Id -> nat, root: Id, busy: bool, seen: seq<Id>)
    requires refs(root) > 0
    requires !busy ==> SeesAll(s, root, seen) && refs(root) + SumRefs(refs, seen) <= 1
    requires busy ==>
      (exists x :: BusyLeaf(s, refs, root, x)) || (SeesAll(s, root, seen) && refs(root) + SumRefs(refs, seen) > 1)
    ensures !busy <==> refs(root) == 1 && forall x :: Descendant(s, x, root) ==> refs(x) == 0
  {
    hide Descendant;
    SumZero(refs, seen);
  }

  lemma CountOf(s: State, bucket: Bucket, refs: Id -> nat, depth: Id -> nat, d: Id)
    requires Ok(s, bucket, refs, depth, {}) && d in s.parent
    ensures d in s.count && d in s.kids && s.count[d] == |s.kids[d]| + refs(d) && Tree(s.parent, s.kids, depth)
  {
    hide Tree, HashOk, LruOk;
  }

  lemma NoBusyLeaf(s: State, refs: Id -> nat, root: Id, seen: seq<Id>)
    requires SeesAll(s, root, seen) && forall x :: x in seen ==> !BusyLeaf(s, refs, root, x)
    ensures forall x :: !BusyLeaf(s, refs, root, x)
  {
    hide Descendant;
  }

  lemma NoneSummed(refs: Id -> nat)
    ensures SumRefs(refs, []) == 0
  {
  }

  /** is_root_busy */
  method IsRootBusy(s: State, ghost bucket: Bucket, ghost refs: Id -> nat, ghost depth: Id -> nat, root: Id)
    returns (busy: bool, ghost seen: seq<Id>)
    requires Ok(s, bucket, refs, depth, {}) && root in s.parent
    ensures NoDup(seen) && forall x :: x in seen ==> Descendant(s, x, root)
    ensures !busy ==>
      SeesAll(s, root, seen) && refs(root) + SumRefs(refs, seen) <= 1 && forall x :: !BusyLeaf(s, refs, root, x)
    ensures busy ==>
      (exists x :: BusyLeaf(s, refs, root, x)) || (SeesAll(s, root, seen) && refs(root) + SumRefs(refs, seen) > 1)
    ensures refs(root) > 0 ==> (!busy <==> refs(root) == 1 && forall x :: Descendant(s, x, root) ==> refs(x) == 0)
  {
    hide Ok, Cursor, Left, Descendant, SeesAll, OnTree, SumRefs, NoDup, OnPath, Tree;
    CountOf(s, bucket, refs, depth, root);
    var at, next: nat, count := root, 0, s.count[root];
    NoneSummed(refs);
    ghost var w := Walk([root], [0], []);
    StartCursor(s, depth, root);
    while true
      invariant Cursor(s, depth, root, at, next, w) && OnTree(s, w)
      invariant count == refs(root) + SumRefs(refs, w.seen) + Left(s, w)
      invariant forall x :: x in w.seen ==> !BusyLeaf(s, refs, root, x)
      decreases Unseen(s, w), |w.path|
    {
      var turn;
      ghost var w0 := w;
      turn, at, next, w := Advance(s, root, at, next, depth, w);
      CursorFacts(s, depth, root, at, next, w);
      match turn {
        case Visit(c) =>
          SumSnoc(refs, w0.seen, c);
          CountOf(s, bucket, refs, depth, c);
          count := count + (s.count[c] - 1);
          if s.kids[c] == [] && s.count[c] != 0 {
            assert BusyLeaf(s, refs, root, c);
            busy, seen := true, w.seen;
            break;
          }
        case Ascended =>
        case Done =>
          NoBusyLeaf(s, refs, root, w.seen);
          busy, seen := count > 1, w.seen;
          break;
      }
    }
    if refs(root) > 0 {
      BusyMeansUsed(s, refs, root, busy, seen);
    }
  }

  // ----- a root that nobody holds

  /** Root 0 over 1 over 2; somebody uses 1, which is not a leaf, and nobody the root. */
  function ExampleState(): State {
    var name := Name(true, seq(DNAME_INLINE_LEN, _ => 'x'), "", 1, 0);
    State(map[0 := 0, 1 := 0, 2 := 1], map[0 := [1], 1 := [2], 2 := []], map[0 := 1, 1 := 2, 2 := 0],
          map[0 := Dir, 1 := Dir, 2 := Dir], map[0 := name, 1 := name, 2 := name], {2}, [[2]], [2], 1)
  }

  ghost function ExampleRefs(): Id -> nat {
    (d: Id) => if d == 1 then 1 else 0
  }

  ghost function ExampleDepth(): Id -> nat {
    (d: Id) => d
  }

  ghost function ExampleBucket(): Bucket {
    (p: Id, h: nat) => 0
  }

  lemma ExampleKeys()
    ensures SameKeys(ExampleState()) && ExampleState().parent.Keys == {0, 1, 2}
  {
    var s := ExampleState();
    assert s.parent.Keys == {0, 1, 2} && s.kids.Keys == {0, 1, 2} && s.count.Keys == {0, 1, 2};
    assert s.inode.Keys == {0, 1, 2} && s.name.Keys == {0, 1, 2};
  }

  lemma ExampleChildren(d: Id)
    requires d in ExampleState().kids
    ensures ChildrenOf(ExampleState().parent, ExampleState().kids[d], d)
  {
    ExampleKeys();
    var s := ExampleState();
    forall c
      ensures c in s.kids[d] <==> c in s.parent && s.parent[c] == d && c != d
    {
      assert c in s.parent ==> c == 0 || c == 1 || c == 2;
    }
  }

  lemma ExampleAt(d: Id)
    requires d in ExampleState().parent
    ensures var s := ExampleState();
      && s.parent[d] in s.parent && (s.parent[d] != d ==> ExampleDepth()(s.parent[d]) < ExampleDepth()(d))
      && d in s.kids && d in s.inode && d in s.name && s.inode[d] == Dir && NameOk(s.name[d])
  {
    ExampleKeys();
    var s := ExampleState();
    assert d == 0 || d == 1 || d == 2;
    assert s.parent[0] == 0 && s.parent[1] == 0 && s.parent[2] == 1;
  }

  lemma ExampleTree()
    ensures TreeOk(ExampleState(), ExampleDepth())
  {
    hide ChildrenOf, Closed, Ranked, ExampleState, ExampleDepth, NameOk;
    ExampleKeys();
    ExampleLinks();
    var s := ExampleState();
    forall d | d in s.kids
      ensures ChildrenOf(s.parent, s.kids[d], d) && d in s.inode && s.inode[d] == Dir && d in s.name
      ensures NameOk(s.name[d])
    {
      ExampleChildren(d);
      ExampleAt(d);
    }
  }

  lemma ExampleLinks()
    ensures Closed(ExampleState().parent) && Ranked(ExampleState().parent, ExampleDepth())
  {
    hide ExampleState, ExampleDepth;
    var parent := ExampleState().parent;
    forall d {:trigger parent[d]} | d in parent
      ensures parent[d] in parent && (parent[d] != d ==> ExampleDepth()(parent[d]) < ExampleDepth()(d))
    {
      ExampleAt(d);
    }
  }

  lemma ExampleHash()
    ensures HashOk(ExampleState(), ExampleBucket())
  {
    var s := ExampleState();
    assert s.parent[2] == 1 && s.hashed == {2} && |s.chains| == 1 && s.chains[0] == [2];
  }

  lemma ExampleOk()
    ensures Ok(ExampleState(), ExampleBucket(), ExampleRefs(), ExampleDepth(), {})
  {
    ExampleTree();
    ExampleHash();
    hide TreeOk, HashOk;
  }

  lemma ExampleUse()
    ensures var s := ExampleState();
      Descendant(s, 1, 0) && 0 in s.parent && forall x :: !BusyLeaf(s, ExampleRefs(), 0, x)
  {
    var s := ExampleState();
    assert s.parent[1] == 0 && s.kids[1] == [2];
    assert Up(s.parent, 0, 0) == 0;
    assert Up(s.parent, 1, 1) == 0;
  }

  lemma {:induction false} SumOne(refs: Id -> nat, l: seq<Id>, x: Id)
    requires NoDup(l) && forall y :: y in l && y != x ==> refs(y) == 0
    ensures SumRefs(refs, l) <= refs(x)
  {
    if l != [] {
      var n := |l| - 1;
      if l[n] == x {
        SumZero(refs, l[..n]);
      } else {
        SumOne(refs, l[..n], x);
      }
    }
  }

  /** Then the test says idle, although a dentry below is in use. */
  method IdleExample() returns (busy: bool)
    ensures !busy && Descendant(ExampleState(), 1, 0) && ExampleRefs()(1) > 0
  {
    hide Ok, Descendant, BusyLeaf, ExampleState;
    ExampleOk();
    ExampleUse();
    ghost var seen;
    busy, seen := IsRootBusy(ExampleState(), ExampleBucket(), ExampleRefs(), ExampleDepth(), 0);
    SumOne(ExampleRefs(), seen, 1);
  }
}
