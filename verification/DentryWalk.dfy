/** The traversal of fs/dcache.c that descends into child lists and ascends by
    parent links, with no stack of its own. */
module DentryWalk {
  import opened Lists
  import opened DentryTree

  /** The dentries from the root to the one whose children are being looked at,
      and for each how many of its children have been passed. */
  ghost predicate OnPath(kids: map<Id, seq<Id>>, root: Id, path: seq<Id>, pos: seq<nat>) {
    && |path| == |pos| && path != [] && path[0] == root
    && (forall k :: 0 <= k < |path| ==> path[k] in kids && pos[k] <= |kids[path[k]]|)
    && (forall k :: 0 <= k < |path| - 1 ==> 0 < pos[k] && kids[path[k]][pos[k] - 1] == path[k + 1])
  }

  /** x lies at or below a child that has not been passed yet. */
  ghost predicate Ahead(parent: map<Id, Id>, kids: map<Id, seq<Id>>, depth: Id -> nat, path: seq<Id>, pos: seq<nat>,
      x: Id)
    requires |path| == |pos|
  {
    exists k, j :: Waiting(kids, path, pos, k, j) && Under(parent, depth, x, kids[path[k]][j])
  }

  ghost predicate Waiting(kids: map<Id, seq<Id>>, path: seq<Id>, pos: seq<nat>, k: int, j: int)
    requires |path| == |pos|
  {
    0 <= k < |path| && path[k] in kids && pos[k] <= j < |kids[path[k]]|
  }

  /** The number of children not passed yet on the path. */
  ghost function Pending(kids: map<Id, seq<Id>>, path: seq<Id>, pos: seq<nat>): int
    requires |path| == |pos| && forall k :: 0 <= k < |path| ==> path[k] in kids
  {
    if path == [] then 0
    else
      var n := |path| - 1;
      Pending(kids, path[..n], pos[..n]) + |kids[path[n]]| - pos[n]
  }

  lemma {:induction false} PathUnder(parent: map<Id, Id>, kids: map<Id, seq<Id>>, depth: Id -> nat, root: Id,
      path: seq<Id>, pos: seq<nat>, a: nat, b: nat)
    requires Tree(parent, kids, depth) && OnPath(kids, root, path, pos) && a <= b < |path|
    ensures Under(parent, depth, path[b], path[a])
    decreases b
  {
    hide Tree, Under;
    if a == b {
      UnderSelf(parent, depth, path[a]);
    } else {
      PathUnder(parent, kids, depth, root, path, pos, a, b - 1);
      PathInTree(parent, kids, depth, root, path, pos, b - 1);
      ChildUnder(parent, kids, depth, path[b - 1], pos[b - 1] - 1);
      UnderTrans(parent, depth, path[b], path[b - 1], path[a]);
    }
  }

  lemma PathInTree(parent: map<Id, Id>, kids: map<Id, seq<Id>>, depth: Id -> nat, root: Id, path: seq<Id>,
      pos: seq<nat>, k: nat)
    requires Tree(parent, kids, depth) && OnPath(kids, root, path, pos) && k < |path|
    ensures path[k] in parent
  {
  }

  /** Nothing lies below two children of one dentry. */
  lemma SiblingsApart(parent: map<Id, Id>, kids: map<Id, seq<Id>>, depth: Id -> nat, d: Id, i: nat, j: nat, x: Id)
    requires Tree(parent, kids, depth) && d in parent && i < |kids[d]| && j < |kids[d]| && i != j
    ensures !Under(parent, depth, x, kids[d][i]) || !Under(parent, depth, x, kids[d][j])
  {
    hide Under;
    var y, z := kids[d][i], kids[d][j];
    ChildUnder(parent, kids, depth, d, i);
    ChildUnder(parent, kids, depth, d, j);
    assert y != z by { assert ChildrenOf(parent, kids[d], d); }
    hide ChildrenOf, Forest;
    NotBelowSibling(parent, depth, d, y, z);
    NotBelowSibling(parent, depth, d, z, y);
    if Under(parent, depth, x, y) && Under(parent, depth, x, z) {
      UnderBoth(parent, depth, x, y, z);
    }
  }

  lemma NotBelowSibling(parent: map<Id, Id>, depth: Id -> nat, d: Id, y: Id, z: Id)
    requires y in parent && parent[y] == d && y != z && depth(d) < depth(z)
    ensures !Under(parent, depth, y, z)
  {
    if Under(parent, depth, d, z) {
      UnderDepth(parent, depth, d, z);
    }
  }

  /** There is a child to be passed next. */
  ghost predicate AtChild(kids: map<Id, seq<Id>>, path: seq<Id>, pos: seq<nat>) {
    |path| == |pos| > 0 && path[|path| - 1] in kids && pos[|path| - 1] < |kids[path[|path| - 1]]|
  }

  ghost function Child(kids: map<Id, seq<Id>>, path: seq<Id>, pos: seq<nat>): Id
    requires AtChild(kids, path, pos)
  {
    kids[path[|path| - 1]][pos[|path| - 1]]
  }

  /** The places after that child has been passed and is looked at. */
  ghost function PosDown(pos: seq<nat>): seq<nat>
    requires pos != []
  {
    pos[|pos| - 1 := pos[|pos| - 1] + 1] + [0]
  }

  /** The child about to be passed does not lie below any other one ahead. */
  lemma PassedOnce(parent: map<Id, Id>, kids: map<Id, seq<Id>>, depth: Id -> nat, root: Id, path: seq<Id>,
      pos: seq<nat>, k: nat, j: nat)
    requires OnPath(kids, root, path, pos) && Waiting(kids, path, pos, k, j) && !(k == |path| - 1 && j == pos[k])
    requires AtChild(kids, path, pos) && Tree(parent, kids, depth)
    ensures !Under(parent, depth, Child(kids, path, pos), kids[path[k]][j])
  {
    hide Under, Tree;
    var n := |path| - 1;
    var c := kids[path[n]][pos[n]];
    PathInTree(parent, kids, depth, root, path, pos, n);
    PathInTree(parent, kids, depth, root, path, pos, k);
    UnderSelf(parent, depth, c);
    if k == n {
      SiblingsApart(parent, kids, depth, path[n], pos[n], j, c);
    } else {
      ChildUnder(parent, kids, depth, path[n], pos[n]);
      PathUnder(parent, kids, depth, root, path, pos, k + 1, n);
      UnderTrans(parent, depth, c, path[n], path[k + 1]);
      SiblingsApart(parent, kids, depth, path[k], pos[k] - 1, j, c);
    }
  }

  lemma UnderSelf(parent: map<Id, Id>, depth: Id -> nat, x: Id)
    ensures Under(parent, depth, x, x)
  {
  }

  /** At the start everything below the root is ahead. */
  lemma StartAhead(parent: map<Id, Id>, kids: map<Id, seq<Id>>, depth: Id -> nat, root: Id, x: Id)
    requires Tree(parent, kids, depth) && root in parent && x in parent
    ensures Ahead(parent, kids, depth, [root], [0], x) <==> Under(parent, depth, x, root) && x != root
  {
    hide Under, Tree;
    RankedAt(parent, kids, depth, root);
    if Under(parent, depth, x, root) && x != root {
      var j := UnderChild(parent, kids, depth, x, root);
      assert Waiting(kids, [root], [0], 0, j);
    }
    if Ahead(parent, kids, depth, [root], [0], x) {
      var k, j :| Waiting(kids, [root], [0], k, j) && Under(parent, depth, x, kids[[root][k]][j]);
      BelowChild(parent, kids, depth, root, j, x);
    }
  }

  lemma BelowChild(parent: map<Id, Id>, kids: map<Id, seq<Id>>, depth: Id -> nat, d: Id, j: nat, x: Id)
    requires Tree(parent, kids, depth) && d in parent && j < |kids[d]|
    requires Under(parent, depth, x, kids[d][j])
    ensures Under(parent, depth, x, d) && x != d
  {
    hide Under, ChildrenOf;
    ChildUnder(parent, kids, depth, d, j);
    UnderTrans(parent, depth, x, kids[d][j], d);
    UnderDepth(parent, depth, x, kids[d][j]);
  }

  /** Passing a child and descending to it takes just this child from what is ahead. */
  lemma DescendAhead(parent: map<Id, Id>, kids: map<Id, seq<Id>>, depth: Id -> nat, root: Id, path: seq<Id>,
      pos: seq<nat>, x: Id)
    requires OnPath(kids, root, path, pos) && x in parent && AtChild(kids, path, pos) && Tree(parent, kids, depth)
    ensures var c := Child(kids, path, pos);
      Ahead(parent, kids, depth, path + [c], PosDown(pos), x) <==> Ahead(parent, kids, depth, path, pos, x) && x != c
  {
    hide Under, Tree;
    var n := |path| - 1;
    var c := kids[path[n]][pos[n]];
    var path', pos' := path + [c], pos[n := pos[n] + 1] + [0];
    if Ahead(parent, kids, depth, path', pos', x) {
      var k, j :| Waiting(kids, path', pos', k, j) && Under(parent, depth, x, kids[path'[k]][j]);
      StillAhead(parent, kids, depth, root, path, pos, x, k, j);
    }
    if Ahead(parent, kids, depth, path, pos, x) && x != c {
      var k, j :| Waiting(kids, path, pos, k, j) && Under(parent, depth, x, kids[path[k]][j]);
      if k == n && j == pos[n] {
        PathInTree(parent, kids, depth, root, path, pos, n);
        ChildInTree(parent, kids, depth, path[n], pos[n]);
        var i := UnderChild(parent, kids, depth, x, c);
        assert Waiting(kids, path', pos', n + 1, i);
      } else {
        assert Waiting(kids, path', pos', k, j);
      }
    }
  }

  lemma ChildInTree(parent: map<Id, Id>, kids: map<Id, seq<Id>>, depth: Id -> nat, d: Id, j: nat)
    requires Tree(parent, kids, depth) && d in parent && j < |kids[d]|
    ensures kids[d][j] in parent && kids[d][j] in kids
  {
    assert ChildrenOf(parent, kids[d], d) && kids[d][j] in kids[d];
  }

  lemma StillAhead(parent: map<Id, Id>, kids: map<Id, seq<Id>>, depth: Id -> nat, root: Id, path: seq<Id>,
      pos: seq<nat>, x: Id, k: int, j: int)
    requires OnPath(kids, root, path, pos) && x in parent && AtChild(kids, path, pos) && Tree(parent, kids, depth)
    requires var path', pos' := path + [Child(kids, path, pos)], PosDown(pos);
      Waiting(kids, path', pos', k, j) && Under(parent, depth, x, kids[path'[k]][j])
    ensures Ahead(parent, kids, depth, path, pos, x) && x != Child(kids, path, pos)
  {
    hide Under, Tree;
    var n := |path| - 1;
    var c := kids[path[n]][pos[n]];
    if k == n + 1 {
      PathInTree(parent, kids, depth, root, path, pos, n);
      ChildInTree(parent, kids, depth, path[n], pos[n]);
      BelowChild(parent, kids, depth, c, j, x);
      assert Waiting(kids, path, pos, n, pos[n]);
    } else {
      assert Waiting(kids, path, pos, k, j);
      PassedOnce(parent, kids, depth, root, path, pos, k, j);
    }
  }

  /** Leaving an exhausted child list changes nothing. */
  lemma AscendAhead(parent: map<Id, Id>, kids: map<Id, seq<Id>>, depth: Id -> nat, path: seq<Id>, pos: seq<nat>, x: Id)
    requires |path| == |pos| && path != [] && path[|path| - 1] in kids && pos[|path| - 1] == |kids[path[|path| - 1]]|
    ensures var n := |path| - 1; Ahead(parent, kids, depth, path[..n], pos[..n], x) <==>
      Ahead(parent, kids, depth, path, pos, x)
  {
    hide Under;
    var n := |path| - 1;
    if Ahead(parent, kids, depth, path, pos, x) {
      var k, j :| Waiting(kids, path, pos, k, j) && Under(parent, depth, x, kids[path[k]][j]);
      assert Waiting(kids, path[..n], pos[..n], k, j);
    }
    if Ahead(parent, kids, depth, path[..n], pos[..n], x) {
      var k, j :| Waiting(kids, path[..n], pos[..n], k, j) && Under(parent, depth, x, kids[path[..n][k]][j]);
      assert Waiting(kids, path, pos, k, j);
    }
  }

  /** The cursor of the traversal: `seen` are the dentries passed, each once; what
      is below the root and not seen is ahead. */
  ghost predicate Walking(parent: map<Id, Id>, kids: map<Id, seq<Id>>, depth: Id -> nat, root: Id, path: seq<Id>,
      pos: seq<nat>, seen: seq<Id>)
  {
    && OnPath(kids, root, path, pos) && NoDup(seen)
    && (forall x :: x in seen ==> x in parent)
    && (forall x :: x in parent ==>
      (x in seen <==> Under(parent, depth, x, root) && x != root && !Ahead(parent, kids, depth, path, pos, x)))
  }

  lemma StartWalk(parent: map<Id, Id>, kids: map<Id, seq<Id>>, depth: Id -> nat, root: Id)
    requires root in parent && root in kids && Tree(parent, kids, depth)
    ensures Walking(parent, kids, depth, root, [root], [0], []) && Pending(kids, [root], [0]) == |kids[root]|
  {
    hide Under, Ahead, Tree;
    RankedAt(parent, kids, depth, root);
    forall x | x in parent
      ensures Ahead(parent, kids, depth, [root], [0], x) <==> Under(parent, depth, x, root) && x != root
    {
      StartAhead(parent, kids, depth, root, x);
    }
    assert [root][..0] == [];
  }

  /** The walk has passed child c and is looking at its children. */
  ghost predicate Descended(parent: map<Id, Id>, kids: map<Id, seq<Id>>, depth: Id -> nat, root: Id, path: seq<Id>,
      pos: seq<nat>, seen: seq<Id>, c: Id)
  {
    && |path| == |pos| > 0 && OnKids(kids, path) && c in parent && c in kids && c !in seen
    && parent[c] == path[|path| - 1] && Under(parent, depth, c, root)
    && Walking(parent, kids, depth, root, path + [c], PosDown(pos), seen + [c])
    && Pending(kids, path + [c], PosDown(pos)) == Pending(kids, path, pos) - 1 + |kids[c]|
  }

  ghost predicate OnKids(kids: map<Id, seq<Id>>, path: seq<Id>) {
    forall k :: 0 <= k < |path| ==> path[k] in kids
  }

  lemma Descend(parent: map<Id, Id>, kids: map<Id, seq<Id>>, depth: Id -> nat, root: Id, path: seq<Id>, pos: seq<nat>,
      seen: seq<Id>)
    requires AtChild(kids, path, pos) && Walking(parent, kids, depth, root, path, pos, seen)
    requires Tree(parent, kids, depth)
    ensures Descended(parent, kids, depth, root, path, pos, seen, Child(kids, path, pos))
  {
    hide Under, Ahead, Tree, Pending, OnPath, PosDown, Child;
    var n, c := |path| - 1, Child(kids, path, pos);
    ChildFacts(parent, kids, depth, root, path, pos);
    NowBelow(parent, kids, depth, root, path, pos);
    NowAhead(parent, kids, depth, path, pos);
    PathDown(kids, root, path, pos);
    PendingDown(kids, path, pos);
    forall x | x in parent
      ensures Ahead(parent, kids, depth, path + [c], PosDown(pos), x) <==>
        Ahead(parent, kids, depth, path, pos, x) && x != c
    {
      DescendAhead(parent, kids, depth, root, path, pos, x);
    }
  }

  lemma ChildFacts(parent: map<Id, Id>, kids: map<Id, seq<Id>>, depth: Id -> nat, root: Id, path: seq<Id>,
      pos: seq<nat>)
    requires OnPath(kids, root, path, pos) && AtChild(kids, path, pos) && Tree(parent, kids, depth)
    ensures Child(kids, path, pos) in parent && Child(kids, path, pos) in kids && OnKids(kids, path)
  {
    hide Tree;
    PathInTree(parent, kids, depth, root, path, pos, |path| - 1);
    ChildInTree(parent, kids, depth, path[|path| - 1], pos[|path| - 1]);
  }

  lemma PathDown(kids: map<Id, seq<Id>>, root: Id, path: seq<Id>, pos: seq<nat>)
    requires OnPath(kids, root, path, pos) && AtChild(kids, path, pos) && Child(kids, path, pos) in kids
    ensures OnPath(kids, root, path + [Child(kids, path, pos)], PosDown(pos))
  {
  }

  lemma PendingDown(kids: map<Id, seq<Id>>, path: seq<Id>, pos: seq<nat>)
    requires AtChild(kids, path, pos) && OnKids(kids, path) && Child(kids, path, pos) in kids
    ensures var c := Child(kids, path, pos);
      && |PosDown(pos)| == |path + [c]|
      && Pending(kids, path + [c], PosDown(pos)) == Pending(kids, path, pos) - 1 + |kids[c]|
  {
    var n, c := |path| - 1, Child(kids, path, pos);
    var path', pos' := path + [c], PosDown(pos);
    assert path'[..n + 1] == path && pos'[..n + 1] == pos[n := pos[n] + 1];
    assert pos[n := pos[n] + 1][..n] == pos[..n];
  }

  lemma NowBelow(parent: map<Id, Id>, kids: map<Id, seq<Id>>, depth: Id -> nat, root: Id, path: seq<Id>, pos: seq<nat>)
    requires OnPath(kids, root, path, pos) && AtChild(kids, path, pos) && Tree(parent, kids, depth)
    ensures var c := Child(kids, path, pos);
      c in parent && c != root && parent[c] == path[|path| - 1] && Under(parent, depth, c, root)
  {
    hide Under, Tree;
    var n := |path| - 1;
    PathInTree(parent, kids, depth, root, path, pos, n);
    ChildUnder(parent, kids, depth, path[n], pos[n]);
    PathUnder(parent, kids, depth, root, path, pos, 0, n);
    UnderTrans(parent, depth, kids[path[n]][pos[n]], path[n], root);
    UnderDepth(parent, depth, path[n], root);
  }

  lemma NowAhead(parent: map<Id, Id>, kids: map<Id, seq<Id>>, depth: Id -> nat, path: seq<Id>, pos: seq<nat>)
    requires AtChild(kids, path, pos)
    ensures Ahead(parent, kids, depth, path, pos, Child(kids, path, pos))
  {
    var n := |path| - 1;
    assert Waiting(kids, path, pos, n, pos[n]);
    UnderSelf(parent, depth, kids[path[n]][pos[n]]);
  }

  lemma Ascend(parent: map<Id, Id>, kids: map<Id, seq<Id>>, depth: Id -> nat, root: Id, path: seq<Id>, pos: seq<nat>,
      seen: seq<Id>)
    requires Forest(parent, kids) && Walking(parent, kids, depth, root, path, pos, seen) && |path| > 1
    requires var n := |path| - 1; pos[n] == |kids[path[n]]|
    ensures var n := |path| - 1;
      && Walking(parent, kids, depth, root, path[..n], pos[..n], seen)
      && Pending(kids, path[..n], pos[..n]) == Pending(kids, path, pos)
      && path[n] in parent && parent[path[n]] == path[n - 1] && pos[n - 1] > 0
      && kids[path[n - 1]][pos[n - 1] - 1] == path[n]
  {
    hide Under, Ahead, Forest;
    var n := |path| - 1;
    forall x | x in parent
      ensures Ahead(parent, kids, depth, path[..n], pos[..n], x) <==> Ahead(parent, kids, depth, path, pos, x)
    {
      AscendAhead(parent, kids, depth, path, pos, x);
    }
    LastIsChild(parent, kids, root, path, pos);
  }

  lemma LastIsChild(parent: map<Id, Id>, kids: map<Id, seq<Id>>, root: Id, path: seq<Id>, pos: seq<nat>)
    requires Forest(parent, kids) && OnPath(kids, root, path, pos) && |path| > 1
    ensures var n := |path| - 1; path[n] in parent && parent[path[n]] == path[n - 1]
  {
    hide Closed;
    var n := |path| - 1;
    assert ChildrenOf(parent, kids[path[n - 1]], path[n - 1]);
    assert path[n] in kids[path[n - 1]];
  }

  /** At the end nothing is ahead. */
  lemma WalkDone(parent: map<Id, Id>, kids: map<Id, seq<Id>>, depth: Id -> nat, root: Id, path: seq<Id>, pos: seq<nat>,
      seen: seq<Id>)
    requires Walking(parent, kids, depth, root, path, pos, seen) && |path| == 1 && pos[0] == |kids[root]|
    ensures Pending(kids, path, pos) == 0
    ensures forall x :: x in parent ==> (x in seen <==> Under(parent, depth, x, root) && x != root)
  {
    hide Under;
    assert path[..0] == [];
    assert forall x :: x in parent ==> !Ahead(parent, kids, depth, path, pos, x);
  }

  /** The first element after x: what d_child.next leads to. */
  method IndexAfter(l: seq<Id>, x: Id) returns (i: nat)
    requires x in l
    ensures 0 < i <= |l| && l[i - 1] == x
  {
    i := 1;
    while l[i - 1] != x
      invariant 0 < i <= |l| && x !in l[..i - 1]
      decreases |l| - i
    {
      assert l == l[..i - 1] + [l[i - 1]] + l[i..];
      i := i + 1;
    }
  }

  /** Where the cursor was left in the list above. */
  lemma SamePlace(l: seq<Id>, i: nat, j: nat)
    requires NoDup(l) && 0 < i <= |l| && 0 < j <= |l| && l[i - 1] == l[j - 1]
    ensures i == j
  {
  }
}
