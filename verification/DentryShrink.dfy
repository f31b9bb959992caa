/** Which dentries prune_dcache and shrink_dcache_parent of fs/dcache.c take away. */
module DentryShrink {
  import opened Lists
  import opened DentryTree
  import opened DentryState
  import opened DentryBusy
  import opened DentryPut

  // ----- ancestors in a smaller tree

  ghost predicate Part(parent: map<Id, Id>, parent': map<Id, Id>) {
    forall x :: x in parent' ==> x in parent && parent'[x] == parent[x]
  }

  lemma {:induction false} PartUnder(parent: map<Id, Id>, parent': map<Id, Id>, depth: Id -> nat, x: Id, a: Id)
    requires Part(parent, parent') && Closed(parent') && x in parent'
    ensures Under(parent', depth, x, a) <==> Under(parent, depth, x, a)
    ensures Under(parent, depth, x, a) ==> a in parent'
    decreases depth(x)
  {
    hide Closed;
    if x != a && depth(parent[x]) < depth(x) {
      StaysIn(parent', x);
      PartUnder(parent, parent', depth, parent[x], a);
    }
  }

  lemma StaysIn(parent: map<Id, Id>, x: Id)
    requires Closed(parent) && x in parent
    ensures parent[x] in parent
  {
  }

  lemma ShrunkPart(s0: State, s: State)
    requires Shrunk(s0, s)
    ensures Part(s0.parent, s.parent)
  {
  }

  /** Only a dentry with children has anything below it. */
  lemma AncestorHasKids(s: State, depth: Id -> nat, x: Id, a: Id)
    requires Tree(s.parent, s.kids, depth) && x in s.parent && a in s.parent && Under(s.parent, depth, x, a) && x != a
    ensures a in s.kids && s.kids[a] != []
  {
    hide ChildrenOf, Ranked;
    var j := UnderChild(s.parent, s.kids, depth, x, a);
  }

  lemma DescendantIs(s: State, depth: Id -> nat, x: Id, d: Id)
    requires Tree(s.parent, s.kids, depth)
    ensures Descendant(s, x, d) <==> x in s.parent && Under(s.parent, depth, x, d) && x != d
  {
    hide Tree, Under, Below;
    if x in s.parent {
      UnderIsBelow(s.parent, s.kids, depth, x, d);
    }
  }

  // ----- one dentry is pruned

  /** The dentries that are gone are d and ancestors of it. */
  ghost predicate GoneAbove(s0: State, s: State, depth: Id -> nat, d: Id) {
    forall x :: x in s0.parent && x !in s.parent ==> Under(s0.parent, depth, d, x)
  }

  /** If d came last and no ancestor of it was in the tail before it, the tail is last now. */
  ghost predicate TailKept(s0: State, s: State, depth: Id -> nat, tail: seq<Id>, d: Id) {
    EndsWith(s0.lru, tail + [d]) && (forall x :: x in tail ==> !Under(s0.parent, depth, d, x)) ==> EndsWith(s.lru, tail)
  }

  lemma PrunedAbove(s0: State, s1: State, s: State, depth: Id -> nat, d: Id, tail: seq<Id>)
    requires d in s0.parent && s0.parent[d] != d && Tree(s0.parent, s0.kids, depth)
    requires NoDup(s0.lru) && s1.lru == Unlink(s0.lru, d) && s1.parent == s0.parent - {d}
    requires Tree(s1.parent, s1.kids, depth) && s0.parent[d] in s1.parent
    requires AncestorsGone(s1, s, s0.parent[d]) && TailsKept(s1, s, s0.parent[d])
    ensures GoneAbove(s0, s, depth, d) && TailKept(s0, s, depth, tail, d)
  {
    hide Tree, Below, EndsWith, Unlink, Under, AncestorsGone, TailsKept, NoDup;
    var p := s0.parent[d];
    forall x
      ensures Below(s1.parent, p, x) ==> Under(s0.parent, depth, d, x)
    {
      AboveParent(s0, s1, depth, d, x);
    }
    UnderSelf(s0, depth, d);
    GoneFrom(s1, s, p);
    if EndsWith(s0.lru, tail + [d]) && forall x :: x in tail ==> !Under(s0.parent, depth, d, x) {
      UnlinkLast(s0.lru, tail, d);
      TailIs(s1, s, p, tail);
    }
  }

  lemma AboveParent(s0: State, s1: State, depth: Id -> nat, d: Id, x: Id)
    requires d in s0.parent && s0.parent[d] != d && Tree(s0.parent, s0.kids, depth) && s1.parent == s0.parent - {d}
    requires Tree(s1.parent, s1.kids, depth) && s0.parent[d] in s1.parent
    ensures Below(s1.parent, s0.parent[d], x) ==> Under(s0.parent, depth, d, x)
  {
    hide Tree, Below, Under;
    var p := s0.parent[d];
    TreeClosed(s1, depth);
    UnderIsBelow(s1.parent, s1.kids, depth, p, x);
    PartUnder(s0.parent, s1.parent, depth, p, x);
    if Under(s0.parent, depth, p, x) {
      UnderParent(s0, depth, d, x);
    }
  }

  lemma GoneFrom(s1: State, s: State, p: Id)
    requires AncestorsGone(s1, s, p)
    ensures forall x :: x in s1.parent && x !in s.parent ==> Below(s1.parent, p, x)
  {
    hide Below;
  }

  lemma TailIs(s1: State, s: State, p: Id, tail: seq<Id>)
    requires TailsKept(s1, s, p) && EndsWith(s1.lru, tail) && forall x :: x in tail ==> !Below(s1.parent, p, x)
    ensures EndsWith(s.lru, tail)
  {
    hide Below, EndsWith;
    assert NoneAbove(s1, tail, p);
  }

  lemma TreeClosed(s: State, depth: Id -> nat)
    requires Tree(s.parent, s.kids, depth)
    ensures Closed(s.parent)
  {
  }

  lemma UnderSelf(s: State, depth: Id -> nat, d: Id)
    ensures Under(s.parent, depth, d, d)
  {
  }

  lemma UnderParent(s: State, depth: Id -> nat, d: Id, x: Id)
    requires Tree(s.parent, s.kids, depth) && d in s.parent && s.parent[d] != d
    requires Under(s.parent, depth, s.parent[d], x)
    ensures Under(s.parent, depth, d, x)
  {
    assert depth(s.parent[d]) < depth(d);
  }

  lemma UnlinkLast(lru: seq<Id>, tail: seq<Id>, d: Id)
    requires NoDup(lru) && EndsWith(lru, tail + [d])
    ensures EndsWith(Unlink(lru, d), tail) && lru != [] && lru[|lru| - 1] == d && d !in tail
  {
    var n := |lru| - 1;
    var t := tail + [d];
    assert lru[n] == lru[|lru| - |t|..][|t| - 1] == d;
    assert d !in lru[..n];
    UnlinkAt(lru, d, n);
    assert Unlink(lru, d) == lru[..n];
    assert lru[..n][n - |tail|..] == lru[|lru| - |t|..][..|tail|] == tail;
    assert forall x :: x in tail ==> x in lru[..n];
  }

  // ----- the victims of prune_dcache

  ghost predicate AllUnused(s: State, tail: seq<Id>) {
    forall x :: x in tail ==> x in s.count && x in s.parent && s.count[x] == 0
  }

  /** Those gone are victims and ancestors of victims. */
  ghost predicate GoneWith(s0: State, s: State, depth: Id -> nat, victims: seq<Id>) {
    forall x :: x in s0.parent && x !in s.parent ==> AboveSome(s0, depth, victims, x)
  }

  ghost predicate AboveSome(s0: State, depth: Id -> nat, victims: seq<Id>, x: Id) {
    exists v :: v in victims && v in s0.parent && Under(s0.parent, depth, v, x)
  }

  lemma MoreGone(s0: State, s1: State, s: State, depth: Id -> nat, victims: seq<Id>, d: Id)
    requires GoneWith(s0, s1, depth, victims) && GoneAbove(s1, s, depth, d) && d in s1.parent
    requires Part(s0.parent, s1.parent) && Closed(s1.parent)
    ensures GoneWith(s0, s, depth, victims + [d])
  {
    hide Under, Closed;
    forall x | x in s0.parent && x !in s.parent
      ensures AboveSome(s0, depth, victims + [d], x)
    {
      if x in s1.parent {
        PartUnder(s0.parent, s1.parent, depth, d, x);
        assert d in victims + [d];
      } else {
        assert AboveSome(s0, depth, victims, x);
        var v :| v in victims && v in s0.parent && Under(s0.parent, depth, v, x);
        assert v in victims + [d];
      }
    }
  }

  /** As long as there are fewer victims than dentries in the tail, they are its last ones. */
  ghost predicate FromTail(s: State, tail: seq<Id>, victims: seq<Id>) {
    |victims| <= |tail| ==>
      var m := |tail| - |victims|;
      && (m > 0 ==> EndsWith(s.lru, tail[..m]) && AllUnused(s, tail[..m]))
      && forall x :: x in victims <==> x in tail[m..]
  }

  lemma TailBegins(s: State, tail: seq<Id>)
    requires EndsWith(s.lru, tail) && AllUnused(s, tail)
    ensures FromTail(s, tail, [])
  {
    assert tail[..|tail|] == tail && tail[|tail|..] == [];
  }

  /** While some of the tail is left, its last one is next. */
  lemma NextVictim(s: State, tail: seq<Id>, victims: seq<Id>)
    requires FromTail(s, tail, victims) && |victims| < |tail|
    ensures var m := |tail| - |victims|;
      && s.lru != [] && s.lru[|s.lru| - 1] == tail[m - 1] && tail[m - 1] in s.count && s.count[tail[m - 1]] == 0
  {
    var m := |tail| - |victims|;
    var t, l := tail[..m], s.lru;
    assert l[|l| - 1] == l[|l| - |t|..][|t| - 1] == t[m - 1] == tail[m - 1];
    assert t[m - 1] in t;
  }

  lemma TailGoesOn(s: State, s': State, bucket: Bucket, refs: Id -> nat, depth: Id -> nat, tail: seq<Id>,
      victims: seq<Id>, d: Id)
    requires Ok(s, bucket, refs, depth, {}) && Ok(s', bucket, refs, depth, {}) && FromTail(s, tail, victims)
    requires s.lru != [] && d == s.lru[|s.lru| - 1] && d in s.parent && Shrunk(s, s') && GoneAbove(s, s', depth, d)
    requires |victims| < |tail| ==> TailKept(s, s', depth, tail[..|tail| - |victims| - 1], d)
    ensures FromTail(s', tail, victims + [d])
  {
    hide Ok, EndsWith, Under, Shrunk;
    if |victims| < |tail| {
      NextVictim(s, tail, victims);
      var m := |tail| - |victims|;
      var rest := tail[..m - 1];
      assert tail[..m] == rest + [d];
      assert tail[m - 1..] == [d] + tail[m..];
      assert forall x :: x in victims + [d] <==> x in victims || x == d;
      ListNoDup(s, bucket, refs, depth);
      UnlinkLast(s.lru, rest, d);
      forall x | x in rest
        ensures !Under(s.parent, depth, d, x) && x in s'.count && x in s'.parent && s'.count[x] == 0
      {
        assert x in tail[..m];
        StillUnused(s, s', bucket, refs, depth, d, x);
      }
    }
  }

  lemma ListNoDup(s: State, bucket: Bucket, refs: Id -> nat, depth: Id -> nat)
    requires Ok(s, bucket, refs, depth, {})
    ensures NoDup(s.lru)
  {
  }

  lemma StillUnused(s: State, s': State, bucket: Bucket, refs: Id -> nat, depth: Id -> nat, d: Id, x: Id)
    requires Ok(s, bucket, refs, depth, {}) && Ok(s', bucket, refs, depth, {}) && Shrunk(s, s') && d in s.parent
    requires GoneAbove(s, s', depth, d) && x in s.parent && x in s.count && s.count[x] == 0 && x != d
    ensures !Under(s.parent, depth, d, x) && x in s'.count && x in s'.parent && s'.count[x] == 0
  {
    hide Ok, Tree, Under;
    OkFacts(s, bucket, refs, depth, {}, x);
    if Under(s.parent, depth, d, x) {
      AncestorHasKids(s, depth, d, x);
    }
    assert x in s'.parent;
    OkFacts(s', bucket, refs, depth, {}, x);
    FewerKids(s, s', depth, x);
  }

  lemma FewerKids(s: State, s': State, depth: Id -> nat, x: Id)
    requires Tree(s.parent, s.kids, depth) && Tree(s'.parent, s'.kids, depth) && Part(s.parent, s'.parent)
    requires x in s.kids && s.kids[x] == [] && x in s'.kids
    ensures s'.kids[x] == []
  {
    hide Tree;
    if s'.kids[x] != [] {
      KidIs(s', depth, x, s'.kids[x][0]);
      KidIs(s, depth, x, s'.kids[x][0]);
    }
  }

  lemma KidIs(s: State, depth: Id -> nat, x: Id, c: Id)
    requires Tree(s.parent, s.kids, depth) && x in s.kids
    ensures c in s.kids[x] <==> c in s.parent && s.parent[c] == x && c != x
  {
    hide Ranked, Closed, NoDup;
    assert ChildrenOf(s.parent, s.kids[x], x);
  }

  // ----- shrink_dcache_parent

  /** Only descendants of p are gone. */
  ghost predicate GoneBelow(s0: State, s: State, p: Id) {
    forall x :: x in s0.parent && x !in s.parent ==> Descendant(s0, x, p)
  }

  lemma VictimsBelow(s0: State, s: State, depth: Id -> nat, p: Id, victims: seq<Id>)
    requires Tree(s0.parent, s0.kids, depth) && Tree(s.parent, s.kids, depth) && Part(s0.parent, s.parent)
    requires p in s.parent && GoneWith(s0, s, depth, victims) && forall v :: v in victims ==> Descendant(s0, v, p)
    ensures GoneBelow(s0, s, p)
  {
    hide Tree, Under, Descendant;
    forall x | x in s0.parent && x !in s.parent
      ensures Descendant(s0, x, p)
    {
      assert AboveSome(s0, depth, victims, x);
      var v :| v in victims && v in s0.parent && Under(s0.parent, depth, v, x);
      DescendantIs(s0, depth, v, p);
      UnderBoth(s0.parent, depth, v, x, p);
      TreeClosed(s, depth);
      PartUnder(s0.parent, s.parent, depth, p, x);
      DescendantIs(s0, depth, x, p);
    }
  }

  lemma BelowTrans(s0: State, s1: State, s: State, depth: Id -> nat, p: Id)
    requires Tree(s0.parent, s0.kids, depth) && Tree(s1.parent, s1.kids, depth) && Part(s0.parent, s1.parent)
    requires GoneBelow(s0, s1, p) && GoneBelow(s1, s, p)
    ensures GoneBelow(s0, s, p)
  {
    hide Tree, Under, Descendant;
    forall x | x in s0.parent && x !in s.parent
      ensures Descendant(s0, x, p)
    {
      if x in s1.parent {
        DescendantIs(s1, depth, x, p);
        TreeClosed(s1, depth);
        PartUnder(s0.parent, s1.parent, depth, x, p);
        DescendantIs(s0, depth, x, p);
      }
    }
  }

  // ----- who uses a tree

  /** Somebody besides one user of d uses d, or something below it. */
  ghost predicate InUse(s: State, refs: Id -> nat, d: Id) {
    refs(d) > 1 || exists x :: Descendant(s, x, d) && refs(x) > 0
  }

  /** If everything below d has a count, somebody uses a leaf below it. */
  lemma {:induction false} UsedLeaf(s: State, bucket: Bucket, refs: Id -> nat, depth: Id -> nat, d: Id, y: Id,
      seen: set<Id>)
    returns (x: Id)
    requires Ok(s, bucket, refs, depth, {}) && y in s.parent && Under(s.parent, depth, y, d) && y != d
    requires forall z :: Descendant(s, z, d) && z in s.count ==> s.count[z] != 0
    requires seen <= s.parent.Keys && forall z :: z in seen ==> depth(z) < depth(y)
    ensures Descendant(s, x, d) && refs(x) > 0
    decreases |s.parent.Keys - seen|
  {
    hide Ok, Tree, Under, Descendant;
    OkFacts(s, bucket, refs, depth, {}, y);
    DescendantIs(s, depth, y, d);
    if s.kids[y] == [] {
      x := y;
    } else {
      var c := s.kids[y][0];
      ChildUnder(s.parent, s.kids, depth, y, 0);
      UnderTrans(s.parent, depth, c, y, d);
      UnderDepth(s.parent, depth, y, d);
      assert y in s.parent.Keys - seen && s.parent.Keys - (seen + {y}) < s.parent.Keys - seen;
      Smaller(s.parent.Keys - (seen + {y}), s.parent.Keys - seen);
      x := UsedLeaf(s, bucket, refs, depth, d, c, seen + {y});
    }
  }

  lemma Smaller(a: set<Id>, b: set<Id>)
    requires a < b
    ensures |a| < |b|
  {
    assert |b| == |a| + |b - a| by { assert b == a + (b - a); }
    assert b - a != {};
  }

  /** After everything unused below d is gone, d has more than one user or a child exactly if
      somebody used the tree before. */
  lemma InUseIs(s0: State, s: State, bucket: Bucket, refs: Id -> nat, depth: Id -> nat, d: Id)
    requires Ok(s0, bucket, refs, depth, {}) && Ok(s, bucket, refs, depth, {}) && UnusedGone(s0, s, refs)
    requires d in s0.parent && d in s.parent && refs(d) > 0
    requires forall z :: Descendant(s, z, d) && z in s.count ==> s.count[z] != 0
    ensures d in s.count && (s.count[d] > 1 <==> InUse(s0, refs, d))
  {
    hide Ok, Tree, Under, Descendant, Shrunk;
    OkFacts(s, bucket, refs, depth, {}, d);
    OkFacts(s0, bucket, refs, depth, {}, d);
    ShrunkPart(s0, s);
    TreeClosed(s, depth);
    if s.kids[d] != [] {
      ChildUnder(s.parent, s.kids, depth, d, 0);
      var x := UsedLeaf(s, bucket, refs, depth, d, s.kids[d][0], {});
      DescendantIs(s, depth, x, d);
      PartUnder(s0.parent, s.parent, depth, x, d);
      DescendantIs(s0, depth, x, d);
    }
    if exists x :: Descendant(s0, x, d) && refs(x) > 0 {
      var x :| Descendant(s0, x, d) && refs(x) > 0;
      DescendantIs(s0, depth, x, d);
      assert x in s.parent;
      PartUnder(s0.parent, s.parent, depth, x, d);
      AncestorHasKids(s, depth, x, d);
    }
  }
}
