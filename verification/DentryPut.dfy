/** Dropping references and pruning unused dentries: what dput and
    prune_one_dentry of fs/dcache.c do to the cache. */
module DentryPut {
  import opened Lists
  import opened DentryTree
  import opened DentryState

  /** The outside references with one of d more. */
  ghost function MoreRefs(refs: Id -> nat, d: Id): Id -> nat {
    x => if x == d then refs(x) + 1 else refs(x)
  }

  ghost function LessRefs(refs: Id -> nat, d: Id): Id -> nat {
    x => if x == d && refs(x) > 0 then refs(x) - 1 else refs(x)
  }

  /** The dentries that are gone nobody used. */
  ghost predicate UnusedGone(s0: State, s: State, refs: Id -> nat) {
    Shrunk(s0, s) && forall x :: x in s0.parent && x !in s.parent ==> refs(x) == 0
  }

  /** They were not hashed either, and d lay below them. */
  ghost predicate AncestorsGone(s0: State, s: State, d: Id) {
    forall x :: x in s0.parent && x !in s.parent ==> x !in s0.hashed && Below(s0.parent, d, x)
  }

  // ----- the end of the unused list

  /** The list ends with these dentries. */
  ghost predicate EndsWith(lru: seq<Id>, tail: seq<Id>) {
    |tail| <= |lru| && lru[|lru| - |tail|..] == tail
  }

  lemma {:induction false} UnlinkFront(a: seq<Id>, b: seq<Id>, c: Id)
    requires c !in b
    ensures Unlink(a + b, c) == Unlink(a, c) + b
  {
    if a == [] {
      assert a + b == b;
    } else {
      assert (a + b)[1..] == a[1..] + b;
      UnlinkFront(a[1..], b, c);
    }
  }

  /** Dropping a reference of d leaves the end of the list alone, up to where an ancestor of
      d is on it. */
  ghost predicate TailsKept(s0: State, s: State, d: Id) {
    forall tail: seq<Id> :: EndsWith(s0.lru, tail) && NoneAbove(s0, tail, d) ==> EndsWith(s.lru, tail)
  }

  ghost predicate NoneAbove(s: State, tail: seq<Id>, d: Id) {
    forall x :: x in tail ==> !Below(s.parent, d, x)
  }

  lemma UnlinkTail(lru: seq<Id>, tail: seq<Id>, x: Id)
    requires EndsWith(lru, tail) && x !in tail
    ensures EndsWith(Unlink(lru, x), tail)
  {
    hide Unlink;
    var a := lru[..|lru| - |tail|];
    assert lru == a + tail;
    UnlinkFront(a, tail, x);
  }

  lemma TailsOff(s0: State, s: State, d0: Id, d: Id)
    requires TailsKept(s0, s, d0) && Below(s0.parent, d0, d)
    ensures TailsKept(s0, OffLru(s, d), d0)
  {
    hide EndsWith, Below;
    forall tail: seq<Id> | EndsWith(s0.lru, tail) && NoneAbove(s0, tail, d0)
      ensures EndsWith(OffLru(s, d).lru, tail)
    {
      UnlinkTail(s.lru, tail, d);
    }
  }

  lemma TailsFront(s0: State, s: State, s': State, d0: Id, d: Id)
    requires TailsKept(s0, s, d0) && (s'.lru == s.lru || s'.lru == [d] + s.lru)
    ensures TailsKept(s0, s', d0)
  {
    hide Below;
  }

  lemma SelfShrunk(s: State, bucket: Bucket, refs: Id -> nat, depth: Id -> nat, owed: set<Id>)
    requires Ok(s, bucket, refs, depth, owed)
    ensures UnusedGone(s, s, refs) && SameKeys(s)
  {
    hide Tree, CountOk, LruOk;
    HashedThere(s, bucket);
  }

  lemma OkFacts(s: State, bucket: Bucket, refs: Id -> nat, depth: Id -> nat, owed: set<Id>, d: Id)
    requires Ok(s, bucket, refs, depth, owed) && d in s.parent
    ensures SameKeys(s) && s.parent[d] in s.parent && Tree(s.parent, s.kids, depth) && NameOk(s.name[d])
    ensures s.count[d] == |s.kids[d]| + refs(d) + if d in owed then 1 else 0
    ensures s.kids[d] != [] ==> s.inode[d] == Dir
  {
    hide HashOk, LruOk, ChildrenOf, Ranked;
  }

  /** The last reference of a dentry goes: its count drops. */
  lemma CountDown(s: State, bucket: Bucket, refs: Id -> nat, depth: Id -> nat, d: Id)
    requires Ok(s, bucket, refs, depth, {d}) && d in s.count && s.count[d] != 1
    ensures Ok(s.(count := s.count[d := s.count[d] - 1]), bucket, refs, depth, {})
  {
    hide TreeOk, HashOk;
    var s' := s.(count := s.count[d := s.count[d] - 1]);
    SameTree(s, s', depth);
    HashedThere(s, bucket);
    SameHash(s, s', bucket);
  }

  lemma Owing(s: State, bucket: Bucket, refs: Id -> nat, depth: Id -> nat, d: Id)
    requires Ok(s, bucket, refs, depth, {}) && d in s.parent && refs(d) > 0
    ensures Ok(s, bucket, LessRefs(refs, d), depth, {d})
  {
    hide TreeOk, HashOk, LruOk, Tree;
    assert d in s.count by { OkFacts(s, bucket, refs, depth, {}, d); }
  }

  /** One more user. */
  lemma CountUp(s: State, bucket: Bucket, refs: Id -> nat, depth: Id -> nat, d: Id)
    requires Ok(s, bucket, refs, depth, {}) && d in s.parent && d in s.count
    ensures Ok(s.(count := s.count[d := s.count[d] + 1]), bucket, MoreRefs(refs, d), depth, {})
  {
    hide TreeOk, HashOk, Tree;
    var s' := s.(count := s.count[d := s.count[d] + 1]);
    SameTree(s, s', depth);
    HashedThere(s, bucket);
    SameHash(s, s', bucket);
    assert s.count[d] >= 0 by { OkFacts(s, bucket, refs, depth, {}, d); }
  }

  /** An unused dentry off the list, out of the hash table and freed. */
  function Pruned(s: State, bucket: Bucket, d: Id): State
    requires d in s.parent && d in s.name && Home(s, bucket, d) < |s.chains| && s.parent[d] in s.kids && d in s.kids
  {
    Freed(Dropped(OffLru(s, d), bucket, d), d)
  }

  lemma PrunedOk(s: State, bucket: Bucket, refs: Id -> nat, depth: Id -> nat, d: Id)
    requires Ok(s, bucket, refs, depth, {}) && d in s.count && s.count[d] == 0
    ensures d in s.parent && d in s.name && Home(s, bucket, d) < |s.chains| && s.parent[d] in s.kids && d in s.kids
    ensures s.parent[d] != d && Ok(Pruned(s, bucket, d), bucket, refs, depth, {s.parent[d]}) && refs(d) == 0
    ensures Shrunk(s, Pruned(s, bucket, d)) && Pruned(s, bucket, d).parent == s.parent - {d}
  {
    hide TreeOk, HashOk, CountOk, Orphaned, Unlink, Tree, OffLru;
    assert d in s.parent && SameKeys(s) && d in s.hashed by { KeysOf(s, depth); }
    OkFacts(s, bucket, refs, depth, {}, d);
    HashedHome(s, bucket, d);
    var s1 := s.(count := s.count[d := 1]);
    OneOwed(s, bucket, refs, depth, d);
    PrunedSame(s, bucket, d);
    PrunedOwed(s1, bucket, refs, depth, d);
  }

  /** The count of a dentry to be freed does not matter. */
  lemma PrunedSame(s: State, bucket: Bucket, d: Id)
    requires d in s.parent && d in s.name && Home(s, bucket, d) < |s.chains| && s.parent[d] in s.kids && d in s.kids
    ensures Pruned(s.(count := s.count[d := 1]), bucket, d) == Pruned(s, bucket, d)
    ensures Pruned(s, bucket, d).parent == s.parent - {d}
    ensures Shrunk(s.(count := s.count[d := 1]), Pruned(s, bucket, d)) && SameKeys(s) ==>
      Shrunk(s, Pruned(s, bucket, d))
  {
    assert s.count - {d} == s.count[d := 1] - {d};
  }

  lemma PrunedOwed(s: State, bucket: Bucket, refs: Id -> nat, depth: Id -> nat, d: Id)
    requires d in s.count && s.count[d] == 1 && d in s.hashed && Ok(s, bucket, refs, depth, {d})
    ensures d in s.parent && d in s.name && Home(s, bucket, d) < |s.chains| && s.parent[d] in s.kids && d in s.kids
    ensures Ok(Pruned(s, bucket, d), bucket, refs, depth, Up1(s, d)) && Shrunk(s, Pruned(s, bucket, d)) && refs(d) == 0
  {
    hide TreeOk, HashOk, CountOk, LruOk, Orphaned, Unlink, Tree;
    assert d in s.parent && SameKeys(s) by { KeysOf(s, depth); }
    OkFacts(s, bucket, refs, depth, {d}, d);
    HashedHome(s, bucket, d);
    var s2 := OffLru(s, d);
    OffLruOk(s, bucket, refs, depth, {d}, d);
    var s3 := Dropped(s2, bucket, d);
    DroppedOk(s2, bucket, refs, depth, {d}, d);
    FreedOk(s3, bucket, refs, depth, {d}, d);
    DroppedShrunk(s, s3, Freed(s3, d), d);
  }

  lemma DroppedShrunk(s: State, s3: State, s4: State, d: Id)
    requires SameKeys(s) && Shrunk(s3, s4) && d !in s4.parent
    requires s3.parent == s.parent && s3.name == s.name && s3.inode == s.inode && s3.hashed == s.hashed - {d}
    ensures Shrunk(s, s4)
  {
  }

  lemma KeysOf(s: State, depth: Id -> nat)
    requires TreeOk(s, depth)
    ensures SameKeys(s)
  {
  }

  lemma OneOwed(s: State, bucket: Bucket, refs: Id -> nat, depth: Id -> nat, d: Id)
    requires Ok(s, bucket, refs, depth, {}) && d in s.count && s.count[d] == 0
    ensures Ok(s.(count := s.count[d := 1]), bucket, refs, depth, {d})
  {
    hide TreeOk, HashOk;
    var s' := s.(count := s.count[d := 1]);
    SameTree(s, s', depth);
    HashedThere(s, bucket);
    SameHash(s, s', bucket);
  }

  /** dput on its way up from d0: one reference of d is to go. */
  ghost predicate Dropping(s0: State, s: State, bucket: Bucket, refs: Id -> nat, depth: Id -> nat, d0: Id, d: Id) {
    && Ok(s, bucket, refs, depth, {d}) && d in s.parent && Below(s0.parent, d0, d)
    && UnusedGone(s0, s, refs) && AncestorsGone(s0, s, d0) && TailsKept(s0, s, d0)
  }

  ghost predicate DroppedAll(s0: State, s: State, bucket: Bucket, refs: Id -> nat, depth: Id -> nat, d0: Id) {
    Ok(s, bucket, refs, depth, {}) && UnusedGone(s0, s, refs) && AncestorsGone(s0, s, d0) && TailsKept(s0, s, d0)
  }

  lemma DropStart(s: State, bucket: Bucket, refs: Id -> nat, depth: Id -> nat, d: Id)
    requires Ok(s, bucket, refs, depth, {d}) && d in s.parent
    ensures Dropping(s, s, bucket, refs, depth, d, d)
  {
    hide Ok, UnusedGone;
    assert Up(s.parent, d, 0) == d;
    SelfShrunk(s, bucket, refs, depth, {d});
  }

  lemma DropFacts(s0: State, s: State, bucket: Bucket, refs: Id -> nat, depth: Id -> nat, d0: Id, d: Id)
    requires Dropping(s0, s, bucket, refs, depth, d0, d)
    ensures d in s.parent && d in s.count && d in s.kids && s.parent[d] in s.kids && s.count[d] >= 1
  {
    hide Ok, Tree, UnusedGone, AncestorsGone, TailsKept;
    OkFacts(s, bucket, refs, depth, {d}, d);
  }

  lemma DropDown(s0: State, s: State, bucket: Bucket, refs: Id -> nat, depth: Id -> nat, d0: Id, d: Id)
    requires d in s.count && s.count[d] != 1
    requires Dropping(s0, s, bucket, refs, depth, d0, d)
    ensures DroppedAll(s0, s.(count := s.count[d := s.count[d] - 1]), bucket, refs, depth, d0)
  {
    hide Ok, UnusedGone, TailsKept;
    CountDown(s, bucket, refs, depth, d);
    CountSame(s0, s, s.(count := s.count[d := s.count[d] - 1]), refs);
    TailsFront(s0, s, s.(count := s.count[d := s.count[d] - 1]), d0, d);
  }

  lemma DropRest(s0: State, s: State, bucket: Bucket, refs: Id -> nat, depth: Id -> nat, d0: Id, d: Id)
    requires d in s.count && s.count[d] == 1 && d in s.hashed
    requires Dropping(s0, s, bucket, refs, depth, d0, d)
    ensures DroppedAll(s0, Rested(OffLru(s, d), d), bucket, refs, depth, d0)
  {
    hide Ok, UnusedGone, OffLru, TailsKept;
    OffLruOk(s, bucket, refs, depth, {d}, d);
    OffSame(s0, s, d, refs);
    TailsOff(s0, s, d0, d);
    TailsFront(s0, OffLru(s, d), Rested(OffLru(s, d), d), d0, d);
    RestedOk(OffLru(s, d), bucket, refs, depth, d);
    CountSame(s0, OffLru(s, d), Rested(OffLru(s, d), d), refs);
  }

  lemma DropFree(s0: State, s: State, bucket: Bucket, refs: Id -> nat, depth: Id -> nat, d0: Id, d: Id)
    requires d in s.count && s.count[d] == 1 && d !in s.hashed
    requires Dropping(s0, s, bucket, refs, depth, d0, d)
    ensures OffLru(s, d).parent == s.parent && Freed(OffLru(s, d), d).parent == s.parent - {d}
    ensures Up1(s, d) == {} ==> DroppedAll(s0, Freed(OffLru(s, d), d), bucket, refs, depth, d0)
    ensures forall p :: p in Up1(s, d) ==> Dropping(s0, Freed(OffLru(s, d), d), bucket, refs, depth, d0, p)
  {
    hide Ok, UnusedGone, OffLru, Tree, Below, AncestorsGone, Freed, TailsKept;
    var s1 := OffLru(s, d);
    TailsOff(s0, s, d0, d);
    FreedList(s1, d);
    TailsFront(s0, s1, Freed(s1, d), d0, d);
    OffLruOk(s, bucket, refs, depth, {d}, d);
    OffSame(s0, s, d, refs);
    OkFacts(s1, bucket, refs, depth, {d}, d);
    FreedParent(s1, d);
    FreedOk(s1, bucket, refs, depth, {d}, d);
    assert AncestorsGone(s0, s1, d0) by { SameGone(s0, s, s1, d0); }
    FreedGone(s0, s1, Freed(s1, d), refs, d0, d);
    UpStep(s0.parent, d0, d);
  }

  lemma FreedList(s: State, d: Id)
    ensures Freed(s, d).lru == s.lru
  {
  }

  lemma FreedParent(s: State, d: Id)
    ensures Freed(s, d).parent == s.parent - {d}
  {
  }

  lemma SameGone(s0: State, s: State, s': State, d0: Id)
    requires AncestorsGone(s0, s, d0) && s'.parent == s.parent
    ensures AncestorsGone(s0, s', d0)
  {
  }

  lemma CountSame(s0: State, s: State, s': State, refs: Id -> nat)
    requires UnusedGone(s0, s, refs)
    requires s'.parent == s.parent && s'.name == s.name && s'.inode == s.inode && s'.hashed == s.hashed
    requires s'.kids == s.kids
    requires s'.count.Keys == s.count.Keys
    ensures UnusedGone(s0, s', refs)
  {
  }

  lemma OffSame(s0: State, s: State, d: Id, refs: Id -> nat)
    requires UnusedGone(s0, s, refs)
    ensures UnusedGone(s0, OffLru(s, d), refs) && OffLru(s, d).parent == s.parent && OffLru(s, d).hashed == s.hashed
    ensures OffLru(s, d).count == s.count && OffLru(s, d).kids == s.kids
  {
  }

  lemma FreedGone(s0: State, s: State, s': State, refs: Id -> nat, d0: Id, d: Id)
    requires UnusedGone(s0, s, refs) && AncestorsGone(s0, s, d0) && Shrunk(s, s') && d in s.parent
    requires s'.parent == s.parent - {d}
    requires refs(d) == 0 && d !in s.hashed && Below(s0.parent, d0, d)
    ensures UnusedGone(s0, s', refs) && AncestorsGone(s0, s', d0)
    ensures d in s0.parent && s.parent[d] == s0.parent[d]
  {
    ShrunkTrans(s0, s, s');
  }

  lemma UpStep(parent: map<Id, Id>, x: Id, d: Id)
    requires Below(parent, x, d) && d in parent
    ensures Below(parent, x, parent[d])
  {
    var n: nat :| Up(parent, x, n) == d;
    UpOne(parent, x, n);
  }

  lemma {:induction false} UpOne(parent: map<Id, Id>, x: Id, n: nat)
    requires Up(parent, x, n) in parent
    ensures Up(parent, x, n + 1) == parent[Up(parent, x, n)]
    decreases n
  {
    if n > 0 {
      UpOne(parent, parent[x], n - 1);
    }
  }
}
