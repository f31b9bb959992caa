/** The operations of fs/dcache.c on the dentry cache, and the renames of
    fs/namei.c that are built on them. */
module Dcache {
  import opened Options
  import opened Lists
  import opened DentryTree
  import opened DentryState
  import opened DentryPut
  import opened DentryMove
  import opened DentryBusy
  import opened DentryShrink

  /** A new dentry d in directory p. */
  function Allocated(s: State, d: Id, p: Id, name: Name): State
    requires p in s.kids && p in s.count
  {
    s.(parent := s.parent[d := p], kids := s.kids[p := [d] + s.kids[p]][d := []],
       count := s.count[p := s.count[p] + 1][d := 1], inode := s.inode[d := Negative], name := s.name[d := name])
  }

  lemma AllocatedOk(s: State, bucket: Bucket, refs: Id -> nat, depth: Id -> nat, d: Id, p: Id, name: Name)
    requires p in s.parent && p in s.kids && p in s.count && p in s.inode && s.inode[p] == Dir && d !in s.parent
    requires NameOk(name)
    requires Ok(s, bucket, refs, depth, {})
    ensures Ok(Allocated(s, d, p, name), bucket, MoreRefs(refs, d), ChildDepth(depth, d, p), {})
  {
    hide TreeOk, HashOk, CountOk, LruOk, Tree;
    var s' := Allocated(s, d, p, name);
    KeysOf(s, depth);
    OkFacts(s, bucket, refs, depth, {}, p);
    AllocatedTree(s, depth, d, p, name);
    HashedThere(s, bucket);
    SameHash(s, s', bucket);
    AllocatedCount(s, refs, d, p, name);
    AllocatedLru(s, d, p, name);
  }

  lemma AllocatedTree(s: State, depth: Id -> nat, d: Id, p: Id, name: Name)
    requires p in s.parent && p in s.kids && p in s.count && p in s.inode && s.inode[p] == Dir && d !in s.parent
    requires NameOk(name)
    requires TreeOk(s, depth)
    ensures TreeOk(Allocated(s, d, p, name), ChildDepth(depth, d, p))
  {
    hide Forest, Ranked, ChildDepth;
    AddLeaf(s.parent, s.kids, depth, d, p);
  }

  lemma AllocatedCount(s: State, refs: Id -> nat, d: Id, p: Id, name: Name)
    requires p in s.kids && p in s.count && d !in s.count && SameKeys(s) && CountOk(s, refs, {})
    ensures CountOk(Allocated(s, d, p, name), MoreRefs(refs, d), {})
  {
    hide CountOk;
    var s' := Allocated(s, d, p, name);
    forall x | x in s'.count && x in s'.kids
      ensures s'.count[x] == |s'.kids[x]| + MoreRefs(refs, d)(x)
    {
      if x != d {
        CountAt(s, refs, {}, x);
      } else {
        NoRefs(s, refs, {}, d);
      }
    }
    CountGrown(s, s', refs, d);
  }

  lemma NoRefs(s: State, refs: Id -> nat, owed: set<Id>, d: Id)
    requires CountOk(s, refs, owed) && d !in s.count
    ensures refs(d) == 0
  {
  }

  lemma CountGrown(s: State, s': State, refs: Id -> nat, d: Id)
    requires CountOk(s, refs, {}) && s'.count.Keys == s.count.Keys + {d}
    requires forall x :: x in s'.count && x in s'.kids ==> s'.count[x] == |s'.kids[x]| + MoreRefs(refs, d)(x)
    ensures CountOk(s', MoreRefs(refs, d), {})
  {
  }

  lemma AllocatedLru(s: State, d: Id, p: Id, name: Name)
    requires p in s.kids && p in s.count && d !in s.count && LruOk(s) && s.count[p] >= 0
    ensures LruOk(Allocated(s, d, p, name))
  {
  }

  function NewRoot(s: State, d: Id, name: Name): State {
    s.(parent := s.parent[d := d], kids := s.kids[d := []], count := s.count[d := 1], inode := s.inode[d := Dir],
       name := s.name[d := name])
  }

  lemma NewRootOk(s: State, bucket: Bucket, refs: Id -> nat, depth: Id -> nat, d: Id, name: Name)
    requires d !in s.parent && NameOk(name)
    requires Ok(s, bucket, refs, depth, {})
    ensures Ok(NewRoot(s, d, name), bucket, MoreRefs(refs, d), depth, {})
  {
    hide TreeOk, HashOk, CountOk, LruOk;
    KeysOf(s, depth);
    NewRootTree(s, depth, d, name);
    HashedThere(s, bucket);
    SameHash(s, NewRoot(s, d, name), bucket);
    NewRootCount(s, refs, d, name);
    NewRootLru(s, d, name);
  }

  lemma InstantiatedOk(s: State, bucket: Bucket, refs: Id -> nat, depth: Id -> nat, d: Id, kind: Kind)
    requires d in s.parent && d in s.kids && (s.kids[d] == [] || kind == Dir)
    requires Ok(s, bucket, refs, depth, {})
    ensures Ok(s.(inode := s.inode[d := kind]), bucket, refs, depth, {})
  {
    hide CountOk, TreeOk, HashOk, LruOk;
    var s' := s.(inode := s.inode[d := kind]);
    HashedThere(s, bucket);
    SameHash(s, s', bucket);
    SameCount(s, s', refs, {});
    InstantiatedTree(s, depth, d, kind);
    InstantiatedLru(s, d, kind);
  }

  lemma InstantiatedTree(s: State, depth: Id -> nat, d: Id, kind: Kind)
    requires d in s.parent && d in s.kids && (s.kids[d] == [] || kind == Dir) && TreeOk(s, depth)
    ensures TreeOk(s.(inode := s.inode[d := kind]), depth)
  {
    hide Tree;
  }

  lemma InstantiatedLru(s: State, d: Id, kind: Kind)
    requires LruOk(s)
    ensures LruOk(s.(inode := s.inode[d := kind]))
  {
    hide NoDup;
  }

  lemma NewRootTree(s: State, depth: Id -> nat, d: Id, name: Name)
    requires d !in s.parent && NameOk(name) && TreeOk(s, depth)
    ensures TreeOk(NewRoot(s, d, name), depth)
  {
    hide Forest, Ranked;
    AddRoot(s.parent, s.kids, depth, d);
  }

  lemma NewRootCount(s: State, refs: Id -> nat, d: Id, name: Name)
    requires d !in s.count && SameKeys(s) && CountOk(s, refs, {})
    ensures CountOk(NewRoot(s, d, name), MoreRefs(refs, d), {})
  {
    hide CountOk;
    var s' := NewRoot(s, d, name);
    forall x | x in s'.count && x in s'.kids
      ensures s'.count[x] == |s'.kids[x]| + MoreRefs(refs, d)(x)
    {
      if x != d {
        CountAt(s, refs, {}, x);
      } else {
        NoRefs(s, refs, {}, d);
      }
    }
    CountGrown(s, s', refs, d);
  }

  lemma NewRootLru(s: State, d: Id, name: Name)
    requires d !in s.count && LruOk(s)
    ensures LruOk(NewRoot(s, d, name))
  {
  }

  /** select_parent moves an unused dentry to the end of the list. */
  function LastUnused(s: State, c: Id): State {
    s.(lru := Unlink(s.lru, c) + [c])
  }

  lemma LastUnusedOk(s: State, bucket: Bucket, refs: Id -> nat, depth: Id -> nat, c: Id)
    requires c in s.count && s.count[c] == 0
    requires Ok(s, bucket, refs, depth, {})
    ensures Ok(LastUnused(s, c), bucket, refs, depth, {}) && c in s.lru && NoDup(s.lru)
  {
    hide Unlink, TreeOk, HashOk;
    var s' := LastUnused(s, c);
    SameTree(s, s', depth);
    HashedThere(s, bucket);
    SameHash(s, s', bucket);
    assert forall x :: x in s'.lru <==> x in Unlink(s.lru, c) || x == c;
  }

  lemma MoreMoved(lru: seq<Id>, moved: seq<Id>, c: Id)
    requires EndsWith(lru, moved) && c !in moved
    ensures EndsWith(Unlink(lru, c) + [c], moved + [c])
  {
    var a := lru[..|lru| - |moved|];
    assert lru == a + moved;
    UnlinkFront(a, moved, c);
    assert Unlink(lru, c) + [c] == Unlink(a, c) + (moved + [c]);
  }

  /** The search of d_lookup along a hash chain. */
  method Find(s: State, bucket: Bucket, ghost refs: Id -> nat, ghost depth: Id -> nat, p: Id, text: string, hash: nat)
    returns (r: Option<Id>)
    requires Ok(s, bucket, refs, depth, {})
    ensures r.Some? ==>
      r.value in s.hashed && r.value in s.parent && r.value in s.count && HasKey(s, r.value, p, hash, text)
    ensures r.None? ==> forall d :: d in s.hashed ==> !HasKey(s, d, p, hash, text)
  {
    hide Ok, Tree, HasKey, NameOk, Text;
    var b := bucket(p, hash);
    ChainFits(s, bucket, refs, depth, b, p, hash);
    var chain := s.chains[b];
    var i := 0;
    while i < |chain|
      invariant 0 <= i <= |chain|
      invariant forall j :: 0 <= j < i ==> !HasKey(s, chain[j], p, hash, text)
    {
      var d := chain[i];
      OnChain(s, bucket, refs, depth, b, d);
      OkFacts(s, bucket, refs, depth, {}, d);
      Compared(s, d, p, hash, text);
      if s.name[d].hash == hash && s.parent[d] == p && s.name[d].len == |text| && Text(s.name[d]) == text {
        return Some(d);
      }
      i := i + 1;
    }
    NotOnChain(s, bucket, refs, depth, p, hash, text);
    r := None;
  }

  /** is_subdir */
  method IsSubdir(s: State, ghost depth: Id -> nat, x0: Id, d: Id) returns (r: bool)
    requires x0 in s.parent && Tree(s.parent, s.kids, depth)
    ensures r <==> Under(s.parent, depth, x0, d)
    ensures r <==> Below(s.parent, x0, d)
    ensures !r ==> x0 != d
  {
    hide ChildrenOf, Below, Closed;
    UnderIsBelow(s.parent, s.kids, depth, x0, d);
    var x := x0;
    while x != d
      invariant x in s.parent && (Under(s.parent, depth, x0, d) <==> Under(s.parent, depth, x, d))
      decreases depth(x)
    {
      var parent := s.parent[x];
      if parent == x {
        return false;
      }
      ParentIn(s.parent, s.kids, x);
      x := parent;
    }
    r := true;
  }

  /** What stays when the unused list is reordered. */
  ghost predicate Reordered(s0: State, s: State) {
    s == s0.(lru := s.lru) && forall x :: x in s.lru <==> x in s0.lru
  }

  /** select_parent: the unused descendants go to the end of the unused list. */
  method SelectParent(s0: State, ghost bucket: Bucket, ghost refs: Id -> nat, ghost depth: Id -> nat, root: Id)
    returns (found: nat, s: State, ghost moved: seq<Id>)
    requires Ok(s0, bucket, refs, depth, {}) && root in s0.parent
    ensures Ok(s, bucket, refs, depth, {}) && Reordered(s0, s) && |moved| == found && EndsWith(s.lru, moved)
    ensures forall x :: x in moved <==> Descendant(s0, x, root) && x in s0.count && s0.count[x] == 0
  {
    hide Tree, Cursor, Left, Ok, Descendant, Unlink, EndsWith;
    s, found, moved := s0, 0, [];
    var at, next: nat := root, 0;
    ghost var w := Walk([root], [0], []);
    TreeFact(s, bucket, refs, depth);
    StartCursor(s, depth, root);
    NoneMoved(s.lru);
    while true
      invariant Ok(s, bucket, refs, depth, {}) && Reordered(s0, s) && |moved| == found && EndsWith(s.lru, moved)
      invariant Cursor(s0, depth, root, at, next, w)
      invariant forall x :: x in moved <==> x in w.seen && x in s0.count && s0.count[x] == 0
      decreases Unseen(s0, w), |w.path|
    {
      var turn;
      ghost var w0 := w;
      turn, at, next, w := Advance(s0, root, at, next, depth, w);
      CursorFacts(s0, depth, root, at, next, w);
      match turn {
        case Visit(c) =>
          TreeFact(s, bucket, refs, depth);
          if s.count[c] == 0 {
            LastUnusedOk(s, bucket, refs, depth, c);
            MoreMoved(s.lru, moved, c);
            SameMembers(s0, s, c);
            s, found, moved := LastUnused(s, c), found + 1, moved + [c];
          }
        case Ascended =>
        case Done =>
          return;
      }
    }
  }

  lemma TreeFact(s: State, bucket: Bucket, refs: Id -> nat, depth: Id -> nat)
    requires Ok(s, bucket, refs, depth, {})
    ensures Tree(s.parent, s.kids, depth) && SameKeys(s)
  {
    hide Tree, HashOk, CountOk, LruOk;
  }

  lemma NoneMoved(lru: seq<Id>)
    ensures EndsWith(lru, [])
  {
  }

  lemma SameMembers(s0: State, s: State, c: Id)
    requires Reordered(s0, s) && c in s.lru && NoDup(s.lru)
    ensures Reordered(s0, LastUnused(s, c))
  {
    hide Unlink;
    assert forall x :: x in LastUnused(s, c).lru <==> x in Unlink(s.lru, c) || x == c;
  }

  /** Two dentries found by lookups that the caller holds. */
  ghost predicate Held(s: State, refs: Id -> nat, d: Id, t: Id) {
    d in s.hashed && t in s.hashed && refs(d) > 0 && refs(t) > 0
  }

  /** What the rename of a directory promises. */
  ghost predicate DirRenamed(s0: State, s: State, refs: Id -> nat, d: Id, t: Id, fsOk: bool, moved: bool) {
    && Acyclic(s.parent)
    && (moved ==> Replaces(s0, t, s, d) && t !in s.hashed) && (!moved ==> UnusedGone(s0, s, refs))
    && (moved <==> fsOk && t in s0.inode && s0.inode[t] != Other && !Below(s0.parent, t, d)
                   && (s0.inode[t] == Dir ==> !InUse(s0, refs, t)))
    && GoneBelow(s0, s, t)
  }

  class Cache {
    const bucket: Bucket
    var s: State
    ghost var refs: Id -> nat
    ghost var depth: Id -> nat

    ghost predicate Valid()
      reads this
    {
      Ok(s, bucket, refs, depth, {})
    }

    /** An empty cache. */
    constructor (bucket: Bucket, size: nat)
      requires forall p: Id, h: nat :: bucket(p, h) < size
      ensures Valid() && s.parent == map[] && this.bucket == bucket
    {
      this.bucket := bucket;
      s := State(map[], map[], map[], map[], map[], {}, seq(size, _ => []), [], 0);
      refs := _ => 0;
      depth := _ => 0;
    }

    /** d_alloc_root: the new dentry is d. */
    method DAllocRoot(d: Id, name: Name)
      requires Valid() && d !in s.parent && NameOk(name)
      modifies this`s, this`refs
      ensures Valid() && refs == MoreRefs(old(refs), d) && s.hashed == old(s.hashed) && s.lru == old(s.lru)
      ensures s.parent == old(s.parent)[d := d] && s.name == old(s.name)[d := name] && s.inode == old(s.inode)[d := Dir]
    {
      hide Ok;
      NewRootOk(s, bucket, refs, depth, d, name);
      s := NewRoot(s, d, name);
      refs := MoreRefs(refs, d);
    }

    /** d_instantiate */
    method DInstantiate(d: Id, kind: Kind)
      requires Valid() && d in s.parent && d in s.kids && (s.kids[d] == [] || kind == Dir)
      modifies this`s
      ensures Valid() && s == old(s).(inode := old(s.inode)[d := kind])
    {
      hide Ok;
      InstantiatedOk(s, bucket, refs, depth, d, kind);
      s := s.(inode := s.inode[d := kind]);
    }

    /** dput from the point where the reference is dropped. */
    method DropRef(d0: Id)
      requires Ok(s, bucket, refs, depth, {d0}) && d0 in s.parent
      modifies this`s
      ensures DroppedAll(old(s), s, bucket, refs, depth, d0)
    {
      hide Ok, OffLru, Freed, Rested, Dropping, DroppedAll;
      var d := d0;
      DropStart(s, bucket, refs, depth, d);
      while true
        invariant Dropping(old(s), s, bucket, refs, depth, d0, d)
        decreases s.parent.Keys
      {
        DropFacts(old(s), s, bucket, refs, depth, d0, d);
        var count := s.count[d] - 1;
        if count != 0 {
          DropDown(old(s), s, bucket, refs, depth, d0, d);
          s := s.(count := s.count[d := count]);
          return;
        }
        if d !in s.hashed {
          DropFree(old(s), s, bucket, refs, depth, d0, d);
          s := OffLru(s, d);
          var parent := s.parent[d];
          s := Freed(s, d);
          if d == parent {
            return;
          }
          d := parent;
        } else {
          DropRest(old(s), s, bucket, refs, depth, d0, d);
          s := OffLru(s, d);
          s := Rested(s, d);
          return;
        }
      }
    }

    /** dput */
    method DPut(d: Id)
      requires Valid() && d in s.parent && refs(d) > 0
      modifies this`s, this`refs
      ensures Valid() && refs == LessRefs(old(refs), d)
      ensures UnusedGone(old(s), s, refs) && AncestorsGone(old(s), s, d) && TailsKept(old(s), s, d)
    {
      hide Ok, LessRefs, UnusedGone, AncestorsGone, TailsKept;
      Owing(s, bucket, refs, depth, d);
      refs := LessRefs(refs, d);
      DropRef(d);
    }

    /** dget */
    method DGet(d: Id)
      requires Valid() && d in s.parent && d in s.count
      modifies this`s, this`refs
      ensures Valid() && refs == MoreRefs(old(refs), d) && s == old(s).(count := s.count)
      ensures s.count.Keys == old(s.count.Keys)
    {
      hide Ok;
      CountUp(s, bucket, refs, depth, d);
      s := s.(count := s.count[d := s.count[d] + 1]);
      refs := MoreRefs(refs, d);
    }

    /** d_alloc with a parent: the new dentry is d. */
    method DAlloc(d: Id, p: Id, name: Name)
      requires Valid() && d !in s.parent && NameOk(name)
      requires p in s.parent && p in s.kids && p in s.count && p in s.inode && s.inode[p] == Dir
      modifies this
      ensures Valid() && refs == MoreRefs(old(refs), d) && s.hashed == old(s.hashed) && s.lru == old(s.lru)
      ensures s.parent == old(s.parent)[d := p] && s.name == old(s.name)[d := name]
      ensures s.inode == old(s.inode)[d := Negative] && s.kids == old(s.kids)[p := [d] + old(s.kids)[p]][d := []]
    {
      hide Ok;
      AllocatedOk(s, bucket, refs, depth, d, p, name);
      s := Allocated(s, d, p, name);
      refs := MoreRefs(refs, d);
      depth := ChildDepth(depth, d, p);
    }

    /** d_lookup */
    method DLookup(p: Id, text: string, hash: nat) returns (r: Option<Id>)
      requires Valid() && p in s.parent
      modifies this`s, this`refs
      ensures Valid() && s == old(s).(count := s.count)
      ensures r.Some? ==>
        r.value in s.hashed && HasKey(s, r.value, p, hash, text) && refs == MoreRefs(old(refs), r.value)
      ensures r.None? ==> s == old(s) && refs == old(refs) && forall d :: d in s.hashed ==> !HasKey(s, d, p, hash, text)
    {
      hide Ok, HasKey;
      r := Find(s, bucket, refs, depth, p, text, hash);
      if r.Some? {
        DGet(r.value);
        SameHasKey(old(s), s, r.value, p, hash, text);
      }
    }

    /** d_rehash */
    method DRehash(d: Id)
      requires Valid() && CanHash(s, d)
      modifies this`s
      ensures Valid() && s == old(s).(hashed := old(s.hashed) + {d}, chains := s.chains)
    {
      hide TreeOk, CountOk, HashOk;
      RehashedHash(s, bucket, d);
      assert Home(s, bucket, d) < |s.chains| by { BucketFits(s, bucket, d); }
      SameTree(s, Rehashed(s, bucket, d), depth);
      SameCount(s, Rehashed(s, bucket, d), refs, {});
      s := Rehashed(s, bucket, d);
    }

    /** d_drop of a dentry in use */
    method DDrop(d: Id)
      requires Valid() && d in s.hashed && refs(d) > 0
      modifies this`s
      ensures Valid() && s == old(s).(hashed := old(s.hashed) - {d}, chains := s.chains)
    {
      hide TreeOk, CountOk, HashOk, LruOk, Tree;
      HashedHome(s, bucket, d);
      OkFacts(s, bucket, refs, depth, {}, d);
      DroppedOk(s, bucket, refs, depth, {}, d);
      s := Dropped(s, bucket, d);
    }

    /** prune_one_dentry, with the unlinking from the unused list before it.  Only d and
        ancestors of it go, and the end of the list before d stays. */
    method PruneOne(d: Id, ghost tail: seq<Id>)
      requires Valid() && d in s.count && s.count[d] == 0
      modifies this`s
      ensures Valid() && UnusedGone(old(s), s, refs) && s.parent.Keys <= old(s.parent.Keys) - {d}
      ensures GoneAbove(old(s), s, depth, d) && TailKept(old(s), s, depth, tail, d)
    {
      hide Ok, Pruned, UnusedGone, GoneAbove, TailKept, AncestorsGone, TailsKept, Tree;
      PrunedOk(s, bucket, refs, depth, d);
      var parent := s.parent[d];
      ghost var s0 := s;
      s := Pruned(s, bucket, d);
      ghost var s1 := s;
      PrunedParent(s0, s, bucket, refs, depth, parent, d);
      PrunedList(s0, bucket, refs, depth, d);
      DropRef(parent);
      PrunedGone(s0, s1, s, refs, d);
      PrunedAbove(s0, s1, s, depth, d, tail);
    }

    /** prune_dcache: unused dentries go from the end of the list, until there are enough
        victims or the list is empty.  If the list ends with that many unused dentries,
        they are the victims; apart from the victims only ancestors of them go. */
    method PruneDcache(count0: int, ghost tail: seq<Id>) returns (ghost victims: seq<Id>)
      requires Valid() && EndsWith(s.lru, tail) && AllUnused(s, tail)
      modifies this`s
      ensures Valid() && UnusedGone(old(s), s, refs) && GoneWith(old(s), s, depth, victims)
      ensures (s.lru == [] || |victims| == count0) && (count0 > 0 ==> |victims| <= count0)
      ensures Gone(old(s), s, victims)
      ensures count0 == |tail| > 0 ==> forall x :: x in victims <==> x in tail
    {
      hide Ok, UnusedGone, OffLru, Unlink, EndsWith, AllUnused, GoneWith, GoneAbove, FromTail, TailKept, Gone, Rest,
        NoDup;
      var count := count0;
      SelfShrunk(s, bucket, refs, depth, {});
      victims := [];
      TailBegins(s, tail);
      NobodyGone(s, depth);
      while true
        invariant Valid() && UnusedGone(old(s), s, refs) && GoneWith(old(s), s, depth, victims)
        invariant count + |victims| == count0 && (count0 > 0 ==> count > 0) && Gone(old(s), s, victims)
        invariant FromTail(s, tail, victims)
        decreases s.parent.Keys, |s.lru|
      {
        if s.lru == [] {
          break;
        }
        var d := s.lru[|s.lru| - 1];
        InLru(s, bucket, refs, depth, d);
        ghost var s1 := s;
        if s.count[d] == 0 {
          PruneOne(d, Rest(tail, victims));
          GoneTrans(old(s), s1, s, refs);
          OneGone(old(s), s1, s, bucket, refs, depth, tail, victims, d);
          victims := victims + [d];
          count := count - 1;
          if count == 0 {
            break;
          }
        } else {
          StillTail(s, tail, victims, d);
          OffLruOk(s, bucket, refs, depth, {}, d);
          OffSame(old(s), s, d, refs);
          OffShorter(s, d);
          s := OffLru(s, d);
          SameVictims(old(s), s1, s, depth, tail, victims);
        }
      }
      AllVictims(s, tail, victims, count0);
    }

    /** shrink_dcache_parent: afterwards every descendant is in use, and nothing else is gone
        but unused descendants. */
    method ShrinkParent(p: Id)
      requires Valid() && p in s.parent && refs(p) > 0
      modifies this`s
      ensures Valid() && UnusedGone(old(s), s, refs) && p in s.parent && GoneBelow(old(s), s, p)
      ensures forall x :: Descendant(s, x, p) && x in s.count ==> s.count[x] != 0
    {
      hide Ok, UnusedGone, Descendant, EndsWith, Reordered, GoneBelow, GoneWith, AllUnused, Tree;
      SelfShrunk(s, bucket, refs, depth, {});
      NoneGoneBelow(s, s, p);
      while true
        invariant Valid() && UnusedGone(old(s), s, refs) && p in s.parent && GoneBelow(old(s), s, p)
        decreases s.parent.Keys
      {
        var found, s1;
        ghost var moved;
        found, s1, moved := SelectParent(s, bucket, refs, depth, p);
        ReorderedGone(old(s), s, s1, refs);
        if found == 0 {
          NoneUnused(s, s1, p, moved);
          SameGoneBelow(old(s), s, s1, p);
          s := s1;
          return;
        }
        MovedUnused(s, s1, bucket, refs, depth, moved);
        ghost var s0 := s;
        s := s1;
        ghost var victims := PruneDcache(found, moved);
        GoneTrans(old(s), s1, s, refs);
        UsedStays(old(s), s, refs, p);
        ShrunkOnce(old(s), s0, s1, s, bucket, refs, depth, p, victims, moved);
      }
    }

    /** d_invalidate for a caller that holds a reference */
    method DInvalidate(d: Id) returns (ok: bool)
      requires Valid() && d in s.parent && refs(d) > 0
      modifies this`s
      ensures Valid() && d in s.parent
      ensures !ok ==> UnusedGone(old(s), s, refs)
      ensures ok ==> UnusedGone(old(s), s.(hashed := s.hashed + (old(s.hashed) * {d})), refs)
      ensures ok ==> d !in s.hashed
      ensures GoneBelow(old(s), s, d)
      ensures ok <==> d !in old(s.hashed) || d !in old(s.inode) || old(s.inode)[d] != Dir || !InUse(old(s), refs, d)
      ensures ok && d in old(s.hashed) && d in old(s.inode) && old(s.inode)[d] == Dir ==> d in s.kids && s.kids[d] == []
    {
      hide Ok, UnusedGone, Descendant, Tree, GoneBelow, InUse;
      SelfShrunk(s, bucket, refs, depth, {});
      TreeFact(s, bucket, refs, depth);
      NoneGoneBelow(s, s, d);
      if d !in s.hashed {
        SameState(s, s.(hashed := s.hashed + (s.hashed * {d})));
        return true;
      }
      if s.kids[d] != [] {
        ShrinkParent(d);
      } else {
        NothingBelowLeaf(s, depth, d);
      }
      InUseIs(old(s), s, bucket, refs, depth, d);
      GoneFacts(old(s), s, refs, d);
      TreeFact(s, bucket, refs, depth);
      OkFacts(s, bucket, refs, depth, {}, d);
      if s.count[d] > 1 && s.inode[d] == Dir {
        return false;
      }
      ghost var s1 := s;
      DDrop(d);
      SameGoneBelow(old(s), s1, s, d);
      SameState(s1, s.(hashed := s.hashed + (old(s.hashed) * {d})));
      HashGone(old(s), s1, s.(hashed := s.hashed + (old(s.hashed) * {d})), refs);
      ok := true;
    }

    /** d_move */
    method DMove(d: Id, t: Id)
      requires CanMove(s, depth, d, t) && Valid()
      modifies this`s, this`depth
      ensures Valid() && Replaces(old(s), t, s, d) && SameSizes(old(s), s)
      ensures s.parent == Exchanged(old(s.parent), d, t) && s.hashed == old(s.hashed) - {t}
      ensures s == old(s).(parent := s.parent, kids := s.kids, hashed := s.hashed, chains := s.chains, name := s.name)
      ensures NamesSwitched(old(s.name), s.name, d, t)
    {
      hide Ok, Moved, HasKey, Under, Replaces, SameSizes, NamesSwitched;
      MovedOk(s, bucket, refs, depth, d, t);
      MovedRest(s, bucket, refs, depth, d, t);
      ghost var depth' := NewDepth(s.parent, depth, d, t);
      s := Moved(s, bucket, d, t);
      depth := depth';
    }

    /** vfs_rename_dir from the checks of the target on: onto the hashed dentry t,
        with fsOk the answer of the file system. */
    method RenameDir(d: Id, t: Id, fsOk: bool) returns (moved: bool)
      requires Held(s, refs, d, t) && Valid()
      modifies this`s, this`depth
      ensures Valid() && DirRenamed(old(s), s, refs, d, t, fsOk, moved)
    {
      hide Ok, Tree, UnusedGone, Under, Below, Replaces, Acyclic, CanHash, CanMove, HashOk, InUse, GoneBelow;
      TreeFact(s, bucket, refs, depth);
      HeldFacts(s, bucket, refs, depth, d, t);
      NoCycle(s, bucket, refs, depth);
      SelfShrunk(s, bucket, refs, depth, {});
      NoneGoneBelow(s, s, t);
      if s.inode[t] == Other {
        return false;
      }
      var sub := IsSubdir(s, depth, t, d);
      if sub {
        return false;
      }
      if s.inode[t] != Negative {
        var ok := DInvalidate(t);
        if !ok {
          NoCycle(s, bucket, refs, depth);
          return false;
        }
        Unhashed(old(s), s, bucket, refs, depth, d, t);
        ghost var s1 := s;
        DRehash(t);
        RehashedGone(old(s), s1, s, refs, t);
        SameGoneBelow(old(s), s1, s, t);
      }
      NoCycle(s, bucket, refs, depth);
      if fsOk {
        MayMove(old(s), s, bucket, refs, depth, d, t);
        ghost var s2 := s;
        DMove(d, t);
        NoCycle(s, bucket, refs, depth);
        ReplacesOld(old(s), s2, s, refs, d, t);
        SameGoneBelow(old(s), s2, s, t);
      }
      moved := fsOk;
    }

    /** vfs_rename_other: a non-directory onto t; `linked` tells that the two are links
        of one inode. */
    method RenameOther(d: Id, t: Id, linked: bool, fsOk: bool, odd: bool) returns (moved: bool)
      requires Held(s, refs, d, t) && Valid() && d in s.inode && s.inode[d] == Other
      modifies this`s, this`depth
      ensures Valid() && Acyclic(s.parent)
      ensures moved <==> d != t && !linked && fsOk && !odd && t in old(s.inode) && old(s.inode)[t] != Dir
      ensures moved ==> Replaces(old(s), t, s, d) && SameSizes(old(s), s) && t !in s.hashed
      ensures !moved ==> s == old(s)
    {
      hide Ok, Tree, Under, Replaces, SameSizes, Acyclic, CanMove, HashOk;
      HeldFacts(s, bucket, refs, depth, d, t);
      NoCycle(s, bucket, refs, depth);
      if d == t || linked || s.inode[t] == Dir || !fsOk || odd {
        return false;
      }
      LeavesMayMove(s, bucket, refs, depth, d, t);
      DMove(d, t);
      NoCycle(s, bucket, refs, depth);
      moved := true;
    }
  }

  lemma ChainFits(s: State, bucket: Bucket, refs: Id -> nat, depth: Id -> nat, b: nat, p: Id, hash: nat)
    requires Ok(s, bucket, refs, depth, {}) && b == bucket(p, hash)
    ensures b < |s.chains|
  {
    hide Tree, CountOk, LruOk;
  }

  /** What the comparisons of d_lookup say about a dentry. */
  lemma Compared(s: State, d: Id, p: Id, hash: nat, text: string)
    requires d in s.parent && d in s.name && NameOk(s.name[d])
    ensures HasKey(s, d, p, hash, text) <==>
      s.name[d].hash == hash && s.parent[d] == p && s.name[d].len == |text| && Text(s.name[d]) == text
  {
  }

  lemma OnChain(s: State, bucket: Bucket, refs: Id -> nat, depth: Id -> nat, b: nat, d: Id)
    requires b < |s.chains| && d in s.chains[b]
    requires Ok(s, bucket, refs, depth, {})
    ensures d in s.hashed && d in s.parent
  {
    hide Tree, CountOk, LruOk;
  }

  lemma SameHasKey(s0: State, s: State, d: Id, p: Id, hash: nat, text: string)
    requires HasKey(s0, d, p, hash, text) && s.parent == s0.parent && s.name == s0.name
    ensures HasKey(s, d, p, hash, text)
  {
  }

  lemma NotOnChain(s: State, bucket: Bucket, refs: Id -> nat, depth: Id -> nat, p: Id, hash: nat, text: string)
    requires Ok(s, bucket, refs, depth, {}) && bucket(p, hash) < |s.chains|
    requires forall j :: 0 <= j < |s.chains[bucket(p, hash)]| ==>
      !HasKey(s, s.chains[bucket(p, hash)][j], p, hash, text)
    ensures forall d :: d in s.hashed ==> !HasKey(s, d, p, hash, text)
  {
    hide Tree, CountOk, LruOk;
    var b := bucket(p, hash);
    forall d | d in s.hashed
      ensures !HasKey(s, d, p, hash, text)
    {
      assert d in s.chains[b] <==> HomeIs(s, bucket, d, b);
    }
  }

  lemma BucketFits(s: State, bucket: Bucket, d: Id)
    requires HashOk(s, bucket) && d in s.parent && d in s.name
    ensures Home(s, bucket, d) < |s.chains|
  {
  }

  lemma PrunedParent(s0: State, s: State, bucket: Bucket, refs: Id -> nat, depth: Id -> nat, parent: Id, d: Id)
    requires d in s0.parent && parent == s0.parent[d] && parent != d && parent in s0.parent
    requires s.parent == s0.parent - {d}
    ensures parent in s.parent
  {
  }

  lemma PrunedGone(s0: State, s1: State, s2: State, refs: Id -> nat, d: Id)
    requires Shrunk(s0, s1) && s1.parent == s0.parent - {d} && refs(d) == 0 && UnusedGone(s1, s2, refs)
    ensures UnusedGone(s0, s2, refs) && s2.parent.Keys <= s0.parent.Keys - {d}
  {
    ShrunkTrans(s0, s1, s2);
  }

  lemma GoneTrans(s0: State, s1: State, s2: State, refs: Id -> nat)
    requires UnusedGone(s0, s1, refs) && UnusedGone(s1, s2, refs)
    ensures UnusedGone(s0, s2, refs) && s2.parent.Keys <= s1.parent.Keys <= s0.parent.Keys
  {
    ShrunkTrans(s0, s1, s2);
  }

  lemma InLru(s: State, bucket: Bucket, refs: Id -> nat, depth: Id -> nat, d: Id)
    requires Ok(s, bucket, refs, depth, {}) && d in s.lru
    ensures d in s.count && d in s.parent
  {
    hide Tree, HashOk, CountOk;
  }

  lemma OffShorter(s: State, d: Id)
    requires d in s.lru
    ensures |OffLru(s, d).lru| < |s.lru|
  {
  }

  lemma ReorderedGone(s0: State, s1: State, s: State, refs: Id -> nat)
    requires UnusedGone(s0, s1, refs) && Reordered(s1, s)
    ensures UnusedGone(s0, s, refs) && s.parent == s1.parent
  {
  }

  lemma MovedUnused(s0: State, s: State, bucket: Bucket, refs: Id -> nat, depth: Id -> nat, moved: seq<Id>)
    requires Reordered(s0, s) && Ok(s, bucket, refs, depth, {})
    requires forall x :: x in moved ==> x in s0.count && s0.count[x] == 0
    ensures AllUnused(s, moved)
  {
    hide Tree, CountOk, HashOk;
  }

  /** The victims are gone for good. */
  ghost predicate Gone(s0: State, s: State, victims: seq<Id>) {
    && NoDup(victims) && s.parent.Keys <= s0.parent.Keys
    && forall x :: x in victims ==> x in s0.parent && x !in s.parent
  }

  lemma NobodyGone(s: State, depth: Id -> nat)
    ensures GoneWith(s, s, depth, []) && Gone(s, s, [])
  {
  }

  lemma OneGone(s0: State, s1: State, s: State, bucket: Bucket, refs: Id -> nat, depth: Id -> nat, tail: seq<Id>,
      victims: seq<Id>, d: Id)
    requires GoneWith(s0, s1, depth, victims) && Gone(s0, s1, victims) && FromTail(s1, tail, victims)
    requires Ok(s1, bucket, refs, depth, {}) && Ok(s, bucket, refs, depth, {})
    requires s1.lru != [] && d == s1.lru[|s1.lru| - 1] && d in s1.parent && UnusedGone(s0, s1, refs)
    requires UnusedGone(s1, s, refs) && s.parent.Keys <= s1.parent.Keys - {d} && GoneAbove(s1, s, depth, d)
    requires TailKept(s1, s, depth, Rest(tail, victims), d)
    ensures GoneWith(s0, s, depth, victims + [d]) && Gone(s0, s, victims + [d]) && FromTail(s, tail, victims + [d])
    ensures s.parent.Keys < s1.parent.Keys
  {
    hide Ok, GoneWith, GoneAbove, FromTail, TailKept, Shrunk, Tree, Gone, Part, Closed;
    ShrunkPart(s0, s1);
    TreeFact(s1, bucket, refs, depth);
    TreeClosed(s1, depth);
    MoreGone(s0, s1, s, depth, victims, d);
    TailGoesOn(s1, s, bucket, refs, depth, tail, victims, d);
    MoreVictims(s0, s1, s, victims, d);
  }

  lemma MoreVictims(s0: State, s1: State, s: State, victims: seq<Id>, d: Id)
    requires Gone(s0, s1, victims) && d in s1.parent && s.parent.Keys <= s1.parent.Keys - {d}
    ensures Gone(s0, s, victims + [d]) && s.parent.Keys < s1.parent.Keys
  {
    assert d in s1.parent.Keys && d !in s.parent.Keys;
    assert d !in victims;
    forall x | x in victims + [d]
      ensures x in s0.parent && x !in s.parent
    {
      assert x in victims || x == d;
      assert x in s.parent.Keys ==> x in s1.parent.Keys;
    }
  }

  /** What is left of the tail behind the next victim. */
  ghost function Rest(tail: seq<Id>, victims: seq<Id>): seq<Id> {
    if |victims| < |tail| then tail[..|tail| - |victims| - 1] else []
  }

  /** A dentry in use is not in what is left of the tail. */
  lemma StillTail(s: State, tail: seq<Id>, victims: seq<Id>, d: Id)
    requires FromTail(s, tail, victims) && s.lru != [] && d == s.lru[|s.lru| - 1] && d in s.count && s.count[d] != 0
    ensures |victims| >= |tail|
  {
    hide EndsWith, AllUnused, FromTail;
    if |victims| < |tail| {
      NextVictim(s, tail, victims);
    }
  }

  lemma SameVictims(s0: State, s1: State, s: State, depth: Id -> nat, tail: seq<Id>, victims: seq<Id>)
    requires GoneWith(s0, s1, depth, victims) && Gone(s0, s1, victims) && FromTail(s1, tail, victims)
    requires s.parent == s1.parent && |victims| >= |tail|
    ensures GoneWith(s0, s, depth, victims) && Gone(s0, s, victims) && FromTail(s, tail, victims)
  {
    hide EndsWith, AllUnused;
  }

  lemma AllVictims(s: State, tail: seq<Id>, victims: seq<Id>, count0: int)
    requires FromTail(s, tail, victims) && (s.lru == [] || |victims| == count0) && (count0 > 0 ==> |victims| <= count0)
    ensures count0 == |tail| > 0 ==> forall x :: x in victims <==> x in tail
  {
    if count0 == |tail| > 0 {
      assert |victims| == |tail|;
      assert tail[0..] == tail;
    }
  }

  lemma NoneGoneBelow(s0: State, s: State, p: Id)
    requires s.parent == s0.parent
    ensures GoneBelow(s0, s, p)
  {
  }

  lemma SameGoneBelow(s0: State, s1: State, s: State, p: Id)
    requires GoneBelow(s0, s1, p) && s.parent.Keys == s1.parent.Keys
    ensures GoneBelow(s0, s, p)
  {
    hide Descendant;
  }

  lemma NothingBelowLeaf(s: State, depth: Id -> nat, d: Id)
    requires Tree(s.parent, s.kids, depth) && d in s.parent && d in s.kids && s.kids[d] == []
    ensures forall x :: !Descendant(s, x, d)
  {
    hide Tree, Descendant, Under;
    forall x
      ensures !Descendant(s, x, d)
    {
      DescendantIs(s, depth, x, d);
      if Descendant(s, x, d) {
        AncestorHasKids(s, depth, x, d);
      }
    }
  }

  /** One round of shrink_dcache_parent takes descendants only, and at least one. */
  lemma ShrunkOnce(old_: State, s0: State, s1: State, s: State, bucket: Bucket, refs: Id -> nat, depth: Id -> nat,
      p: Id, victims: seq<Id>, moved: seq<Id>)
    requires Ok(old_, bucket, refs, depth, {}) && Ok(s1, bucket, refs, depth, {}) && Ok(s, bucket, refs, depth, {})
    requires UnusedGone(old_, s0, refs) && Reordered(s0, s1) && UnusedGone(s1, s, refs) && GoneBelow(old_, s0, p)
    requires GoneWith(s1, s, depth, victims) && Gone(s1, s, victims) && p in s.parent && moved != []
    requires forall x :: x in victims <==> x in moved
    requires forall x :: x in moved ==> Descendant(s0, x, p)
    ensures GoneBelow(old_, s, p) && s.parent.Keys < s0.parent.Keys
  {
    hide Ok, GoneWith, Descendant, Shrunk, Tree;
    TreeFact(old_, bucket, refs, depth);
    TreeFact(s1, bucket, refs, depth);
    TreeFact(s, bucket, refs, depth);
    ShrunkPart(s1, s);
    ShrunkPart(old_, s0);
    assert s1.parent == s0.parent;
    forall v | v in victims
      ensures Descendant(s1, v, p)
    {
      SameDescendant(s0, s1, v, p);
    }
    VictimsBelow(s1, s, depth, p, victims);
    SameGoneBelow(old_, s0, s1, p);
    BelowTrans(old_, s1, s, depth, p);
    assert moved[0] in victims;
  }

  lemma SameDescendant(s0: State, s1: State, v: Id, p: Id)
    requires s1.parent == s0.parent && Descendant(s0, v, p)
    ensures Descendant(s1, v, p)
  {
  }

  lemma PrunedList(s: State, bucket: Bucket, refs: Id -> nat, depth: Id -> nat, d: Id)
    requires d in s.parent && d in s.name && Home(s, bucket, d) < |s.chains| && s.parent[d] in s.kids && d in s.kids
    requires d in s.count && s.count[d] == 0 && s.parent[d] != d
    requires Ok(s, bucket, refs, depth, {}) && Ok(Pruned(s, bucket, d), bucket, refs, depth, {s.parent[d]})
    ensures Pruned(s, bucket, d).lru == Unlink(s.lru, d) && NoDup(s.lru)
    ensures Tree(s.parent, s.kids, depth) && Tree(Pruned(s, bucket, d).parent, Pruned(s, bucket, d).kids, depth)
  {
    hide Tree, CountOk, HashOk, Unlink, Orphaned;
  }

  lemma NoneUnused(s0: State, s: State, p: Id, moved: seq<Id>)
    requires Reordered(s0, s) && moved == []
    requires forall x :: x in moved <==> Descendant(s0, x, p) && x in s0.count && s0.count[x] == 0
    ensures forall x :: Descendant(s, x, p) && x in s.count ==> s.count[x] != 0
  {
    hide Below;
    assert forall x :: Descendant(s, x, p) <==> Descendant(s0, x, p);
  }

  lemma UsedStays(s0: State, s: State, refs: Id -> nat, p: Id)
    requires UnusedGone(s0, s, refs) && p in s0.parent && refs(p) > 0
    ensures p in s.parent
  {
  }

  lemma GoneFacts(s0: State, s: State, refs: Id -> nat, d: Id)
    requires UnusedGone(s0, s, refs) && d in s0.parent && d in s.parent
    ensures d in s0.inode && d in s.inode && s.inode[d] == s0.inode[d] && (d in s.hashed <==> d in s0.hashed)
  {
  }

  lemma SameState(s: State, s': State)
    ensures s'.hashed == s.hashed && s' == s.(hashed := s'.hashed) ==> s' == s
  {
  }

  /** The chains do not matter for who is gone. */
  lemma HashGone(s0: State, s1: State, s: State, refs: Id -> nat)
    requires UnusedGone(s0, s1, refs) && s.parent == s1.parent && s.name == s1.name && s.inode == s1.inode
    requires s.kids == s1.kids
    requires s.count == s1.count && s.hashed == s1.hashed
    ensures UnusedGone(s0, s, refs)
  {
  }

  lemma HeldFacts(s: State, bucket: Bucket, refs: Id -> nat, depth: Id -> nat, d: Id, t: Id)
    requires Held(s, refs, d, t) && Ok(s, bucket, refs, depth, {})
    ensures d in s.parent && t in s.parent && t in s.kids && t in s.inode && HashOk(s, bucket)
  {
    hide HashOk, CountOk, LruOk, Tree;
    HashedHome(s, bucket, d);
    HashedHome(s, bucket, t);
  }

  /** What a lookup of the target's old parent and name finds after the move is the
      moved dentry. */
  lemma FoundIsMoved(s0: State, s: State, bucket: Bucket, refs: Id -> nat, depth: Id -> nat, d: Id, t: Id, e: Id)
    requires Replaces(s0, t, s, d) && e in s.hashed && HasKey(s, e, s0.parent[t], s0.name[t].hash, Text(s0.name[t]))
    requires Ok(s, bucket, refs, depth, {})
    ensures e == d
  {
    hide TreeOk, CountOk, LruOk, NoDup;
    assert SameKey(s, d, e);
  }

  lemma NoCycle(s: State, bucket: Bucket, refs: Id -> nat, depth: Id -> nat)
    requires Ok(s, bucket, refs, depth, {})
    ensures Acyclic(s.parent)
  {
    hide Tree, HashOk, CountOk, LruOk, Acyclic;
    RankedAcyclic(s.parent, s.kids, depth);
  }

  /** After d_invalidate the target can be hashed again. */
  lemma Unhashed(s0: State, s: State, bucket: Bucket, refs: Id -> nat, depth: Id -> nat, d: Id, t: Id)
    requires d in s0.hashed && t in s0.hashed && d != t && t in s.parent && t !in s.hashed && HashOk(s0, bucket)
    requires UnusedGone(s0, s.(hashed := s.hashed + (s0.hashed * {t})), refs)
    requires Ok(s, bucket, refs, depth, {})
    ensures CanHash(s, t)
  {
    hide TreeOk, CountOk, LruOk, NoDup;
    forall e | e in s.hashed
      ensures !SameKey(s, t, e)
    {
      assert SameKey(s, t, e) ==> SameKey(s0, t, e);
    }
  }

  lemma RehashedGone(s0: State, s1: State, s: State, refs: Id -> nat, t: Id)
    requires t in s0.hashed && UnusedGone(s0, s1.(hashed := s1.hashed + (s0.hashed * {t})), refs)
    requires s == s1.(hashed := s1.hashed + {t}, chains := s.chains)
    ensures UnusedGone(s0, s, refs)
  {
  }

  lemma MayMove(s0: State, s: State, bucket: Bucket, refs: Id -> nat, depth: Id -> nat, d: Id, t: Id)
    requires d in s0.hashed && t in s0.hashed && refs(d) > 0 && refs(t) > 0 && HashOk(s0, bucket)
    requires !Under(s0.parent, depth, t, d)
    requires UnusedGone(s0, s, refs) && ((t in s.kids && s.kids[t] == []) || (t in s.inode && s.inode[t] != Dir))
    requires Ok(s, bucket, refs, depth, {})
    ensures CanMove(s, depth, d, t)
  {
    hide HashOk, TreeOk, CountOk, LruOk, Tree, Under;
    HashedHome(s0, bucket, d);
    HashedHome(s0, bucket, t);
    TreeFact(s, bucket, refs, depth);
    OkFacts(s, bucket, refs, depth, {}, t);
    if Under(s.parent, depth, t, d) {
      UnderSame(s0, s, depth, t, d);
    }
  }

  lemma LeavesMayMove(s: State, bucket: Bucket, refs: Id -> nat, depth: Id -> nat, d: Id, t: Id)
    requires Held(s, refs, d, t) && d != t && d in s.inode && t in s.inode && s.inode[d] != Dir && s.inode[t] != Dir
    requires Ok(s, bucket, refs, depth, {})
    ensures CanMove(s, depth, d, t)
  {
    hide HashOk, CountOk, LruOk, Tree, Under;
    HeldFacts(s, bucket, refs, depth, d, t);
    OkFacts(s, bucket, refs, depth, {}, d);
    OkFacts(s, bucket, refs, depth, {}, t);
    NothingBelow(s, depth, t, d);
  }

  /** The names of d and t after a move: d has that of t, and t has the length and the hash of
      that of d, and its text if it is long or happens to be in the buffer of t. */
  ghost predicate NamesSwitched(name0: map<Id, Name>, name: map<Id, Name>, d: Id, t: Id) {
    && d in name0 && t in name0 && d in name && t in name && name == name0[d := name[d]][t := name[t]]
    && Text(name[d]) == Text(name0[t]) && name[d].hash == name0[t].hash
    && name[t].len == name0[d].len && name[t].hash == name0[d].hash
    && var n, m := name0[d], name0[t];
      NameOk(n) && NameOk(m) && (Text(name[t]) == Text(n) <==> !n.inlined || m.iname[..n.len] == n.iname[..n.len])
  }

  lemma MovedRest(s: State, bucket: Bucket, refs: Id -> nat, depth: Id -> nat, d: Id, t: Id)
    requires CanMove(s, depth, d, t) && s.parent[d] in s.kids && s.parent[t] in s.kids
    requires Home(s, bucket, d) < |s.chains| && Home(s, bucket, t) < |s.chains|
    requires Ok(s, bucket, refs, depth, {})
    ensures var s' := Moved(s, bucket, d, t);
      && s' == s.(parent := s'.parent, kids := s'.kids, hashed := s'.hashed, chains := s'.chains, name := s'.name)
      && NamesSwitched(s.name, s'.name, d, t)
  {
    hide HashOk, CountOk, LruOk, Tree, Under, Exchanged, MovedChains, Text;
    OkFacts(s, bucket, refs, depth, {}, d);
    OkFacts(s, bucket, refs, depth, {}, t);
    MovedNames(s.name[d], s.name[t]);
    var n := Moved(s, bucket, d, t).name;
    UnderSelf(s, depth, d);
    assert n == s.name[d := n[d]][t := n[t]];
  }

  lemma ReplacesOld(s0: State, s1: State, s: State, refs: Id -> nat, d: Id, t: Id)
    requires UnusedGone(s0, s1, refs) && Replaces(s1, t, s, d)
    ensures Replaces(s0, t, s, d)
  {
  }
}
