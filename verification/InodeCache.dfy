/** The inode cache as an object: each method is one region of fs/inode.c under
    inode_lock, so that any run of the kernel is a sequence of calls. */
module InodeCache {
  import opened Options
  import opened Lists
  import opened InodeState
  import opened InodeSteps

  /** Inode i matches the search of find_inode. */
  ghost predicate Matches(s: State, i: Id, sb: Sb, ino: nat, actor: Option<Id -> bool>) {
    i in s.inodes && s.inodes[i].sb == Some(sb) && s.inodes[i].ino == ino && (actor.Some? ==> actor.value(i))
  }

  /** find_inode */
  method FindInode(s: State, hash: Hash, ghost entered: set<Id>, sb: Sb, ino: nat, actor: Option<Id -> bool>)
    returns (r: Option<Id>)
    requires Ok(s, hash, entered)
    ensures r.Some? ==> r.value in s.hashed && Matches(s, r.value, sb, ino, actor)
    ensures r.None? ==> forall i :: i in s.hashed ==> !Matches(s, i, sb, ino, actor)
  {
    hide LinkOk, Stands, Idle, OneEach;
    var b := hash(Some(sb), ino);
    var chain := s.chains[b];
    var k := 0;
    while k < |chain|
      invariant 0 <= k <= |chain| && forall j :: 0 <= j < k ==> !Matches(s, chain[j], sb, ino, actor)
    {
      var i := chain[k];
      assert i in chain;
      if s.inodes[i].sb == Some(sb) && s.inodes[i].ino == ino && (actor == None || actor.value(i)) {
        return Some(i);
      }
      k := k + 1;
    }
    forall i | i in s.hashed
      ensures !Matches(s, i, sb, ino, actor)
    {
      assert i in s.chains[b] <==> InBucket(s, hash, i, b);
    }
    r := None;
  }

  /** What iput leaves to do without the lock. */
  datatype After = Kept | Deleting | Destroy

  /** The inodes of a super block on list p that nobody uses are discarded, the
      other ones are left alone. */
  ghost predicate Swept(s0: State, s: State, p: Place, sb: Sb) {
    && s.inodes.Keys == s0.inodes.Keys && s.place.Keys == s0.place.Keys
    && forall i :: i in s0.inodes && i in s0.place ==> SweptOne(s0, s, p, sb, i)
  }

  ghost predicate SweptOne(s0: State, s: State, p: Place, sb: Sb, i: Id) {
    && i in s0.inodes && i in s0.place && i in s.inodes && i in s.place
    && if s0.place[i] == p && s0.inodes[i].sb == Some(sb) && s0.inodes[i].count == 0 then
         i !in s.hashed && s.place[i] == Disposal && s.inodes[i] == s0.inodes[i].(freeing := true)
       else SameOne(s0, s, i)
  }

  ghost predicate SameOne(s0: State, s: State, i: Id) {
    && i in s0.inodes && i in s0.place && i in s.inodes && i in s.place
    && (i in s.hashed <==> i in s0.hashed) && s.place[i] == s0.place[i] && s.inodes[i] == s0.inodes[i]
  }

  /** Half way along the list l. */
  ghost predicate Sweeping(s0: State, s: State, p: Place, sb: Sb, l: seq<Id>, k: nat) {
    && s.inodes.Keys == s0.inodes.Keys && s.place.Keys == s0.place.Keys && k <= |l|
    && (forall i :: i in s0.inodes && i in s0.place && i !in l[..k] ==> SameOne(s0, s, i))
    && (forall i :: i in l[..k] ==> SweptOne(s0, s, p, sb, i))
  }

  /** prune_icache has discarded those of l[k..] that it may, and left the others alone. */
  ghost predicate Pruned(s0: State, s: State, l: seq<Id>, k: nat, pages: Id -> bool) {
    && k <= |l| && s.inodes.Keys == s0.inodes.Keys && s.place.Keys == s0.place.Keys
    && forall i :: i in s0.inodes && i in s0.place ==> PrunedOne(s0, s, i, i in l[k..] && Eligible(s0, pages, i))
  }

  ghost predicate PrunedOne(s0: State, s: State, i: Id, gone: bool) {
    && i in s0.inodes && i in s0.place && i in s.inodes && i in s.place
    && if gone then i !in s.hashed && s.place[i] == Disposal && s.inodes[i] == s0.inodes[i].(freeing := true)
       else SameOne(s0, s, i)
  }

  ghost predicate Eligible(s: State, pages: Id -> bool, i: Id) {
    i in s.inodes && CanUnuse(s.inodes[i]) && !pages(i)
  }

  /** How many of l[k..] may be discarded. */
  ghost function Tally(s: State, pages: Id -> bool, l: seq<Id>, k: nat): nat
    requires k <= |l|
    decreases |l| - k
  {
    if k == |l| then 0 else Tally(s, pages, l, k + 1) + if Eligible(s, pages, l[k]) then 1 else 0
  }

  /** CAN_UNUSE, as far as i_state goes. */
  predicate CanUnuse(n: Inode) {
    !n.dirty && !n.lock && !n.freeing
  }

  class Icache {
    const hash: Hash
    var s: State
    ghost var entered: set<Id>
    ghost var refs: Id -> nat

    ghost predicate Valid()
      reads this
    {
      Ok(s, hash, entered) && Counted(s, refs)
    }

    constructor (hash: Hash, size: nat)
      requires forall sb, ino :: hash(sb, ino) < size
      ensures Valid() && s.inodes == map[] && this.hash == hash && entered == {} && forall i :: refs(i) == 0
    {
      this.hash := hash;
      s := State(map[], {}, seq(size, _ => []), map[], map[], 0);
      entered := {};
      refs := _ => 0;
    }

    /** __mark_inode_dirty */
    method MarkInodeDirty(i: Id)
      requires i in s.inodes && i in s.place && Valid()
      modifies this`s
      ensures Valid()
      ensures var n := old(s.inodes[i]);
        && Becomes(old(s), s, i, n.(dirty := n.dirty || n.sb.Some?))
        && if i in old(s.hashed) && n.sb.Some? && !n.dirty then Goes(old(s), s, i, Dirty(n.sb.value))
           else Stays(old(s), s)
    {
      hide Ok, Goes;
      OkLinked(s, hash, entered);
      DirtiedOk(s, hash, entered, i);
      DirtiedIs(s, i);
      var n := s.inodes[i];
      if n.sb.Some? {
        if !n.dirty {
          s := Put(s, i, n.(dirty := true));
          if i in s.hashed {
            s := Relist(s, i, Dirty(n.sb.value));
          }
        }
      }
    }

    /** sync_one up to the point where it drops the lock: to wait for a locked
        inode, or to write the inode. */
    method SyncOne(i: Id) returns (waits: bool)
      requires i in s.inodes && i in s.place && !Dying(s, i) && s.inodes[i].dirty && Valid()
      modifies this`s
      ensures Valid() && waits == old(s.inodes[i].lock)
      ensures waits ==> s == old(s)
      ensures !waits ==> var n := old(s.inodes[i]);
        && Becomes(old(s), s, i, n.(dirty := false, lock := true))
        && Goes(old(s), s, i, if n.count == 0 then Unused else InUse)
    {
      hide Ok, Goes, SyncStarted;
      OkLinked(s, hash, entered);
      waits := s.inodes[i].lock;
      if !waits {
        SyncStartedOk(s, hash, entered, i);
        SyncStartedIs(s, i);
        s := SyncStarted(s, i);
      }
    }

    /** I_LOCK is cleared: after the inode was written, or read in. */
    method Unlock(i: Id)
      requires i in s.inodes && Valid()
      modifies this`s
      ensures Valid() && s == Put(old(s), i, old(s.inodes[i]).(lock := false))
    {
      hide Ok;
      FlagsOk(s, hash, entered, i, false, s.inodes[i].freeing);
      s := Put(s, i, s.inodes[i].(lock := false));
    }

    /** __iget */
    method Take(i: Id)
      requires i in s.inodes && !Dying(s, i) && Valid()
      modifies this`s, this`refs
      ensures Valid() && GetsRef(old(s), s, i) && refs == More(old(refs), i)
    {
      hide Ok, Goes;
      OkLinked(s, hash, entered);
      GotOk(s, hash, entered, i);
      GotIs(s, i);
      CountMore(s, Got(s, i), refs, i);
      s, refs := Got(s, i), More(refs, i);
    }

    /** iget4 as far as it finds the inode in the cache. */
    method Iget4(sb: Sb, ino: nat, actor: Option<Id -> bool>) returns (r: Option<Id>)
      requires Valid()
      modifies this`s, this`refs
      ensures Valid()
      ensures r.Some? ==> && r.value in old(s.hashed) && Matches(old(s), r.value, sb, ino, actor)
                          && GetsRef(old(s), s, r.value) && refs == More(old(refs), r.value)
      ensures r.None? ==>
        s == old(s) && refs == old(refs) && forall i :: i in s.hashed ==> !Matches(s, i, sb, ino, actor)
    {
      hide Ok, Matches, GetsRef;
      r := FindInode(s, hash, entered, sb, ino, actor);
      if r.Some? {
        HashedPlace(s, hash, entered, r.value);
        Take(r.value);
      }
    }

    /** get_new_inode with a newly allocated inode i; it is entered when nobody
        has entered one since the search before. */
    method GetNewInode(i: Id, sb: Sb, ino: nat, actor: Option<Id -> bool>) returns (r: Id)
      requires Valid() && i !in s.inodes
      modifies this`s, this`entered, this`refs
      ensures Valid() && refs == More(old(refs), r)
      ensures r != i ==> && r in old(s.hashed) && Matches(old(s), r, sb, ino, actor)
                         && GetsRef(old(s), s, r) && entered == old(entered)
      ensures r == i ==> i in s.hashed && s.inodes == old(s.inodes)[i := Inode(Some(sb), ino, 1, false, true, false)]
      ensures r == i ==> s.hashed == old(s.hashed) + {i} && Goes(old(s), s, i, InUse)
      ensures r == i ==> forall j :: j in old(s.hashed) ==> !Matches(old(s), j, sb, ino, actor)
      ensures r == i ==> entered == if actor.None? then old(entered) + {i} else old(entered)
    {
      hide Ok, Matches, GetsRef, Goes;
      OkLinked(s, hash, entered);
      var found := FindInode(s, hash, entered, sb, ino, actor);
      if found.Some? {
        HashedPlace(s, hash, entered, found.value);
        Take(found.value);
        return found.value;
      }
      var n := Inode(Some(sb), ino, 1, false, true, false);
      ghost var s0 := s;
      FreshOk(s, hash, entered, i, n);
      FreshIs(s, i, n);
      FreshPlace(s, hash, entered, i, n);
      CountNew(s, Fresh(s, i, n), refs, i);
      s := Fresh(s, i, n);
      EnhashedOk(s, hash, entered, i);
      if actor.None? {
        NewNumber(s0, s, sb, ino, i);
        entered := entered + {i};
      }
      SameLists(s0, s, Enhash(s, hash, i), i, InUse);
      s, refs := Enhash(s, hash, i), More(refs, i);
      r := i;
    }

    /** get_empty_inode with a newly allocated inode i. */
    method GetEmptyInode(i: Id, ino: nat)
      requires Valid() && i !in s.inodes
      modifies this`s, this`refs
      ensures Valid() && Becomes(old(s), s, i, Inode(None, ino, 1, false, false, false)) && Goes(old(s), s, i, InUse)
      ensures refs == More(old(refs), i)
    {
      hide Ok, Goes;
      OkLinked(s, hash, entered);
      var n := Inode(None, ino, 1, false, false, false);
      FreshOk(s, hash, entered, i, n);
      FreshIs(s, i, n);
      CountNew(s, Fresh(s, i, n), refs, i);
      s, refs := Fresh(s, i, n), More(refs, i);
    }

    /** A file system sets i_sb and i_ino of an inode it has not hashed yet. */
    method SetNumber(i: Id, sb: Option<Sb>, ino: nat)
      requires i in s.inodes && i !in s.hashed && !s.inodes[i].dirty && Valid()
      modifies this`s
      ensures Valid() && s == Put(old(s), i, old(s.inodes[i]).(sb := sb, ino := ino))
    {
      hide Ok;
      NumberedOk(s, hash, entered, i, sb, ino);
      s := Put(s, i, s.inodes[i].(sb := sb, ino := ino));
    }

    /** igrab */
    method Igrab(i: Id) returns (ok: bool)
      requires i in s.inodes && i in s.place && (Dying(s, i) ==> s.inodes[i].freeing) && Valid()
      modifies this`s, this`refs
      ensures Valid() && ok == !old(s.inodes[i].freeing)
      ensures ok ==> GetsRef(old(s), s, i) && refs == More(old(refs), i)
      ensures !ok ==> s == old(s) && refs == old(refs)
    {
      hide Ok, GetsRef;
      ok := !s.inodes[i].freeing;
      if ok {
        Take(i);
      }
    }

    /** insert_inode_hash, for an inode that has not been dirtied. */
    method InsertInodeHash(i: Id)
      requires i in s.inodes && i !in s.hashed && !Dying(s, i) && !s.inodes[i].dirty && Valid()
      modifies this`s
      ensures Valid() && s == old(s).(hashed := s.hashed, chains := s.chains) && s.hashed == old(s.hashed) + {i}
    {
      hide Ok;
      EnhashedOk(s, hash, entered, i);
      s := Enhash(s, hash, i);
    }

    /** remove_inode_hash, for an inode in use. */
    method RemoveInodeHash(i: Id)
      requires i in s.inodes && s.inodes[i].count > 0 && Valid()
      modifies this`s, this`entered
      ensures Valid() && s == old(s).(hashed := s.hashed, chains := s.chains) && s.hashed == old(s.hashed) - {i}
      ensures entered == old(entered) - {i}
    {
      hide Ok;
      UnhashedOk(s, hash, entered, i);
      s, entered := Unhash(s, hash, i), entered - {i};
    }

    /** iput up to the point where it drops the lock. */
    method Iput(i: Id, unlinked: bool, hasDelete: bool) returns (after: After)
      requires i in s.inodes && i in s.place && s.inodes[i].count > 0 && Valid()
      modifies this`s, this`entered, this`refs
      ensures Valid() && refs == Fewer(old(refs), i)
      ensures var last := old(refs(i)) == 1;
        && (after.Kept? <==> !last || (!unlinked && i in old(s.hashed)))
        && (after.Deleting? <==> last && unlinked && hasDelete)
      ensures after.Kept? ==> DropsRef(old(s), s, i) && entered == old(entered)
      ensures !after.Kept? ==> Dying(s, i) && Condemns(old(s), s, i) && entered == old(entered) - {i}
    {
      hide Ok, Rested, Condemned, Goes;
      OkLinked(s, hash, entered);
      if s.inodes[i].count != 1 || (!unlinked && i in s.hashed) {
        RestedOk(s, hash, entered, i);
        RestedIs(s, i);
        CountFewer(s, Rested(s, i), refs, i);
        s, refs := Rested(s, i), Fewer(refs, i);
        return Kept;
      }
      CondemnedOk(s, hash, entered, i);
      CondemnedIs(s, hash, i);
      CountFewer(s, Condemned(s, hash, i), refs, i);
      s, entered, refs := Condemned(s, hash, i), entered - {i}, Fewer(refs, i);
      after := if unlinked && hasDelete then Deleting else Destroy;
    }

    /** clear_inode and destroy_inode, once the inode is not locked. */
    method DestroyInode(i: Id)
      requires i in s.inodes && i in s.place && Dying(s, i) && !s.inodes[i].lock && Valid()
      modifies this`s
      ensures Valid() && s.inodes == old(s.inodes) - {i} && s.place == old(s.place) - {i} && s.hashed == old(s.hashed)
      ensures forall q :: At(s.lists, q) == Unlink(At(old(s.lists), q), i)
    {
      hide Ok;
      OkLinked(s, hash, entered);
      UnlistGoes(s, i);
      DestroyedOk(s, hash, entered, i);
      CountGone(s, hash, entered, refs, i);
      s := Destroyed(s, i);
    }

    /** invalidate_list on list p */
    method InvalidateList(p: Place, sb: Sb) returns (busy: bool)
      requires Valid() && p != Alone && p != Disposal
      modifies this`s, this`entered
      ensures Valid() && Swept(old(s), s, p, sb) && entered <= old(entered)
      ensures busy <==> exists i :: StillUsed(old(s), p, sb, i)
    {
      hide Ok, Swept, SweptOne, SameOne, Discarded, Sweeping, StillUsed, LinkOk;
      var l := At(s.lists, p);
      var count, k := 0, 0;
      busy := false;
      SweepStart(s, hash, entered, p, sb, l);
      while k < |l|
        invariant 0 <= k <= |l| && Sweeping(old(s), s, p, sb, l, k)
        invariant Ok(s.(nrUnused := s.nrUnused - count), hash, entered) && entered <= old(entered)
        invariant busy <==> exists i :: i in l[..k] && StillUsed(old(s), p, sb, i)
      {
        var i := l[k];
        SweepFacts(old(s), s, p, sb, l, k);
        assert l[..k + 1] == l[..k] + [i];
        if s.inodes[i].sb == Some(sb) && s.inodes[i].count == 0 {
          SweepOne(old(s), s, hash, entered, p, sb, l, k, count);
          s, entered := Discarded(s, hash, i), entered - {i};
          count := count + 1;
        } else if s.inodes[i].sb == Some(sb) {
          busy := true;
        }
        k := k + 1;
      }
      SweepEnd(old(s), s, p, sb, l, count);
      assert l[..|l|] == l;
      s := s.(nrUnused := s.nrUnused - count);
      CountSwept(old(s), s, p, sb, refs);
    }

    /** invalidate_inodes under the lock */
    method InvalidateInodes(sb: Sb) returns (busy: bool)
      requires Valid()
      modifies this`s, this`entered
      ensures Valid()
      ensures forall i :: i in s.inodes && i in s.place && !Dying(s, i) && s.inodes[i].sb == Some(sb) ==>
        refs(i) > 0 && busy
      ensures busy <==> exists i :: refs(i) > 0 && i in s.inodes && s.inodes[i].sb == Some(sb)
      ensures forall i :: refs(i) > 0 ==> SameOne(old(s), s, i)
    {
      hide Ok, Swept;
      var b1 := InvalidateList(InUse, sb);
      ghost var s1 := s;
      var b2 := InvalidateList(Unused, sb);
      ghost var s2 := s;
      var b3 := InvalidateList(Dirty(sb), sb);
      busy := b1 || b2 || b3;
      forall i
        ensures i in s.inodes && i in s.place && !Dying(s, i) && s.inodes[i].sb == Some(sb) ==> s.inodes[i].count != 0
        ensures i in s.inodes && s.inodes[i].count != 0 ==> SameOne(old(s), s, i)
        ensures i in s.inodes && s.inodes[i].sb == Some(sb) && s.inodes[i].count != 0 <==>
          StillUsed(old(s), InUse, sb, i) || StillUsed(s1, Unused, sb, i) || StillUsed(s2, Dirty(sb), sb, i)
      {
        SweptAll(old(s), s1, s2, s, hash, entered, sb, i);
      }
    }

    /** The scan of prune_icache after everything has been synced; `pages` tells
        which inodes have page cache pages.  It goes from the end of inode_unused to
        place `cut`. */
    method PruneIcache(goal0: int, pages: Id -> bool) returns (count: nat, bug: bool, ghost cut: nat)
      requires Valid()
      modifies this`s, this`entered
      ensures Valid() && !bug && entered <= old(entered)
      ensures var l := At(old(s.lists), Unused);
        && Pruned(old(s), s, l, cut, pages) && count == Tally(old(s), pages, l, cut)
        && (cut == 0 || (cut < |l| && count == goal0 && Eligible(old(s), pages, l[cut])))
      ensures goal0 > 0 ==> count <= goal0
      ensures forall i :: refs(i) > 0 ==> SameOne(old(s), s, i)
    {
      hide Ok, Pruned, PrunedOne, SameOne, Discarded, CanUnuse, Ahead, Counted, Tally, Eligible;
      var l := At(s.lists, Unused);
      var goal, k: nat := goal0, |l|;
      count, bug := 0, false;
      PruneStart(s, hash, entered, l, pages);
      while k > 0
        invariant 0 <= k <= |l| && Pruned(old(s), s, l, k, pages) && !bug && Ahead(s, l, k)
        invariant Ok(s.(nrUnused := s.nrUnused - count), hash, entered) && entered <= old(entered)
        invariant count == Tally(old(s), pages, l, k) && count + goal == goal0 && (goal0 > 0 ==> goal > 0)
      {
        k := k - 1;
        var i := l[k];
        PruneFacts(old(s), s, hash, entered, l, k, count, pages);
        if CanUnuse(s.inodes[i]) && !pages(i) {
          bug := bug || s.inodes[i].count != 0;
          PruneOne(old(s), s, hash, entered, l, k, count, pages);
          s, entered := Discarded(s, hash, i), entered - {i};
          count, goal := count + 1, goal - 1;
          if goal == 0 {
            break;
          }
        }
      }
      PruneEnd(old(s), s, l, k, count, pages);
      s := s.(nrUnused := s.nrUnused - count);
      CountPruned(old(s), s, hash, old(entered), l, k, pages, refs);
      cut := k;
    }
  }

  ghost predicate StillUsed(s: State, p: Place, sb: Sb, i: Id) {
    i in s.inodes && i in s.place && s.place[i] == p && s.inodes[i].sb == Some(sb) && s.inodes[i].count != 0
  }

  /** The inodes l[..k] are still unused. */
  ghost predicate Ahead(s: State, l: seq<Id>, k: nat) {
    NoDup(l) && k <= |l| && forall j :: 0 <= j < k ==> l[j] in s.inodes && l[j] in s.place && s.place[l[j]] == Unused
  }

  lemma HashedPlace(s: State, hash: Hash, entered: set<Id>, i: Id)
    requires Ok(s, hash, entered) && i in s.hashed
    ensures i in s.inodes && i in s.place && !Dying(s, i)
  {
    hide LinkOk, OneEach, Idle;
    assert i in s.inodes;
    assert Stands(s, i);
  }

  lemma FreshPlace(s: State, hash: Hash, entered: set<Id>, i: Id, n: Inode)
    requires Ok(s, hash, entered) && i !in s.inodes
    ensures i !in Fresh(s, i, n).hashed && !Dying(Fresh(s, i, n), i)
  {
    hide LinkOk, OneEach, Idle;
  }

  lemma NewNumber(s0: State, s: State, sb: Sb, ino: nat, i: Id)
    requires s.hashed == s0.hashed && i in s.inodes && s.inodes == s0.inodes[i := s.inodes[i]] && i !in s.hashed
    requires s.inodes[i].sb == Some(sb) && s.inodes[i].ino == ino
    requires forall j :: j in s0.hashed ==> !Matches(s0, j, sb, ino, None)
    ensures forall j :: j in s.hashed ==> !SameNumber(s, i, j)
  {
    forall j | j in s.hashed
      ensures !SameNumber(s, i, j)
    {
      assert !Matches(s0, j, sb, ino, None);
    }
  }

  lemma SweepStart(s: State, hash: Hash, entered: set<Id>, p: Place, sb: Sb, l: seq<Id>)
    requires Ok(s, hash, entered) && l == At(s.lists, p) && p != Alone
    ensures Sweeping(s, s, p, sb, l, 0) && Ok(s.(nrUnused := s.nrUnused - 0), hash, entered) && NoDup(l) && LinkOk(s)
    ensures forall j :: 0 <= j < |l| ==> l[j] in s.inodes && l[j] in s.place && s.place[l[j]] == p
  {
    hide ChainOk, OneEach, Idle, Stands;
    assert s.(nrUnused := s.nrUnused - 0) == s;
    assert l[..0] == [];
    forall j | 0 <= j < |l|
      ensures l[j] in s.inodes && l[j] in s.place && s.place[l[j]] == p
    {
      assert l[j] in At(s.lists, p);
    }
  }

  lemma SweepFacts(s0: State, s: State, p: Place, sb: Sb, l: seq<Id>, k: nat)
    requires Sweeping(s0, s, p, sb, l, k) && k < |l| && NoDup(l)
    requires forall j :: 0 <= j < |l| ==> l[j] in s0.inodes && l[j] in s0.place && s0.place[l[j]] == p
    ensures l[k] in s.inodes && l[k] in s.place && s.place[l[k]] == p && s.inodes[l[k]] == s0.inodes[l[k]]
    ensures StillUsed(s0, p, sb, l[k]) <==> s.inodes[l[k]].sb == Some(sb) && s.inodes[l[k]].count != 0
    ensures !(s.inodes[l[k]].sb == Some(sb) && s.inodes[l[k]].count == 0) ==> Sweeping(s0, s, p, sb, l, k + 1)
  {
    var i := l[k];
    assert i !in l[..k];
    assert l[..k + 1] == l[..k] + [i];
    assert SameOne(s0, s, i);
  }

  lemma SweepOne(s0: State, s: State, hash: Hash, entered: set<Id>, p: Place, sb: Sb, l: seq<Id>, k: nat, count: int)
    requires Sweeping(s0, s, p, sb, l, k) && k < |l| && NoDup(l) && p != Alone && p != Disposal
    requires forall j :: 0 <= j < |l| ==> l[j] in s0.inodes && l[j] in s0.place && s0.place[l[j]] == p
    requires l[k] in s.inodes && s.inodes[l[k]].sb == Some(sb) && s.inodes[l[k]].count == 0
    requires Ok(s.(nrUnused := s.nrUnused - count), hash, entered)
    ensures l[k] in s.place && Sweeping(s0, Discarded(s, hash, l[k]), p, sb, l, k + 1)
    ensures var s' := Discarded(s, hash, l[k]); Ok(s'.(nrUnused := s'.nrUnused - (count + 1)), hash, entered - {l[k]})
  {
    hide Ok, Discarded, StillUsed, Sweeping;
    var i := l[k];
    SweepFacts(s0, s, p, sb, l, k);
    DiscardedOk(s.(nrUnused := s.nrUnused - count), hash, entered, i);
    DiscardedSame(s, hash, i, count);
    DiscardedBut(s, hash, i);
    SweptOn(s0, s, Discarded(s, hash, i), p, sb, l, k);
  }

  lemma SweptOn(s0: State, s: State, s': State, p: Place, sb: Sb, l: seq<Id>, k: nat)
    requires Sweeping(s0, s, p, sb, l, k) && k < |l| && NoDup(l) && SameBut(s, s', l[k])
    requires l[k] in s0.inodes && l[k] in s0.place && s0.place[l[k]] == p
    requires l[k] in s.inodes && s.inodes[l[k]].sb == Some(sb) && s.inodes[l[k]].count == 0
    requires s'.inodes.Keys == s.inodes.Keys && s'.place.Keys == s.place.Keys && l[k] in s'.place
    requires s'.place[l[k]] == Disposal && l[k] !in s'.hashed && s'.inodes[l[k]] == s.inodes[l[k]].(freeing := true)
    ensures Sweeping(s0, s', p, sb, l, k + 1)
  {
    hide SweptOne, SameOne, SameBut;
    var i := l[k];
    assert i !in l[..k];
    assert l[..k + 1] == l[..k] + [i];
    forall j | j in s0.inodes && j in s0.place && j !in l[..k + 1]
      ensures SameOne(s0, s', j)
    {
      OtherSame(s0, s, s', p, sb, i, j);
    }
    forall j | j in l[..k + 1]
      ensures SweptOne(s0, s', p, sb, j)
    {
      if j != i {
        OtherSame(s0, s, s', p, sb, i, j);
      } else {
        NowSwept(s0, s, s', p, sb, i);
      }
    }
  }

  lemma OtherSame(s0: State, s: State, s': State, p: Place, sb: Sb, i: Id, j: Id)
    requires SameBut(s, s', i) && j != i
    ensures SameOne(s0, s, j) ==> SameOne(s0, s', j)
    ensures SweptOne(s0, s, p, sb, j) ==> SweptOne(s0, s', p, sb, j)
  {
  }

  lemma NowSwept(s0: State, s: State, s': State, p: Place, sb: Sb, i: Id)
    requires SameOne(s0, s, i) && s0.place[i] == p && s.inodes[i].sb == Some(sb) && s.inodes[i].count == 0
    requires i in s'.inodes && i in s'.place && s'.place[i] == Disposal && i !in s'.hashed
    requires s'.inodes[i] == s.inodes[i].(freeing := true)
    ensures SweptOne(s0, s', p, sb, i)
  {
  }

  lemma DiscardedBut(s: State, hash: Hash, i: Id)
    requires i in s.inodes && i in s.place
    ensures var s' := Discarded(s, hash, i);
      && SameBut(s, s', i) && i in s'.inodes && i in s'.place && s'.inodes.Keys == s.inodes.Keys
      && s'.place.Keys == s.place.Keys
      && s'.place[i] == Disposal && i !in s'.hashed && s'.inodes[i] == s.inodes[i].(freeing := true)
  {
  }

  lemma DiscardedSame(s: State, hash: Hash, i: Id, count: int)
    requires i in s.inodes && i in s.place
    ensures var v := s.(nrUnused := s.nrUnused - count);
      Discarded(v, hash, i).(nrUnused := v.nrUnused - 1) == Discarded(s, hash, i).(nrUnused := s.nrUnused - (count + 1))
    ensures Discarded(s, hash, i).nrUnused == s.nrUnused
  {
  }

  lemma SweepEnd(s0: State, s: State, p: Place, sb: Sb, l: seq<Id>, count: int)
    requires Sweeping(s0, s, p, sb, l, |l|) && l == At(s0.lists, p) && LinkOk(s0) && p != Alone
    ensures Swept(s0, s.(nrUnused := s.nrUnused - count), p, sb)
    ensures forall i :: StillUsed(s0, p, sb, i) ==> i in l
  {
    assert l[..|l|] == l;
    forall i | i in s0.inodes && i in s0.place
      ensures SweptOne(s0, s.(nrUnused := s.nrUnused - count), p, sb, i)
    {
      assert i in At(s0.lists, p) <==> s0.place[i] == p;
      if i in l {
        assert SweptOne(s0, s, p, sb, i);
      } else {
        assert SameOne(s0, s, i);
      }
    }
    forall i | StillUsed(s0, p, sb, i)
      ensures i in l
    {
      assert i in At(s0.lists, p) <==> s0.place[i] == p;
    }
  }

  lemma SweptAll(s0: State, s1: State, s2: State, s: State, hash: Hash, entered: set<Id>, sb: Sb, i: Id)
    requires Swept(s0, s1, InUse, sb) && Swept(s1, s2, Unused, sb) && Swept(s2, s, Dirty(sb), sb)
    requires Ok(s, hash, entered)
    ensures i in s.inodes && i in s.place && !Dying(s, i) && s.inodes[i].sb == Some(sb) ==> s.inodes[i].count != 0
    ensures i in s0.inodes && i in s0.place && s0.inodes[i].count != 0 ==> SameOne(s0, s, i)
    ensures i in s.inodes && s.inodes[i].count != 0 ==> SameOne(s0, s, i)
    ensures i in s.inodes && s.inodes[i].sb == Some(sb) && s.inodes[i].count != 0 <==>
      StillUsed(s0, InUse, sb, i) || StillUsed(s1, Unused, sb, i) || StillUsed(s2, Dirty(sb), sb, i)
  {
    hide ChainOk, OneEach, Idle;
    if i in s.inodes {
      assert Stands(s, i);
      assert SweptOne(s2, s, Dirty(sb), sb, i) && SweptOne(s1, s2, Unused, sb, i) && SweptOne(s0, s1, InUse, sb, i);
    }
  }

  // ----- references

  lemma OkLinked(s: State, hash: Hash, entered: set<Id>)
    requires Ok(s, hash, entered)
    ensures LinkOk(s)
  {
  }

  lemma CountMore(s: State, s': State, refs: Id -> nat, i: Id)
    requires Counted(s, refs) && i in s.inodes && i in s'.inodes && s'.inodes == s.inodes[i := s'.inodes[i]]
    requires s'.inodes[i].count == s.inodes[i].count + 1
    ensures Counted(s', More(refs, i))
  {
  }

  lemma CountNew(s: State, s': State, refs: Id -> nat, i: Id)
    requires Counted(s, refs) && i !in s.inodes && i in s'.inodes && s'.inodes == s.inodes[i := s'.inodes[i]]
    requires s'.inodes[i].count == 1
    ensures Counted(s', More(refs, i))
  {
  }

  lemma CountFewer(s: State, s': State, refs: Id -> nat, i: Id)
    requires Counted(s, refs) && i in s.inodes && i in s'.inodes && s'.inodes == s.inodes[i := s'.inodes[i]]
    requires s.inodes[i].count > 0 && s'.inodes[i].count == s.inodes[i].count - 1
    ensures Counted(s', Fewer(refs, i))
  {
  }

  lemma CountGone(s: State, hash: Hash, entered: set<Id>, refs: Id -> nat, i: Id)
    requires Ok(s, hash, entered) && Counted(s, refs) && i in s.inodes && Dying(s, i)
    ensures Counted(Destroyed(s, i), refs)
  {
    hide LinkOk, ChainOk, OneEach, Idle, Unlink;
    assert Stands(s, i);
  }

  lemma CountSwept(s0: State, s: State, p: Place, sb: Sb, refs: Id -> nat)
    requires Swept(s0, s, p, sb) && Counted(s0, refs) && LinkOk(s0)
    ensures Counted(s, refs)
  {
    forall i
      ensures refs(i) == if i in s.inodes then s.inodes[i].count else 0
    {
      assert i in s0.inodes ==> SweptOne(s0, s, p, sb, i);
    }
  }

  lemma CountPruned(s0: State, s: State, hash: Hash, entered: set<Id>, l: seq<Id>, k: nat, pages: Id -> bool,
      refs: Id -> nat)
    requires Pruned(s0, s, l, k, pages) && Counted(s0, refs) && Ok(s0, hash, entered) && l == At(s0.lists, Unused)
    ensures Counted(s, refs) && forall i :: refs(i) > 0 ==> SameOne(s0, s, i)
  {
    hide ChainOk, OneEach, Idle;
    forall i
      ensures refs(i) == if i in s.inodes then s.inodes[i].count else 0
      ensures refs(i) > 0 ==> SameOne(s0, s, i)
    {
      if i in s0.inodes {
        assert PrunedOne(s0, s, i, i in l[k..] && Eligible(s0, pages, i));
        if i in l[k..] {
          assert i in At(s0.lists, Unused);
          assert Stands(s0, i);
        }
      }
    }
  }

  lemma SameLists(s0: State, s1: State, s: State, i: Id, p: Place)
    requires Goes(s0, s1, i, p) && s.lists == s1.lists && s.place == s1.place
    ensures Goes(s0, s, i, p)
  {
  }

  lemma PruneStart(s: State, hash: Hash, entered: set<Id>, l: seq<Id>, pages: Id -> bool)
    requires Ok(s, hash, entered) && l == At(s.lists, Unused)
    ensures Pruned(s, s, l, |l|, pages) && Ahead(s, l, |l|) && Ok(s.(nrUnused := s.nrUnused - 0), hash, entered)
    ensures Tally(s, pages, l, |l|) == 0
  {
    hide ChainOk, OneEach, Idle, Stands;
    assert s.(nrUnused := s.nrUnused - 0) == s;
    forall j | 0 <= j < |l|
      ensures l[j] in s.inodes && l[j] in s.place && s.place[l[j]] == Unused
    {
      assert l[j] in At(s.lists, Unused);
    }
  }

  /** What is on inode_unused is hashed, clean and used by nobody. */
  lemma PruneFacts(s0: State, s: State, hash: Hash, entered: set<Id>, l: seq<Id>, k: nat, count: int, pages: Id -> bool)
    requires Pruned(s0, s, l, k + 1, pages) && Ahead(s, l, k + 1)
    requires Ok(s.(nrUnused := s.nrUnused - count), hash, entered)
    ensures l[k] in s.inodes && l[k] in s.place && l[k] in s.hashed && s.inodes[l[k]].count == 0 && Ahead(s, l, k)
    ensures SameOne(s0, s, l[k]) && (Eligible(s0, pages, l[k]) <==> CanUnuse(s.inodes[l[k]]) && !pages(l[k]))
    ensures Tally(s0, pages, l, k) == Tally(s0, pages, l, k + 1) + if Eligible(s0, pages, l[k]) then 1 else 0
    ensures !Eligible(s0, pages, l[k]) ==> Pruned(s0, s, l, k, pages)
  {
    hide LinkOk, ChainOk, OneEach, Idle, CanUnuse;
    var i := l[k];
    assert Stands(s.(nrUnused := s.nrUnused - count), i);
    NotBehind(l, k);
    assert PrunedOne(s0, s, i, i in l[k + 1..] && Eligible(s0, pages, i));
    assert l[k..] == [i] + l[k + 1..];
    forall j | j in s0.inodes && j in s0.place && !Eligible(s0, pages, i)
      ensures PrunedOne(s0, s, j, j in l[k..] && Eligible(s0, pages, j))
    {
      assert PrunedOne(s0, s, j, j in l[k + 1..] && Eligible(s0, pages, j));
    }
  }

  lemma NotBehind(l: seq<Id>, k: nat)
    requires NoDup(l) && k < |l|
    ensures l[k] !in l[k + 1..]
  {
    assert forall j :: k + 1 <= j < |l| ==> l[j] != l[k];
  }

  lemma PruneOne(s0: State, s: State, hash: Hash, entered: set<Id>, l: seq<Id>, k: nat, count: int, pages: Id -> bool)
    requires Pruned(s0, s, l, k + 1, pages) && Ahead(s, l, k + 1) && Eligible(s0, pages, l[k])
    requires Ok(s.(nrUnused := s.nrUnused - count), hash, entered)
    ensures l[k] in s.inodes && l[k] in s.place
    ensures Pruned(s0, Discarded(s, hash, l[k]), l, k, pages) && Ahead(Discarded(s, hash, l[k]), l, k)
    ensures var s' := Discarded(s, hash, l[k]); Ok(s'.(nrUnused := s'.nrUnused - (count + 1)), hash, entered - {l[k]})
  {
    hide Ok, Discarded, CanUnuse;
    var i := l[k];
    PruneFacts(s0, s, hash, entered, l, k, count, pages);
    DiscardedBut(s, hash, i);
    DiscardedOk(s.(nrUnused := s.nrUnused - count), hash, entered, i);
    DiscardedSame(s, hash, i, count);
    assert l[k..] == [i] + l[k + 1..];
    var s' := Discarded(s, hash, i);
    forall j | j in s0.inodes && j in s0.place
      ensures PrunedOne(s0, s', j, j in l[k..] && Eligible(s0, pages, j))
    {
      assert PrunedOne(s0, s, j, j in l[k + 1..] && Eligible(s0, pages, j));
    }
  }

  lemma PruneEnd(s0: State, s: State, l: seq<Id>, k: nat, count: int, pages: Id -> bool)
    requires Pruned(s0, s, l, k, pages)
    ensures Pruned(s0, s.(nrUnused := s.nrUnused - count), l, k, pages)
  {
    forall i | i in s0.inodes && i in s0.place
      ensures PrunedOne(s0, s.(nrUnused := s.nrUnused - count), i, i in l[k..] && Eligible(s0, pages, i))
    {
      assert PrunedOne(s0, s, i, i in l[k..] && Eligible(s0, pages, i));
    }
  }
}
