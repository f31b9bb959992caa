/** What each region of fs/inode.c under inode_lock does to the cache. */
module InodeSteps {
  import opened Options
  import opened Lists
  import opened InodeState

  /** On its way out: on a local list or on none. */
  predicate Dying(s: State, i: Id) {
    i in s.place && (s.place[i] == Alone || s.place[i] == Disposal)
  }

  // ----- what a step changes

  /** Inode i has become n; the hash table and the other inodes are as before. */
  ghost predicate Becomes(s: State, s': State, i: Id, n: Inode) {
    s'.inodes == s.inodes[i := n] && s'.hashed == s.hashed && s'.chains == s.chains
  }

  /** Inode i has gone to the front of list p, and to no list if p is Alone; everything else
      is in its old order. */
  ghost predicate Goes(s: State, s': State, i: Id, p: Place) {
    && s'.place == s.place[i := p]
    && forall q :: At(s'.lists, q) == (if q == p && p != Alone then [i] else []) + Unlink(At(s.lists, q), i)
  }

  ghost predicate Stays(s: State, s': State) {
    s'.place == s.place && s'.lists == s.lists
  }

  lemma RelistGoes(s: State, i: Id, p: Place)
    requires LinkOk(s) && i in s.inodes && p != Alone
    ensures i in s.place && Goes(s, Relist(s, i, p), i, p)
  {
    hide NoDup;
    forall q
      ensures At(Relist(s, i, p).lists, q) == (if q == p then [i] else []) + Unlink(At(s.lists, q), i)
    {
      if q != s.place[i] {
        NotThere(At(s.lists, q), i);
      }
    }
  }

  lemma UnlistGoes(s: State, i: Id)
    requires LinkOk(s) && i in s.inodes
    ensures i in s.place && Goes(s, Unlist(s, i), i, Alone)
  {
    hide NoDup;
    forall q
      ensures At(Unlist(s, i).lists, q) == [] + Unlink(At(s.lists, q), i)
    {
      if q != s.place[i] {
        NotThere(At(s.lists, q), i);
      }
    }
  }

  lemma NotThere(l: seq<Id>, i: Id)
    requires i !in l
    ensures Unlink(l, i) == l
  {
  }

  /** __mark_inode_dirty */
  function Dirtied(s: State, i: Id): State
    requires i in s.inodes && i in s.place
  {
    var n := s.inodes[i];
    if n.sb == None || n.dirty then s
    else
      var s1 := Put(s, i, n.(dirty := true));
      if i in s.hashed then Relist(s1, i, Dirty(n.sb.value)) else s1
  }

  lemma DirtiedOk(s: State, hash: Hash, entered: set<Id>, i: Id)
    requires i in s.inodes && Ok(s, hash, entered)
    ensures i in s.place && Ok(Dirtied(s, i), hash, entered)
  {
    hide LinkOk, ChainOk, OneEach, Idle, At, Unlink;
    assert Stands(s, i);
    var n := s.inodes[i];
    if n.sb.Some? && !n.dirty {
      var s1 := Put(s, i, n.(dirty := true));
      PutLinked(s, i, s1.inodes[i]);
      PutChain(s, hash, i, s1.inodes[i]);
      var s' := Dirtied(s, i);
      if i in s.hashed {
        RelistLinked(s1, i, Dirty(n.sb.value));
        SameChain(s1, s', hash);
      }
      Same(s, s', hash, entered, i);
      KeepOk(s, s', hash, entered, entered, i);
    }
  }

  lemma DirtiedIs(s: State, i: Id)
    requires LinkOk(s) && i in s.inodes && i in s.place
    ensures var n, s' := s.inodes[i], Dirtied(s, i);
      && Becomes(s, s', i, n.(dirty := n.dirty || n.sb.Some?))
      && if i in s.hashed && n.sb.Some? && !n.dirty then Goes(s, s', i, Dirty(n.sb.value)) else Stays(s, s')
  {
    hide LinkOk, Unlink, At, NoDup;
    var n := s.inodes[i];
    assert s.inodes[i := n] == s.inodes;
    PutLinked(s, i, n.(dirty := true));
    if n.sb.Some? {
      RelistGoes(Put(s, i, n.(dirty := true)), i, Dirty(n.sb.value));
    }
  }

  ghost predicate SameInode(s: State, s': State, i: Id) {
    i in s.inodes && i in s'.inodes && s'.inodes[i].sb == s.inodes[i].sb && s'.inodes[i].ino == s.inodes[i].ino
  }

  /** Members of `entered` keep their numbers. */
  lemma Same(s: State, s': State, hash: Hash, entered: set<Id>, i: Id)
    requires OneEach(s, entered) && SameBut(s, s', i) && ChainOk(s, hash)
    requires i in s.hashed ==> i in s'.hashed && SameInode(s, s', i)
    ensures OneEach(s', entered)
  {
    SameNumbers(s, s', entered, entered);
  }

  /** sync_one up to the point where it drops the lock to write the inode. */
  function SyncStarted(s: State, i: Id): State
    requires i in s.inodes && i in s.place
  {
    var n := s.inodes[i];
    Relist(Put(s, i, n.(dirty := false, lock := true)), i, if n.count != 0 then InUse else Unused)
  }

  lemma SyncStartedOk(s: State, hash: Hash, entered: set<Id>, i: Id)
    requires i in s.inodes && !Dying(s, i) && Ok(s, hash, entered)
    ensures i in s.place && Ok(SyncStarted(s, i), hash, entered)
  {
    hide LinkOk, ChainOk, OneEach, Idle, At, Unlink;
    assert Stands(s, i);
    var n := s.inodes[i];
    var s1 := Put(s, i, n.(dirty := false, lock := true));
    PutLinked(s, i, s1.inodes[i]);
    PutChain(s, hash, i, s1.inodes[i]);
    RelistLinked(s1, i, if n.count != 0 then InUse else Unused);
    SameChain(s1, SyncStarted(s, i), hash);
    Same(s, SyncStarted(s, i), hash, entered, i);
    KeepOk(s, SyncStarted(s, i), hash, entered, entered, i);
  }

  lemma SyncStartedIs(s: State, i: Id)
    requires LinkOk(s) && i in s.inodes && i in s.place
    ensures var n, s' := s.inodes[i], SyncStarted(s, i);
      && Becomes(s, s', i, n.(dirty := false, lock := true))
      && Goes(s, s', i, if n.count == 0 then Unused else InUse)
  {
    hide LinkOk, Unlink, At, NoDup;
    var n := s.inodes[i].(dirty := false, lock := true);
    PutLinked(s, i, n);
    RelistGoes(Put(s, i, n), i, if n.count == 0 then Unused else InUse);
  }

  /** I_LOCK and I_FREEING do not matter for the lists. */
  lemma FlagsOk(s: State, hash: Hash, entered: set<Id>, i: Id, lock: bool, freeing: bool)
    requires i in s.inodes && Ok(s, hash, entered)
    ensures Ok(Put(s, i, s.inodes[i].(lock := lock, freeing := freeing)), hash, entered)
  {
    hide LinkOk, ChainOk, OneEach, Idle;
    var n := s.inodes[i].(lock := lock, freeing := freeing);
    assert Stands(s, i);
    PutLinked(s, i, n);
    PutChain(s, hash, i, n);
    Same(s, Put(s, i, n), hash, entered, i);
    KeepOk(s, Put(s, i, n), hash, entered, entered, i);
  }

  /** __iget */
  function Got(s: State, i: Id): State
    requires i in s.inodes && i in s.place
  {
    var n := s.inodes[i];
    var s1 := Put(s, i, n.(count := n.count + 1));
    if n.count != 0 then s1
    else
      var s2 := if !n.dirty then Relist(s1, i, InUse) else s1;
      s2.(nrUnused := s2.nrUnused - 1)
  }

  lemma GotOk(s: State, hash: Hash, entered: set<Id>, i: Id)
    requires i in s.inodes && !Dying(s, i) && Ok(s, hash, entered)
    ensures i in s.place && Ok(Got(s, i), hash, entered)
  {
    hide LinkOk, ChainOk, OneEach, Idle, At, Unlink;
    assert Stands(s, i);
    var n := s.inodes[i];
    var s1 := Put(s, i, n.(count := n.count + 1));
    PutLinked(s, i, s1.inodes[i]);
    PutChain(s, hash, i, s1.inodes[i]);
    var s' := Got(s, i);
    if n.count == 0 {
      RelistLinked(s1, i, InUse);
      assert LinkOk(s') by { Relinked(if !n.dirty then Relist(s1, i, InUse) else s1, s'); }
    }
    SameChain(s1, s', hash);
    Same(s, s', hash, entered, i);
    KeepOk(s, s', hash, entered, entered, i);
  }

  lemma GotIs(s: State, i: Id)
    requires LinkOk(s) && i in s.inodes && i in s.place
    ensures var n, s' := s.inodes[i], Got(s, i);
      && Becomes(s, s', i, n.(count := n.count + 1))
      && if n.count == 0 && !n.dirty then Goes(s, s', i, InUse) else Stays(s, s')
  {
    hide LinkOk, Unlink, At, NoDup;
    var n := s.inodes[i];
    PutLinked(s, i, n.(count := n.count + 1));
    RelistGoes(Put(s, i, n.(count := n.count + 1)), i, InUse);
  }

  lemma Relinked(s: State, s': State)
    requires LinkOk(s) && s'.lists == s.lists && s'.place == s.place && s'.inodes.Keys == s.inodes.Keys
    ensures LinkOk(s')
  {
  }

  /** A new inode at the front of inode_in_use. */
  function Fresh(s: State, i: Id, n: Inode): State {
    s.(inodes := s.inodes[i := n], place := s.place[i := InUse], lists := s.lists[InUse := [i] + At(s.lists, InUse)])
  }

  lemma FreshOk(s: State, hash: Hash, entered: set<Id>, i: Id, n: Inode)
    requires i !in s.inodes && n.count > 0 && !n.dirty && Ok(s, hash, entered)
    ensures Ok(Fresh(s, i, n), hash, entered)
  {
    hide OneEach, Idle;
    var s' := Fresh(s, i, n);
    FreshLinked(s, i, n);
    FreshChain(s, hash, i, n);
    hide LinkOk, ChainOk;
    Same(s, s', hash, entered, i);
    KeepOk(s, s', hash, entered, entered, i);
  }

  lemma FreshIs(s: State, i: Id, n: Inode)
    requires LinkOk(s) && i !in s.inodes
    ensures Becomes(s, Fresh(s, i, n), i, n) && Goes(s, Fresh(s, i, n), i, InUse)
  {
    hide NoDup;
    forall q
      ensures Unlink(At(s.lists, q), i) == At(s.lists, q)
    {
      assert i !in At(s.lists, q);
    }
  }

  lemma FreshLinked(s: State, i: Id, n: Inode)
    requires LinkOk(s) && i !in s.inodes
    ensures LinkOk(Fresh(s, i, n)) && i !in s.place
  {
    var s' := Fresh(s, i, n);
    forall p
      ensures NoDup(At(s'.lists, p))
      ensures forall j :: j in At(s'.lists, p) <==> j in s'.place && s'.place[j] == p && p != Alone
    {
      assert NoDup(At(s.lists, p)) && i !in At(s.lists, p);
      if p == InUse {
        assert forall j :: j in At(s'.lists, p) <==> j == i || j in At(s.lists, p);
      }
    }
  }

  lemma FreshChain(s: State, hash: Hash, i: Id, n: Inode)
    requires ChainOk(s, hash) && i !in s.inodes
    ensures ChainOk(Fresh(s, i, n), hash) && i !in s.hashed
  {
    var s' := Fresh(s, i, n);
    forall b: nat, j: Id | b < |s.chains|
      ensures j in s'.chains[b] <==> j in s'.hashed && InBucket(s', hash, j, b)
    {
      assert j in s.chains[b] <==> j in s.hashed && InBucket(s, hash, j, b);
      assert j in s.hashed ==> (InBucket(s', hash, j, b) <==> InBucket(s, hash, j, b));
    }
  }

  /** Hashing an inode in use that is clean; it may be one entered as the only
      one of its number. */
  lemma EnhashedOk(s: State, hash: Hash, entered: set<Id>, i: Id)
    requires i in s.inodes && i !in s.hashed && !Dying(s, i) && !s.inodes[i].dirty && Ok(s, hash, entered)
    ensures Ok(Enhash(s, hash, i), hash, entered)
    ensures (forall j :: j in s.hashed ==> !SameNumber(s, i, j)) ==> Ok(Enhash(s, hash, i), hash, entered + {i})
  {
    hide OneEach, Idle, LinkOk, ChainOk;
    assert Stands(s, i);
    var s' := Enhash(s, hash, i);
    EnhashOk(s, hash, i);
    Relinked(s, s');
    Same(s, s', hash, entered, i);
    KeepOk(s, s', hash, entered, entered, i);
    if forall j :: j in s.hashed ==> !SameNumber(s, i, j) {
      EnteredAlone(s, s', entered, i);
      KeepOk(s, s', hash, entered, entered + {i}, i);
    }
  }

  lemma EnteredAlone(s: State, s': State, entered: set<Id>, i: Id)
    requires OneEach(s, entered) && i in s.inodes && s'.inodes == s.inodes && s'.hashed == s.hashed + {i}
    requires forall j :: j in s.hashed ==> !SameNumber(s, i, j)
    ensures OneEach(s', entered + {i})
  {
    forall j, k | j in entered + {i} && k in entered + {i} && SameNumber(s', j, k)
      ensures j == k
    {
      assert SameNumber(s, j, k) && SameNumber(s, k, j);
    }
  }

  /** Taking an inode in use out of the hash table. */
  lemma UnhashedOk(s: State, hash: Hash, entered: set<Id>, i: Id)
    requires i in s.inodes && s.inodes[i].count > 0 && Ok(s, hash, entered)
    ensures Ok(Unhash(s, hash, i), hash, entered - {i})
  {
    hide OneEach, Idle, LinkOk, ChainOk;
    assert Stands(s, i);
    var s' := Unhash(s, hash, i);
    UnhashOk(s, hash, i);
    Relinked(s, s');
    assert OneEach(s', entered - {i}) by { StillThere(s, s', entered, i); }
    KeepOk(s, s', hash, entered, entered - {i}, i);
  }

  lemma StillThere(s: State, s': State, entered: set<Id>, i: Id)
    requires OneEach(s, entered) && SameBut(s, s', i)
    ensures OneEach(s', entered - {i})
  {
    SameNumbers(s, s', entered, entered - {i});
  }

  /** iput: the count drops; at zero a clean hashed inode goes to inode_unused. */
  function Rested(s: State, i: Id): State
    requires i in s.inodes && i in s.place
  {
    var n := s.inodes[i];
    var s1 := Put(s, i, n.(count := n.count - 1));
    if n.count != 1 then s1
    else
      var s2 := if !n.dirty then Relist(s1, i, Unused) else s1;
      s2.(nrUnused := s2.nrUnused + 1)
  }

  lemma RestedOk(s: State, hash: Hash, entered: set<Id>, i: Id)
    requires i in s.inodes && s.inodes[i].count > 0 && (i in s.hashed || s.inodes[i].count > 1) && Ok(s, hash, entered)
    ensures i in s.place && Ok(Rested(s, i), hash, entered)
  {
    hide LinkOk, ChainOk, OneEach, Idle, At, Unlink;
    assert Stands(s, i);
    var n := s.inodes[i];
    var s1 := Put(s, i, n.(count := n.count - 1));
    PutLinked(s, i, s1.inodes[i]);
    PutChain(s, hash, i, s1.inodes[i]);
    var s' := Rested(s, i);
    if n.count == 1 {
      RelistLinked(s1, i, Unused);
      assert LinkOk(s') by { Relinked(if !n.dirty then Relist(s1, i, Unused) else s1, s'); }
    }
    SameChain(s1, s', hash);
    Same(s, s', hash, entered, i);
    KeepOk(s, s', hash, entered, entered, i);
  }

  lemma RestedIs(s: State, i: Id)
    requires LinkOk(s) && i in s.inodes && i in s.place
    ensures var n, s' := s.inodes[i], Rested(s, i);
      && Becomes(s, s', i, n.(count := n.count - 1))
      && if n.count == 1 && !n.dirty then Goes(s, s', i, Unused) else Stays(s, s')
  {
    hide LinkOk, Unlink, At, NoDup;
    var n := s.inodes[i];
    PutLinked(s, i, n.(count := n.count - 1));
    RelistGoes(Put(s, i, n.(count := n.count - 1)), i, Unused);
  }

  /** The last user of an inode that will not be kept: off the hash table and the lists. */
  function Condemned(s: State, hash: Hash, i: Id): State
    requires i in s.inodes && i in s.place
  {
    var n := s.inodes[i];
    Unlist(Unhash(Put(s, i, n.(count := 0, freeing := true)), hash, i), i)
  }

  lemma CondemnedOk(s: State, hash: Hash, entered: set<Id>, i: Id)
    requires i in s.inodes && s.inodes[i].count == 1 && Ok(s, hash, entered)
    ensures i in s.place && Ok(Condemned(s, hash, i), hash, entered - {i}) && Dying(Condemned(s, hash, i), i)
  {
    hide LinkOk, ChainOk, OneEach, Idle, At, Unlink;
    assert Stands(s, i);
    var n := s.inodes[i];
    var s1 := Put(s, i, n.(count := 0, freeing := true));
    PutLinked(s, i, s1.inodes[i]);
    PutChain(s, hash, i, s1.inodes[i]);
    var s2 := Unhash(s1, hash, i);
    UnhashOk(s1, hash, i);
    Relinked(s1, s2);
    UnlistLinked(s2, i);
    SameChain(s2, Unlist(s2, i), hash);
    StillThere(s, Condemned(s, hash, i), entered, i);
    KeepOk(s, Condemned(s, hash, i), hash, entered, entered - {i}, i);
  }

  lemma CondemnedIs(s: State, hash: Hash, i: Id)
    requires LinkOk(s) && i in s.inodes && i in s.place
    ensures var s' := Condemned(s, hash, i);
      && s'.inodes == s.inodes[i := s.inodes[i].(count := 0, freeing := true)] && s'.hashed == s.hashed - {i}
      && Goes(s, s', i, Alone)
  {
    hide LinkOk, Unlink, At, NoDup;
    var s1 := Put(s, i, s.inodes[i].(count := 0, freeing := true));
    PutLinked(s, i, s1.inodes[i]);
    Relinked(s1, Unhash(s1, hash, i));
    UnlistGoes(Unhash(s1, hash, i), i);
  }

  /** An unused inode goes to the local list of inodes to be disposed of. */
  function Discarded(s: State, hash: Hash, i: Id): State
    requires i in s.inodes && i in s.place
  {
    var n := s.inodes[i];
    Relist(Unhash(Put(s, i, n.(freeing := true)), hash, i), i, Disposal)
  }

  lemma DiscardedOk(s: State, hash: Hash, entered: set<Id>, i: Id)
    requires i in s.inodes && s.inodes[i].count == 0 && !Dying(s, i) && Ok(s, hash, entered)
    ensures i in s.place && i in s.hashed
    ensures Ok(Discarded(s, hash, i).(nrUnused := s.nrUnused - 1), hash, entered - {i})
  {
    hide LinkOk, ChainOk, OneEach, Idle, At, Unlink;
    assert Stands(s, i);
    var n := s.inodes[i];
    var s1 := Put(s, i, n.(freeing := true));
    PutLinked(s, i, s1.inodes[i]);
    PutChain(s, hash, i, s1.inodes[i]);
    var s2 := Unhash(s1, hash, i);
    UnhashOk(s1, hash, i);
    Relinked(s1, s2);
    RelistLinked(s2, i, Disposal);
    var s' := Discarded(s, hash, i).(nrUnused := s.nrUnused - 1);
    SameChain(s2, s', hash);
    Relinked(Relist(s2, i, Disposal), s');
    StillThere(s, s', entered, i);
    KeepOk(s, s', hash, entered, entered - {i}, i);
  }

  /** destroy_inode */
  function Destroyed(s: State, i: Id): State
    requires i in s.place
  {
    var s1 := Unlist(s, i);
    s1.(inodes := s1.inodes - {i}, place := s1.place - {i})
  }

  lemma DestroyedOk(s: State, hash: Hash, entered: set<Id>, i: Id)
    requires i in s.inodes && Dying(s, i) && Ok(s, hash, entered)
    ensures Ok(Destroyed(s, i), hash, entered)
  {
    hide OneEach, Idle, Unlink, NoDup;
    assert Stands(s, i);
    var s1, s' := Unlist(s, i), Destroyed(s, i);
    UnlistLinked(s, i);
    DestroyedLinked(s1, s', i);
    DestroyedChain(s, s', hash, i);
    hide LinkOk, ChainOk;
    assert i !in s.hashed;
    assert i !in entered by { NotEntered(s, entered, i); }
    Same(s, s', hash, entered, i);
    KeepOk(s, s', hash, entered, entered, i);
  }

  lemma NotEntered(s: State, entered: set<Id>, i: Id)
    requires OneEach(s, entered) && i !in s.hashed
    ensures i !in entered
  {
  }

  lemma DestroyedLinked(s: State, s': State, i: Id)
    requires LinkOk(s) && i in s.place && s.place[i] == Alone
    requires s' == s.(inodes := s.inodes - {i}, place := s.place - {i})
    ensures LinkOk(s')
  {
    assert forall p :: i !in At(s.lists, p);
  }

  lemma DestroyedChain(s: State, s': State, hash: Hash, i: Id)
    requires ChainOk(s, hash) && i !in s.hashed && s'.inodes == s.inodes - {i} && s'.hashed == s.hashed
    requires s'.chains == s.chains
    ensures ChainOk(s', hash)
  {
    forall b: nat, j: Id | b < |s.chains|
      ensures j in s'.chains[b] <==> j in s'.hashed && InBucket(s', hash, j, b)
    {
      assert j in s.chains[b] <==> j in s.hashed && InBucket(s, hash, j, b);
      assert j in s.hashed ==> (InBucket(s', hash, j, b) <==> InBucket(s, hash, j, b));
    }
  }

  /** i_sb and i_ino of an inode that is neither hashed nor dirty may be set. */
  lemma NumberedOk(s: State, hash: Hash, entered: set<Id>, i: Id, sb: Option<Sb>, ino: nat)
    requires i in s.inodes && i !in s.hashed && !s.inodes[i].dirty && Ok(s, hash, entered)
    ensures Ok(Put(s, i, s.inodes[i].(sb := sb, ino := ino)), hash, entered)
  {
    hide LinkOk, ChainOk, OneEach, Idle;
    var n := s.inodes[i].(sb := sb, ino := ino);
    assert Stands(s, i);
    PutLinked(s, i, n);
    PutChain(s, hash, i, n);
    NotEntered(s, entered, i);
    Same(s, Put(s, i, n), hash, entered, i);
    KeepOk(s, Put(s, i, n), hash, entered, entered, i);
  }

  // ----- references

  /** Each inode is counted as often as it is held. */
  ghost predicate Counted(s: State, refs: Id -> nat) {
    forall i :: refs(i) == if i in s.inodes then s.inodes[i].count else 0
  }

  ghost function More(refs: Id -> nat, i: Id): Id -> nat {
    x => if x == i then refs(x) + 1 else refs(x)
  }

  ghost function Fewer(refs: Id -> nat, i: Id): Id -> nat {
    x => if x == i && refs(x) > 0 then refs(x) - 1 else refs(x)
  }

  /** Somebody takes a reference: an idle inode that is clean goes to inode_in_use. */
  ghost predicate GetsRef(s: State, s': State, i: Id) {
    && i in s.inodes && Becomes(s, s', i, s.inodes[i].(count := s.inodes[i].count + 1))
    && if s.inodes[i].count == 0 && !s.inodes[i].dirty then Goes(s, s', i, InUse) else Stays(s, s')
  }

  /** Somebody drops one: an inode that is clean and idle now goes to inode_unused. */
  ghost predicate DropsRef(s: State, s': State, i: Id) {
    && i in s.inodes && Becomes(s, s', i, s.inodes[i].(count := s.inodes[i].count - 1))
    && if s.inodes[i].count == 1 && !s.inodes[i].dirty then Goes(s, s', i, Unused) else Stays(s, s')
  }

  /** The last reference to an inode that is not kept. */
  ghost predicate Condemns(s: State, s': State, i: Id) {
    && i in s.inodes && s'.inodes == s.inodes[i := s.inodes[i].(count := 0, freeing := true)]
    && s'.hashed == s.hashed - {i} && Goes(s, s', i, Alone)
  }

  /** An inode that somebody holds is there, and is not unused or on its way out. */
  lemma HeldInode(s: State, hash: Hash, entered: set<Id>, refs: Id -> nat, i: Id)
    requires Ok(s, hash, entered) && Counted(s, refs) && refs(i) > 0
    ensures i in s.inodes && i in s.place && !Dying(s, i) && s.place[i] != Unused
  {
    hide LinkOk, ChainOk, OneEach, Idle;
    assert i in s.inodes;
    assert Stands(s, i);
  }
}
