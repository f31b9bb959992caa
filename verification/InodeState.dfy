/** The inode cache of fs/inode.c: which list each inode is on, the hash chains,
    and the count of unused inodes. */
module InodeState {
  import opened Options
  import opened Lists

  type Id = nat
  type Sb = nat

  /** i_sb, i_ino, i_count and the bits of i_state. */
  datatype Inode = Inode(sb: Option<Sb>, ino: nat, count: int, dirty: bool, lock: bool, freeing: bool)

  /** The list i_list is on: inode_in_use, inode_unused, the dirty list of a super
      block, a local list of inodes to be disposed of, or none. */
  datatype Place = InUse | Unused | Dirty(sb: Sb) | Disposal | Alone

  datatype State = State(inodes: map<Id, Inode>, hashed: set<Id>, chains: seq<seq<Id>>, lists: map<Place, seq<Id>>,
                         place: map<Id, Place>, nrUnused: int)

  /** hash(sb, ino) */
  type Hash = (Option<Sb>, nat) -> nat

  function At(lists: map<Place, seq<Id>>, p: Place): seq<Id> {
    if p in lists then lists[p] else []
  }

  /** Each list has the inodes whose place it is, once. */
  ghost predicate LinkOk(s: State) {
    && (forall i :: i in s.place <==> i in s.inodes)
    && (forall p :: NoDup(At(s.lists, p)))
    && (forall p, i :: i in At(s.lists, p) <==> i in s.place && s.place[i] == p && p != Alone)
  }

  /** Each hash chain has the hashed inodes that belong there, once. */
  ghost predicate ChainOk(s: State, hash: Hash) {
    && (forall sb, ino :: hash(sb, ino) < |s.chains|)
    && (forall i :: i in s.hashed ==> i in s.inodes)
    && (forall b: nat :: b < |s.chains| ==> NoDup(s.chains[b]))
    && (forall b: nat, i: Id :: b < |s.chains| ==> (i in s.chains[b] <==> i in s.hashed && InBucket(s, hash, i, b)))
  }

  ghost predicate InBucket(s: State, hash: Hash, i: Id, b: nat) {
    i in s.inodes && hash(s.inodes[i].sb, s.inodes[i].ino) == b
  }

  /** The list an inode belongs on: a hashed one goes by its dirty bit and its
      count; one that is not hashed is in use, or is on its way out. */
  ghost predicate Stands(s: State, i: Id) {
    && i in s.inodes && i in s.place
    && var n, p := s.inodes[i], s.place[i];
      && n.count >= 0 && (n.dirty ==> n.sb.Some?)
      && if i in s.hashed then
           p == if n.dirty && n.sb.Some? then Dirty(n.sb.value) else if n.count > 0 then InUse else Unused
         else if p == Alone || p == Disposal then n.count == 0
         else n.count > 0 && (p == InUse || (n.dirty && n.sb.Some? && p == Dirty(n.sb.value)))
  }

  /** Hashed inodes nobody uses. */
  ghost function Idle(s: State): set<Id> {
    set i | i in s.inodes && i in s.hashed && s.inodes[i].count == 0
  }

  /** The inodes entered by get_new_inode without an actor are told apart by
      super block and inode number. */
  ghost predicate OneEach(s: State, entered: set<Id>) {
    && (forall i :: i in entered ==> i in s.hashed && i in s.inodes)
    && (forall i, j :: i in entered && j in entered && SameNumber(s, i, j) ==> i == j)
  }

  ghost predicate SameNumber(s: State, i: Id, j: Id) {
    i in s.inodes && j in s.inodes && s.inodes[i].sb == s.inodes[j].sb && s.inodes[i].ino == s.inodes[j].ino
  }

  ghost predicate Ok(s: State, hash: Hash, entered: set<Id>) {
    && LinkOk(s) && ChainOk(s, hash) && (forall i :: i in s.inodes ==> Stands(s, i))
    && s.nrUnused == |Idle(s)| && OneEach(s, entered)
  }

  /** list_del and list_add to the front of p. */
  function Relist(s: State, i: Id, p: Place): State
    requires i in s.place
  {
    var lists := s.lists[s.place[i] := Unlink(At(s.lists, s.place[i]), i)];
    s.(lists := lists[p := [i] + At(lists, p)], place := s.place[i := p])
  }

  /** list_del */
  function Unlist(s: State, i: Id): State
    requires i in s.place
  {
    s.(lists := s.lists[s.place[i] := Unlink(At(s.lists, s.place[i]), i)], place := s.place[i := Alone])
  }

  lemma UnlistLinked(s: State, i: Id)
    requires LinkOk(s) && i in s.inodes
    ensures i in s.place && LinkOk(Unlist(s, i))
  {
    hide Unlink;
    var s' := Unlist(s, i);
    forall p
      ensures NoDup(At(s'.lists, p))
      ensures forall j :: j in At(s'.lists, p) <==> j in s'.place && s'.place[j] == p && p != Alone
    {
      assert NoDup(At(s.lists, p));
      assert NoDup(At(s.lists, s.place[i]));
      assert i in At(s.lists, s.place[i]) <==> s.place[i] != Alone;
    }
  }

  lemma RelistLinked(s: State, i: Id, p: Place)
    requires LinkOk(s) && i in s.inodes && p != Alone
    ensures i in s.place && LinkOk(Relist(s, i, p))
  {
    hide Unlink;
    UnlistLinked(s, i);
    var s1, s' := Unlist(s, i), Relist(s, i, p);
    assert s'.lists == s1.lists[p := [i] + At(s1.lists, p)];
    assert i !in At(s1.lists, p);
    forall q
      ensures NoDup(At(s'.lists, q))
      ensures forall j :: j in At(s'.lists, q) <==> j in s'.place && s'.place[j] == q && q != Alone
    {
      assert NoDup(At(s1.lists, q));
      if q == p {
        assert forall j :: j in At(s'.lists, q) <==> j == i || j in At(s1.lists, q);
      }
    }
  }

  /** Out of the hash table. */
  function Unhash(s: State, hash: Hash, i: Id): State
    requires i in s.inodes
  {
    var b := hash(s.inodes[i].sb, s.inodes[i].ino);
    s.(hashed := s.hashed - {i}, chains := if b < |s.chains| then s.chains[b := Unlink(s.chains[b], i)] else s.chains)
  }

  lemma UnhashOk(s: State, hash: Hash, i: Id)
    requires ChainOk(s, hash) && i in s.inodes
    ensures ChainOk(Unhash(s, hash, i), hash)
  {
    hide Unlink;
    var s' := Unhash(s, hash, i);
    forall b: nat, j: Id | b < |s.chains|
      ensures j in s'.chains[b] <==> j in s'.hashed && InBucket(s', hash, j, b)
    {
      assert NoDup(s.chains[b]);
      assert j in s.chains[b] <==> j in s.hashed && InBucket(s, hash, j, b);
      assert InBucket(s', hash, j, b) <==> InBucket(s, hash, j, b);
    }
  }

  /** Into the hash table. */
  function Enhash(s: State, hash: Hash, i: Id): State
    requires i in s.inodes
  {
    var b := hash(s.inodes[i].sb, s.inodes[i].ino);
    s.(hashed := s.hashed + {i}, chains := if b < |s.chains| then s.chains[b := [i] + s.chains[b]] else s.chains)
  }

  lemma EnhashOk(s: State, hash: Hash, i: Id)
    requires ChainOk(s, hash) && i in s.inodes && i !in s.hashed
    ensures ChainOk(Enhash(s, hash, i), hash)
  {
    var s' := Enhash(s, hash, i);
    forall b: nat, j: Id | b < |s.chains|
      ensures j in s'.chains[b] <==> j in s'.hashed && InBucket(s', hash, j, b)
    {
      assert j in s.chains[b] <==> j in s.hashed && InBucket(s, hash, j, b);
      assert i !in s.chains[b];
      assert InBucket(s', hash, j, b) <==> InBucket(s, hash, j, b);
    }
  }

  /** Only inode i differs. */
  ghost predicate SameBut(s: State, s': State, i: Id) {
    && (forall j :: j != i ==> (j in s'.inodes <==> j in s.inodes))
    && (forall j :: j != i && j in s.inodes ==> s'.inodes[j] == s.inodes[j])
    && (forall j :: j != i ==> (j in s'.hashed <==> j in s.hashed))
    && (forall j :: j != i ==> (j in s'.place <==> j in s.place))
    && (forall j :: j != i && j in s.place ==> s'.place[j] == s.place[j])
  }

  ghost predicate IsIdle(s: State, i: Id) {
    i in s.inodes && i in s.hashed && s.inodes[i].count == 0
  }

  function One(b: bool): int {
    if b then 1 else 0
  }

  lemma IdleStep(s: State, s': State, i: Id)
    requires SameBut(s, s', i)
    ensures |Idle(s')| - |Idle(s)| == One(IsIdle(s', i)) - One(IsIdle(s, i))
  {
    forall j | j != i
      ensures j in Idle(s') <==> j in Idle(s)
    {
      assert IsIdle(s', j) <==> IsIdle(s, j);
    }
    OneApart(Idle(s), Idle(s'), i);
  }

  lemma OneApart(a: set<Id>, b: set<Id>, i: Id)
    requires forall j :: j != i ==> (j in b <==> j in a)
    ensures |b| - |a| == One(i in b) - One(i in a)
  {
    if i in a && i !in b {
      assert b == a - {i};
    } else if i in b && i !in a {
      assert b == a + {i};
    } else {
      assert a == b;
    }
  }

  /** A step that changes one inode and accounts for it keeps the invariant. */
  lemma KeepOk(s: State, s': State, hash: Hash, entered: set<Id>, entered': set<Id>, i: Id)
    requires SameBut(s, s', i) && LinkOk(s') && ChainOk(s', hash) && OneEach(s', entered')
    requires i in s'.inodes ==> Stands(s', i)
    requires s'.nrUnused - s.nrUnused == One(IsIdle(s', i)) - One(IsIdle(s, i))
    requires Ok(s, hash, entered)
    ensures Ok(s', hash, entered')
  {
    hide LinkOk, ChainOk, OneEach, Idle;
    IdleStep(s, s', i);
    forall j | j in s'.inodes
      ensures Stands(s', j)
    {
      if j != i {
        assert Stands(s, j);
      }
    }
  }

  /** The record of inode i changes, but not its number. */
  function Put(s: State, i: Id, n: Inode): State {
    s.(inodes := s.inodes[i := n])
  }

  lemma PutLinked(s: State, i: Id, n: Inode)
    requires LinkOk(s) && i in s.inodes
    ensures LinkOk(Put(s, i, n))
  {
  }

  lemma PutChain(s: State, hash: Hash, i: Id, n: Inode)
    requires ChainOk(s, hash) && i in s.inodes && (i in s.hashed ==> n.sb == s.inodes[i].sb && n.ino == s.inodes[i].ino)
    ensures ChainOk(Put(s, i, n), hash)
  {
    var s' := Put(s, i, n);
    forall b: nat, j: Id | b < |s.chains|
      ensures j in s'.chains[b] <==> j in s'.hashed && InBucket(s', hash, j, b)
    {
      assert j in s.chains[b] <==> j in s.hashed && InBucket(s, hash, j, b);
      assert j in s.hashed ==> (InBucket(s', hash, j, b) <==> InBucket(s, hash, j, b));
    }
  }

  lemma SameChain(s: State, s': State, hash: Hash)
    requires ChainOk(s, hash) && s'.hashed == s.hashed && s'.chains == s.chains && s'.inodes == s.inodes
    ensures ChainOk(s', hash)
  {
    assert forall i: Id, b: nat :: InBucket(s', hash, i, b) <==> InBucket(s, hash, i, b);
  }

  /** Numbers of hashed inodes have not changed. */
  lemma SameNumbers(s: State, s': State, entered: set<Id>, entered': set<Id>)
    requires OneEach(s, entered) && entered' <= entered
    requires forall i :: i in entered' ==>
      i in s'.hashed && i in s'.inodes && i in s.inodes && s'.inodes[i].sb == s.inodes[i].sb &&
        s'.inodes[i].ino == s.inodes[i].ino
    ensures OneEach(s', entered')
  {
    forall i, j | i in entered' && j in entered' && SameNumber(s', i, j)
      ensures i == j
    {
      assert SameNumber(s, i, j);
    }
  }
}
