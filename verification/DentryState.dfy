/** The dentry cache: dentries with their reference counts, hash chains and the
    list of unused ones, and what every operation keeps. */
module DentryState {
  import opened Lists
  import opened DentryTree

  /** What a dentry names: nothing, a directory, or something else. */
  datatype Kind = Negative | Dir | Other

  const DNAME_INLINE_LEN := 16

  /** d_name with d_iname: a short name lives in the inline buffer, a long one
      outside. */
  datatype Name = Name(inlined: bool, iname: string, ext: string, len: nat, hash: nat)

  ghost predicate NameOk(n: Name) {
    |n.iname| == DNAME_INLINE_LEN && if n.inlined then n.len < DNAME_INLINE_LEN else n.len <= |n.ext|
  }

  function Text(n: Name): string {
    var buffer := if n.inlined then n.iname else n.ext;
    if n.len <= |buffer| then buffer[..n.len] else buffer
  }

  datatype State = State(
    parent: map<Id, Id>, kids: map<Id, seq<Id>>, count: map<Id, int>, inode: map<Id, Kind>, name: map<Id, Name>,
    hashed: set<Id>, chains: seq<seq<Id>>, lru: seq<Id>, nrUnused: int)

  /** Where a dentry stands in the hash table: d_hash of its parent and name hash. */
  type Bucket = (Id, nat) -> nat

  ghost predicate SameKeys(s: State) {
    && s.count.Keys == s.parent.Keys && s.inode.Keys == s.parent.Keys && s.name.Keys == s.parent.Keys
    && s.kids.Keys == s.parent.Keys
  }

  ghost predicate TreeOk(s: State, depth: Id -> nat) {
    && SameKeys(s) && Tree(s.parent, s.kids, depth)
    && (forall d {:trigger s.kids[d]} :: d in s.kids && s.kids[d] != [] ==> s.inode[d] == Dir)
    && (forall d {:trigger s.name[d]} :: d in s.name ==> NameOk(s.name[d]))
  }

  /** Each count is the number of children plus that of outside references; the
      dentries in `owed` have one reference more that is being dropped. */
  ghost predicate CountOk(s: State, refs: Id -> nat, owed: set<Id>) {
    && (forall d {:trigger s.count[d]} :: d in s.count && d in s.kids ==>
      s.count[d] == |s.kids[d]| + refs(d) + if d in owed then 1 else 0)
    && (forall d {:trigger refs(d)} :: d !in s.count ==> refs(d) == 0)
  }

  /** Parent, name hash and name: what d_lookup compares. */
  ghost predicate HasKey(s: State, d: Id, p: Id, hash: nat, text: string) {
    && d in s.parent && d in s.name && NameOk(s.name[d]) && s.parent[d] == p && s.name[d].hash == hash
    && Text(s.name[d]) == text
  }

  ghost predicate SameKey(s: State, d: Id, e: Id) {
    && d in s.parent && d in s.name && NameOk(s.name[d])
    && HasKey(s, e, s.parent[d], s.name[d].hash, Text(s.name[d]))
  }

  function Home(s: State, bucket: Bucket, d: Id): nat
    requires d in s.parent && d in s.name
  {
    bucket(s.parent[d], s.name[d].hash)
  }

  ghost predicate HomeIs(s: State, bucket: Bucket, d: Id, b: nat) {
    d in s.parent && d in s.name && Home(s, bucket, d) == b && s.parent[d] != d
  }

  /** The hash table agrees with parents and names, and no two dentries in it
      have the same parent and name. */
  ghost predicate HashOk(s: State, bucket: Bucket) {
    && (forall p: Id, h: nat :: bucket(p, h) < |s.chains|)
    && (forall d {:trigger d in s.hashed} :: d in s.hashed ==>
      d in s.parent && d in s.name && HomeIs(s, bucket, d, Home(s, bucket, d)))
    && (forall b: nat :: b < |s.chains| ==> NoDup(s.chains[b]))
    && (forall b: nat, d: Id :: b < |s.chains| ==> (d in s.chains[b] <==> d in s.hashed && HomeIs(s, bucket, d, b)))
    && (forall d, e :: d in s.hashed && e in s.hashed && SameKey(s, d, e) ==> d == e)
  }

  /** A dentry nobody uses is hashed and on the unused list; others may be on it. */
  ghost predicate LruOk(s: State) {
    && NoDup(s.lru) && s.nrUnused == |s.lru|
    && (forall d {:trigger d in s.lru} :: d in s.lru ==> d in s.count)
    && (forall d {:trigger s.count[d]} :: d in s.count && s.count[d] == 0 ==> d in s.lru && d in s.hashed)
  }

  ghost predicate Ok(s: State, bucket: Bucket, refs: Id -> nat, depth: Id -> nat, owed: set<Id>) {
    TreeOk(s, depth) && CountOk(s, refs, owed) && HashOk(s, bucket) && LruOk(s)
  }

  /** Dentries are gone; the others are what they were. */
  ghost predicate Shrunk(s0: State, s: State) {
    && SameKeys(s0) && SameKeys(s) && s.parent.Keys <= s0.parent.Keys
    && (forall x :: x in s.parent ==>
      s.parent[x] == s0.parent[x] && s.name[x] == s0.name[x] && s.inode[x] == s0.inode[x])
    && (forall x :: x in s.hashed <==> x in s0.hashed && x in s.parent)
  }

  lemma ShrunkTrans(s0: State, s1: State, s2: State)
    requires Shrunk(s0, s1) && Shrunk(s1, s2)
    ensures Shrunk(s0, s2)
  {
  }

  /** Off the unused list. */
  function OffLru(s: State, d: Id): State {
    if d in s.lru then s.(lru := Unlink(s.lru, d), nrUnused := s.nrUnused - 1) else s
  }

  lemma OffLruOk(s: State, bucket: Bucket, refs: Id -> nat, depth: Id -> nat, owed: set<Id>, d: Id)
    requires Ok(s, bucket, refs, depth, owed) && d in s.count && s.count[d] != 0
    ensures Ok(OffLru(s, d), bucket, refs, depth, owed)
    ensures d !in OffLru(s, d).lru
  {
    hide TreeOk, CountOk, Unlink;
    SameHash(s, OffLru(s, d), bucket);
    assert TreeOk(OffLru(s, d), depth) by { SameTree(s, OffLru(s, d), depth); }
    assert CountOk(OffLru(s, d), refs, owed) by { SameCount(s, OffLru(s, d), refs, owed); }
  }

  lemma SameTree(s: State, s': State, depth: Id -> nat)
    requires TreeOk(s, depth) && s'.parent == s.parent && s'.kids == s.kids && s'.inode == s.inode && s'.name == s.name
    requires s'.count.Keys == s.count.Keys
    ensures TreeOk(s', depth)
  {
    hide Tree;
  }

  lemma SameCount(s: State, s': State, refs: Id -> nat, owed: set<Id>)
    requires CountOk(s, refs, owed) && s'.kids == s.kids && s'.count == s.count
    ensures CountOk(s', refs, owed)
  {
  }

  /** The hash table does not notice what happens to dentries that are not in it. */
  lemma SameHash(s: State, s': State, bucket: Bucket)
    requires HashOk(s, bucket) && s'.hashed == s.hashed && s'.chains == s.chains
    requires forall d :: d in s.hashed ==>
      (d in s'.parent && d in s'.name && s'.parent[d] == s.parent[d] && s'.name[d] == s.name[d])
    ensures HashOk(s', bucket)
  {
    forall d, e | d in s.hashed && e in s.hashed && SameKey(s', d, e)
      ensures d == e
    {
      assert SameKey(s, d, e);
    }
    forall d, b: nat | d in s.hashed
      ensures HomeIs(s', bucket, d, b) <==> HomeIs(s, bucket, d, b)
    {
    }
  }

  /** Unused: count zero, at the front of the list. */
  function Rested(s: State, d: Id): State {
    s.(count := s.count[d := 0], lru := [d] + s.lru, nrUnused := s.nrUnused + 1)
  }

  lemma RestedOk(s: State, bucket: Bucket, refs: Id -> nat, depth: Id -> nat, d: Id)
    requires Ok(s, bucket, refs, depth, {d}) && d in s.count && s.count[d] == 1 && d in s.hashed && d !in s.lru
    ensures Ok(Rested(s, d), bucket, refs, depth, {})
  {
    hide TreeOk, HashOk;
    var s' := Rested(s, d);
    SameTree(s, s', depth);
    assert HashOk(s', bucket) by { HashedThere(s, bucket); SameHash(s, s', bucket); }
  }

  lemma HashedThere(s: State, bucket: Bucket)
    requires HashOk(s, bucket)
    ensures forall d :: d in s.hashed ==> d in s.parent && d in s.name && s.parent[d] != d
  {
  }

  /** The dentry is unlinked from its parent and freed. */
  function Freed(s: State, d: Id): State {
    s.(parent := s.parent - {d}, kids := Orphaned(s.parent, s.kids, d), count := s.count - {d}, inode := s.inode - {d},
       name := s.name - {d})
  }

  /** The parent, unless d is a root. */
  ghost function Up1(s: State, d: Id): set<Id> {
    if d in s.parent && s.parent[d] != d then {s.parent[d]} else {}
  }

  ghost predicate CanFree(s: State, d: Id) {
    && d in s.parent && s.parent[d] in s.kids && d in s.kids && d in s.count && s.kids[d] == [] && d !in s.hashed
    && d !in s.lru
  }

  /** A dentry without children or users may go; it leaves one reference of its
      parent to be dropped. */
  lemma FreedOk(s: State, bucket: Bucket, refs: Id -> nat, depth: Id -> nat, owed: set<Id>, d: Id)
    requires Ok(s, bucket, refs, depth, owed) && CanFree(s, d) && refs(d) == 0 && owed <= {d}
    ensures Ok(Freed(s, d), bucket, refs, depth, Up1(s, d)) && Shrunk(s, Freed(s, d))
  {
    hide HashOk, LruOk, CountOk, TreeOk, Tree, Orphaned, Shrunk;
    assert Tree(s.parent, s.kids, depth) && SameKeys(s) by { TreeOfState(s, depth); }
    var s' := Freed(s, d);
    HashedThere(s, bucket);
    FreedShrunk(s, d);
    RemoveLeaf(s.parent, s.kids, depth, d);
    FreedTree(s, depth, d);
    FreedCount(s, refs, owed, d);
    SameHash(s, s', bucket);
    FreedLru(s, d);
  }

  lemma TreeOfState(s: State, depth: Id -> nat)
    requires TreeOk(s, depth)
    ensures Tree(s.parent, s.kids, depth) && SameKeys(s)
  {
    hide Tree;
  }

  lemma FreedShrunk(s: State, d: Id)
    requires SameKeys(s) && CanFree(s, d) && forall x :: x in s.hashed ==> x in s.parent
    ensures Shrunk(s, Freed(s, d))
  {
    hide Orphaned;
  }

  lemma FreedTree(s: State, depth: Id -> nat, d: Id)
    requires TreeOk(s, depth) && CanFree(s, d) && Tree(s.parent - {d}, Orphaned(s.parent, s.kids, d), depth)
    ensures TreeOk(Freed(s, d), depth)
  {
    hide Tree;
    var s' := Freed(s, d);
    forall x {:trigger s'.kids[x]} | x in s'.kids && s'.kids[x] != []
      ensures s'.inode[x] == Dir
    {
      assert s.kids[x] != [];
    }
  }

  lemma FreedCount(s: State, refs: Id -> nat, owed: set<Id>, d: Id)
    requires SameKeys(s) && CountOk(s, refs, owed) && CanFree(s, d) && refs(d) == 0 && owed <= {d}
    requires forall x :: x in s.parent && x != d ==>
      |Orphaned(s.parent, s.kids, d)[x]| == if x == s.parent[d] then |s.kids[x]| - 1 else |s.kids[x]|
    ensures CountOk(Freed(s, d), refs, Up1(s, d))
  {
    hide Orphaned, CountOk;
    var s' := Freed(s, d);
    forall x | x in s'.count && x in s'.kids
      ensures s'.count[x] == |s'.kids[x]| + refs(x) + if x in Up1(s, d) then 1 else 0
    {
      CountAt(s, refs, owed, x);
    }
    CountNone(s, s', refs, owed, Up1(s, d), d);
  }

  lemma CountAt(s: State, refs: Id -> nat, owed: set<Id>, x: Id)
    requires CountOk(s, refs, owed) && x in s.count && x in s.kids
    ensures s.count[x] == |s.kids[x]| + refs(x) + if x in owed then 1 else 0
  {
  }

  lemma CountNone(s: State, s': State, refs: Id -> nat, owed: set<Id>, owed': set<Id>, d: Id)
    requires CountOk(s, refs, owed) && s'.count.Keys == s.count.Keys - {d} && refs(d) == 0
    requires forall x :: x in s'.count && x in s'.kids ==>
      s'.count[x] == |s'.kids[x]| + refs(x) + if x in owed' then 1 else 0
    ensures CountOk(s', refs, owed')
  {
  }

  lemma FreedLru(s: State, d: Id)
    requires LruOk(s) && SameKeys(s) && CanFree(s, d)
    ensures LruOk(Freed(s, d))
  {
  }

  /** d_drop */
  function Dropped(s: State, bucket: Bucket, d: Id): State
    requires d in s.parent && d in s.name && Home(s, bucket, d) < |s.chains|
  {
    var b := Home(s, bucket, d);
    s.(hashed := s.hashed - {d}, chains := s.chains[b := Unlink(s.chains[b], d)])
  }

  lemma DroppedOk(s: State, bucket: Bucket, refs: Id -> nat, depth: Id -> nat, owed: set<Id>, d: Id)
    requires Ok(s, bucket, refs, depth, owed) && d in s.hashed && s.count[d] != 0
    ensures d in s.parent && Home(s, bucket, d) < |s.chains| && Ok(Dropped(s, bucket, d), bucket, refs, depth, owed)
  {
    hide TreeOk, CountOk, HashOk;
    HashedHome(s, bucket, d);
    var s' := Dropped(s, bucket, d);
    SameTree(s, s', depth);
    SameCount(s, s', refs, owed);
    DroppedHash(s, bucket, d);
  }

  lemma HashedHome(s: State, bucket: Bucket, d: Id)
    requires HashOk(s, bucket) && d in s.hashed
    ensures d in s.parent && d in s.name && s.parent[d] != d && Home(s, bucket, d) < |s.chains|
    ensures d in s.chains[Home(s, bucket, d)]
  {
  }

  lemma DroppedHash(s: State, bucket: Bucket, d: Id)
    requires HashOk(s, bucket) && d in s.hashed && d in s.parent && d in s.name && Home(s, bucket, d) < |s.chains|
    ensures HashOk(Dropped(s, bucket, d), bucket)
  {
    hide Unlink;
    var s' := Dropped(s, bucket, d);
    forall x, y | x in s'.hashed && y in s'.hashed && SameKey(s', x, y)
      ensures x == y
    {
      assert SameKey(s, x, y);
    }
    forall b: nat, x: Id | b < |s.chains|
      ensures x in s'.chains[b] <==> x in s'.hashed && HomeIs(s', bucket, x, b)
    {
      assert HomeIs(s', bucket, x, b) <==> HomeIs(s, bucket, x, b);
      assert x in s.chains[b] <==> x in s.hashed && HomeIs(s, bucket, x, b);
    }
  }

  /** d_rehash */
  function Rehashed(s: State, bucket: Bucket, d: Id): State
    requires d in s.parent && d in s.name && Home(s, bucket, d) < |s.chains|
  {
    var b := Home(s, bucket, d);
    s.(hashed := s.hashed + {d}, chains := s.chains[b := [d] + s.chains[b]])
  }

  ghost predicate CanHash(s: State, d: Id) {
    && d in s.parent && d in s.name && s.parent[d] != d && d !in s.hashed
    && forall e :: e in s.hashed ==> !SameKey(s, d, e)
  }

  lemma RehashedHash(s: State, bucket: Bucket, d: Id)
    requires HashOk(s, bucket) && CanHash(s, d)
    ensures HashOk(Rehashed(s, bucket, d), bucket)
  {
    var s' := Rehashed(s, bucket, d);
    forall x, y | x in s'.hashed && y in s'.hashed && SameKey(s', x, y)
      ensures x == y
    {
      assert SameKey(s, x, y);
      if y == d && x != d {
        assert SameKey(s, d, x);
      }
    }
    forall b: nat, x: Id | b < |s.chains|
      ensures x in s'.chains[b] <==> x in s'.hashed && HomeIs(s', bucket, x, b)
    {
      assert HomeIs(s', bucket, x, b) <==> HomeIs(s, bucket, x, b);
      assert x in s.chains[b] <==> x in s.hashed && HomeIs(s, bucket, x, b);
    }
  }
}
