/** d_move of fs/dcache.c: a dentry takes the place and the name of another. */
module DentryMove {
  import opened Lists
  import opened DentryTree
  import opened DentryState

  /** list_add of d behind the element t. */
  function InsertAfter(l: seq<Id>, t: Id, d: Id): (r: seq<Id>)
    ensures NoDup(l) && d !in l ==> NoDup(r)
    ensures forall x :: x in r <==> x in l || (x == d && t in l)
  {
    if l == [] then []
    else if l[0] == t then [l[0], d] + l[1..]
    else
      var r := InsertAfter(l[1..], t, d);
      assert l == [l[0]] + l[1..];
      assert NoDup(l) ==> l[0] !in l[1..];
      [l[0]] + r
  }

  /** The hash chains when d has gone behind t and t has left. */
  function MovedChains(chains: seq<seq<Id>>, d: Id, bd: nat, t: Id, bt: nat): (r: seq<seq<Id>>)
    requires bd < |chains| && bt < |chains|
    ensures |r| == |chains|
  {
    var c1 := chains[bd := Unlink(chains[bd], d)];
    var c2 := c1[bt := InsertAfter(c1[bt], t, d)];
    c2[bt := Unlink(c2[bt], t)]
  }

  lemma MovedIn(chains: seq<seq<Id>>, d: Id, bd: nat, t: Id, bt: nat, b: nat)
    requires bd < |chains| && bt < |chains| && b < |chains| && d != t && NoDup(chains[b])
    requires (d in chains[b] <==> b == bd) && (t in chains[b] <==> b == bt)
    ensures var r := MovedChains(chains, d, bd, t, bt)[b];
      && NoDup(r) && (d in r <==> b == bt) && t !in r
      && forall x :: x != d && x != t ==> (x in r <==> x in chains[b])
  {
    hide Unlink, InsertAfter, NoDup;
    var c1 := chains[bd := Unlink(chains[bd], d)];
    assert NoDup(c1[b]) && d !in c1[b] && (t in c1[b] <==> b == bt);
    var c2 := c1[bt := InsertAfter(c1[bt], t, d)];
    assert NoDup(c2[b]) && (d in c2[b] <==> b == bt);
  }

  /** switch_names with the lengths and hashes exchanged: the name of d. */
  function TakenName(d: Name, t: Name): Name {
    d.(inlined := t.inlined, iname := t.iname, ext := t.ext, len := t.len, hash := t.hash)
  }

  /** What is left to t: a short name of d is not copied, so the text may be another. */
  function LeftName(d: Name, t: Name): Name {
    t.(inlined := d.inlined, ext := d.ext, len := d.len, hash := d.hash)
  }

  function Moved(s: State, bucket: Bucket, d: Id, t: Id): State
    requires d in s.parent && t in s.parent && d in s.name && t in s.name && s.parent[d] in s.kids
    requires s.parent[t] in s.kids
    requires Home(s, bucket, d) < |s.chains| && Home(s, bucket, t) < |s.chains|
  {
    s.(chains := MovedChains(s.chains, d, Home(s, bucket, d), t, Home(s, bucket, t)), hashed := s.hashed - {t},
       parent := Exchanged(s.parent, d, t), kids := Relinked(s.parent, s.kids, d, t),
       name := s.name[d := TakenName(s.name[d], s.name[t])][t := LeftName(s.name[d], s.name[t])])
  }

  /** The guards under which rename calls d_move. */
  ghost predicate CanMove(s: State, depth: Id -> nat, d: Id, t: Id) {
    && d in s.hashed && t in s.hashed && d in s.parent && t in s.parent && d in s.name && t in s.name && t in s.kids
    && s.kids[t] == [] && !Under(s.parent, depth, t, d) && t in s.count && s.count[t] != 0
  }

  /** d is found where t was: same parent, same name. */
  ghost predicate Replaces(s0: State, t: Id, s: State, d: Id) {
    t in s0.parent && t in s0.name && d in s.hashed && HasKey(s, d, s0.parent[t], s0.name[t].hash, Text(s0.name[t]))
  }

  /** Every directory has as many children as before. */
  ghost predicate SameSizes(s0: State, s: State) {
    s.kids.Keys == s0.kids.Keys && forall x :: x in s.kids ==> |s.kids[x]| == |s0.kids[x]|
  }

  lemma MovedHash(s: State, bucket: Bucket, d: Id, t: Id)
    requires HashOk(s, bucket) && d in s.hashed && t in s.hashed && d != t && s.parent[t] != d
    requires s.parent[d] in s.kids && s.parent[t] in s.kids && NameOk(s.name[d]) && NameOk(s.name[t])
    ensures Home(s, bucket, d) < |s.chains| && Home(s, bucket, t) < |s.chains|
    ensures HashOk(Moved(s, bucket, d, t), bucket)
  {
    hide NoDup, MovedChains, Relinked;
    var s' := Moved(s, bucket, d, t);
    var bd, bt := Home(s, bucket, d), Home(s, bucket, t);
    forall b: nat, x: Id | b < |s.chains|
      ensures x in s'.chains[b] <==> x in s'.hashed && HomeIs(s', bucket, x, b)
    {
      ChainFacts(s, bucket, d, b);
      ChainFacts(s, bucket, t, b);
      ChainFacts(s, bucket, x, b);
      MovedIn(s.chains, d, bd, t, bt, b);
    }
    forall b: nat | b < |s.chains|
      ensures NoDup(s'.chains[b])
    {
      ChainFacts(s, bucket, d, b);
      ChainFacts(s, bucket, t, b);
      MovedIn(s.chains, d, bd, t, bt, b);
    }
    forall x, y | x in s'.hashed && y in s'.hashed && SameKey(s', x, y)
      ensures x == y
    {
      assert SameKey(s, if x == d then t else x, if y == d then t else y);
    }
  }

  lemma ChainFacts(s: State, bucket: Bucket, x: Id, b: nat)
    requires HashOk(s, bucket) && b < |s.chains|
    ensures x in s.chains[b] <==> x in s.hashed && HomeIs(s, bucket, x, b)
    ensures NoDup(s.chains[b])
  {
  }

  /** d has the name of t afterwards; t has that of d if and only if the name was not
      in the inline buffer, or the buffer of t happens to begin with it. */
  lemma MovedNames(d: Name, t: Name)
    requires NameOk(d) && NameOk(t)
    ensures NameOk(TakenName(d, t)) && Text(TakenName(d, t)) == Text(t)
    ensures NameOk(LeftName(d, t))
    ensures Text(LeftName(d, t)) == Text(d) <==> !d.inlined || t.iname[..d.len] == d.iname[..d.len]
  {
  }

  /** Moving "ab" over "cd" leaves the name "cd" to both. */
  lemma ShortNameExample()
    ensures var d, t := Inline("ab"), Inline("cd");
      NameOk(d) && NameOk(t) && Text(d) == "ab" && Text(TakenName(d, t)) == "cd" && Text(LeftName(d, t)) == "cd"
  {
    var d, t := Inline("ab"), Inline("cd");
    assert d.iname[..2] == "ab" && t.iname[..2] == "cd";
  }

  /** A short name in its buffer. */
  function Inline(text: string): Name
    requires |text| < DNAME_INLINE_LEN
  {
    Name(true, text + seq(DNAME_INLINE_LEN - |text|, _ => '\0'), "", |text|, 0)
  }

  /** Moving onto a childless dentry that is not below keeps everything. */
  lemma MovedOk(s: State, bucket: Bucket, refs: Id -> nat, depth: Id -> nat, d: Id, t: Id)
    requires Ok(s, bucket, refs, depth, {}) && CanMove(s, depth, d, t)
    ensures s.parent[d] in s.kids && s.parent[t] in s.kids
    ensures Home(s, bucket, d) < |s.chains| && Home(s, bucket, t) < |s.chains|
    ensures var s' := Moved(s, bucket, d, t);
      && Ok(s', bucket, refs, NewDepth(s.parent, depth, d, t), {}) && Replaces(s, t, s', d) && SameSizes(s, s')
      && s'.parent == Exchanged(s.parent, d, t) && s'.hashed == s.hashed - {t}
  {
    hide HashOk, TreeOk, CountOk, LruOk, Under, Exchanged, Relinked, NewDepth, MovedChains;
    MoveFacts(s, bucket, depth, d, t);
    MovedNames(s.name[d], s.name[t]);
    MovedHash(s, bucket, d, t);
    MovedTree(s, bucket, depth, d, t);
    MovedCount(s, Moved(s, bucket, d, t), refs);
    MovedLru(s, Moved(s, bucket, d, t), t);
    ExchangedAt(s.parent, d, t);
  }

  lemma MovedCount(s: State, s': State, refs: Id -> nat)
    requires CountOk(s, refs, {}) && s'.count == s.count && s'.kids.Keys == s.kids.Keys
    requires forall x :: x in s.kids ==> |s'.kids[x]| == |s.kids[x]|
    ensures CountOk(s', refs, {})
  {
  }

  lemma MovedLru(s: State, s': State, t: Id)
    requires LruOk(s) && s'.count == s.count && s'.lru == s.lru && s'.nrUnused == s.nrUnused
    requires s'.hashed == s.hashed - {t}
    requires t in s.count && s.count[t] != 0
    ensures LruOk(s')
  {
  }

  lemma ExchangedAt(parent: map<Id, Id>, d: Id, t: Id)
    requires d in parent && t in parent && d != t
    ensures Exchanged(parent, d, t)[d] == parent[t] && Exchanged(parent, d, t)[t] == parent[d]
  {
  }

  lemma MoveFacts(s: State, bucket: Bucket, depth: Id -> nat, d: Id, t: Id)
    requires TreeOk(s, depth) && HashOk(s, bucket) && CanMove(s, depth, d, t)
    ensures d != t && s.parent[d] != d && s.parent[t] != t && s.parent[t] != d && s.parent[d] != t
    ensures s.parent[d] in s.kids && s.parent[t] in s.kids && NameOk(s.name[d]) && NameOk(s.name[t])
    ensures s.inode[s.parent[d]] == Dir && s.inode[s.parent[t]] == Dir
  {
    hide ChildrenOf, HashOk, Closed, Under;
    HashedHome(s, bucket, d);
    HashedHome(s, bucket, t);
    NotChild(s.parent, depth, t, d);
    NotLeafParent(s.parent, s.kids, d, t);
    ParentIsDir(s, depth, d);
    ParentIsDir(s, depth, t);
  }

  lemma NotChild(parent: map<Id, Id>, depth: Id -> nat, t: Id, d: Id)
    requires Ranked(parent, depth) && t in parent && parent[t] != t && !Under(parent, depth, t, d)
    ensures t != d && parent[t] != d
  {
  }

  lemma ParentIsDir(s: State, depth: Id -> nat, d: Id)
    requires TreeOk(s, depth) && d in s.parent && s.parent[d] != d
    ensures s.parent[d] in s.kids && s.kids[s.parent[d]] != [] && s.inode[s.parent[d]] == Dir
  {
    ParentIn(s.parent, s.kids, d);
    assert ChildrenOf(s.parent, s.kids[s.parent[d]], s.parent[d]) && d in s.kids[s.parent[d]];
  }

  lemma MovedTree(s: State, bucket: Bucket, depth: Id -> nat, d: Id, t: Id)
    requires TreeOk(s, depth) && CanMove(s, depth, d, t) && d != t
    requires s.parent[d] != d && s.parent[t] != t && s.parent[t] != d && s.parent[d] != t
    requires s.parent[d] in s.kids && s.parent[t] in s.kids && NameOk(s.name[d]) && NameOk(s.name[t])
    requires Home(s, bucket, d) < |s.chains| && Home(s, bucket, t) < |s.chains|
    ensures TreeOk(Moved(s, bucket, d, t), NewDepth(s.parent, depth, d, t))
    ensures forall x :: x in s.kids ==> |Moved(s, bucket, d, t).kids[x]| == |s.kids[x]|
  {
    hide Under, Exchanged, Relinked, NewDepth, MovedChains, Forest, Ranked, NameOk, Text, TakenName, LeftName;
    MovedNames(s.name[d], s.name[t]);
    ExchangeForest(s.parent, s.kids, d, t);
    ExchangeRanked(s.parent, s.kids, depth, d, t);
    var s' := Moved(s, bucket, d, t);
    forall x {:trigger s'.kids[x]} | x in s'.kids && s'.kids[x] != []
      ensures s'.inode[x] == Dir
    {
      assert s.kids[x] != [];
    }
  }

  /** Parents that have not changed lead to the same ancestors. */
  lemma {:induction false} UnderSame(s0: State, s: State, depth: Id -> nat, x: Id, d: Id)
    requires Shrunk(s0, s) && Under(s.parent, depth, x, d)
    ensures Under(s0.parent, depth, x, d)
    decreases depth(x)
  {
    if x != d {
      UnderSame(s0, s, depth, s.parent[x], d);
    }
  }

  /** A childless dentry has nothing below it. */
  lemma {:induction false} NothingBelow(s: State, depth: Id -> nat, x: Id, d: Id)
    requires TreeOk(s, depth) && d in s.kids && s.kids[d] == [] && x in s.parent && x != d
    ensures !Under(s.parent, depth, x, d)
    decreases depth(x)
  {
    hide ChildrenOf;
    NotLeafParent(s.parent, s.kids, x, d);
    if depth(s.parent[x]) < depth(x) {
      NothingBelow(s, depth, s.parent[x], d);
    }
  }
}
