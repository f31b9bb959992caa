/** Who waits for whom: the wait-for relation between lock owners, and the
    deadlock search of fs/locks.c over the table of all locks. */
module LockWaits {
  import opened LockSpec

  /** Owner o sleeps on a lock of owner p. */
  ghost predicate Waits(t: seq<Entry>, o: Owner, p: Owner) {
    exists q :: WaitsOn(t, q, p) && q.owner == o
  }

  ghost predicate Chain(t: seq<Entry>, s: seq<Owner>) {
    s != [] && forall i :: 0 <= i < |s| - 1 ==> Waits(t, s[i], s[i + 1])
  }

  /** A chain of waits leads from o to p. */
  ghost predicate Reaches(t: seq<Entry>, o: Owner, p: Owner) {
    exists s :: Chain(t, s) && s[0] == o && s[|s| - 1] == p
  }

  /** No owner waits for itself, directly or through others. */
  ghost predicate Acyclic(t: seq<Entry>) {
    forall o, p :: Waits(t, o, p) ==> !Reaches(t, p, o)
  }

  /** Nobody waits twice. */
  ghost predicate OneWait(t: seq<Entry>) {
    forall q :: q in AllBlocked(t) ==>
      AllBlocked(t)[q] == 1 && forall q' :: q' in AllBlocked(t) && q'.owner == q.owner ==> q' == q
  }

  ghost function Sleepers(t: seq<Entry>): set<Owner> {
    set q | q in AllBlocked(t) :: q.owner
  }

  lemma {:induction false} InBlocked(t: seq<Entry>, i: nat, q: Request)
    requires i < |t| && q in t[i].blocked
    ensures q in AllBlocked(t)
  {
    if i > 0 {
      InBlocked(t[1..], i - 1, q);
    }
  }

  lemma {:induction false} BlockedSomewhere(t: seq<Entry>, q: Request) returns (i: nat)
    requires q in AllBlocked(t)
    ensures i < |t| && q in t[i].blocked
  {
    if q in t[0].blocked {
      i := 0;
    } else {
      i := BlockedSomewhere(t[1..], q);
      i := i + 1;
    }
  }

  /** Sleepers are those who wait for somebody. */
  lemma SleeperWaits(t: seq<Entry>, o: Owner)
    ensures o in Sleepers(t) <==> exists p :: Waits(t, o, p)
  {
    if o in Sleepers(t) {
      var q :| q in AllBlocked(t) && q.owner == o;
      var i := BlockedSomewhere(t, q);
      assert WaitsOn(t, q, t[i].owner);
      assert Waits(t, o, t[i].owner);
    }
    if exists p :: Waits(t, o, p) {
      var p :| Waits(t, o, p);
      var q :| WaitsOn(t, q, p) && q.owner == o;
      var i :| 0 <= i < |t| && q in t[i].blocked;
      InBlocked(t, i, q);
    }
  }

  /** A request on two block lists counts twice. */
  lemma {:induction false} TwiceBlocked(t: seq<Entry>, i: nat, j: nat, q: Request)
    requires i < j < |t| && q in t[i].blocked && q in t[j].blocked
    ensures AllBlocked(t)[q] >= 2
  {
    if i > 0 {
      TwiceBlocked(t[1..], i - 1, j - 1, q);
    } else {
      InBlocked(t[1..], j - 1, q);
    }
  }

  /** With one wait per task, an owner waits for one owner only. */
  lemma OneBlocker(t: seq<Entry>, o: Owner, p: Owner, p': Owner)
    requires OneWait(t) && Waits(t, o, p) && Waits(t, o, p')
    ensures p == p'
  {
    var q :| WaitsOn(t, q, p) && q.owner == o;
    var q' :| WaitsOn(t, q', p') && q'.owner == o;
    var i: nat :| i < |t| && q in t[i].blocked && t[i].owner == p;
    var j: nat :| j < |t| && q' in t[j].blocked && t[j].owner == p';
    InBlocked(t, i, q);
    InBlocked(t, j, q');
    if i < j {
      TwiceBlocked(t, i, j, q);
    } else if j < i {
      TwiceBlocked(t, j, i, q);
    }
  }

  lemma ReachesSelf(t: seq<Entry>, o: Owner)
    ensures Reaches(t, o, o)
  {
    assert Chain(t, [o]) && [o][0] == o;
  }

  lemma ReachesStep(t: seq<Entry>, o: Owner, p: Owner, c: Owner)
    requires Waits(t, o, p) && Reaches(t, p, c)
    ensures Reaches(t, o, c)
  {
    var s :| Chain(t, s) && s[0] == p && s[|s| - 1] == c;
    var s' := [o] + s;
    forall i | 0 <= i < |s'| - 1
      ensures Waits(t, s'[i], s'[i + 1])
    {
      if i > 0 {
        assert s'[i] == s[i - 1] && s'[i + 1] == s[i];
      }
    }
    assert Chain(t, s') && s'[0] == o && s'[|s'| - 1] == c;
  }

  /** A chain to somebody else begins with a wait. */
  lemma ReachesFirst(t: seq<Entry>, o: Owner, c: Owner) returns (p: Owner)
    requires Reaches(t, o, c) && o != c
    ensures Waits(t, o, p) && Reaches(t, p, c)
  {
    var s :| Chain(t, s) && s[0] == o && s[|s| - 1] == c;
    p := s[1];
    var s' := s[1..];
    forall i | 0 <= i < |s'| - 1
      ensures Waits(t, s'[i], s'[i + 1])
    {
      assert s'[i] == s[i + 1] && s'[i + 1] == s[i + 2];
    }
    assert Chain(t, s') && s'[0] == p && s'[|s'| - 1] == c;
  }

  lemma {:induction false} ReachesTrans(t: seq<Entry>, s: seq<Owner>, c: Owner)
    requires Chain(t, s) && Reaches(t, s[|s| - 1], c)
    ensures Reaches(t, s[0], c)
  {
    if |s| > 1 {
      TailChain(t, s);
      ReachesTrans(t, s[1..], c);
      ReachesStep(t, s[0], s[1], c);
    }
  }

  lemma TailChain(t: seq<Entry>, s: seq<Owner>)
    requires Chain(t, s) && |s| > 1
    ensures Chain(t, s[1..]) && Waits(t, s[0], s[1])
  {
    var s' := s[1..];
    forall i | 0 <= i < |s'| - 1
      ensures Waits(t, s'[i], s'[i + 1])
    {
      assert s'[i] == s[i + 1] && s'[i + 1] == s[i + 2];
    }
  }

  /** Fewer waits close no cycle. */
  lemma FewerWaits(t: seq<Entry>, t': seq<Entry>)
    requires Acyclic(t) && forall o, p :: Waits(t', o, p) ==> Waits(t, o, p)
    ensures Acyclic(t')
  {
    forall o, p | Waits(t', o, p)
      ensures !Reaches(t', p, o)
    {
      if Reaches(t', p, o) {
        var s :| Chain(t', s) && s[0] == p && s[|s| - 1] == o;
        assert Chain(t, s);
      }
    }
  }

  /** t' has the waits of t, and c waits for b. */
  ghost predicate OneMore(t: seq<Entry>, t': seq<Entry>, c: Owner, b: Owner) {
    forall o, p :: Waits(t', o, p) <==> Waits(t, o, p) || (o == c && p == b)
  }

  /** A chain in t' is one of t up to the first time it comes to c. */
  lemma {:induction false} UpToNew(t: seq<Entry>, t': seq<Entry>, c: Owner, b: Owner, s: seq<Owner>)
    requires OneMore(t, t', c, b) && Chain(t', s)
    ensures Reaches(t, s[0], s[|s| - 1]) || Reaches(t, s[0], c)
  {
    if |s| == 1 || s[0] == c {
      ReachesSelf(t, s[0]);
    } else {
      TailChain(t', s);
      UpToNew(t, t', c, b, s[1..]);
      if Reaches(t, s[1], c) {
        ReachesStep(t, s[0], s[1], c);
      } else {
        ReachesStep(t, s[0], s[1], s[|s| - 1]);
      }
    }
  }

  /** A chain in t' is one of t from the last time it leaves c. */
  lemma {:induction false} SinceNew(t: seq<Entry>, t': seq<Entry>, c: Owner, b: Owner, s: seq<Owner>)
    requires OneMore(t, t', c, b) && Chain(t', s)
    ensures Reaches(t, s[0], s[|s| - 1]) || Reaches(t, b, s[|s| - 1])
  {
    if |s| == 1 {
      ReachesSelf(t, s[0]);
    } else {
      TailChain(t', s);
      SinceNew(t, t', c, b, s[1..]);
      if !Reaches(t, b, s[|s| - 1]) {
        ReachesStep(t, s[0], s[1], s[|s| - 1]);
      }
    }
  }

  lemma Joined(t: seq<Entry>, o: Owner, p: Owner, b: Owner, c: Owner)
    requires Reaches(t, b, o) && Waits(t, o, p) && Reaches(t, p, c)
    ensures Reaches(t, b, c)
  {
    ReachesStep(t, o, p, c);
    var s :| Chain(t, s) && s[0] == b && s[|s| - 1] == o;
    ReachesTrans(t, s, c);
  }

  /** One more wait closes a cycle exactly when the one waited for waits,
      directly or through others, for the one who goes to sleep. */
  lemma CycleClosed(t: seq<Entry>, t': seq<Entry>, c: Owner, b: Owner)
    requires Acyclic(t) && OneMore(t, t', c, b)
    ensures Acyclic(t') <==> !Reaches(t, b, c)
  {
    if Reaches(t, b, c) {
      var s :| Chain(t, s) && s[0] == b && s[|s| - 1] == c;
      assert Chain(t', s);
      assert Waits(t', c, b) && Reaches(t', b, c);
    } else {
      forall o, p | Waits(t', o, p)
        ensures !Reaches(t', p, o)
      {
        if Reaches(t', p, o) {
          var s :| Chain(t', s) && s[0] == p && s[|s| - 1] == o;
          UpToNew(t, t', c, b, s);
          SinceNew(t, t', c, b, s);
          if Waits(t, o, p) && Reaches(t, b, o) && Reaches(t, p, c) {
            Joined(t, o, p, b, c);
          }
          assert false;
        }
      }
    }
  }

  /** The search for a wait queue with a task of this owner on it. */
  method FindWait(t: seq<Entry>, blocked: Owner) returns (found: bool, owner: Owner)
    requires forall q, p :: WaitsOn(t, q, p) ==> p != NO_OWNER
    ensures found ==> Waits(t, blocked, owner)
    ensures !found ==> forall p :: !Waits(t, blocked, p)
  {
    found, owner := false, NO_OWNER;
    var k := 0;
    while k < |t|
      invariant 0 <= k <= |t|
      invariant forall i, q :: 0 <= i < k && q in t[i].blocked ==> q.owner != blocked
    {
      if t[k].owner != NO_OWNER {
        var j := 0;
        while j < |t[k].blocked|
          invariant 0 <= j <= |t[k].blocked|
          invariant forall i :: 0 <= i < j ==> t[k].blocked[i].owner != blocked
        {
          if t[k].blocked[j].owner == blocked {
            assert WaitsOn(t, t[k].blocked[j], t[k].owner);
            return true, t[k].owner;
          }
          j := j + 1;
        }
      } else {
        assert forall q :: q in t[k].blocked ==> WaitsOn(t, q, NO_OWNER);
      }
      k := k + 1;
    }
  }

  /** The owners passed by the search: each waits, and leads to the present one. */
  ghost predicate Passed(t: seq<Entry>, seen: set<Owner>, blocked: Owner) {
    forall v :: v in seen ==> exists w :: Waits(t, v, w) && Reaches(t, w, blocked)
  }

  lemma PassOn(t: seq<Entry>, seen: set<Owner>, blocked: Owner, p: Owner)
    requires Passed(t, seen, blocked) && Waits(t, blocked, p)
    ensures Passed(t, seen + {blocked}, p)
  {
    ReachesSelf(t, p);
    forall v | v in seen + {blocked}
      ensures exists w :: Waits(t, v, w) && Reaches(t, w, p)
    {
      if v in seen {
        var w :| Waits(t, v, w) && Reaches(t, w, blocked);
        Joined(t, blocked, p, w, p);
      }
    }
  }

  /** posix_locks_deadlock */
  method Deadlock(t: seq<Entry>, caller: Owner, block: Owner) returns (dead: bool)
    requires OneWait(t) && Acyclic(t)
    requires forall q, p :: WaitsOn(t, q, p) ==> p != NO_OWNER
    ensures dead <==> Reaches(t, block, caller)
  {
    var blocked := block;
    ghost var seen: set<Owner> := {};
    while true
      invariant Reaches(t, block, caller) <==> Reaches(t, blocked, caller)
      invariant seen <= Sleepers(t) && Passed(t, seen, blocked)
      decreases Sleepers(t) - seen
    {
      if caller == blocked {
        ReachesSelf(t, caller);
        return true;
      }
      var found, owner := FindWait(t, blocked);
      if !found {
        NoWayOn(t, blocked, caller);
        return false;
      }
      OnlyWay(t, blocked, owner, caller);
      if owner == caller {
        ReachesSelf(t, caller);
        return true;
      }
      SleeperWaits(t, blocked);
      PassOn(t, seen, blocked, owner);
      assert blocked !in seen;
      seen := seen + {blocked};
      blocked := owner;
    }
  }

  lemma NoWayOn(t: seq<Entry>, blocked: Owner, caller: Owner)
    requires blocked != caller && forall p :: !Waits(t, blocked, p)
    ensures !Reaches(t, blocked, caller)
  {
    if Reaches(t, blocked, caller) {
      var p := ReachesFirst(t, blocked, caller);
    }
  }

  lemma OnlyWay(t: seq<Entry>, blocked: Owner, owner: Owner, caller: Owner)
    requires OneWait(t) && Waits(t, blocked, owner) && blocked != caller
    ensures Reaches(t, blocked, caller) <==> Reaches(t, owner, caller)
  {
    if Reaches(t, owner, caller) {
      ReachesStep(t, blocked, owner, caller);
    }
    if Reaches(t, blocked, caller) {
      var p := ReachesFirst(t, blocked, caller);
      OneBlocker(t, blocked, owner, p);
    }
  }
}
