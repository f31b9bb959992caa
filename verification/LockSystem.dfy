/** The lock lists of all inodes and the requests asleep on them, as changed by
    posix_lock_file and by sleepers that leave. */
module LockSystem {
  import opened Options
  import opened LockSpec
  import opened LockFile
  import opened LockWaits

  /** file_lock_table: the locks of all inodes. */
  ghost function Table(files: seq<seq<Entry>>): seq<Entry> {
    if files == [] then [] else files[0] + Table(files[1..])
  }

  ghost predicate ListOk(l: seq<Entry>) {
    && WellFormed(l) && Compatible(l) && StillBlocked(l)
    && forall x :: HeldBy(l, NO_OWNER, x) == None
  }

  ghost predicate Quiet(t: seq<Entry>) {
    OneWait(t) && Acyclic(t)
  }

  lemma {:induction false} TableSplit(files: seq<seq<Entry>>, k: nat)
    requires k < |files|
    ensures Table(files) == Table(files[..k]) + files[k] + Table(files[k + 1..])
  {
    if k == 0 {
      assert files[..k] == [];
    } else {
      TableSplit(files[1..], k - 1);
      assert files[1..][..k - 1] == files[..k][1..] && files[1..][k..] == files[k + 1..];
    }
  }

  lemma TableUpdate(files: seq<seq<Entry>>, k: nat, l: seq<Entry>)
    requires k < |files|
    ensures Table(files) == Table(files[..k]) + files[k] + Table(files[k + 1..])
    ensures Table(files[k := l]) == Table(files[..k]) + l + Table(files[k + 1..])
  {
    hide Table;
    TableSplit(files, k);
    TableSplit(files[k := l], k);
    assert files[k := l][..k] == files[..k] && files[k := l][k + 1..] == files[k + 1..];
  }

  lemma WaitsConcat(a: seq<Entry>, l: seq<Entry>, b: seq<Entry>, q: Request, p: Owner)
    ensures WaitsOn(a + l + b, q, p) <==> WaitsOn(a, q, p) || WaitsOn(l, q, p) || WaitsOn(b, q, p)
  {
    var t := a + l + b;
    if WaitsOn(t, q, p) {
      var i :| 0 <= i < |t| && q in t[i].blocked && t[i].owner == p;
      if i < |a| {
        assert t[i] == a[i];
      } else if i < |a| + |l| {
        assert t[i] == l[i - |a|];
      } else {
        assert t[i] == b[i - |a| - |l|];
      }
    }
    if WaitsOn(a, q, p) {
      var i :| 0 <= i < |a| && q in a[i].blocked && a[i].owner == p;
      assert t[i] == a[i];
    }
    if WaitsOn(l, q, p) {
      var i :| 0 <= i < |l| && q in l[i].blocked && l[i].owner == p;
      assert t[|a| + i] == l[i];
    }
    if WaitsOn(b, q, p) {
      var i :| 0 <= i < |b| && q in b[i].blocked && b[i].owner == p;
      assert t[|a| + |l| + i] == b[i];
    }
  }

  lemma BlockedParts(a: seq<Entry>, l: seq<Entry>, b: seq<Entry>)
    ensures AllBlocked(a + l + b) == AllBlocked(a) + AllBlocked(l) + AllBlocked(b)
  {
    hide AllBlocked;
    BlockedConcat(a + l, b);
    BlockedConcat(a, l);
  }

  /** Replacing one list by one with fewer sleepers keeps the table quiet. */
  lemma QuietLess(a: seq<Entry>, l0: seq<Entry>, l: seq<Entry>, b: seq<Entry>)
    requires Quiet(a + l0 + b) && AllBlocked(l) <= AllBlocked(l0) && NoNewWait(l0, l)
    ensures Quiet(a + l + b)
  {
    hide AllBlocked, WaitsOn, Acyclic;
    var t, t' := a + l0 + b, a + l + b;
    BlockedParts(a, l0, b);
    BlockedParts(a, l, b);
    OneWaitLess(t, t');
    forall o, p | Waits(t', o, p)
      ensures Waits(t, o, p)
    {
      var q :| WaitsOn(t', q, p) && q.owner == o;
      WaitsConcat(a, l, b, q, p);
      WaitsConcat(a, l0, b, q, p);
    }
    FewerWaits(t, t');
  }

  lemma OneWaitLess(t: seq<Entry>, t': seq<Entry>)
    requires OneWait(t) && AllBlocked(t') <= AllBlocked(t)
    ensures OneWait(t')
  {
    hide AllBlocked;
    forall q | q in AllBlocked(t')
      ensures AllBlocked(t')[q] == 1
    {
      assert AllBlocked(t')[q] <= AllBlocked(t)[q];
    }
  }

  /** The list when request r has gone to sleep on lock k. */
  function Asleep(l: seq<Entry>, k: nat, r: Request): (l': seq<Entry>)
    requires k < |l|
    ensures |l'| == |l|
  {
    l[k := l[k].(blocked := l[k].blocked + [r])]
  }

  lemma AsleepBlocked(l: seq<Entry>, k: nat, r: Request)
    requires k < |l|
    ensures AllBlocked(Asleep(l, k, r)) == AllBlocked(l) + multiset{r}
  {
    hide AllBlocked;
    var l' := Asleep(l, k, r);
    BlockedSplit(l, k);
    BlockedSplit(l', k);
    assert l'[..k] == l[..k] && l'[k + 1..] == l[k + 1..];
    assert multiset(l[k].blocked + [r]) == multiset(l[k].blocked) + multiset{r};
  }

  lemma AsleepWaits(l: seq<Entry>, k: nat, r: Request, q: Request, p: Owner)
    requires k < |l|
    ensures WaitsOn(Asleep(l, k, r), q, p) <==> WaitsOn(l, q, p) || (q == r && p == l[k].owner)
  {
    var l' := Asleep(l, k, r);
    if WaitsOn(l, q, p) {
      var i :| 0 <= i < |l| && q in l[i].blocked && l[i].owner == p;
      assert q in l'[i].blocked;
    }
    if q == r && p == l[k].owner {
      assert l'[k].blocked[|l[k].blocked|] == r;
    }
  }

  /** A request may go to sleep exactly when the search finds no cycle. */
  lemma QuietAsleep(a: seq<Entry>, l: seq<Entry>, b: seq<Entry>, k: nat, r: Request)
    requires Quiet(a + l + b) && k < |l| && r.owner !in Sleepers(a + l + b)
    ensures OneWait(a + Asleep(l, k, r) + b)
    ensures Acyclic(a + Asleep(l, k, r) + b) <==> !Reaches(a + l + b, l[k].owner, r.owner)
  {
    hide AllBlocked, WaitsOn, Acyclic, Reaches, Asleep;
    var t, t' := a + l + b, a + Asleep(l, k, r) + b;
    BlockedParts(a, l, b);
    BlockedParts(a, Asleep(l, k, r), b);
    AsleepBlocked(l, k, r);
    OneWaitMore(t, t', r);
    forall o, p
      ensures Waits(t', o, p) <==> Waits(t, o, p) || (o == r.owner && p == l[k].owner)
    {
      forall q
        ensures WaitsOn(t', q, p) <==> WaitsOn(t, q, p) || (q == r && p == l[k].owner)
      {
        WaitsConcat(a, l, b, q, p);
        WaitsConcat(a, Asleep(l, k, r), b, q, p);
        AsleepWaits(l, k, r, q, p);
      }
    }
    CycleClosed(t, t', r.owner, l[k].owner);
  }

  lemma OneWaitMore(t: seq<Entry>, t': seq<Entry>, r: Request)
    requires OneWait(t) && r.owner !in Sleepers(t) && AllBlocked(t') == AllBlocked(t) + multiset{r}
    ensures OneWait(t')
  {
    hide AllBlocked;
    assert forall q :: q in AllBlocked(t) ==> q.owner in Sleepers(t);
  }

  /** A conflict-free request keeps every byte free of incompatible holders. */
  lemma CompatibleUpdate(l0: seq<Entry>, l: seq<Entry>, r: Request)
    requires Compatible(l0) && forall i :: 0 <= i < |l0| ==> !Conflicts(r, l0[i])
    requires OthersSame(l0, l, r.owner)
    requires forall x :: HeldBy(l, r.owner, x) == if r.start <= x <= r.end then r.kind else HeldBy(l0, r.owner, x)
    ensures Compatible(l)
  {
    forall o: Owner, p: Owner, x: int | o != p && HeldBy(l, o, x) == Some(Write)
      ensures HeldBy(l, p, x) == None
    {
      if o == r.owner {
        NoClash(l0, r, p, x);
      } else if p == r.owner {
        NoClash(l0, r, o, x);
      }
    }
  }

  lemma NoClash(l0: seq<Entry>, r: Request, p: Owner, x: int)
    requires p != r.owner && forall i :: 0 <= i < |l0| ==> !Conflicts(r, l0[i])
    ensures r.start <= x <= r.end && r.kind == Some(Write) ==> HeldBy(l0, p, x) == None
    ensures r.start <= x <= r.end && r.kind.Some? ==> HeldBy(l0, p, x) != Some(Write)
  {
    if HeldBy(l0, p, x).Some? {
      var i := HeldSome(l0, p, x);
      assert !Conflicts(r, l0[i]);
    }
  }

  /** On every byte of the request: it is an unlock, nobody else holds the byte, or all
      only read. */
  ghost predicate Free(l: seq<Entry>, r: Request) {
    forall p: Owner, x: int :: p != r.owner && r.start <= x <= r.end ==>
      || r.kind == None
      || HeldBy(l, p, x) == None
      || (r.kind == Some(Read) && HeldBy(l, p, x) == Some(Read))
  }

  /** The tests on the list find no conflict if and only if there is none on any byte. */
  lemma FreeIsExact(l: seq<Entry>, r: Request)
    requires WellFormed(l) && r.start <= r.end
    ensures (forall i :: 0 <= i < |l| ==> !Conflicts(r, l[i])) <==> Free(l, r)
  {
    hide WellFormed, HeldBy;
    if forall i :: 0 <= i < |l| ==> !Conflicts(r, l[i]) {
      forall p: Owner, x: int | p != r.owner && r.start <= x <= r.end
        ensures r.kind == None || HeldBy(l, p, x) == None || (r.kind == Some(Read) && HeldBy(l, p, x) == Some(Read))
      {
        NoClash(l, r, p, x);
        match (r.kind, HeldBy(l, p, x)) {
          case (Some(Read), Some(Read)) =>
          case (Some(Read), Some(Write)) =>
          case (Some(Write), Some(_)) =>
          case (None, _) =>
          case (_, None) =>
        }
      }
    }
    if exists i :: 0 <= i < |l| && Conflicts(r, l[i]) {
      var i :| 0 <= i < |l| && Conflicts(r, l[i]);
      var x := if r.start > l[i].start then r.start else l[i].start;
      InOrder(l, i);
      HeldOnByte(l, i, x);
    }
  }

  lemma InOrder(l: seq<Entry>, i: nat)
    requires WellFormed(l) && i < |l| && l[i].posix
    ensures l[i].start <= l[i].end
  {
  }

  lemma HeldOnByte(l: seq<Entry>, i: nat, x: int)
    requires WellFormed(l) && i < |l| && l[i].posix && Covers(l[i], x)
    ensures HeldBy(l, l[i].owner, x) == Some(l[i].kind)
  {
    forall j | 0 <= j < i
      ensures !(Mine(l[j], l[i].owner) && Covers(l[j], x))
    {
      assert SameOwner(l[j], l[i]) ==> Apart(l[j], l[i]);
    }
    HeldAt(l, l[i].owner, x, i);
  }

  /** Lock k is the first on the list that blocks the request. */
  ghost predicate FirstBlock(l: seq<Entry>, r: Request, k: nat) {
    k < |l| && Conflicts(r, l[k]) && forall i :: 0 <= i < k ==> !Conflicts(r, l[i])
  }

  /** Block lists do not matter for who holds what. */
  lemma {:induction false} SameHeld(l: seq<Entry>, l': seq<Entry>, o: Owner, x: int)
    requires SameLocks(l, l')
    ensures HeldBy(l', o, x) == HeldBy(l, o, x)
  {
    if l != [] {
      SameHeld(l[1..], l'[1..], o, x);
    }
  }

  ghost predicate SameLocks(l: seq<Entry>, l': seq<Entry>) {
    |l'| == |l| && forall i :: 0 <= i < |l| ==> l'[i].(blocked := []) == l[i].(blocked := [])
  }

  lemma SameListOk(l: seq<Entry>, l': seq<Entry>)
    requires ListOk(l) && SameLocks(l, l') && StillBlocked(l')
    ensures ListOk(l')
  {
    forall o: Owner, x: int
      ensures HeldBy(l', o, x) == HeldBy(l, o, x)
    {
      SameHeld(l, l', o, x);
    }
    SameWellFormed(l, l');
  }

  lemma SameWellFormed(l: seq<Entry>, l': seq<Entry>)
    requires WellFormed(l) && SameLocks(l, l')
    ensures WellFormed(l')
  {
    forall i | 0 <= i < |l|
      ensures l'[i].posix == l[i].posix && l'[i].owner == l[i].owner && l'[i].kind == l[i].kind
      ensures l'[i].start == l[i].start && l'[i].end == l[i].end
    {
      assert l'[i].(blocked := []) == l[i].(blocked := []);
    }
  }

  /** Nobody waits for a lock without an owner. */
  lemma NoNullWait(l: seq<Entry>, q: Request, p: Owner)
    requires ListOk(l) && WaitsOn(l, q, p)
    ensures p != NO_OWNER
  {
    var i :| 0 <= i < |l| && q in l[i].blocked && l[i].owner == p;
    assert Conflicts(q, l[i]);
    if p == NO_OWNER {
      HeldSomewhere(l, p, i);
    }
  }

  lemma {:induction false} HeldSomewhere(l: seq<Entry>, o: Owner, i: nat)
    requires i < |l| && Mine(l[i], o) && l[i].start <= l[i].end
    ensures HeldBy(l, o, l[i].start).Some?
  {
    if i > 0 {
      HeldSomewhere(l[1..], o, i - 1);
    }
  }

  lemma {:induction false} NoNullWaits(files: seq<seq<Entry>>, q: Request, p: Owner)
    requires (forall i :: 0 <= i < |files| ==> ListOk(files[i])) && WaitsOn(Table(files), q, p)
    ensures p != NO_OWNER
  {
    hide ListOk;
    if files != [] {
      WaitsConcat([], files[0], Table(files[1..]), q, p);
      assert [] + files[0] + Table(files[1..]) == Table(files);
      if WaitsOn(files[0], q, p) {
        NoNullWait(files[0], q, p);
      } else {
        NoNullWaits(files[1..], q, p);
      }
    }
  }

  /** The first lock on the list that blocks the request. */
  method Scan(l: seq<Entry>, r: Request) returns (k: nat)
    ensures k <= |l| && forall i :: 0 <= i < k ==> !Conflicts(r, l[i])
    ensures k < |l| ==> Conflicts(r, l[k])
  {
    k := 0;
    if r.kind != None {
      while k < |l|
        invariant k <= |l| && forall i :: 0 <= i < k ==> !Conflicts(r, l[i])
      {
        if l[k].posix && Conflicts(r, l[k]) {
          return;
        }
        k := k + 1;
      }
    }
    k := |l|;
  }

  method Link(files: seq<seq<Entry>>) returns (t: seq<Entry>)
    ensures t == Table(files)
  {
    t := [];
    var k := |files|;
    while k > 0
      invariant 0 <= k <= |files| && t == Table(files[k..])
    {
      k := k - 1;
      t := files[k] + t;
      assert files[k..][1..] == files[k + 1..];
    }
    assert files[0..] == files;
  }

  /** Lock k of the inode blocks the request, and sleeping on it would close a
      cycle of waits. */
  ghost predicate ClosesCycle(files: seq<seq<Entry>>, ino: nat, k: nat, r: Request)
    requires ino < |files|
  {
    k < |files[ino]| && Conflicts(r, files[ino][k]) && !Acyclic(Table(files[ino := Asleep(files[ino], k, r)]))
  }

  datatype Outcome = Granted | Again | Deadlocked | Restart | Blocked(k: nat)

  class Locks {
    var files: seq<seq<Entry>>

    ghost predicate Valid()
      reads this
    {
      (forall i :: 0 <= i < |files| ==> ListOk(files[i])) && Quiet(Table(files))
    }

    constructor (inodes: nat)
      ensures Valid() && files == seq(inodes, _ => [])
    {
      files := seq(inodes, _ => []);
      new;
      Nothing(files);
    }

    /** posix_lock_file up to the point where it returns or goes to sleep; a
        sleeper that wakes up starts over. */
    method LockFile(ino: nat, r: Request, wait: bool, signal: bool) returns (out: Outcome, woken: seq<Request>)
      requires Valid() && ino < |files| && GoodRequest(r)
      requires r.owner !in Sleepers(Table(files))
      modifies this
      ensures |files| == old(|files|) && forall i :: 0 <= i < |files| && i != ino ==> files[i] == old(files[i])
      ensures out.Granted? <==> Free(old(files[ino]), r)
      ensures out.Granted? ==> (Valid() <==> !Wraps(old(files[ino]), r))
      ensures out.Granted? ==>
        && Accounted(old(files[ino]), files[ino], woken) && OthersSame(old(files[ino]), files[ino], r.owner)
        && LeftAlone(old(files[ino]), files[ino], r)
      ensures out.Granted? && Valid() ==> forall x ::
        HeldBy(files[ino], r.owner, x) == if r.start <= x <= r.end then r.kind else old(HeldBy(files[ino], r.owner, x))
      ensures !out.Granted? ==> Valid() && woken == []
      ensures out.Again? ==> !wait
      ensures forall k :: FirstBlock(old(files[ino]), r, k) ==>
        (out.Deadlocked? <==> wait && ClosesCycle(old(files), ino, k, r))
      ensures !out.Granted? && !out.Blocked? ==> files == old(files)
      ensures out.Restart? ==> wait && signal
      ensures out.Blocked? ==> wait && !signal && FirstBlock(old(files[ino]), r, out.k)
      ensures out.Blocked? ==> files == old(files[ino := Asleep(files[ino], out.k, r)])
    {
      hide ListOk, Quiet, Conflicts, Accounted, Wraps, OthersSame, Table, Sleepers, Acyclic, Asleep, HeldBy, Free,
        LeftAlone;
      woken := [];
      var l := files[ino];
      var k := Scan(l, r);
      ListFacts(l);
      FreeIsExact(l, r);
      if k < |l| {
        if !wait {
          return Again, [];
        }
        TableUpdate(files, ino, Asleep(l, k, r));
        var dead := Search(r.owner, l[k].owner);
        ClosedByBlock(files, ino, k, r);
        if dead {
          assert ClosesCycle(files, ino, k, r);
          return Deadlocked, [];
        }
        if signal {
          return Restart, [];
        }
        out := Blocked(k);
        SleepOk(l, k, r);
        files := files[ino := Asleep(l, k, r)];
      } else {
        out := Granted;
        var l';
        ghost var files0 := files;
        l', woken := ApplyLock(l, r);
        files := files[ino := l'];
        Grant(files0, ino, l', r, woken);
        assert files[ino] == l';
      }
    }

    method Search(caller: Owner, block: Owner) returns (dead: bool)
      requires Valid()
      ensures dead <==> Reaches(Table(files), block, caller)
    {
      hide ListOk, Reaches, Acyclic, OneWait, Table;
      var t := Link(files);
      forall q, p | WaitsOn(t, q, p)
        ensures p != NO_OWNER
      {
        NoNullWaits(files, q, p);
      }
      dead := Deadlock(t, caller, block);
    }

    /** locks_delete_block: sleeper j leaves the queue of lock k. */
    method Leave(ino: nat, k: nat, j: nat)
      requires Valid() && ino < |files| && k < |files[ino]| && j < |files[ino][k].blocked|
      modifies this
      ensures Valid()
      ensures var f := old(files[ino][k]);
        files == old(files)[ino := old(files[ino])[k := f.(blocked := f.blocked[..j] + f.blocked[j + 1..])]]
    {
      hide ListOk, Quiet, Table;
      var f := files[ino][k];
      var g := f.(blocked := f.blocked[..j] + f.blocked[j + 1..]);
      Left(files, ino, k, j, g);
      files := files[ino := files[ino][k := g]];
    }
  }

  lemma Nothing(files: seq<seq<Entry>>)
    requires forall i :: 0 <= i < |files| ==> files[i] == []
    ensures Quiet(Table(files)) && forall i :: 0 <= i < |files| ==> ListOk(files[i])
  {
    hide Table;
    NoLocks(files);
    assert ListOk([]);
  }

  lemma {:induction false} NoLocks(files: seq<seq<Entry>>)
    requires forall i :: 0 <= i < |files| ==> files[i] == []
    ensures Table(files) == []
  {
    if files != [] {
      NoLocks(files[1..]);
    }
  }

  lemma ListFacts(l: seq<Entry>)
    requires ListOk(l)
    ensures WellFormed(l)
  {
  }

  lemma SleepOk(l: seq<Entry>, k: nat, r: Request)
    requires ListOk(l) && k < |l| && Conflicts(r, l[k])
    ensures ListOk(Asleep(l, k, r))
  {
    hide ListOk, WellFormed, HeldBy, Compatible;
    assert StillBlocked(l) by { StillFact(l); }
    SameListOk(l, Asleep(l, k, r));
  }

  lemma StillFact(l: seq<Entry>)
    requires ListOk(l)
    ensures StillBlocked(l)
  {
  }

  lemma ClosedByBlock(files: seq<seq<Entry>>, ino: nat, k: nat, r: Request)
    requires ino < |files| && k < |files[ino]| && Quiet(Table(files)) && r.owner !in Sleepers(Table(files))
    ensures var t := Table(files[ino := Asleep(files[ino], k, r)]);
      && (Quiet(t) <==> !Reaches(Table(files), files[ino][k].owner, r.owner))
      && (!Acyclic(t) <==> Reaches(Table(files), files[ino][k].owner, r.owner))
  {
    hide Table, Asleep, Acyclic, Reaches, Sleepers;
    var l := files[ino];
    TableUpdate(files, ino, Asleep(l, k, r));
    QuietAsleep(Table(files[..ino]), l, Table(files[ino + 1..]), k, r);
  }

  lemma Grant(files: seq<seq<Entry>>, ino: nat, l: seq<Entry>, r: Request, woken: seq<Request>)
    requires ino < |files| && (forall i :: 0 <= i < |files| ==> ListOk(files[i])) && Quiet(Table(files))
    requires GoodRequest(r)
    requires Accounted(files[ino], l, woken) && OthersSame(files[ino], l, r.owner)
    requires forall i :: 0 <= i < |files[ino]| ==> !Conflicts(r, files[ino][i])
    requires WellFormed(l) <==> !Wraps(files[ino], r)
    requires !Wraps(files[ino], r) ==> forall x ::
      HeldBy(l, r.owner, x) == if r.start <= x <= r.end then r.kind else HeldBy(files[ino], r.owner, x)
    ensures ListOk(l) <==> !Wraps(files[ino], r)
    ensures Quiet(Table(files[ino := l]))
  {
    hide Wraps, HeldBy, WellFormed, Conflicts, Table, AllBlocked, StillBlocked, Quiet, Compatible;
    if !Wraps(files[ino], r) {
      CompatibleUpdate(files[ino], l, r);
    }
    TableUpdate(files, ino, l);
    QuietLess(Table(files[..ino]), files[ino], l, Table(files[ino + 1..]));
  }

  lemma Left(files: seq<seq<Entry>>, ino: nat, k: nat, j: nat, g: Entry)
    requires ino < |files| && ListOk(files[ino]) && Quiet(Table(files))
    requires k < |files[ino]| && j < |files[ino][k].blocked|
    requires var f := files[ino][k]; g == f.(blocked := f.blocked[..j] + f.blocked[j + 1..])
    ensures ListOk(files[ino][k := g]) && Quiet(Table(files[ino := files[ino][k := g]]))
  {
    hide ListOk, Quiet, Table, WellFormed, Compatible;
    var l := files[ino];
    var l' := l[k := g];
    StillFact(l);
    assert forall q :: q in g.blocked ==> q in l[k].blocked;
    SameListOk(l, l');
    LessBlocked(l, k, j, g);
    WaitsFrom(l, l, l');
    TableUpdate(files, ino, l');
    QuietLess(Table(files[..ino]), l, l', Table(files[ino + 1..]));
  }

  lemma LessBlocked(l: seq<Entry>, k: nat, j: nat, g: Entry)
    requires k < |l| && j < |l[k].blocked|
    requires g.blocked == l[k].blocked[..j] + l[k].blocked[j + 1..]
    ensures AllBlocked(l[k := g]) <= AllBlocked(l)
  {
    hide AllBlocked;
    BlockedSplit(l, k);
    BlockedSplit(l[k := g], k);
    assert l[k := g][..k] == l[..k] && l[k := g][k + 1..] == l[k + 1..];
    var b := l[k].blocked;
    assert b == b[..j] + [b[j]] + b[j + 1..];
    assert multiset(b) == multiset(b[..j]) + multiset{b[j]} + multiset(b[j + 1..]);
  }

  /** A lock that reaches to the largest offset is where the list can break: the
      addition in off_t wraps, and a touching lock of the same kind is not merged. */
  lemma WrapExample()
    ensures var l := [Entry(true, 1, Read, 0, 9, []), Entry(true, 1, Write, 20, 29, [])];
      ListOk(l) && GoodRequest(Request(1, Some(Read), 5, OFFSET_MAX)) && Wraps(l, Request(1, Some(Read), 5, OFFSET_MAX))
  {
    var l := [Entry(true, 1, Read, 0, 9, []), Entry(true, 1, Write, 20, 29, [])];
    assert Mine(l[0], 1) && l[0].end >= 5 - 1;
    forall o: Owner, x: int | o != 1
      ensures HeldBy(l, o, x) == None
    {
      HeldNone(l, o, x);
    }
  }
}
