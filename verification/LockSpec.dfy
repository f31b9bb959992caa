/** POSIX record locks of fs/locks.c: the entries of an inode's lock list, the
    conflict predicates, and what a list means byte by byte. */
module LockSpec {
  import opened Options

  /** The pair (fl_owner, fl_pid) that locks_same_owner compares. */
  type Owner = nat

  datatype Kind = Read | Write

  /** off_t is 32 bits wide. */
  const OFFSET_MAX := 0x7fff_ffff

  /** A request: kind None is F_UNLCK. */
  datatype Request = Request(owner: Owner, kind: Option<Kind>, start: int, end: int)

  /** struct file_lock on a list, with the requests that wait for it by time of
      arrival. */
  datatype Entry = Entry(posix: bool, owner: Owner, kind: Kind, start: int, end: int, blocked: seq<Request>)

  predicate Mine(f: Entry, o: Owner) {
    f.posix && f.owner == o
  }

  /** locks_overlap */
  predicate Overlap(a: int, b: int, c: int, d: int) {
    b >= c && d >= a
  }

  predicate Clash(k: Option<Kind>, f: Kind) {
    match k
    case None => false
    case Some(Read) => f == Write
    case Some(Write) => true
  }

  /** posix_locks_conflict(r, f) */
  predicate Conflicts(r: Request, f: Entry) {
    f.posix && f.owner != r.owner && Overlap(r.start, r.end, f.start, f.end) && Clash(r.kind, f.kind)
  }

  predicate Covers(f: Entry, x: int) {
    f.start <= x <= f.end
  }

  /** The kind of lock an owner holds on byte x. */
  function HeldBy(l: seq<Entry>, o: Owner, x: int): Option<Kind> {
    if l == [] then None
    else if Mine(l[0], o) && Covers(l[0], x) then Some(l[0].kind)
    else HeldBy(l[1..], o, x)
  }

  /** Two neighbours in an owner's run: in order, apart, and not mergeable. */
  predicate Apart(f: Entry, g: Entry) {
    f.end < g.start && (f.kind == g.kind ==> f.end + 1 < g.start)
  }

  /** The entries of one owner: sorted by address, disjoint, merged as far as possible. */
  ghost predicate Normal(run: seq<Entry>, o: Owner) {
    && (forall i :: 0 <= i < |run| ==> Mine(run[i], o) && 0 <= run[i].start <= run[i].end <= OFFSET_MAX)
    && (forall i, j :: 0 <= i < j < |run| ==> Apart(run[i], run[j]))
  }

  /** fl_owner of a lock made by flock(). */
  const NO_OWNER: Owner := 0

  predicate SameOwner(f: Entry, g: Entry) {
    f.posix && g.posix && f.owner == g.owner
  }

  /** Every owner's locks stand together in the list, sorted by address,
      disjoint, and merged as far as possible. */
  ghost predicate WellFormed(l: seq<Entry>) {
    && (forall i :: 0 <= i < |l| ==>
      if l[i].posix then 0 <= l[i].start <= l[i].end <= OFFSET_MAX else l[i].owner == NO_OWNER)
    && (forall i, j :: 0 <= i < j < |l| && SameOwner(l[i], l[j]) ==> Apart(l[i], l[j]))
    && (forall i, j, k :: 0 <= i < j < k < |l| && SameOwner(l[i], l[k]) ==> SameOwner(l[i], l[j]))
  }

  lemma {:induction false} HeldConcat(p: seq<Entry>, q: seq<Entry>, o: Owner, x: int)
    ensures HeldBy(p + q, o, x) == if HeldBy(p, o, x).Some? then HeldBy(p, o, x) else HeldBy(q, o, x)
  {
    if p == [] {
      assert p + q == q;
    } else {
      assert (p + q)[1..] == p[1..] + q;
      HeldConcat(p[1..], q, o, x);
    }
  }

  lemma {:induction false} HeldNone(l: seq<Entry>, o: Owner, x: int)
    requires forall i :: 0 <= i < |l| ==> !(Mine(l[i], o) && Covers(l[i], x))
    ensures HeldBy(l, o, x) == None
  {
    if l != [] {
      HeldNone(l[1..], o, x);
    }
  }

  /** In a run in normal form the entry that covers a byte decides. */
  lemma {:induction false} HeldAt(l: seq<Entry>, o: Owner, x: int, i: nat)
    requires i < |l| && Mine(l[i], o) && Covers(l[i], x)
    requires forall j :: 0 <= j < i ==> !(Mine(l[j], o) && Covers(l[j], x))
    ensures HeldBy(l, o, x) == Some(l[i].kind)
  {
    if i > 0 {
      HeldAt(l[1..], o, x, i - 1);
    }
  }

  lemma {:induction false} HeldSome(l: seq<Entry>, o: Owner, x: int) returns (i: nat)
    requires HeldBy(l, o, x).Some?
    ensures i < |l| && Mine(l[i], o) && Covers(l[i], x) && HeldBy(l, o, x) == Some(l[i].kind)
  {
    if Mine(l[0], o) && Covers(l[0], x) {
      i := 0;
    } else {
      i := HeldSome(l[1..], o, x);
      i := i + 1;
    }
  }

  /** All sleeping requests of a list. */
  function AllBlocked(l: seq<Entry>): multiset<Request> {
    if l == [] then multiset{} else multiset(l[0].blocked) + AllBlocked(l[1..])
  }

  lemma {:induction false} BlockedConcat(p: seq<Entry>, q: seq<Entry>)
    ensures AllBlocked(p + q) == AllBlocked(p) + AllBlocked(q)
  {
    if p == [] {
      assert p + q == q;
    } else {
      assert (p + q)[1..] == p[1..] + q;
      BlockedConcat(p[1..], q);
    }
  }

  /** Every sleeping request conflicts with the lock on whose block list it is. */
  ghost predicate StillBlocked(l: seq<Entry>) {
    forall i, w :: 0 <= i < |l| && w in l[i].blocked ==> Conflicts(w, l[i])
  }

  /** No byte is held by two owners with one of them writing. */
  ghost predicate Compatible(l: seq<Entry>) {
    forall o: Owner, p: Owner, x: int :: o != p && HeldBy(l, o, x) == Some(Write) ==> HeldBy(l, p, x) == None
  }

  /** Request q sleeps on a lock of owner p. */
  ghost predicate WaitsOn(l: seq<Entry>, q: Request, p: Owner) {
    exists i :: 0 <= i < |l| && q in l[i].blocked && l[i].owner == p
  }
}
