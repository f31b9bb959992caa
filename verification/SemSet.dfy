/** A semaphore set of ipc/sem.c: the values, the undo structures and the queue
    of sleeping operations. */
module SemSet {
  import opened SemQueue
  import opened SemSpec

  /** struct sem_undo of one process. */
  datatype Undo = Undo(owner: nat, adj: seq<int>)

  const EFBIG := 27

  /** What has happened to the set. */
  datatype Event =
    | Batch(owner: nat, ops: seq<Op>, turns: seq<int>)
    | Reset(n: nat, val: int)
    | ResetAll(vals: seq<int>)
    | Clamped(owner: nat, amounts: seq<int>)

  /** What value and adjustments of semaphore n come to: what it was set to, plus
      the operations without SEM_UNDO, plus what an exit had to clamp. */
  function Balance(log: seq<Event>, n: nat): int {
    if log == [] then 0
    else
      var b := Balance(log[..|log| - 1], n);
      match log[|log| - 1]
      case Batch(_, ops, _) => b + Delta(ops, n) - DeltaUndo(ops, n)
      case Reset(m, val) => if m == n then val else b
      case ResetAll(vals) => if n < |vals| then vals[n] else b
      case Clamped(_, amounts) => if n < |amounts| then b + amounts[n] else b
  }

  /** How often adjustments of semaphore n went around since it was set. */
  function Carried(log: seq<Event>, n: nat): int {
    if log == [] then 0
    else
      var c := Carried(log[..|log| - 1], n);
      match log[|log| - 1]
      case Batch(_, _, turns) => if n < |turns| then c + turns[n] else c
      case Reset(m, _) => if m == n then 0 else c
      case ResetAll(vals) => if n < |vals| then 0 else c
      case Clamped(_, _) => c
  }

  /** What the operations with SEM_UNDO of a process have added to semaphore n since it was
      set, and since the process came to be. */
  function Owed(log: seq<Event>, owner: nat, n: nat): int {
    if log == [] then 0
    else
      var d := Owed(log[..|log| - 1], owner, n);
      match log[|log| - 1]
      case Batch(p, ops, _) => if p == owner then d + DeltaUndo(ops, n) else d
      case Reset(m, _) => if m == n then 0 else d
      case ResetAll(vals) => if n < |vals| then 0 else d
      case Clamped(p, _) => if p == owner then 0 else d
  }

  lemma LogStep(log: seq<Event>, e: Event)
    ensures (log + [e])[..|log|] == log && (log + [e])[|log|] == e
  {
  }

  /** As long as no adjustment leaves the range of a short, none is carried. */
  lemma {:induction false} NothingCarried(log: seq<Event>, n: nat)
    requires forall k :: 0 <= k < |log| && log[k].Batch? && n < |log[k].turns| ==> log[k].turns[n] == 0
    ensures Carried(log, n) == 0
  {
    if log != [] {
      NothingCarried(log[..|log| - 1], n);
    }
  }

  /** The sum of all live adjustments of semaphore n. */
  function SumAdj(undo: seq<Undo>, n: nat): int {
    if undo == [] then 0
    else SumAdj(undo[1..], n) + (if n < |undo[0].adj| then undo[0].adj[n] else 0)
  }

  function AdjOf(u: Undo, n: nat): int {
    if n < |u.adj| then u.adj[n] else 0
  }

  lemma {:induction false} SumUpdate(undo: seq<Undo>, k: nat, u: Undo, n: nat)
    requires k < |undo|
    ensures SumAdj(undo[k := u], n) == SumAdj(undo, n) + AdjOf(u, n) - AdjOf(undo[k], n)
  {
    if k > 0 {
      assert undo[k := u][1..] == undo[1..][k - 1 := u];
      SumUpdate(undo[1..], k - 1, u, n);
    } else {
      assert undo[k := u][1..] == undo[1..];
    }
  }

  lemma {:induction false} SumRemove(undo: seq<Undo>, k: nat, n: nat)
    requires k < |undo|
    ensures SumAdj(undo[..k] + undo[k + 1..], n) == SumAdj(undo, n) - AdjOf(undo[k], n)
  {
    var r := undo[..k] + undo[k + 1..];
    if k > 0 {
      assert r[1..] == undo[1..][..k - 1] + undo[1..][k..];
      SumRemove(undo[1..], k - 1, n);
    } else {
      assert r == undo[1..];
    }
  }

  /** Undo structures: one per process, each adjustment a short. */
  ghost predicate UndoOk(undo: seq<Undo>, nsems: nat) {
    && (forall k :: 0 <= k < |undo| ==> |undo[k].adj| == nsems && Shorts(undo[k].adj))
    && (forall j, k :: 0 <= j < k < |undo| ==> undo[j].owner != undo[k].owner)
  }

  /** A batch may use the undo structure at un. */
  ghost predicate CanUndo(undo: seq<Undo>, ops: seq<Op>, un: int) {
    -1 <= un < |undo| && (un < 0 ==> forall k :: 0 <= k < |ops| ==> !ops[k].undo)
  }

  /** A sleeping batch refers to semaphores of the set, and its process has an undo
      structure if it needs one. */
  ghost predicate WaiterOk(w: Waiter, undo: seq<Undo>, nsems: nat) {
    && (forall k :: 0 <= k < |w.ops| ==> w.ops[k].num < nsems)
    && ((exists k :: 0 <= k < |w.ops| && w.ops[k].undo) ==> exists u :: 0 <= u < |undo| && undo[u].owner == w.owner)
    && (w.alter <==> Decrements(w.ops)) && (w.status == 1 ==> w.alter)
  }

  /** Value plus adjustments of every semaphore are what the log says. */
  ghost predicate Accounted(val: seq<int>, undo: seq<Undo>, log: seq<Event>) {
    forall n: nat :: n < |val| ==> val[n] + SumAdj(undo, n) == Balance(log, n) - 65536 * Carried(log, n)
  }

  /** The adjustments of each process take back what it owes, as far as a short can. */
  ghost predicate Charged(undo: seq<Undo>, log: seq<Event>, nsems: nat) {
    && (forall k: nat, n: nat :: k < |undo| && n < nsems ==> ChargedAt(undo, log, k, n))
    && (forall owner: nat, n: nat :: n < nsems ==> Owed(log, owner, n) == 0 || Known(undo, owner))
  }

  ghost predicate ChargedAt(undo: seq<Undo>, log: seq<Event>, k: nat, n: nat)
    requires k < |undo|
  {
    n < |undo[k].adj| && undo[k].adj[n] == Short(-Owed(log, undo[k].owner, n))
  }

  ghost predicate Known(undo: seq<Undo>, owner: nat) {
    exists k :: 0 <= k < |undo| && undo[k].owner == owner
  }

  ghost function TurnsOf(adj: seq<int>, ops: seq<Op>): seq<int> {
    seq(|adj|, n requires 0 <= n < |adj| => Turns(adj[n] - DeltaUndo(ops, n)))
  }

  /** The undo structures after a batch has been done. */
  function UndoAfter(undo: seq<Undo>, un: int, ops: seq<Op>): seq<Undo>
    requires -1 <= un < |undo|
  {
    if un < 0 then undo else undo[un := undo[un].(adj := AdjAfter(undo[un].adj, ops))]
  }

  ghost function BatchEvent(undo: seq<Undo>, un: int, owner: nat, ops: seq<Op>): (e: Event)
    requires -1 <= un < |undo|
    ensures e.Batch? && e.owner == owner && e.ops == ops
  {
    Batch(owner, ops, if un < 0 then [] else TurnsOf(undo[un].adj, ops))
  }

  /** A batch that has been done is accounted for. */
  lemma BatchAccounted(val: seq<int>, undo: seq<Undo>, log: seq<Event>, un: int, owner: nat, ops: seq<Op>)
    requires Accounted(val, undo, log) && UndoOk(undo, |val|) && CanUndo(undo, ops, un)
    ensures Accounted(ValAfter(val, ops), UndoAfter(undo, un, ops), log + [BatchEvent(undo, un, owner, ops)])
    ensures UndoOk(UndoAfter(undo, un, ops), |val|)
  {
    hide UndoAfter, ValAfter, UndoOk, SumAdj;
    var log' := log + [BatchEvent(undo, un, owner, ops)];
    forall n: nat | n < |val|
      ensures ValAfter(val, ops)[n] + SumAdj(UndoAfter(undo, un, ops), n) ==
        Balance(log', n) - 65536 * Carried(log', n)
    {
      BatchAt(val, undo, log, un, owner, ops, n);
    }
    UndoStays(undo, |val|, un, ops);
  }

  lemma BatchAt(val: seq<int>, undo: seq<Undo>, log: seq<Event>, un: int, owner: nat, ops: seq<Op>, n: nat)
    requires Accounted(val, undo, log) && UndoOk(undo, |val|) && CanUndo(undo, ops, un) && n < |val|
    ensures var e := BatchEvent(undo, un, owner, ops);
      ValAfter(val, ops)[n] + SumAdj(UndoAfter(undo, un, ops), n) ==
        Balance(log + [e], n) - 65536 * Carried(log + [e], n)
  {
    hide SumAdj;
    LogStep(log, BatchEvent(undo, un, owner, ops));
    if un < 0 {
      NoUndo(ops, n);
    } else {
      SumUpdate(undo, un, undo[un].(adj := AdjAfter(undo[un].adj, ops)), n);
      ShortTurns(undo[un].adj[n] - DeltaUndo(ops, n));
    }
  }

  /** A batch is charged to its own process. */
  lemma BatchCharged(undo: seq<Undo>, log: seq<Event>, nsems: nat, un: int, owner: nat, ops: seq<Op>)
    requires Charged(undo, log, nsems) && UndoOk(undo, nsems) && CanUndo(undo, ops, un)
    requires un >= 0 ==> undo[un].owner == owner
    ensures Charged(UndoAfter(undo, un, ops), log + [BatchEvent(undo, un, owner, ops)], nsems)
  {
    hide Owed, DeltaUndo, Short;
    var log' := log + [BatchEvent(undo, un, owner, ops)];
    var u := UndoAfter(undo, un, ops);
    forall p: nat, n: nat
      ensures Owed(log', p, n) == Owed(log, p, n) + if p == owner then DeltaUndo(ops, n) else 0
      ensures un < 0 ==> DeltaUndo(ops, n) == 0
    {
      OwedMore(log, BatchEvent(undo, un, owner, ops), p, n);
      if un < 0 {
        NoUndo(ops, n);
      }
    }
    forall k: nat, n: nat | k < |u| && n < nsems
      ensures ChargedAt(u, log', k, n)
    {
      assert ChargedAt(undo, log, k, n);
      if k == un {
        ShortSum(-Owed(log, owner, n), -DeltaUndo(ops, n));
      }
    }
    forall p: nat | Known(undo, p)
      ensures Known(u, p)
    {
      var k :| 0 <= k < |undo| && undo[k].owner == p;
      assert u[k].owner == p;
    }
  }

  lemma OwedMore(log: seq<Event>, e: Event, p: nat, n: nat)
    requires e.Batch?
    ensures Owed(log + [e], p, n) == Owed(log, p, n) + if p == e.owner then DeltaUndo(e.ops, n) else 0
  {
    LogStep(log, e);
  }

  lemma UndoStays(undo: seq<Undo>, nsems: nat, un: int, ops: seq<Op>)
    requires UndoOk(undo, nsems) && -1 <= un < |undo|
    ensures UndoOk(UndoAfter(undo, un, ops), nsems)
  {
    if un >= 0 {
      forall n: nat | n < nsems
        ensures IsShort(AdjAfter(undo[un].adj, ops)[n])
      {
        ShortOf(undo[un].adj[n] - DeltaUndo(ops, n));
      }
    }
  }

  lemma {:induction false} NoUndo(ops: seq<Op>, n: nat)
    requires forall k :: 0 <= k < |ops| ==> !ops[k].undo
    ensures DeltaUndo(ops, n) == 0
  {
    if ops != [] {
      NoUndo(ops[..|ops| - 1], n);
    }
  }

  class Sems {
    const base: array<int>
    var undo: seq<Undo>
    var pending: seq<Waiter>
    ghost var log: seq<Event>

    ghost predicate Valid()
      reads this, base
    {
      && (forall n :: 0 <= n < base.Length ==> base[n] >= 0)
      && UndoOk(undo, base.Length) && Accounted(base[..], undo, log) && Charged(undo, log, base.Length)
      && forall k :: 0 <= k < |pending| ==> WaiterOk(pending[k], undo, base.Length)
    }

    /** The values and the queue. */
    ghost function Now(): SetState
      reads this, base
    {
      SetState(base[..], pending)
    }

    constructor (nsems: nat)
      ensures Valid() && fresh(base) && base.Length == nsems && (forall n :: 0 <= n < nsems ==> base[n] == 0)
      ensures undo == [] && pending == [] && log == []
    {
      base := new int[nsems](_ => 0);
      undo, pending, log := [], [], [];
    }

    /** The loop of try_atomic_semop that does the operations; it stops behind the
        first that cannot be done. */
    method DoOps(ops: seq<Op>, un: int) returns (result: int, done: nat)
      requires UndoOk(undo, base.Length) && CanUndo(undo, ops, un) && InSet(base[..], ops)
      modifies base, this`undo
      ensures result == 0 ==> done == |ops| && Succeeds(old(base[..]), ops)
      ensures result != 0 ==> && 0 < done <= |ops| && FailsAt(old(base[..]), ops, done - 1)
                              && result == Code(old(base[..]), ops, done - 1)
      ensures base[..] == ValAfter(old(base[..]), ops[..done]) && undo == UndoAfter(old(undo), un, ops[..done])
    {
      hide UndoAfter, ValAfter, UndoOk;
      ghost var val, undo0 := base[..], undo;
      Unchanged(val, undo, un);
      var k := 0;
      while k < |ops|
        invariant 0 <= k <= |ops| && InSet(val, ops) && |val| == base.Length
        invariant base[..] == ValAfter(val, ops[..k]) && undo == UndoAfter(undo0, un, ops[..k])
        invariant forall j: nat :: j < k ==> Passes(val, ops, j)
      {
        var o := ops[k];
        NowAt(val, undo0, un, ops, k);
        DoOne(val, undo0, un, ops, k);
        assert base[o.num] == base[..][o.num];
        if o.op == 0 && base[o.num] != 0 {
          return if o.nowait then -EAGAIN else 1, k + 1;
        }
        base[o.num] := base[o.num] + o.op;
        if o.undo {
          undo := undo[un := undo[un].(adj := undo[un].adj[o.num := Short(undo[un].adj[o.num] - o.op)])];
        }
        assert base[..] == ValAfter(val, ops[..k + 1]);
        if base[o.num] < 0 {
          return if o.nowait then -EAGAIN else 1, k + 1;
        }
        if base[o.num] > SEMVMX {
          return -ERANGE, k + 1;
        }
        k := k + 1;
      }
      result, done := 0, k;
    }

    /** try_atomic_semop, with the undo structure at un (-1: none). */
    method TryAtomicSemop(ops: seq<Op>, un: int, doUndo: bool) returns (result: int)
      requires UndoOk(undo, base.Length) && CanUndo(undo, ops, un) && InSet(base[..], ops)
      modifies base, this`undo
      ensures result == 0 <==> Succeeds(old(base[..]), ops)
      ensures result != 0 ==> exists k: nat :: FailsAt(old(base[..]), ops, k) && result == Code(old(base[..]), ops, k)
      ensures result == 0 && !doUndo ==>
        base[..] == ValAfter(old(base[..]), ops) && undo == UndoAfter(old(undo), un, ops)
      ensures result != 0 || doUndo ==> base[..] == old(base[..]) && undo == old(undo)
    {
      hide UndoAfter, ValAfter, UndoOk, CanUndo;
      var done;
      result, done := DoOps(ops, un);
      assert result == 0 ==> ops[..done] == ops;
      if result != 0 || doUndo {
        UndoOps(ops, un, done, old(base[..]), old(undo));
      }
    }

    /** The loop that takes the first k operations back. */
    method UndoOps(ops: seq<Op>, un: int, k0: nat, ghost val: seq<int>, ghost undo0: seq<Undo>)
      requires UndoOk(undo0, base.Length) && CanUndo(undo0, ops, un) && InSet(val, ops) && |val| == base.Length
      requires k0 <= |ops|
      requires base[..] == ValAfter(val, ops[..k0]) && undo == UndoAfter(undo0, un, ops[..k0])
      modifies base, this`undo
      ensures base[..] == val && undo == undo0
    {
      hide UndoAfter, ValAfter, UndoOk;
      var k := k0;
      while k > 0
        invariant 0 <= k <= |ops| && base[..] == ValAfter(val, ops[..k]) && undo == UndoAfter(undo0, un, ops[..k])
      {
        k := k - 1;
        var o := ops[k];
        NowAt(val, undo0, un, ops, k + 1);
        UndoOne(val, undo0, un, ops, k);
        assert base[o.num] == base[..][o.num];
        base[o.num] := base[o.num] - o.op;
        if o.undo {
          undo := undo[un := undo[un].(adj := undo[un].adj[o.num := Short(undo[un].adj[o.num] + o.op)])];
        }
        assert base[..] == ValAfter(val, ops[..k]);
      }
      assert ops[..0] == [];
      Unchanged(val, undo0, un);
    }

    /** A try that goes into the log when the batch has been done. */
    method Attempt(ops: seq<Op>, un: int, doUndo: bool, ghost owner: nat) returns (result: int)
      requires Valid() && CanUndo(undo, ops, un) && InSet(base[..], ops) && (un >= 0 ==> undo[un].owner == owner)
      modifies base, this`undo, this`log
      ensures Valid() && Owners(undo) == Owners(old(undo))
      ensures result == 0 <==> Succeeds(old(base[..]), ops)
      ensures result > 0 <==> Waits(old(base[..]), ops)
      ensures result != 0 ==> exists k: nat :: FailsAt(old(base[..]), ops, k) && result == Code(old(base[..]), ops, k)
      ensures result == 0 && !doUndo ==>
        base[..] == ValAfter(old(base[..]), ops) && undo == UndoAfter(old(undo), un, ops)
      ensures result != 0 || doUndo ==> base[..] == old(base[..]) && undo == old(undo)
      ensures log == if result == 0 && !doUndo then old(log) + [BatchEvent(old(undo), un, owner, ops)] else old(log)
    {
      hide UndoAfter, ValAfter, UndoOk, Accounted, Charged, WaiterOk, BatchEvent, Owners, Succeeds;
      ghost var val, undo0 := base[..], undo;
      assert forall n :: 0 <= n < |val| ==> val[n] == base[n];
      result := TryAtomicSemop(ops, un, doUndo);
      WaitsIs(val, ops, result);
      if result == 0 && !doUndo {
        BatchAccounted(val, undo0, log, un, owner, ops);
        BatchCharged(undo0, log, base.Length, un, owner, ops);
        log := log + [BatchEvent(undo0, un, owner, ops)];
        BatchPositive(val, ops);
        SameOwners(undo0, un, ops);
        StillOk(pending, undo0, undo, base.Length);
        assert forall n :: 0 <= n < base.Length ==> base[n] == base[..][n];
      } else {
        assert forall n :: 0 <= n < base.Length ==> base[n] == base[..][n];
      }
    }

    /** The undo structure of a process, or -1. */
    method UndoIndex(owner: nat) returns (un: int)
      ensures -1 <= un < |undo| && (un >= 0 ==> undo[un].owner == owner)
      ensures un < 0 ==> forall k :: 0 <= k < |undo| ==> undo[k].owner != owner
    {
      un := 0;
      while un < |undo|
        invariant 0 <= un <= |undo| && forall k :: 0 <= k < un ==> undo[k].owner != owner
      {
        if undo[un].owner == owner {
          return;
        }
        un := un + 1;
      }
      un := -1;
    }

    /** One round of update_queue, for the sleeper at k. */
    method TryNext(k0: nat) returns (stop: bool, k: nat, ghost done: seq<Work>)
      requires Valid() && k0 < |pending|
      modifies base, this
      ensures Valid() && Owners(undo) == Owners(old(undo)) && Records(old(log), log, done)
      ensures k <= |pending| && (!stop ==> |pending| - k < |old(pending)| - k0)
      ensures (if stop then Now() else Left(base[..], pending, k)) == Left(old(base[..]), old(pending), k0)
      ensures done + (if stop then [] else Finished(base[..], pending[k..])) ==
        Finished(old(base[..]), old(pending[k0..]))
    {
      hide UndoOk, Accounted, Charged, Owners, ValAfter, UndoAfter, BatchEvent, Succeeds, Waits, Left, Finished,
        Records;
      SweepStep(base[..], pending, k0);
      NoRecords(log);
      k, done := k0, [];
      if pending[k].status == 1 {
        return true, k, done;
      }
      var un := UndoIndex(pending[k].owner);
      MayTry(pending[k], undo, base[..], un);
      var error := Attempt(pending[k].ops, un, pending[k].alter, pending[k].owner);
      stop := false;
      if error <= 0 {
        if error == 0 && pending[k].alter {
          pending := pending[k := pending[k].(status := 1)];
          return true, k, done;
        }
        if error == 0 {
          done := [Work(pending[k].owner, pending[k].ops)];
          OneRecord(old(log), BatchEvent(old(undo), un, pending[k].owner, pending[k].ops));
        }
        pending := pending[..k] + pending[k + 1..];
      } else {
        k := k + 1;
      }
    }

    /** update_queue */
    method UpdateQueue()
      requires Valid()
      modifies base, this
      ensures Valid() && Owners(undo) == Owners(old(undo))
      ensures Now() == Sweep(old(base[..]), old(pending))
      ensures Records(old(log), log, Finished(old(base[..]), old(pending)))
    {
      hide UndoOk, Accounted, Charged, Owners, Left, WaiterOk, Records, Finished;
      var k: nat := 0;
      ghost var done: seq<Work> := [];
      SweepBegins(base[..], pending);
      NoRecords(log);
      assert pending[0..] == pending && [] + Finished(base[..], pending) == Finished(base[..], pending);
      while k < |pending|
        invariant Valid() && k <= |pending| && Owners(undo) == Owners(old(undo)) && Records(old(log), log, done)
        invariant Left(base[..], pending, k) == Sweep(old(base[..]), old(pending))
        invariant done + Finished(base[..], pending[k..]) == Finished(old(base[..]), old(pending))
        decreases |pending| - k
      {
        ghost var log1 := log;
        var stop;
        ghost var more, rest;
        stop, k, more := TryNext(k);
        rest := if stop then [] else Finished(base[..], pending[k..]);
        MoreRecords(old(log), log1, log, done, more);
        assert done + (more + rest) == (done + more) + rest;
        done := done + more;
        if stop {
          assert done + [] == done;
          return;
        }
      }
      SweepEnds(base[..], pending);
      NoneFinished(base[..], pending, k);
      assert done + [] == done;
    }

    /** sys_semop up to the point where it returns or goes to sleep. */
    method SemOp(owner: nat, ops: seq<Op>) returns (error: int, sleeps: bool)
      requires Valid()
      modifies base, this
      ensures Valid()
      ensures ops == [] ==> error == -EINVAL
      ensures !InSet(old(base[..]), ops) ==> error == -EFBIG
      ensures ops != [] && InSet(old(base[..]), ops) ==> Answers(error, old(base[..]), ops)
      ensures sleeps <==> error > 0
      ensures sleeps <==> ops != [] && InSet(old(base[..]), ops) && Waits(old(base[..]), ops)
      ensures Now() == After(old(Now()), Do(owner, ops)) && Records(old(log), log, Finishes(old(Now()), Do(owner, ops)))
    {
      hide UndoOk, Accounted, Charged, Owners, Succeeds, CanUndo, WaiterOk, Records, Finished, Sweep, Answers, Waits;
      NoRecords(log);
      if ops == [] {
        return -EINVAL, false;
      }
      var ok, undos, decrease, alter := Inspect(ops);
      if !ok {
        return -EFBIG, false;
      }
      var un := FindUndo(owner, undos);
      MayUse(undo, owner, ops, un);
      error, sleeps := Submit(owner, ops, un, decrease, alter);
    }

    /** The undo structure for a batch, a new one if the process has none, or -1 if the
        batch needs none. */
    method FindUndo(owner: nat, undos: bool) returns (un: int)
      requires Valid()
      modifies this`undo
      ensures Valid() && (un < 0 <==> !undos) && -1 <= un < |undo| && (un >= 0 ==> undo[un].owner == owner)
    {
      hide UndoOk, Accounted, Charged, WaiterOk;
      un := -1;
      if undos {
        un := UndoIndex(owner);
        if un < 0 {
          un := AllocUndo(owner);
        }
      }
    }

    /** The rest of sys_semop: the batch is tried, and queued if it has to wait. */
    method Submit(owner: nat, ops: seq<Op>, un: int, decrease: bool, alter: bool) returns (error: int, sleeps: bool)
      requires Valid() && ops != [] && InSet(base[..], ops) && -1 <= un < |undo| && CanUndo(undo, ops, un)
      requires un >= 0 ==> undo[un].owner == owner
      requires (decrease <==> Decrements(ops)) && (alter <==> !AddsNothing(ops))
      modifies base, this
      ensures Valid() && Answers(error, old(base[..]), ops) && (sleeps <==> error > 0)
      ensures Now() == After(old(Now()), Do(owner, ops)) && Records(old(log), log, Finishes(old(Now()), Do(owner, ops)))
      ensures sleeps <==> Waits(old(base[..]), ops)
    {
      hide UndoOk, Accounted, Charged, Owners, ValAfter, UndoAfter, BatchEvent, Succeeds, CanUndo, WaiterOk, Records,
        Finished, Sweep, Waits, AddsNothing, Decrements;
      NoRecords(log);
      ghost var undo0 := undo;
      error := Attempt(ops, un, false, owner);
      sleeps := error > 0;
      ghost var log1, own := log, Own(old(base[..]), owner, ops);
      OwnRecord(old(log), log1, BatchEvent(undo0, un, owner, ops), old(base[..]), error);
      assert own + [] == own;
      if sleeps {
        NewWaiter(undo, owner, ops, un, base[..], Waiter(owner, ops, decrease, -EINTR));
        if alter {
          pending := pending + [Waiter(owner, ops, decrease, -EINTR)];
        } else {
          pending := [Waiter(owner, ops, decrease, -EINTR)] + pending;
        }
      } else if alter {
        ghost var more := Finished(base[..], pending);
        UpdateQueue();
        MoreRecords(old(log), log1, log, own, more);
      }
    }

    /** The loop of sys_semop over the operations. */
    method Inspect(ops: seq<Op>) returns (ok: bool, undos: bool, decrease: bool, alter: bool)
      ensures ok <==> InSet(base[..], ops)
      ensures ok ==> (undos <==> exists k :: 0 <= k < |ops| && ops[k].undo)
      ensures ok ==> (decrease <==> Decrements(ops)) && (alter <==> !AddsNothing(ops))
    {
      undos, decrease, alter := false, false, false;
      var k := 0;
      while k < |ops|
        invariant 0 <= k <= |ops| && InSet(base[..], ops[..k])
        invariant undos <==> exists j :: 0 <= j < k && ops[j].undo
        invariant alter <==> exists j :: 0 <= j < k && ops[j].op != 0
        invariant decrease <==> exists j :: 0 <= j < k && ops[j].op < 0
      {
        if ops[k].num >= base.Length {
          return false, undos, decrease, alter;
        }
        undos := undos || ops[k].undo;
        decrease := decrease || ops[k].op < 0;
        alter := alter || ops[k].op != 0;
        k := k + 1;
      }
      assert ops[..k] == ops;
      ok := true;
    }

    /** alloc_undo: a structure of zeros at the front of the list. */
    method AllocUndo(owner: nat) returns (un: int)
      requires Valid() && forall k :: 0 <= k < |undo| ==> undo[k].owner != owner
      modifies this`undo
      ensures Valid() && un == 0 && undo == [Undo(owner, seq(base.Length, _ => 0))] + old(undo)
    {
      hide WaiterOk;
      var u := Undo(owner, seq(base.Length, _ => 0));
      ZeroUndo(base[..], undo, log, u);
      ZeroCharged(undo, log, base.Length, u);
      MoreUndo(pending, undo, u, base.Length);
      undo := [u] + undo;
      un := 0;
    }

    /** A sleeper that was told to try again itself. */
    method Retry(k: nat) returns (error: int)
      requires Valid() && k < |pending| && pending[k].status == 1
      modifies base, this
      ensures Valid()
      ensures InSet(old(base[..]), old(pending[k]).ops) && Answers(error, old(base[..]), old(pending[k]).ops)
      ensures Now() == After(old(Now()), Try(k)) && Records(old(log), log, Finishes(old(Now()), Try(k)))
    {
      hide UndoOk, Accounted, Charged, Owners, ValAfter, UndoAfter, BatchEvent, Succeeds, Records, Finished;
      var w := pending[k];
      var un := UndoIndex(w.owner);
      MayTry(w, undo, base[..], un);
      error := Attempt(w.ops, un, false, w.owner);
      ghost var log1, own := log, Own(old(base[..]), w.owner, w.ops);
      NoRecords(old(log));
      OwnRecord(old(log), log1, BatchEvent(old(undo), un, w.owner, w.ops), old(base[..]), error);
      assert own + [] == own && [] + own == own;
      if error <= 0 {
        pending := pending[..k] + pending[k + 1..];
        var ok, undos, decrease, alter := Inspect(w.ops);
        if alter {
          ghost var more := Finished(base[..], pending);
          UpdateQueue();
          MoreRecords(old(log), log1, log, own, more);
        }
      } else {
        pending := pending[k := w.(status := -EINTR)];
      }
    }

    /** A sleeper that is interrupted leaves the queue, or tries itself if it was told. */
    method Interrupt(k: nat) returns (error: int)
      requires Valid() && k < |pending|
      modifies base, this
      ensures Valid()
      ensures if old(pending[k]).status == 1 then
          InSet(old(base[..]), old(pending[k]).ops) && Answers(error, old(base[..]), old(pending[k]).ops)
        else error == -EINTR
      ensures Now() == After(old(Now()), Interrupted(k)) && Records(old(log), log, Finishes(old(Now()), Interrupted(k)))
    {
      hide UndoOk, Accounted, Charged, Owners, Sweep, Waits, Succeeds, Records, Finished, Answers;
      NoRecords(log);
      if pending[k].status == 1 {
        error := Retry(k);
        return;
      }
      var ok, undos, decrease, alter := Inspect(pending[k].ops);
      pending := pending[..k] + pending[k + 1..];
      if alter {
        UpdateQueue();
      }
      error := -EINTR;
    }

    /** A sleeper that exits leaves the queue. */
    method LeaveQueue(k: nat)
      requires Valid() && k < |pending|
      modifies this`pending
      ensures Valid() && Now() == After(old(Now()), Leave(k))
    {
      hide UndoOk, Accounted;
      pending := pending[..k] + pending[k + 1..];
    }

    /** SETVAL */
    method SetVal(n: nat, val: int) returns (error: int)
      requires Valid()
      modifies base, this
      ensures Valid() && (error == 0 <==> n < base.Length && 0 <= val <= SEMVMX)
      ensures error != 0 ==> Now() == old(Now()) && undo == old(undo) && log == old(log)
      ensures n >= base.Length ==> error == -EINVAL
      ensures n < base.Length && error != 0 ==> error == -ERANGE
      ensures error == 0 ==> Now() == After(old(Now()), SetTo(n, val))
      ensures error == 0 ==> Records(old(log) + [Reset(n, val)], log, Finishes(old(Now()), SetTo(n, val)))
    {
      hide UndoOk, Accounted, Charged, WaiterOk, Owners, Records, Finished;
      if n >= base.Length {
        return -EINVAL;
      }
      if val > SEMVMX || val < 0 {
        return -ERANGE;
      }
      ghost var val0 := base[..];
      var undo0 := undo;
      undo := ZeroOne(undo0, n);
      ResetAccounted(val0, undo0, undo, log, n, val);
      ResetCharged(undo0, undo, log, base.Length, n, val);
      StillOk(pending, undo0, undo, base.Length);
      base[n] := val;
      log := log + [Reset(n, val)];
      assert base[..] == val0[n := val];
      UpdateQueue();
      error := 0;
    }

    method Store(vals: seq<int>)
      requires |vals| == base.Length
      modifies base
      ensures base[..] == vals
    {
      var i := 0;
      while i < base.Length
        invariant 0 <= i <= base.Length && base[..i] == vals[..i]
      {
        base[i] := vals[i];
        i := i + 1;
      }
    }

    /** SETALL */
    method SetAll(vals: seq<int>) returns (error: int)
      requires Valid() && |vals| == base.Length && forall n :: 0 <= n < |vals| ==> vals[n] >= 0
      modifies base, this
      ensures Valid() && (error == 0 <==> forall n :: 0 <= n < |vals| ==> vals[n] <= SEMVMX)
      ensures error != 0 ==> Now() == old(Now()) && undo == old(undo) && log == old(log)
      ensures error != 0 ==> error == -ERANGE
      ensures error == 0 ==> Now() == After(old(Now()), SetAllTo(vals))
      ensures error == 0 ==> Records(old(log) + [ResetAll(vals)], log, Finishes(old(Now()), SetAllTo(vals)))
    {
      hide UndoOk, Accounted, Charged, WaiterOk, Owners, Records, Finished;
      var i := 0;
      while i < |vals|
        invariant 0 <= i <= |vals| && Valid() && forall n :: 0 <= n < i ==> vals[n] <= SEMVMX
        invariant Now() == old(Now()) && undo == old(undo) && log == old(log)
      {
        if vals[i] > SEMVMX {
          return -ERANGE;
        }
        i := i + 1;
      }
      var undo0 := undo;
      Store(vals);
      undo := ZeroAll(undo0, |vals|);
      ResetAllAccounted(undo0, undo, log, vals);
      ResetAllCharged(undo0, undo, log, vals);
      StillOk(pending, undo0, undo, base.Length);
      assert base[..] == vals;
      assert forall n :: 0 <= n < base.Length ==> base[n] == base[..][n];
      log := log + [ResetAll(vals)];
      UpdateQueue();
      error := 0;
    }

    /** sem_exit for a process that is not asleep on this set. */
    method Exit(owner: nat)
      requires Valid() && forall k :: 0 <= k < |pending| ==> pending[k].owner != owner
      modifies base, this
      ensures Valid()
      ensures forall k :: 0 <= k < |undo| ==> undo[k].owner != owner
      ensures forall k :: 0 <= k < |old(undo)| && old(undo)[k].owner == owner ==>
        && |old(undo)[k].adj| == base.Length && Now() == After(old(Now()), SemQueue.Adjust(old(undo)[k].adj))
        && Records(old(log) + [Clamped(owner, Clamps(old(base[..]), old(undo)[k].adj))], log,
             Finishes(old(Now()), SemQueue.Adjust(old(undo)[k].adj)))
      ensures (forall k :: 0 <= k < |old(undo)| ==> old(undo)[k].owner != owner) ==>
        Now() == old(Now()) && log == old(log)
    {
      hide Accounted, Charged, WaiterOk, Owners, Records, Finished;
      var un := UndoIndex(owner);
      if un >= 0 {
        ghost var val0, undo0 := base[..], undo;
        var adj := undo[un].adj;
        undo := undo[..un] + undo[un + 1..];
        Adjust(adj);
        ExitAccounted(val0, undo0, un, log);
        ExitCharged(undo0, un, log, base.Length, Clamped(owner, Clamps(val0, adj)));
        log := log + [Clamped(owner, Clamps(val0, adj))];
        OthersOk(pending, undo0, un, base.Length);
        assert forall n :: 0 <= n < base.Length ==> base[n] == base[..][n];
        assert forall k :: 0 <= k < |undo| ==> undo[k].owner != owner;
        OwnersKept(undo, owner);
        ghost var undo1 := undo;
        UpdateQueue();
        OwnersGone(undo1, undo, owner);
      }
    }

    /** The adjustments are added, clamped at zero. */
    method Adjust(adj: seq<int>)
      requires |adj| == base.Length
      modifies base
      ensures base[..] == Adjusted(old(base[..]), adj)
    {
      var i := 0;
      while i < base.Length
        invariant 0 <= i <= base.Length
        invariant forall n :: 0 <= n < i ==> base[n] == Adjusted(old(base[..]), adj)[n]
        invariant forall n :: i <= n < base.Length ==> base[n] == old(base[n])
      {
        base[i] := base[i] + adj[i];
        if base[i] < 0 {
          base[i] := 0;
        }
        i := i + 1;
      }
    }
  }

  lemma Unchanged(val: seq<int>, undo: seq<Undo>, un: int)
    requires UndoOk(undo, |val|) && -1 <= un < |undo|
    ensures ValAfter(val, []) == val && UndoAfter(undo, un, []) == undo
  {
    if un >= 0 {
      NothingDone(val, undo[un].adj);
    } else {
      NothingDone(val, []);
    }
  }

  /** The shape of the values and undo structures half way. */
  lemma NowAt(val: seq<int>, undo0: seq<Undo>, un: int, ops: seq<Op>, k: nat)
    requires UndoOk(undo0, |val|) && -1 <= un < |undo0| && k <= |ops|
    ensures var u := UndoAfter(undo0, un, ops[..k]); |u| == |undo0| && (un >= 0 ==> |u[un].adj| == |val|)
    ensures forall n: nat :: n < |val| ==> ValAfter(val, ops[..k])[n] == val[n] + Delta(ops[..k], n)
  {
  }

  lemma DoOne(val: seq<int>, undo0: seq<Undo>, un: int, ops: seq<Op>, k: nat)
    requires UndoOk(undo0, |val|) && CanUndo(undo0, ops, un) && InSet(val, ops) && k < |ops|
    ensures var v, m := ValAfter(val, ops[..k]), ops[k].num; ValAfter(val, ops[..k + 1]) == v[m := v[m] + ops[k].op]
    ensures var u, m := UndoAfter(undo0, un, ops[..k]), ops[k].num;
      UndoAfter(undo0, un, ops[..k + 1]) ==
        if ops[k].undo then u[un := u[un].(adj := u[un].adj[m := Short(u[un].adj[m] - ops[k].op)])] else u
    ensures ops[k].op == 0 ==> ValAfter(val, ops[..k + 1]) == ValAfter(val, ops[..k])
    ensures ops[k].op == 0 ==> UndoAfter(undo0, un, ops[..k + 1]) == UndoAfter(undo0, un, ops[..k])
  {
    Forth(val, if un >= 0 then undo0[un].adj else [], ops, k);
    if ops[k].op == 0 {
      var v, u, m := ValAfter(val, ops[..k]), UndoAfter(undo0, un, ops[..k]), ops[k].num;
      assert v[m := v[m]] == v;
      if ops[k].undo {
        ShortSum(undo0[un].adj[m] - DeltaUndo(ops[..k], m), 0);
        assert u[un].adj[m := u[un].adj[m]] == u[un].adj;
        assert u[un := u[un]] == u;
      }
    }
  }

  lemma UndoOne(val: seq<int>, undo0: seq<Undo>, un: int, ops: seq<Op>, k: nat)
    requires UndoOk(undo0, |val|) && CanUndo(undo0, ops, un) && InSet(val, ops) && k < |ops|
    ensures var v, m := ValAfter(val, ops[..k + 1]), ops[k].num; ValAfter(val, ops[..k]) == v[m := v[m] - ops[k].op]
    ensures var u, m := UndoAfter(undo0, un, ops[..k + 1]), ops[k].num;
      UndoAfter(undo0, un, ops[..k]) ==
        if ops[k].undo then u[un := u[un].(adj := u[un].adj[m := Short(u[un].adj[m] + ops[k].op)])] else u
  {
    Back(val, if un >= 0 then undo0[un].adj else [], ops, k);
  }

  const EINVAL := 22

  /** The log has grown by these batches, in this order. */
  ghost predicate Records(a: seq<Event>, b: seq<Event>, done: seq<Work>) {
    && |b| == |a| + |done| && a <= b
    && forall k :: 0 <= k < |done| ==> RecordsOne(b[|a| + k], done[k])
  }

  ghost predicate RecordsOne(e: Event, w: Work) {
    e.Batch? && e.owner == w.owner && e.ops == w.ops
  }

  lemma NoRecords(log: seq<Event>)
    ensures Records(log, log, [])
  {
  }

  lemma OneRecord(log: seq<Event>, e: Event)
    requires e.Batch?
    ensures Records(log, log + [e], [Work(e.owner, e.ops)])
  {
  }

  lemma MoreRecords(a: seq<Event>, b: seq<Event>, c: seq<Event>, x: seq<Work>, y: seq<Work>)
    requires Records(a, b, x) && Records(b, c, y)
    ensures Records(a, c, x + y)
  {
    forall k | 0 <= k < |x + y|
      ensures RecordsOne(c[|a| + k], (x + y)[k])
    {
      if k < |x| {
        assert b[|a| + k] == c[|a| + k] && RecordsOne(b[|a| + k], x[k]);
      } else {
        assert RecordsOne(c[|b| + (k - |x|)], y[k - |x|]);
      }
    }
  }

  /** The batch of the process itself, if it was done. */
  lemma OwnRecord(a: seq<Event>, b: seq<Event>, e: Event, val: seq<int>, error: int)
    requires e.Batch? && InSet(val, e.ops) && (error == 0 <==> Succeeds(val, e.ops))
    requires b == if error == 0 then a + [e] else a
    ensures Records(a, b, Own(val, e.owner, e.ops))
  {
    hide Succeeds;
    NoRecords(a);
    OneRecord(a, e);
  }

  lemma NoneFinished(val: seq<int>, pending: seq<Waiter>, k: nat)
    requires k == |pending|
    ensures Finished(val, pending[k..]) == []
  {
  }

  /** The answer to a batch: zero if it can be done, positive if it has to wait, and else
      the code of the first operation that is refused. */
  ghost predicate Answers(error: int, val: seq<int>, ops: seq<Op>)
    requires InSet(val, ops)
  {
    && (error == 0 <==> Succeeds(val, ops)) && (error > 0 <==> Waits(val, ops))
    && (error != 0 ==> exists k: nat :: FailsAt(val, ops, k) && error == Code(val, ops, k))
  }

  ghost function Owners(undo: seq<Undo>): seq<nat> {
    seq(|undo|, k requires 0 <= k < |undo| => undo[k].owner)
  }

  lemma SameOwners(undo: seq<Undo>, un: int, ops: seq<Op>)
    requires -1 <= un < |undo|
    ensures Owners(UndoAfter(undo, un, ops)) == Owners(undo)
  {
  }

  lemma StillOk(pending: seq<Waiter>, undo0: seq<Undo>, undo: seq<Undo>, nsems: nat)
    requires Owners(undo) == Owners(undo0)
    requires forall k :: 0 <= k < |pending| ==> WaiterOk(pending[k], undo0, nsems)
    ensures forall k :: 0 <= k < |pending| ==> WaiterOk(pending[k], undo, nsems)
  {
    assert |undo| == |Owners(undo)| == |undo0|;
    forall k | 0 <= k < |undo|
      ensures undo[k].owner == undo0[k].owner
    {
      assert Owners(undo)[k] == Owners(undo0)[k];
    }
    forall k | 0 <= k < |pending|
      ensures WaiterOk(pending[k], undo, nsems)
    {
      assert WaiterOk(pending[k], undo0, nsems);
    }
  }

  lemma MayTry(w: Waiter, undo: seq<Undo>, val: seq<int>, un: int)
    requires WaiterOk(w, undo, |val|) && -1 <= un < |undo|
    requires un < 0 ==> forall k :: 0 <= k < |undo| ==> undo[k].owner != w.owner
    ensures CanUndo(undo, w.ops, un) && InSet(val, w.ops)
  {
  }

  lemma MayUse(undo: seq<Undo>, owner: nat, ops: seq<Op>, un: int)
    requires -1 <= un < |undo| && (un < 0 ==> !exists k :: 0 <= k < |ops| && ops[k].undo)
    ensures CanUndo(undo, ops, un)
  {
  }

  lemma NewWaiter(undo: seq<Undo>, owner: nat, ops: seq<Op>, un: int, val: seq<int>, w: Waiter)
    requires InSet(val, ops) && CanUndo(undo, ops, un) && (un >= 0 ==> undo[un].owner == owner)
    requires w.owner == owner && w.ops == ops && (w.alter <==> Decrements(ops)) && w.status != 1
    ensures WaiterOk(w, undo, |val|)
  {
  }

  lemma ZeroUndo(val: seq<int>, undo: seq<Undo>, log: seq<Event>, u: Undo)
    requires Accounted(val, undo, log) && UndoOk(undo, |val|) && u.adj == seq(|val|, _ => 0)
    requires forall k :: 0 <= k < |undo| ==> undo[k].owner != u.owner
    ensures Accounted(val, [u] + undo, log) && UndoOk([u] + undo, |val|)
  {
    forall n: nat | n < |val|
      ensures SumAdj([u] + undo, n) == SumAdj(undo, n)
    {
      assert ([u] + undo)[1..] == undo;
    }
  }

  lemma ZeroCharged(undo: seq<Undo>, log: seq<Event>, nsems: nat, u: Undo)
    requires Charged(undo, log, nsems) && u.adj == seq(nsems, _ => 0) && !Known(undo, u.owner)
    ensures Charged([u] + undo, log, nsems)
  {
    hide Owed;
    var u' := [u] + undo;
    ShortOf(0);
    forall k: nat, n: nat | k < |u'| && n < nsems
      ensures ChargedAt(u', log, k, n)
    {
      assert k > 0 ==> ChargedAt(undo, log, k - 1, n);
      assert Owed(log, u.owner, n) == 0;
    }
    forall p: nat | Known(undo, p)
      ensures Known(u', p)
    {
      var k :| 0 <= k < |undo| && undo[k].owner == p;
      assert u'[k + 1].owner == p;
    }
  }

  lemma SameKnown(undo0: seq<Undo>, undo: seq<Undo>, p: nat)
    requires Owners(undo) == Owners(undo0)
    ensures Known(undo, p) <==> Known(undo0, p)
  {
    assert |Owners(undo)| == |undo| == |undo0|;
    assert forall k :: 0 <= k < |undo| ==> Owners(undo)[k] == undo[k].owner && Owners(undo0)[k] == undo0[k].owner;
    if Known(undo, p) {
      var k :| 0 <= k < |undo| && undo[k].owner == p;
      assert undo0[k].owner == p;
    }
    if Known(undo0, p) {
      var k :| 0 <= k < |undo0| && undo0[k].owner == p;
      assert undo[k].owner == p;
    }
  }

  lemma ResetCharged(undo0: seq<Undo>, undo: seq<Undo>, log: seq<Event>, nsems: nat, n: nat, x: int)
    requires Charged(undo0, log, nsems) && UndoOk(undo0, nsems) && n < nsems && undo == ZeroOne(undo0, n)
    ensures Charged(undo, log + [Reset(n, x)], nsems)
  {
    LogStep(log, Reset(n, x));
    ShortOf(0);
    hide Short;
    forall k: nat, m: nat | k < |undo| && m < nsems
      ensures ChargedAt(undo, log + [Reset(n, x)], k, m)
    {
      assert ChargedAt(undo0, log, k, m);
    }
    forall p: nat, m: nat | m < nsems
      ensures Owed(log + [Reset(n, x)], p, m) == 0 || Known(undo, p)
    {
      SameKnown(undo0, undo, p);
      assert Owed(log, p, m) == 0 || Known(undo0, p);
    }
  }

  lemma ResetAllCharged(undo0: seq<Undo>, undo: seq<Undo>, log: seq<Event>, vals: seq<int>)
    requires undo == ZeroAll(undo0, |vals|)
    ensures Charged(undo, log + [ResetAll(vals)], |vals|)
  {
    LogStep(log, ResetAll(vals));
    ShortOf(0);
    hide Short;
    forall k: nat, m: nat | k < |undo| && m < |vals|
      ensures ChargedAt(undo, log + [ResetAll(vals)], k, m)
    {
    }
  }

  lemma ExitCharged(undo: seq<Undo>, un: nat, log: seq<Event>, nsems: nat, e: Event)
    requires Charged(undo, log, nsems) && UndoOk(undo, nsems) && un < |undo|
    requires e.Clamped? && e.owner == undo[un].owner
    ensures Charged(undo[..un] + undo[un + 1..], log + [e], nsems)
  {
    LogStep(log, e);
    hide Short;
    var u := undo[..un] + undo[un + 1..];
    forall k: nat, m: nat | k < |u| && m < nsems
      ensures ChargedAt(u, log + [e], k, m)
    {
      assert ChargedAt(undo, log, if k < un then k else k + 1, m);
    }
    forall p: nat, m: nat | m < nsems
      ensures Owed(log + [e], p, m) == 0 || Known(u, p)
    {
      assert Owed(log, p, m) == 0 || Known(undo, p);
      if p != e.owner && Known(undo, p) {
        var k :| 0 <= k < |undo| && undo[k].owner == p;
        assert u[if k < un then k else k - 1].owner == p;
      }
    }
  }

  lemma MoreUndo(pending: seq<Waiter>, undo: seq<Undo>, u: Undo, nsems: nat)
    requires forall k :: 0 <= k < |pending| ==> WaiterOk(pending[k], undo, nsems)
    ensures forall k :: 0 <= k < |pending| ==> WaiterOk(pending[k], [u] + undo, nsems)
  {
    forall k | 0 <= k < |pending|
      ensures WaiterOk(pending[k], [u] + undo, nsems)
    {
      var w := pending[k];
      assert WaiterOk(w, undo, nsems);
      if exists j :: 0 <= j < |undo| && undo[j].owner == w.owner {
        var j :| 0 <= j < |undo| && undo[j].owner == w.owner;
        assert ([u] + undo)[j + 1].owner == w.owner;
      }
    }
  }

  /** The adjustment of semaphore n is cleared in every structure. */
  function ZeroOne(undo: seq<Undo>, n: nat): (r: seq<Undo>)
    ensures |r| == |undo|
  {
    seq(|undo|, k requires 0 <= k < |undo| =>
      undo[k].(adj := if n < |undo[k].adj| then undo[k].adj[n := 0] else undo[k].adj))
  }

  /** Every adjustment is cleared. */
  function ZeroAll(undo: seq<Undo>, nsems: nat): (r: seq<Undo>)
    ensures |r| == |undo|
  {
    seq(|undo|, k requires 0 <= k < |undo| => undo[k].(adj := seq(nsems, _ => 0)))
  }

  lemma ResetAccounted(val: seq<int>, undo0: seq<Undo>, undo: seq<Undo>, log: seq<Event>, n: nat, x: int)
    requires Accounted(val, undo0, log) && UndoOk(undo0, |val|) && n < |val| && undo == ZeroOne(undo0, n)
    ensures Accounted(val[n := x], undo, log + [Reset(n, x)]) && UndoOk(undo, |val|)
    ensures Owners(undo) == Owners(undo0)
  {
    LogStep(log, Reset(n, x));
    forall m: nat | m < |val|
      ensures SumAdj(undo, m) == if m == n then 0 else SumAdj(undo0, m)
    {
      Zeroed(undo0, undo, |val|, n, m);
    }
  }

  lemma {:induction false} Zeroed(undo0: seq<Undo>, undo: seq<Undo>, nsems: nat, n: nat, m: nat)
    requires |undo| == |undo0| && n < nsems && m < nsems && forall k :: 0 <= k < |undo0| ==> |undo0[k].adj| == nsems
    requires forall k :: 0 <= k < |undo| ==> |undo[k].adj| == nsems && undo[k].adj == undo0[k].adj[n := 0]
    ensures SumAdj(undo, m) == if m == n then 0 else SumAdj(undo0, m)
  {
    if undo != [] {
      Zeroed(undo0[1..], undo[1..], nsems, n, m);
    }
  }

  lemma ResetAllAccounted(undo0: seq<Undo>, undo: seq<Undo>, log: seq<Event>, vals: seq<int>)
    requires UndoOk(undo0, |vals|) && undo == ZeroAll(undo0, |vals|)
    ensures Accounted(vals, undo, log + [ResetAll(vals)]) && UndoOk(undo, |vals|)
    ensures Owners(undo) == Owners(undo0)
  {
    LogStep(log, ResetAll(vals));
    forall m: nat | m < |vals|
      ensures SumAdj(undo, m) == 0
    {
      AllZero(undo, |vals|, m);
    }
  }

  lemma {:induction false} AllZero(undo: seq<Undo>, nsems: nat, m: nat)
    requires forall k :: 0 <= k < |undo| ==> undo[k].adj == seq(nsems, _ => 0)
    ensures SumAdj(undo, m) == 0
  {
    if undo != [] {
      AllZero(undo[1..], nsems, m);
    }
  }

  /** What the clamping at zero adds. */
  ghost function Clamps(val: seq<int>, adj: seq<int>): seq<int>
    requires |adj| == |val|
  {
    seq(|val|, n requires 0 <= n < |val| => if val[n] + adj[n] < 0 then -(val[n] + adj[n]) else 0)
  }

  lemma ExitAccounted(val: seq<int>, undo: seq<Undo>, un: nat, log: seq<Event>)
    requires Accounted(val, undo, log) && UndoOk(undo, |val|) && un < |undo|
    ensures Accounted(Adjusted(val, undo[un].adj), undo[..un] + undo[un + 1..],
      log + [Clamped(undo[un].owner, Clamps(val, undo[un].adj))])
    ensures UndoOk(undo[..un] + undo[un + 1..], |val|)
  {
    LogStep(log, Clamped(undo[un].owner, Clamps(val, undo[un].adj)));
    forall n: nat | n < |val|
      ensures SumAdj(undo[..un] + undo[un + 1..], n) == SumAdj(undo, n) - undo[un].adj[n]
    {
      SumRemove(undo, un, n);
    }
  }

  lemma OthersOk(pending: seq<Waiter>, undo: seq<Undo>, un: nat, nsems: nat)
    requires un < |undo| && forall k :: 0 <= k < |pending| ==> WaiterOk(pending[k], undo, nsems)
    requires forall k :: 0 <= k < |pending| ==> pending[k].owner != undo[un].owner
    ensures forall k :: 0 <= k < |pending| ==> WaiterOk(pending[k], undo[..un] + undo[un + 1..], nsems)
  {
    forall k | 0 <= k < |pending|
      ensures WaiterOk(pending[k], undo[..un] + undo[un + 1..], nsems)
    {
      var w := pending[k];
      assert WaiterOk(w, undo, nsems);
      if exists j :: 0 <= j < |undo| && undo[j].owner == w.owner {
        var j :| 0 <= j < |undo| && undo[j].owner == w.owner;
        assert (undo[..un] + undo[un + 1..])[if j < un then j else j - 1].owner == w.owner;
      }
    }
  }

  lemma OwnersKept(undo: seq<Undo>, owner: nat)
    requires forall k :: 0 <= k < |undo| ==> undo[k].owner != owner
    ensures owner !in Owners(undo)
  {
  }

  lemma OwnersGone(undo0: seq<Undo>, undo: seq<Undo>, owner: nat)
    requires Owners(undo) == Owners(undo0) && owner !in Owners(undo0)
    ensures forall k :: 0 <= k < |undo| ==> undo[k].owner != owner
  {
    forall k | 0 <= k < |undo|
      ensures undo[k].owner != owner
    {
      assert Owners(undo)[k] in Owners(undo);
    }
  }

  /** On a fresh set one batch goes around: 32767 up with SEM_UNDO, down again without,
      and two more up with SEM_UNDO.  The adjustment is 32767 instead of -32769. */
  lemma TurnExample()
    ensures var ops := [Op(0, 32767, true, false), Op(0, -32767, false, false), Op(0, 2, true, false)];
      && InSet([0], ops) && Succeeds([0], ops) && ValAfter([0], ops) == [2] && AdjAfter([0], ops) == [32767]
      && TurnsOf([0], ops) == [-1]
  {
    var ops := [Op(0, 32767, true, false), Op(0, -32767, false, false), Op(0, 2, true, false)];
    assert ops[..0] == [] && ops[..3] == ops;
    DeltaStep(ops, 0, 0);
    DeltaStep(ops, 1, 0);
    DeltaStep(ops, 2, 0);
    assert Passes([0], ops, 0) && Passes([0], ops, 1) && Passes([0], ops, 2);
  }
}
