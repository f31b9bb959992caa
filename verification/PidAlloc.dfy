/** get_pid of kernel/fork.c: a counter that skips ids in use, with a cached bound
    below which no scan is needed. */
module PidAlloc {

  const PID_MAX: nat := 0x8000
  const FIRST: nat := 300

  datatype Task = Task(pid: nat, pgrp: nat, session: nat)

  predicate UsedBy(t: Task, id: nat) {
    t.pid == id || t.pgrp == id || t.session == id
  }

  /** Some task has the id as its pid, group or session. */
  ghost predicate Used(tasks: seq<Task>, id: nat) {
    exists k :: 0 <= k < |tasks| && UsedBy(tasks[k], id)
  }

  /** No id in use lies strictly between the last id given and the bound. */
  ghost predicate NoneBetween(tasks: seq<Task>, last: nat, safe: nat) {
    forall id: nat :: last < id < safe ==> !Used(tasks, id)
  }

  /** The counter comes to f: f lies ahead, or where it goes around. */
  predicate Ahead(last: nat, f: nat) {
    f < PID_MAX && (last <= f || FIRST <= f)
  }

  /** How far the counter is from f, going around at PID_MAX. */
  function Distance(last: nat, f: nat): nat
    requires last < PID_MAX && Ahead(last, f)
  {
    if last <= f then f - last else PID_MAX - last + (f - FIRST)
  }

  /** The id that is tried after one that is in use. */
  function Next(last: nat): nat {
    if last + 1 >= PID_MAX then FIRST else last + 1
  }

  /** The id that is tried after j that are in use. */
  function Nth(last: nat, j: nat): nat {
    if j == 0 then last else Next(Nth(last, j - 1))
  }

  lemma {:induction false} NthAhead(last: nat, j: nat)
    requires last < PID_MAX
    ensures Ahead(last, Nth(last, j))
  {
    if j > 0 {
      NthAhead(last, j - 1);
    }
  }

  lemma {:induction false} NthAt(last: nat, j: nat)
    requires last < PID_MAX && j < PID_MAX - last + (PID_MAX - FIRST)
    ensures Nth(last, j) == if last + j < PID_MAX then last + j else last + j - PID_MAX + FIRST
  {
    if j > 0 {
      NthAt(last, j - 1);
    }
  }

  /** The try after j others fails. */
  ghost predicate Fails(tasks: seq<Task>, last: nat, j: nat) {
    Used(tasks, Nth(last, j))
  }

  /** The ids that the scan tries are those that its counter comes to: every try fails if
      and only if none of them is free. */
  lemma NoneToFind(tasks: seq<Task>, last: nat)
    requires last < PID_MAX
    ensures (forall j: nat :: Fails(tasks, last, j)) <==> forall f: nat :: Ahead(last, f) ==> Used(tasks, f)
  {
    hide Used;
    if forall j: nat :: Fails(tasks, last, j) {
      forall f: nat | Ahead(last, f)
        ensures Used(tasks, f)
      {
        NthAt(last, Distance(last, f));
        assert Fails(tasks, last, Distance(last, f));
      }
    }
    if forall f: nat :: Ahead(last, f) ==> Used(tasks, f) {
      forall j: nat
        ensures Fails(tasks, last, j)
      {
        NthAhead(last, j);
      }
    }
  }

  function Lower(safe: nat, id: nat, last: nat): nat {
    if id > last && safe > id then id else safe
  }

  /** One pass over the tasks: whether one of them uses `last`, and otherwise the bound
      lowered to the ids above it. */
  method Pass(tasks: seq<Task>, last: nat, safe0: nat) returns (clash: bool, safe: nat)
    requires last < safe0
    ensures safe <= safe0 && last < safe
    ensures clash <==> Used(tasks, last)
    ensures !clash ==> NoneBetween(tasks, last, safe)
    ensures safe == safe0 || Used(tasks, safe)
  {
    safe := safe0;
    var k := 0;
    while k < |tasks|
      invariant 0 <= k <= |tasks| && last < safe <= safe0
      invariant forall j :: 0 <= j < k ==> !UsedBy(tasks[j], last)
      invariant forall j, id: nat :: 0 <= j < k && UsedBy(tasks[j], id) && id > last ==> safe <= id
      invariant safe == safe0 || exists j :: 0 <= j < k && UsedBy(tasks[j], safe)
    {
      var p := tasks[k];
      if p.pid == last || p.pgrp == last || p.session == last {
        assert UsedBy(tasks[k], last);
        return true, safe;
      }
      safe := Lower(safe, p.pid, last);
      safe := Lower(safe, p.pgrp, last);
      safe := Lower(safe, p.session, last);
      k := k + 1;
    }
    clash := false;
  }

  /** One try of the scan: if `last` is in use, the counter goes on. */
  method TryOne(tasks: seq<Task>, last0: nat, safe0: nat) returns (clash: bool, last: nat, safe: nat)
    requires last0 < safe0 <= PID_MAX
    ensures last < safe <= PID_MAX && (clash <==> Used(tasks, last0))
    ensures last == if clash then Next(last0) else last0
    ensures safe == PID_MAX || safe == safe0 || Used(tasks, safe)
    ensures !clash ==> NoneBetween(tasks, last, safe)
  {
    last := last0;
    clash, safe := Pass(tasks, last, safe0);
    if clash {
      last := last + 1;
      if last >= safe {
        if last >= PID_MAX {
          last := FIRST;
        }
        safe := PID_MAX;
      }
    }
  }

  /** The first id that nobody uses comes after j others. */
  ghost predicate FirstFree(tasks: seq<Task>, last: nat, j: nat) {
    !Fails(tasks, last, j) && forall i: nat :: i < j ==> Fails(tasks, last, i)
  }

  /** The first n tries of the scan: they fail if and only if the first n ids that the
      counter comes to are in use. */
  method ScanTries(tasks: seq<Task>, last0: nat, n: nat) returns (done: bool, last: nat, safe: nat)
    requires last0 < PID_MAX
    ensures last < safe <= PID_MAX
    ensures !done <==> forall j: nat :: j < n ==> Fails(tasks, last0, j)
    ensures done ==> exists j: nat :: FirstFree(tasks, last0, j) && last == Nth(last0, j)
    ensures done ==> NoneBetween(tasks, last, safe)
    ensures !done ==> last == Nth(last0, n)
  {
    hide Used;
    last, safe := last0, PID_MAX;
    for j := 0 to n
      invariant last < safe <= PID_MAX && last == Nth(last0, j)
      invariant forall i: nat :: i < j ==> Fails(tasks, last0, i)
    {
      var clash;
      clash, last, safe := TryOne(tasks, last, safe);
      if !clash {
        assert FirstFree(tasks, last0, j);
        return true, last, safe;
      }
    }
    done := false;
  }

  /** The scan: the next id that nobody uses. */
  method Scan(tasks: seq<Task>, last0: nat, ghost free: nat) returns (last: nat, safe: nat)
    requires last0 < PID_MAX && Ahead(last0, free) && !Used(tasks, free)
    ensures last < safe <= PID_MAX && !Used(tasks, last) && NoneBetween(tasks, last, safe)
    ensures exists j: nat :: FirstFree(tasks, last0, j) && last == Nth(last0, j)
    ensures last >= FIRST || last >= last0
    ensures safe == PID_MAX || Used(tasks, safe)
  {
    hide Used;
    last, safe := last0, PID_MAX;
    ghost var j: nat := 0;
    while true
      invariant last < safe <= PID_MAX && (last >= FIRST || last >= last0) && Ahead(last, free)
      invariant last == Nth(last0, j) && forall i: nat :: i < j ==> Fails(tasks, last0, i)
      invariant safe == PID_MAX || Used(tasks, safe)
      decreases Distance(last, free)
    {
      var clash;
      clash, last, safe := TryOne(tasks, last, safe);
      if !clash {
        assert FirstFree(tasks, last0, j);
        return;
      }
      j := j + 1;
    }
  }

  // ----- when the scan ends

  /** With a task for every id no number of tries is enough. */
  lemma AllTakenExample(last: nat, j: nat)
    requires last < PID_MAX
    ensures Fails(seq(PID_MAX, k requires 0 <= k < PID_MAX => Task(k, k, k)), last, j)
  {
    NthAhead(last, j);
    var tasks := seq(PID_MAX, k requires 0 <= k < PID_MAX => Task(k, k, k));
    assert UsedBy(tasks[Nth(last, j)], Nth(last, j));
  }

  function Ids(tasks: seq<Task>): set<nat> {
    if tasks == [] then {} else Ids(tasks[1..]) + {tasks[0].pid, tasks[0].pgrp, tasks[0].session}
  }

  lemma {:induction false} UsedIsIn(tasks: seq<Task>, id: nat)
    requires Used(tasks, id)
    ensures id in Ids(tasks)
  {
    var k :| 0 <= k < |tasks| && UsedBy(tasks[k], id);
    if k > 0 {
      assert UsedBy(tasks[1..][k - 1], id);
      UsedIsIn(tasks[1..], id);
    }
  }

  lemma {:induction false} FewIds(tasks: seq<Task>)
    ensures |Ids(tasks)| <= 3 * |tasks|
  {
    if tasks != [] {
      FewIds(tasks[1..]);
      var t := {tasks[0].pid, tasks[0].pgrp, tasks[0].session};
      assert |t| <= 3;
      assert |Ids(tasks[1..]) + t| <= |Ids(tasks[1..])| + |t|;
    }
  }

  /** A set that has all numbers from a to b is at least that large. */
  lemma {:induction false} Covers(s: set<nat>, a: nat, b: nat)
    requires a <= b && forall f: nat :: a <= f < b ==> f in s
    ensures b - a <= |s|
    decreases b - a
  {
    if a < b {
      Covers(s - {a}, a + 1, b);
    }
  }

  /** Every task uses three ids at most, so with few enough tasks the counter comes to a
      free one from wherever it is. */
  lemma FewTasks(tasks: seq<Task>, last: nat)
    requires 3 * |tasks| < PID_MAX - FIRST
    ensures exists f: nat :: Ahead(last, f) && !Used(tasks, f)
  {
    hide Used;
    if forall f: nat :: FIRST <= f < PID_MAX ==> Used(tasks, f) {
      forall f: nat | FIRST <= f < PID_MAX
        ensures f in Ids(tasks)
      {
        UsedIsIn(tasks, f);
      }
      Covers(Ids(tasks), FIRST, PID_MAX);
      FewIds(tasks);
      assert false;
    }
    var f: nat :| FIRST <= f < PID_MAX && !Used(tasks, f);
    assert Ahead(last, f);
  }

  class Pids {
    var lastPid: nat
    var nextSafe: nat
    var tasks: seq<Task>

    /** The cached bound is right. */
    ghost predicate Valid()
      reads this
    {
      && lastPid < PID_MAX && nextSafe <= PID_MAX && NoneBetween(tasks, lastPid, nextSafe)
    }

    /** At boot there is the idle task only. */
    constructor ()
      ensures Valid() && tasks == [Task(0, 0, 0)]
    {
      lastPid, nextSafe, tasks := 0, PID_MAX, [Task(0, 0, 0)];
    }

    /** get_pid without CLONE_PID, if the counter can come to a free id. */
    method GetPid(ghost free: nat) returns (pid: nat)
      requires Valid() && Ahead(lastPid + 1, free) && !Used(tasks, free)
      modifies this`lastPid, this`nextSafe
      ensures Valid() && pid == lastPid && !Used(tasks, pid) && pid < nextSafe
      ensures exists j: nat :: FirstFree(tasks, Next(old(lastPid)), j) && pid == Nth(Next(old(lastPid)), j)
    {
      ghost var first := Next(lastPid);
      lastPid := lastPid + 1;
      if lastPid >= PID_MAX {
        lastPid := FIRST;
        lastPid, nextSafe := Scan(tasks, lastPid, free);
      } else if lastPid >= nextSafe {
        lastPid, nextSafe := Scan(tasks, lastPid, free);
      }
      pid := lastPid;
      if pid == first {
        assert FirstFree(tasks, first, 0) && Nth(first, 0) == first;
      }
    }

    /** A new task: with a pid of its own, in the group and session of its parent, or
        with the parent's pid under CLONE_PID. */
    method Fork(parent: nat, clonePid: bool, ghost free: nat) returns (pid: nat)
      requires Valid() && parent < |tasks| && (!clonePid ==> Ahead(lastPid + 1, free) && !Used(tasks, free))
      modifies this
      ensures Valid() && tasks == old(tasks) + [Task(pid, old(tasks)[parent].pgrp, old(tasks)[parent].session)]
      ensures clonePid ==> pid == old(tasks)[parent].pid
      ensures !clonePid ==>
        exists j: nat :: FirstFree(old(tasks), Next(old(lastPid)), j) && pid == Nth(Next(old(lastPid)), j)
    {
      if clonePid {
        pid := tasks[parent].pid;
      } else {
        pid := GetPid(free);
      }
      var t := Task(pid, tasks[parent].pgrp, tasks[parent].session);
      Joined(tasks, parent, t, lastPid, nextSafe);
      tasks := tasks + [t];
    }

    /** A task moves to a group and a session whose ids are in use. */
    method SetIds(k: nat, pgrp: nat, session: nat)
      requires Valid() && k < |tasks| && Used(tasks, pgrp) && Used(tasks, session)
      modifies this`tasks
      ensures Valid() && tasks == old(tasks)[k := old(tasks)[k].(pgrp := pgrp, session := session)]
    {
      Moved(tasks, k, pgrp, session, lastPid, nextSafe);
      tasks := tasks[k := tasks[k].(pgrp := pgrp, session := session)];
    }

    /** A task is gone. */
    method Exit(k: nat)
      requires Valid() && k < |tasks|
      modifies this`tasks
      ensures Valid() && tasks == old(tasks[..k] + tasks[k + 1..])
    {
      Fewer(tasks, k, lastPid, nextSafe);
      tasks := tasks[..k] + tasks[k + 1..];
    }
  }

  lemma Joined(tasks: seq<Task>, parent: nat, t: Task, last: nat, safe: nat)
    requires NoneBetween(tasks, last, safe) && parent < |tasks| && t.pgrp == tasks[parent].pgrp
    requires t.session == tasks[parent].session
    requires t.pid <= last || t.pid == tasks[parent].pid
    ensures NoneBetween(tasks + [t], last, safe)
  {
    forall id: nat | last < id < safe
      ensures !Used(tasks + [t], id)
    {
      assert !Used(tasks, id);
      assert !UsedBy(tasks[parent], id);
    }
  }

  lemma Moved(tasks: seq<Task>, k: nat, pgrp: nat, session: nat, last: nat, safe: nat)
    requires NoneBetween(tasks, last, safe) && k < |tasks| && Used(tasks, pgrp) && Used(tasks, session)
    ensures NoneBetween(tasks[k := tasks[k].(pgrp := pgrp, session := session)], last, safe)
  {
    var t := tasks[k := tasks[k].(pgrp := pgrp, session := session)];
    forall id: nat | last < id < safe
      ensures !Used(t, id)
    {
      assert !Used(tasks, id) && !UsedBy(tasks[k], id);
    }
  }

  lemma Fewer(tasks: seq<Task>, k: nat, last: nat, safe: nat)
    requires NoneBetween(tasks, last, safe) && k < |tasks|
    ensures NoneBetween(tasks[..k] + tasks[k + 1..], last, safe)
  {
    var t := tasks[..k] + tasks[k + 1..];
    forall id: nat | last < id < safe
      ensures !Used(t, id)
    {
      assert !Used(tasks, id);
      forall j | 0 <= j < |t|
        ensures !UsedBy(t[j], id)
      {
        assert t[j] == tasks[if j < k then j else j + 1];
      }
    }
  }
}
