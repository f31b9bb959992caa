/** The queue of sleeping operations of ipc/sem.c: what a pass over it does, and who
    can be left asleep. */
module SemQueue {
  import opened SemSpec

  /** struct sem_queue; status is -EINTR while nothing has happened, 1 when the
      sleeper is to try again itself. */
  datatype Waiter = Waiter(owner: nat, ops: seq<Op>, alter: bool, status: int)

  const EINTR := 4

  // ----- what a pass over the queue does

  /** The batch cannot be done now, and is not refused either. */
  ghost predicate Waits(val: seq<int>, ops: seq<Op>) {
    InSet(val, ops) && exists k: nat :: FailsAt(val, ops, k) && Code(val, ops, k) > 0
  }

  lemma WaitsIs(val: seq<int>, ops: seq<Op>, result: int)
    requires InSet(val, ops) && (result == 0 <==> Succeeds(val, ops))
    requires result != 0 ==> exists k: nat :: FailsAt(val, ops, k) && result == Code(val, ops, k)
    ensures result > 0 <==> Waits(val, ops)
  {
    hide Passes;
    if result != 0 {
      var k: nat :| FailsAt(val, ops, k) && result == Code(val, ops, k);
      forall j: nat | FailsAt(val, ops, j)
        ensures j == k
      {
      }
    }
  }

  datatype SetState = SetState(val: seq<int>, pending: seq<Waiter>)

  /** One pass: sleepers whose batch can be done or is refused leave, until one that
      decrements can be done; that one is to try itself. */
  ghost function Sweep(val: seq<int>, pending: seq<Waiter>): SetState
    decreases |pending|
  {
    if pending == [] then SetState(val, [])
    else
      var w, rest := pending[0], pending[1..];
      if w.status == 1 then SetState(val, pending)
      else if InSet(val, w.ops) && Succeeds(val, w.ops) then
        if w.alter then SetState(val, [w.(status := 1)] + rest) else Sweep(ValAfter(val, w.ops), rest)
      else if Waits(val, w.ops) then Behind([w], Sweep(val, rest))
      else Sweep(val, rest)
  }

  /** A batch that has been done, and by whom. */
  datatype Work = Work(owner: nat, ops: seq<Op>)

  /** The batches that a pass does, in their order. */
  ghost function Finished(val: seq<int>, pending: seq<Waiter>): seq<Work>
    decreases |pending|
  {
    if pending == [] || pending[0].status == 1 then []
    else
      var w, rest := pending[0], pending[1..];
      if InSet(val, w.ops) && Succeeds(val, w.ops) then
        if w.alter then [] else [Work(w.owner, w.ops)] + Finished(ValAfter(val, w.ops), rest)
      else Finished(val, rest)
  }

  ghost function Behind(front: seq<Waiter>, r: SetState): SetState {
    SetState(r.val, front + r.pending)
  }

  /** What comes of a pass that has come to place k. */
  ghost function Left(val: seq<int>, pending: seq<Waiter>, k: nat): SetState
    requires k <= |pending|
  {
    Behind(pending[..k], Sweep(val, pending[k..]))
  }

  lemma SweepBegins(val: seq<int>, pending: seq<Waiter>)
    ensures Left(val, pending, 0) == Sweep(val, pending)
  {
    var r := Sweep(val, pending);
    assert pending[0..] == pending && pending[..0] == [] && [] + r.pending == r.pending;
  }

  lemma SweepEnds(val: seq<int>, pending: seq<Waiter>)
    ensures Left(val, pending, |pending|) == SetState(val, pending)
  {
    assert pending[|pending|..] == [] && pending[..|pending|] == pending && pending + [] == pending;
  }

  /** What the pass does with the sleeper at k. */
  lemma SweepStep(val: seq<int>, pending: seq<Waiter>, k: nat)
    requires k < |pending|
    ensures var w, r := pending[k], Left(val, pending, k);
      && (w.status == 1 ==> r == SetState(val, pending))
      && (w.status != 1 && InSet(val, w.ops) && Succeeds(val, w.ops) && w.alter ==>
            r == SetState(val, pending[k := w.(status := 1)]))
      && (w.status != 1 && InSet(val, w.ops) && Succeeds(val, w.ops) && !w.alter ==>
            r == Left(ValAfter(val, w.ops), pending[..k] + pending[k + 1..], k))
      && (w.status != 1 && InSet(val, w.ops) && !Succeeds(val, w.ops) && Waits(val, w.ops) ==>
            r == Left(val, pending, k + 1))
      && (w.status != 1 && InSet(val, w.ops) && !Succeeds(val, w.ops) && !Waits(val, w.ops) ==>
            r == Left(val, pending[..k] + pending[k + 1..], k))
    ensures var w, f := pending[k], Finished(val, pending[k..]);
      && (w.status == 1 ==> f == [])
      && (w.status != 1 && InSet(val, w.ops) && Succeeds(val, w.ops) && w.alter ==> f == [])
      && (w.status != 1 && InSet(val, w.ops) && Succeeds(val, w.ops) && !w.alter ==>
            f == [Work(w.owner, w.ops)] + Finished(ValAfter(val, w.ops), pending[k + 1..]))
      && (w.status != 1 && InSet(val, w.ops) && !Succeeds(val, w.ops) ==> f == Finished(val, pending[k + 1..]))
    ensures (pending[..k] + pending[k + 1..])[k..] == pending[k + 1..]
  {
    hide Succeeds, Waits, ValAfter;
    var w, tail := pending[k], pending[k..];
    assert tail[0] == w && tail[1..] == pending[k + 1..];
    assert pending[..k] + pending[k..] == pending;
    assert pending[..k] + ([w.(status := 1)] + pending[k + 1..]) == pending[k := w.(status := 1)];
    var r := Sweep(val, pending[k + 1..]);
    assert pending[..k] + ([w] + r.pending) == pending[..k + 1] + r.pending;
    var p := pending[..k] + pending[k + 1..];
    assert p[..k] == pending[..k] && p[k..] == pending[k + 1..];
  }

  // ----- lost wakeups

  /** Nobody in front of the sleeper that is to try itself can go on. */
  ghost predicate NoneLost(r: SetState) {
    forall i :: 0 <= i < |r.pending| && NoneSignalled(r.pending, i) ==> Waits(r.val, r.pending[i].ops)
  }

  /** Nobody up to i is to try itself. */
  ghost predicate NoneSignalled(pending: seq<Waiter>, i: nat) {
    i < |pending| && forall j :: 0 <= j <= i ==> pending[j].status != 1
  }

  /** The sleepers that decrement nothing only wait for zero, and are never told. */
  ghost predicate OnlyWait(pending: seq<Waiter>) {
    forall k :: 0 <= k < |pending| ==> Plain(pending[k])
  }

  ghost predicate Plain(w: Waiter) {
    if w.alter then Decrements(w.ops) else AddsNothing(w.ops) && w.status != 1
  }

  ghost predicate Decrements(ops: seq<Op>) {
    exists k :: 0 <= k < |ops| && ops[k].op < 0
  }

  ghost predicate AddsNothing(ops: seq<Op>) {
    forall k :: 0 <= k < |ops| ==> ops[k].op == 0
  }

  lemma {:induction false} AddsZero(ops: seq<Op>, n: nat)
    requires AddsNothing(ops)
    ensures Delta(ops, n) == 0
  {
    if ops != [] {
      AddsZero(ops[..|ops| - 1], n);
    }
  }

  /** As long as every sleeper that decrements nothing only waits for zero, a pass leaves
      nobody behind who could go on and is not behind one that is to try itself. */
  lemma {:induction false} PassLosesNone(val: seq<int>, pending: seq<Waiter>)
    requires OnlyWait(pending)
    ensures var r := Sweep(val, pending); r.val == val && NoneLost(r) && OnlyWait(r.pending)
    decreases |pending|
  {
    hide Succeeds, Waits, AddsNothing, Decrements, NoneLost;
    if pending == [] {
      NobodyThere(val);
    } else {
      var w, rest := pending[0], pending[1..];
      if w.status == 1 {
        FirstSignalled(Sweep(val, pending));
      } else if InSet(val, w.ops) && Succeeds(val, w.ops) {
        if w.alter {
          FirstSignalled(Sweep(val, pending));
        } else {
          SameValues(val, w.ops);
          PassLosesNone(val, rest);
        }
      } else {
        PassLosesNone(val, rest);
        if Waits(val, w.ops) {
          OneMoreWaits(w, Sweep(val, rest));
        }
      }
    }
  }

  lemma SameValues(val: seq<int>, ops: seq<Op>)
    requires AddsNothing(ops)
    ensures ValAfter(val, ops) == val
  {
    forall n: nat | n < |val|
      ensures Delta(ops, n) == 0
    {
      AddsZero(ops, n);
    }
  }

  lemma NobodyThere(val: seq<int>)
    ensures NoneLost(SetState(val, []))
  {
  }

  lemma FirstSignalled(r: SetState)
    requires r.pending != [] && r.pending[0].status == 1
    ensures NoneLost(r)
  {
    hide Waits;
  }

  lemma OneMoreWaits(w: Waiter, r: SetState)
    requires NoneLost(r) && Waits(r.val, w.ops)
    ensures NoneLost(Behind([w], r))
  {
    hide Waits;
    var p := [w] + r.pending;
    forall i | 0 <= i < |p| && NoneSignalled(p, i)
      ensures Waits(r.val, p[i].ops)
    {
      if i > 0 {
        forall j | 0 <= j <= i - 1
          ensures r.pending[j].status != 1
        {
          assert p[j + 1] == r.pending[j];
        }
        assert NoneSignalled(r.pending, i - 1);
      }
    }
  }

  function Single(n: nat, x: int): seq<Op> {
    [Op(n, x, false, false)]
  }

  /** A batch of one operation that is not a wait for zero. */
  lemma SingleBatch(val: seq<int>, n: nat, x: int)
    requires n < |val| && x != 0
    ensures var ops := Single(n, x);
      && InSet(val, ops) && !AddsNothing(ops) && !Mixed(ops) && (Decrements(ops) <==> x < 0)
      && (Succeeds(val, ops) <==> 0 <= val[n] + x <= SEMVMX) && (Waits(val, ops) <==> val[n] + x < 0)
      && ValAfter(val, ops) == val[n := val[n] + x]
  {
    var ops := Single(n, x);
    assert ops[..0] == [] && ops[..1] == ops && ops[0].op == x;
    assert Passes(val, ops, 0) <==> 0 <= val[n] + x <= SEMVMX;
    if val[n] + x < 0 {
      assert FailsAt(val, ops, 0) && Code(val, ops, 0) > 0;
    }
    forall m: nat | m < |val|
      ensures Delta(ops, m) == if m == n then x else 0
    {
      DeltaStep(ops, 0, m);
    }
  }

  /** w sleeps, and the pass over w and then m leaves it asleep although it could go on. */
  ghost predicate Loses(val: seq<int>, m: Waiter, w: Waiter) {
    w.status != 1 && Waits(val, w.ops) && !NoneLost(Sweep(val, [w, m]))
  }

  /** A sleeper that decrements nothing makes a pass leave another behind if and only if
      its batch is done in that pass and adds to some semaphore. */
  lemma LossIsExact(val: seq<int>, m: Waiter)
    requires m.status != 1 && InSet(val, m.ops) && (m.alter <==> Decrements(m.ops))
    requires forall n :: 0 <= n < |val| ==> val[n] >= 0
    ensures (exists w: Waiter :: Loses(val, m, w)) <==>
      Succeeds(val, m.ops) && !m.alter && exists n: nat :: n < |val| && Delta(m.ops, n) != 0
  {
    hide Sweep, NoneLost, Succeeds, Waits;
    if Succeeds(val, m.ops) && !m.alter && exists n: nat :: n < |val| && Delta(m.ops, n) != 0 {
      var n: nat :| n < |val| && Delta(m.ops, n) != 0;
      var w := Waiter(0, [Op(n, -(val[n] + 1), false, false)], true, -EINTR);
      GetsLost(val, m, w, n);
    }
    forall w: Waiter | Loses(val, m, w)
      ensures Succeeds(val, m.ops) && !m.alter && exists n: nat :: n < |val| && Delta(m.ops, n) != 0
    {
      if !(Succeeds(val, m.ops) && !m.alter && exists n: nat :: n < |val| && Delta(m.ops, n) != 0) {
        NotLost(val, m, w);
      }
    }
  }

  lemma PassOverTwo(val: seq<int>, w: Waiter, m: Waiter)
    requires w.status != 1 && m.status != 1 && Waits(val, w.ops) && InSet(val, m.ops)
    ensures var r := Sweep(val, [w, m]);
      if Succeeds(val, m.ops) then
        if m.alter then r == SetState(val, [w, m.(status := 1)]) else r == SetState(ValAfter(val, m.ops), [w])
      else r == SetState(val, if Waits(val, m.ops) then [w, m] else [w])
  {
    hide Succeeds, Waits, ValAfter, Left, Sweep;
    WaitsNot(val, w.ops);
    var l := [w, m];
    SweepBegins(val, l);
    SweepStep(val, l, 0);
    SweepStep(val, l, 1);
    assert l[..1] + l[2..] == [w] && l[1 := m.(status := 1)] == [w, m.(status := 1)];
    SweepEnds(val, l);
    SweepEnds(val, [w]);
    SweepEnds(ValAfter(val, m.ops), [w]);
  }

  lemma WaitsNot(val: seq<int>, ops: seq<Op>)
    requires Waits(val, ops)
    ensures InSet(val, ops) && !Succeeds(val, ops)
  {
  }

  lemma NotLost(val: seq<int>, m: Waiter, w: Waiter)
    requires w.status != 1 && m.status != 1 && Waits(val, w.ops) && InSet(val, m.ops)
    requires !(Succeeds(val, m.ops) && !m.alter && exists n: nat :: n < |val| && Delta(m.ops, n) != 0)
    ensures NoneLost(Sweep(val, [w, m]))
  {
    hide Sweep, Succeeds, Waits;
    PassOverTwo(val, w, m);
    if Succeeds(val, m.ops) && !m.alter {
      assert forall n: nat :: n < |val| ==> Delta(m.ops, n) == 0;
      assert ValAfter(val, m.ops) == val;
    }
  }

  /** A decrement by one more than the value waits, until m has been done. */
  lemma GetsLost(val: seq<int>, m: Waiter, w: Waiter, n: nat)
    requires m.status != 1 && InSet(val, m.ops) && Succeeds(val, m.ops) && !m.alter
    requires forall k :: 0 <= k < |m.ops| ==> m.ops[k].op >= 0
    requires n < |val| && val[n] >= 0 && Delta(m.ops, n) != 0
    requires w == Waiter(0, [Op(n, -(val[n] + 1), false, false)], true, -EINTR)
    ensures Loses(val, m, w)
  {
    SingleBatch(val, n, -(val[n] + 1));
    Grows(m.ops, n);
    var v := ValAfter(val, m.ops);
    SingleBatch(v, n, -(val[n] + 1));
    Below(val, m.ops, |m.ops|, n);
    assert m.ops[..|m.ops|] == m.ops;
    hide Sweep, Succeeds, Waits, ValAfter;
    PassOverTwo(val, w, m);
    WaitsOrNot(v, w.ops);
    assert NoneSignalled([w], 0);
  }

  lemma WaitsOrNot(val: seq<int>, ops: seq<Op>)
    ensures InSet(val, ops) && Succeeds(val, ops) ==> !Waits(val, ops)
  {
  }

  lemma {:induction false} Grows(ops: seq<Op>, n: nat)
    requires forall k :: 0 <= k < |ops| ==> ops[k].op >= 0
    ensures Delta(ops, n) >= 0
  {
    if ops != [] {
      Grows(ops[..|ops| - 1], n);
    }
  }

  /** A batch that is done leaves the values it adds to within bounds. */
  lemma {:induction false} Below(val: seq<int>, ops: seq<Op>, k: nat, n: nat)
    requires InSet(val, ops) && Succeeds(val, ops) && k <= |ops| && n < |val|
    ensures Delta(ops[..k], n) != 0 ==> val[n] + Delta(ops[..k], n) <= SEMVMX
  {
    if k > 0 {
      Below(val, ops, k - 1, n);
      DeltaStep(ops, k - 1, n);
      assert Passes(val, ops, k - 1);
    } else {
      assert ops[..0] == [];
    }
  }

  /** Semaphore 0 is zero, and a batch that waited for that adds to semaphore 1: the one
      that waits for semaphore 1 in front of it is not tried again. */
  lemma LossExample()
    ensures var w := Waiter(1, [Op(1, -1, false, false)], true, -EINTR);
      var m := Waiter(2, [Op(0, 0, false, false), Op(1, 1, false, false)], false, -EINTR);
      Sweep([0, 0], [w, m]) == SetState([0, 1], [w]) && Succeeds([0, 1], w.ops)
  {
    var w := Waiter(1, [Op(1, -1, false, false)], true, -EINTR);
    var m := Waiter(2, [Op(0, 0, false, false), Op(1, 1, false, false)], false, -EINTR);
    SingleBatch([0, 0], 1, -1);
    SingleBatch([0, 1], 1, -1);
    MixedBatch();
    hide Sweep, Succeeds, Waits, ValAfter;
    PassOverTwo([0, 0], w, m);
  }

  lemma MixedBatch()
    ensures var ops := [Op(0, 0, false, false), Op(1, 1, false, false)];
      InSet([0, 0], ops) && Succeeds([0, 0], ops) && ValAfter([0, 0], ops) == [0, 1]
  {
    var ops := [Op(0, 0, false, false), Op(1, 1, false, false)];
    assert ops[..0] == [] && ops[..2] == ops;
    DeltaStep(ops, 0, 0);
    DeltaStep(ops, 0, 1);
    DeltaStep(ops, 1, 0);
    DeltaStep(ops, 1, 1);
    assert Passes([0, 0], ops, 0) && Passes([0, 0], ops, 1);
  }

  /** The values after sem_exit has added the adjustments, clamped at zero. */
  function Adjusted(val: seq<int>, adj: seq<int>): (r: seq<int>)
    requires |adj| == |val|
    ensures |r| == |val|
  {
    seq(|val|, n requires 0 <= n < |val| => if val[n] + adj[n] < 0 then 0 else val[n] + adj[n])
  }

  // ----- lost wakeups in a run

  /** What can happen to the set, each in one region under the lock. */
  datatype Step =
    | Do(owner: nat, ops: seq<Op>)
    | Try(k: nat)
    | Interrupted(k: nat)
    | Leave(k: nat)
    | SetTo(n: nat, x: int)
    | SetAllTo(vals: seq<int>)
    | Adjust(adj: seq<int>)

  ghost predicate Possible(r: SetState, s: Step) {
    match s
    case Do(_, _) => true
    case Try(k) => k < |r.pending| && r.pending[k].status == 1
    case Interrupted(k) => k < |r.pending|
    case Leave(k) => k < |r.pending|
    case SetTo(n, x) => n < |r.val| && x >= 0
    case SetAllTo(vals) => |vals| == |r.val| && NonNegative(vals)
    case Adjust(adj) => |adj| == |r.val|
  }

  ghost function After(r: SetState, s: Step): SetState
    requires Possible(r, s)
  {
    match s
    case Do(owner, ops) => if ops == [] || !InSet(r.val, ops) then r else AfterDo(r, owner, ops)
    case Try(k) => AfterTry(r, k)
    case Interrupted(k) =>
      if r.pending[k].status == 1 then AfterTry(r, k)
      else Update(r.val, r.pending[k].ops, Without(r.pending, k))
    case Leave(k) => SetState(r.val, Without(r.pending, k))
    case SetTo(n, x) => Sweep(r.val[n := x], r.pending)
    case SetAllTo(vals) => Sweep(vals, r.pending)
    case Adjust(adj) => Sweep(Adjusted(r.val, adj), r.pending)
  }

  /** The batches that are done in a step: that of the process itself, and those of the
      sleepers that a pass finishes. */
  ghost function Finishes(r: SetState, s: Step): seq<Work>
    requires Possible(r, s)
  {
    match s
    case Do(owner, ops) =>
      if ops == [] || !InSet(r.val, ops) || Waits(r.val, ops) then []
      else Own(r.val, owner, ops) + Passing(Done(r.val, ops), ops, r.pending)
    case Try(k) => FinishesTry(r, k)
    case Interrupted(k) =>
      if r.pending[k].status == 1 then FinishesTry(r, k)
      else Passing(r.val, r.pending[k].ops, Without(r.pending, k))
    case Leave(k) => []
    case SetTo(n, x) => Finished(r.val[n := x], r.pending)
    case SetAllTo(vals) => Finished(vals, r.pending)
    case Adjust(adj) => Finished(Adjusted(r.val, adj), r.pending)
  }

  ghost function FinishesTry(r: SetState, k: nat): seq<Work>
    requires k < |r.pending|
  {
    var w := r.pending[k];
    if Waits(r.val, w.ops) then []
    else Own(r.val, w.owner, w.ops) + Passing(Done(r.val, w.ops), w.ops, Without(r.pending, k))
  }

  ghost function Own(val: seq<int>, owner: nat, ops: seq<Op>): seq<Work> {
    if InSet(val, ops) && Succeeds(val, ops) then [Work(owner, ops)] else []
  }

  ghost function Passing(val: seq<int>, ops: seq<Op>, pending: seq<Waiter>): seq<Work> {
    if AddsNothing(ops) then [] else Finished(val, pending)
  }

  /** A batch that has to wait is queued, at the end if it alters anything and else at
      the front; other batches are done or refused. */
  ghost function AfterDo(r: SetState, owner: nat, ops: seq<Op>): SetState {
    if Waits(r.val, ops) then SetState(r.val, Queued(r.pending, owner, ops))
    else Update(Done(r.val, ops), ops, r.pending)
  }

  /** A sleeper that was told tries itself, and goes on sleeping if it still has to wait. */
  ghost function AfterTry(r: SetState, k: nat): SetState
    requires k < |r.pending|
  {
    var w := r.pending[k];
    if Waits(r.val, w.ops) then SetState(r.val, r.pending[k := w.(status := -EINTR)])
    else Update(Done(r.val, w.ops), w.ops, Without(r.pending, k))
  }

  ghost function Queued(pending: seq<Waiter>, owner: nat, ops: seq<Op>): seq<Waiter> {
    var w := Waiter(owner, ops, Decrements(ops), -EINTR);
    if AddsNothing(ops) then [w] + pending else pending + [w]
  }

  function Without(pending: seq<Waiter>, k: nat): seq<Waiter>
    requires k < |pending|
  {
    pending[..k] + pending[k + 1..]
  }

  ghost function Done(val: seq<int>, ops: seq<Op>): seq<int> {
    if InSet(val, ops) && Succeeds(val, ops) then ValAfter(val, ops) else val
  }

  /** The pass at the end of sys_semop, which only batches make that alter something. */
  ghost function Update(val: seq<int>, ops: seq<Op>, pending: seq<Waiter>): SetState {
    if AddsNothing(ops) then SetState(val, pending) else Sweep(val, pending)
  }

  /** Nobody but k is to try itself up to i. */
  ghost predicate NoOther(pending: seq<Waiter>, k: nat, i: nat) {
    i < |pending| && forall j :: 0 <= j <= i && j != k ==> pending[j].status != 1
  }

  /** Behind k is one that could go on, with nobody else told in front of it. */
  ghost predicate Relies(r: SetState, k: nat) {
    exists i: nat :: k < i && NoOther(r.pending, k, i) && !Waits(r.val, r.pending[i].ops)
  }

  /** A sleeper that was told fails to go on, or is gone, without a pass, and another
      relies on it. */
  ghost predicate Forsakes(r: SetState, s: Step)
    requires Possible(r, s)
  {
    match s
    case Try(k) => Waits(r.val, r.pending[k].ops) && Relies(r, k)
    case Interrupted(k) => r.pending[k].status == 1 && Waits(r.val, r.pending[k].ops) && Relies(r, k)
    case Leave(k) => r.pending[k].status == 1 && Relies(r, k)
    case _ => false
  }

  /** A batch that fits leaves no value negative. */
  lemma {:induction false} StaysPositive(val: seq<int>, ops: seq<Op>, k: nat, n: nat)
    requires InSet(val, ops) && Succeeds(val, ops) && k <= |ops| && n < |val| && val[n] >= 0
    ensures val[n] + Delta(ops[..k], n) >= 0
  {
    if k > 0 {
      StaysPositive(val, ops, k - 1, n);
      DeltaStep(ops, k - 1, n);
      assert Passes(val, ops, k - 1);
    } else {
      assert ops[..0] == [];
    }
  }

  ghost predicate NonNegative(val: seq<int>) {
    forall n :: 0 <= n < |val| ==> val[n] >= 0
  }

  lemma BatchPositive(val: seq<int>, ops: seq<Op>)
    requires InSet(val, ops) && Succeeds(val, ops) && NonNegative(val)
    ensures NonNegative(ValAfter(val, ops))
  {
    forall n | 0 <= n < |val|
      ensures ValAfter(val, ops)[n] >= 0
    {
      StaysPositive(val, ops, |ops|, n);
      assert ops[..|ops|] == ops;
    }
  }

  /** A batch that waits for one semaphore to be zero and adds to others. */
  ghost predicate Mixed(ops: seq<Op>) {
    && !Decrements(ops) && (exists k :: 0 <= k < |ops| && ops[k].op == 0 && !ops[k].nowait)
    && exists k :: 0 <= k < |ops| && ops[k].op > 0
  }

  /** Only a batch that decrements something or waits for zero has to wait. */
  lemma PlainWaits(val: seq<int>, ops: seq<Op>)
    requires NonNegative(val) && Waits(val, ops) && !Mixed(ops)
    ensures Decrements(ops) || AddsNothing(ops)
  {
    if !Decrements(ops) {
      var k: nat :| FailsAt(val, ops, k) && Code(val, ops, k) > 0;
      Grows(ops[..k], ops[k].num);
    }
  }

  /** What a run keeps as long as no batch is mixed. */
  ghost predicate Sound(r: SetState) {
    NonNegative(r.val) && OnlyWait(r.pending)
  }

  lemma DoneSound(val: seq<int>, ops: seq<Op>)
    requires NonNegative(val)
    ensures NonNegative(Done(val, ops)) && (AddsNothing(ops) ==> Done(val, ops) == val)
  {
    hide Succeeds, ValAfter, AddsNothing, NonNegative;
    if InSet(val, ops) && Succeeds(val, ops) {
      BatchPositive(val, ops);
      if AddsNothing(ops) {
        SameValues(val, ops);
      }
    }
  }

  /** A pass, or no pass where nothing has changed. */
  lemma UpdateKeeps(r: SetState, val: seq<int>, ops: seq<Op>)
    requires NonNegative(val) && OnlyWait(r.pending) && (AddsNothing(ops) ==> val == r.val && NoneLost(r))
    ensures Sound(Update(val, ops, r.pending)) && NoneLost(Update(val, ops, r.pending))
  {
    hide Sweep, NoneLost, OnlyWait, AddsNothing, NonNegative;
    PassLosesNone(val, r.pending);
  }

  lemma QueuedKeeps(r: SetState, owner: nat, ops: seq<Op>)
    requires Sound(r) && NoneLost(r) && Waits(r.val, ops) && !Mixed(ops)
    ensures var q := SetState(r.val, Queued(r.pending, owner, ops)); Sound(q) && NoneLost(q)
  {
    PlainWaits(r.val, ops);
    hide Waits, Mixed;
    var w := Waiter(owner, ops, Decrements(ops), -EINTR);
    assert Plain(w);
    if AddsNothing(ops) {
      OneMoreWaits(w, r);
    } else {
      LastWaits(w, r);
    }
  }

  lemma LastWaits(w: Waiter, r: SetState)
    requires NoneLost(r) && Waits(r.val, w.ops)
    ensures NoneLost(SetState(r.val, r.pending + [w]))
  {
    hide Waits;
    var p := r.pending + [w];
    forall i | 0 <= i < |p| && NoneSignalled(p, i)
      ensures Waits(r.val, p[i].ops)
    {
      if i < |r.pending| {
        SamePrefix(r.pending, p, i);
      }
    }
  }

  lemma SamePrefix(p: seq<Waiter>, q: seq<Waiter>, i: nat)
    requires i < |p| && i < |q| && p[..i + 1] == q[..i + 1]
    ensures NoneSignalled(p, i) <==> NoneSignalled(q, i)
  {
    assert forall j :: 0 <= j <= i ==> p[..i + 1][j] == p[j] && q[..i + 1][j] == q[j];
  }

  /** A sleeper leaves the queue: if it was told, those who rely on it are left behind. */
  lemma WithoutOne(r: SetState, k: nat)
    requires Sound(r) && NoneLost(r) && k < |r.pending|
    ensures var q := SetState(r.val, Without(r.pending, k));
      && Sound(q) && (NoneLost(q) <==> r.pending[k].status != 1 || !Relies(r, k))
  {
    hide Waits, NonNegative, Plain;
    var p, q := r.pending, Without(r.pending, k);
    forall i: nat | i < |q|
      ensures i < k ==> q[i] == p[i] && (NoneSignalled(q, i) <==> NoneSignalled(p, i))
      ensures i >= k ==> q[i] == p[i + 1] && (NoneSignalled(q, i) <==> NoOther(p, k, i + 1))
    {
      if i < k {
        SamePrefix(p, q, i);
      } else {
        Shifted(p, k, i);
      }
    }
    if r.pending[k].status != 1 {
      forall i: nat | i < |q| && NoneSignalled(q, i)
        ensures Waits(r.val, q[i].ops)
      {
        if i >= k {
          NobodyTold(p, k, i + 1);
        }
      }
    } else if Relies(r, k) {
      var i: nat :| k < i && NoOther(p, k, i) && !Waits(r.val, p[i].ops);
      assert NoneSignalled(q, i - 1);
    } else {
      forall i: nat | i < |q| && NoneSignalled(q, i)
        ensures Waits(r.val, q[i].ops)
      {
      }
    }
  }

  lemma NobodyTold(p: seq<Waiter>, k: nat, i: nat)
    requires k <= i && NoOther(p, k, i) && p[k].status != 1
    ensures NoneSignalled(p, i)
  {
    forall j | 0 <= j <= i
      ensures p[j].status != 1
    {
      assert j == k || p[j].status != 1;
    }
  }

  lemma Shifted(p: seq<Waiter>, k: nat, i: nat)
    requires k <= i < |p| - 1
    ensures Without(p, k)[i] == p[i + 1] && (NoneSignalled(Without(p, k), i) <==> NoOther(p, k, i + 1))
  {
    var q := Without(p, k);
    if NoneSignalled(q, i) {
      forall j | 0 <= j <= i + 1 && j != k
        ensures p[j].status != 1
      {
        assert p[j] == q[if j < k then j else j - 1];
      }
    }
  }

  /** A sleeper goes on sleeping: those who rely on it are left behind. */
  lemma AsleepAgain(r: SetState, k: nat)
    requires Sound(r) && NoneLost(r) && k < |r.pending| && r.pending[k].status == 1 && Waits(r.val, r.pending[k].ops)
    ensures var q := SetState(r.val, r.pending[k := r.pending[k].(status := -EINTR)]);
      Sound(q) && (NoneLost(q) <==> !Relies(r, k))
  {
    hide Waits, NonNegative, Decrements, AddsNothing;
    var p := r.pending;
    var q := p[k := p[k].(status := -EINTR)];
    assert Plain(p[k]);
    forall i: nat | i < |q|
      ensures i < k ==> (NoneSignalled(q, i) <==> NoneSignalled(p, i))
      ensures i > k ==> (NoneSignalled(q, i) <==> NoOther(p, k, i))
    {
      if i < k {
        SamePrefix(p, q, i);
      } else {
        Asleep(p, k, i);
      }
    }
    if Relies(r, k) {
      var i: nat :| k < i && NoOther(p, k, i) && !Waits(r.val, p[i].ops);
      assert NoneSignalled(q, i);
    } else {
      forall i: nat | i < |q| && NoneSignalled(q, i)
        ensures Waits(r.val, q[i].ops)
      {
      }
    }
  }

  lemma Asleep(p: seq<Waiter>, k: nat, i: nat)
    requires k <= i < |p|
    ensures NoneSignalled(p[k := p[k].(status := -EINTR)], i) <==> NoOther(p, k, i)
  {
    var q := p[k := p[k].(status := -EINTR)];
    assert forall j :: 0 <= j < |p| && j != k ==> q[j] == p[j];
    if NoneSignalled(q, i) {
      forall j | 0 <= j <= i && j != k
        ensures p[j].status != 1
      {
        assert q[j].status != 1;
      }
    }
  }

  lemma TryKeeps(r: SetState, k: nat)
    requires Sound(r) && NoneLost(r) && k < |r.pending| && r.pending[k].status == 1
    ensures Sound(AfterTry(r, k))
    ensures NoneLost(AfterTry(r, k)) <==> !(Waits(r.val, r.pending[k].ops) && Relies(r, k))
  {
    hide Waits, NoneLost, NonNegative, Sweep, Relies;
    var w := r.pending[k];
    if Waits(r.val, w.ops) {
      AsleepAgain(r, k);
    } else {
      ToldDecrements(w);
      DoneSound(r.val, w.ops);
      WithoutOne(r, k);
      UpdateKeeps(SetState(r.val, Without(r.pending, k)), Done(r.val, w.ops), w.ops);
    }
  }

  lemma ToldDecrements(w: Waiter)
    requires Plain(w) && w.status == 1
    ensures !AddsNothing(w.ops)
  {
  }

  /** As long as no batch is mixed, every step keeps that whoever could go on is told or
      behind one that is, unless the step forsakes somebody. */
  lemma StepLosesNone(r: SetState, s: Step)
    requires Sound(r) && NoneLost(r) && Possible(r, s) && (s.Do? ==> !Mixed(s.ops))
    ensures Sound(After(r, s)) && (NoneLost(After(r, s)) <==> !Forsakes(r, s))
  {
    hide Waits, NoneLost, Sweep, Relies, Mixed, AddsNothing, Decrements, OnlyWait, Queued, Done;
    match s
    case Do(owner, ops) =>
      if Waits(r.val, ops) {
        QueuedKeeps(r, owner, ops);
      } else {
        DoneSound(r.val, ops);
        UpdateKeeps(r, Done(r.val, ops), ops);
      }
    case Try(k) => TryKeeps(r, k);
    case Interrupted(k) =>
      if r.pending[k].status == 1 {
        TryKeeps(r, k);
      } else {
        WithoutOne(r, k);
        UpdateKeeps(SetState(r.val, Without(r.pending, k)), r.val, r.pending[k].ops);
      }
    case Leave(k) => WithoutOne(r, k);
    case SetTo(n, x) => PassLosesNone(r.val[n := x], r.pending);
    case SetAllTo(vals) => PassLosesNone(vals, r.pending);
    case Adjust(adj) => PassLosesNone(Adjusted(r.val, adj), r.pending);
  }

  /** The states of a run. */
  ghost predicate Run(states: seq<SetState>, steps: seq<Step>) {
    |states| == |steps| + 1 && forall i :: 0 <= i < |steps| ==> Follows(states, steps, i)
  }

  ghost predicate Follows(states: seq<SetState>, steps: seq<Step>, i: nat)
    requires |states| == |steps| + 1 && i < |steps|
  {
    Possible(states[i], steps[i]) && states[i + 1] == After(states[i], steps[i])
  }

  ghost predicate Unmixed(steps: seq<Step>) {
    forall i :: 0 <= i < |steps| && steps[i].Do? ==> !Mixed(steps[i].ops)
  }

  /** Nobody is left behind in the first n states of the run. */
  ghost predicate NoneLostTo(states: seq<SetState>, n: nat) {
    n <= |states| && forall i :: 0 <= i < n ==> NoneLost(states[i])
  }

  ghost predicate ForsakesAt(states: seq<SetState>, steps: seq<Step>, i: nat)
    requires |states| == |steps| + 1 && i < |steps|
  {
    Possible(states[i], steps[i]) && Forsakes(states[i], steps[i])
  }

  lemma {:induction false} SoundTo(states: seq<SetState>, steps: seq<Step>, n: nat)
    requires Run(states, steps) && Unmixed(steps) && Sound(states[0]) && n <= |steps| && NoneLostTo(states, n)
    ensures Sound(states[n])
  {
    hide Sound, NoneLost, Mixed, After, Possible, Forsakes;
    if n > 0 {
      SoundTo(states, steps, n - 1);
      assert Follows(states, steps, n - 1);
      StepLosesNone(states[n - 1], steps[n - 1]);
    }
  }

  lemma {:induction false} LosesNoneTo(states: seq<SetState>, steps: seq<Step>, n: nat)
    requires Run(states, steps) && Unmixed(steps) && Sound(states[0]) && NoneLost(states[0]) && n < |states|
    requires forall i: nat :: i < n ==> !ForsakesAt(states, steps, i)
    ensures NoneLostTo(states, n + 1)
  {
    hide Sound, NoneLost, Mixed, After, Possible, Forsakes;
    if n > 0 {
      LosesNoneTo(states, steps, n - 1);
      SoundTo(states, steps, n - 1);
      assert Follows(states, steps, n - 1) && !ForsakesAt(states, steps, n - 1);
      StepLosesNone(states[n - 1], steps[n - 1]);
    }
  }

  /** A run without mixed batches never leaves anybody behind who could go on if and only
      if no sleeper that others rely on fails to go on. */
  lemma RunLosesNone(states: seq<SetState>, steps: seq<Step>)
    requires Run(states, steps) && Unmixed(steps) && Sound(states[0]) && NoneLost(states[0])
    ensures NoneLostTo(states, |states|) <==> forall i: nat :: i < |steps| ==> !ForsakesAt(states, steps, i)
  {
    hide Sound, NoneLost, Mixed, After, Possible, Forsakes;
    if NoneLostTo(states, |states|) {
      forall i: nat | i < |steps|
        ensures !ForsakesAt(states, steps, i)
      {
        SoundTo(states, steps, i);
        assert Follows(states, steps, i);
        StepLosesNone(states[i], steps[i]);
      }
    }
    if forall i: nat :: i < |steps| ==> !ForsakesAt(states, steps, i) {
      LosesNoneTo(states, steps, |steps|);
    }
  }

  // ----- a run that forsakes somebody

  /** Process `owner` asleep until semaphore n can be decremented. */
  function Sleeper(owner: nat, n: nat, told: bool): Waiter {
    Waiter(owner, Single(n, -1), true, if told then 1 else -EINTR)
  }

  lemma GoesToSleep(r: SetState, owner: nat, n: nat)
    requires n < |r.val| && r.val[n] == 0
    ensures After(r, Do(owner, Single(n, -1))) == SetState(r.val, r.pending + [Sleeper(owner, n, false)])
  {
    SingleBatch(r.val, n, -1);
    hide Waits, Decrements, AddsNothing;
  }

  lemma Changes(r: SetState, owner: nat, n: nat, x: int)
    requires n < |r.val| && x != 0 && 0 <= r.val[n] + x <= SEMVMX
    ensures After(r, Do(owner, Single(n, x))) == Sweep(r.val[n := r.val[n] + x], r.pending)
  {
    SingleBatch(r.val, n, x);
    hide Waits, Decrements, AddsNothing, Sweep, Succeeds;
  }

  /** A pass tells the first sleeper if it can go on, and goes no further. */
  lemma StopsAtFirst(val: seq<int>, owner: nat, n: nat, told: bool, rest: seq<Waiter>)
    requires n < |val| && (told || 1 <= val[n] <= SEMVMX)
    ensures Sweep(val, [Sleeper(owner, n, told)] + rest) == SetState(val, [Sleeper(owner, n, true)] + rest)
  {
    SingleBatch(val, n, -1);
    hide Waits, Decrements, AddsNothing, Succeeds, ValAfter;
    var p := [Sleeper(owner, n, told)] + rest;
    assert p[0] == Sleeper(owner, n, told) && p[1..] == rest;
  }

  /** The first process waits for semaphore 0 and the second for semaphore 1. */
  function TwoAsleep(a: int, b: int, told: bool): SetState {
    SetState([a, b], [Sleeper(1, 0, told)] + [Sleeper(2, 1, false)])
  }

  function ExampleSteps(): seq<Step> {
    [Do(1, Single(0, -1)), Do(2, Single(1, -1)), Do(3, Single(0, 1)), Do(4, Single(0, -1)), Do(5, Single(1, 1)), Try(0)]
  }

  function ExampleStates(): seq<SetState> {
    [SetState([0, 0], []), SetState([0, 0], [Sleeper(1, 0, false)]), TwoAsleep(0, 0, false), TwoAsleep(1, 0, true),
     TwoAsleep(0, 0, true), TwoAsleep(0, 1, true), TwoAsleep(0, 1, false)]
  }

  lemma ExampleRun()
    ensures Run(ExampleStates(), ExampleSteps())
  {
    hide Sleeper, Single, Sweep, After;
    var r, s := ExampleStates(), ExampleSteps();
    var x := [Sleeper(2, 1, false)];
    GoesToSleep(r[0], 1, 0);
    assert [] + [Sleeper(1, 0, false)] == [Sleeper(1, 0, false)];
    GoesToSleep(r[1], 2, 1);
    Changes(r[2], 3, 0, 1);
    StopsAtFirst([1, 0], 1, 0, false, x);
    Changes(r[3], 4, 0, -1);
    StopsAtFirst([0, 0], 1, 0, true, x);
    Changes(r[4], 5, 1, 1);
    StopsAtFirst([0, 1], 1, 0, true, x);
    TriesInVain();
    assert [0, 0][0 := 1] == [1, 0] && [1, 0][0 := 0] == [0, 0] && [0, 0][1 := 1] == [0, 1];
    forall i | 0 <= i < 6
      ensures Follows(r, s, i)
    {
    }
  }

  lemma TriesInVain()
    ensures var r := TwoAsleep(0, 1, true);
      Possible(r, Try(0)) && After(r, Try(0)) == TwoAsleep(0, 1, false) && Forsakes(r, Try(0))
    ensures !NoneLost(TwoAsleep(0, 1, false))
  {
    SingleBatch([0, 1], 0, -1);
    SingleBatch([0, 1], 1, -1);
    hide Waits, Decrements, AddsNothing, Succeeds, ValAfter, Single;
    var r, q := TwoAsleep(0, 1, true), TwoAsleep(0, 1, false);
    assert r.pending[0 := Sleeper(1, 0, false)] == q.pending;
    WaitsOrNot([0, 1], Single(1, -1));
    assert NoOther(r.pending, 0, 1) && NoneSignalled(q.pending, 1);
  }

  /** More than one can be told: the third process tells the second, and the fourth the
      first, which is in front of it. */
  lemma TwoToldExample()
    ensures var steps := [Do(1, Single(0, -1)), Do(2, Single(1, -1)), Do(3, Single(1, 1)), Do(4, Single(0, 1))];
      exists states ::
        Run(states, steps) && states[0] == SetState([0, 0], []) && TellsAt(states[4], 0) && TellsAt(states[4], 1)
  {
    hide Single, Sweep, After, Succeeds, Waits;
    var w, x, told := Sleeper(1, 0, false), Sleeper(2, 1, false), Sleeper(2, 1, true);
    var steps := [Do(1, Single(0, -1)), Do(2, Single(1, -1)), Do(3, Single(1, 1)), Do(4, Single(0, 1))];
    var r := [SetState([0, 0], []), SetState([0, 0], [w]), SetState([0, 0], [w] + [x]), SetState([0, 1], [w] + [told]),
              SetState([1, 1], [Sleeper(1, 0, true)] + [told])];
    GoesToSleep(r[0], 1, 0);
    assert [] + [w] == [w];
    GoesToSleep(r[1], 2, 1);
    Changes(r[2], 3, 1, 1);
    SingleBatch([0, 1], 0, -1);
    SingleBatch([0, 1], 1, -1);
    PassOverTwo([0, 1], w, x);
    assert [w] + [x] == [w, x] && [w] + [told] == [w, told];
    Changes(r[3], 4, 0, 1);
    StopsAtFirst([1, 1], 1, 0, false, [told]);
    assert [0, 0][1 := 1] == [0, 1] && [0, 1][0 := 1] == [1, 1];
    forall i | 0 <= i < 4
      ensures Follows(r, steps, i)
    {
    }
    assert Run(r, steps);
  }

  ghost predicate TellsAt(r: SetState, k: nat) {
    k < |r.pending| && r.pending[k].status == 1
  }

  lemma ExampleUnmixed()
    ensures Unmixed(ExampleSteps())
  {
    SingleBatch([0, 0], 0, -1);
    SingleBatch([0, 0], 1, -1);
    SingleBatch([0, 0], 0, 1);
    SingleBatch([0, 0], 1, 1);
    hide Mixed, Single, Succeeds, Waits, ValAfter;
  }

  /** The third process tells the first, the fourth takes what it was told of, and the
      pass of the fifth stops at it.  It goes on sleeping, and so does the second, which
      could go on. */
  lemma ForsakenExample()
    ensures var states, steps := ExampleStates(), ExampleSteps();
      && Run(states, steps) && Unmixed(steps) && states[0] == SetState([0, 0], [])
      && ForsakesAt(states, steps, 5) && !NoneLost(states[6])
      && states[6].pending[1].status != 1 && states[6].pending[1].ops == Single(1, -1)
      && Succeeds(states[6].val, Single(1, -1))
  {
    SingleBatch([0, 1], 1, -1);
    hide Mixed, Single, Succeeds, Waits, ValAfter, After, Forsakes, NoneLost;
    ExampleRun();
    ExampleUnmixed();
    TriesInVain();
  }
}
