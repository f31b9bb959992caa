/** System V semaphores of ipc/sem.c: what a batch of operations adds up to. */
module SemSpec {

  const SEMVMX := 32767

  /** struct sembuf, with the two flags that matter. */
  datatype Op = Op(num: nat, op: int, undo: bool, nowait: bool)

  /** The value of an int stored in a short. */
  function Short(x: int): int {
    (x + 32768) % 65536 - 32768
  }

  predicate IsShort(x: int) {
    -32768 <= x <= 32767
  }

  lemma ShortOf(x: int)
    ensures IsShort(Short(x)) && (IsShort(x) <==> Short(x) == x)
  {
  }

  /** Storing a sum step by step is storing the sum. */
  lemma ShortSum(x: int, y: int)
    ensures Short(Short(x) + y) == Short(x + y)
  {
    var a := x + 32768;
    assert Short(x) + 32768 == a % 65536;
    assert (a % 65536 + y) % 65536 == (a + y) % 65536;
  }

  /** What the operations add to semaphore n. */
  function Delta(ops: seq<Op>, n: nat): int {
    if ops == [] then 0
    else Delta(ops[..|ops| - 1], n) + (if ops[|ops| - 1].num == n then ops[|ops| - 1].op else 0)
  }

  /** What those with SEM_UNDO among them add. */
  function DeltaUndo(ops: seq<Op>, n: nat): int {
    if ops == [] then 0
    else
      var o := ops[|ops| - 1];
      DeltaUndo(ops[..|ops| - 1], n) + (if o.num == n && o.undo then o.op else 0)
  }

  lemma DeltaStep(ops: seq<Op>, k: nat, n: nat)
    requires k < |ops|
    ensures Delta(ops[..k + 1], n) == Delta(ops[..k], n) + (if ops[k].num == n then ops[k].op else 0)
    ensures DeltaUndo(ops[..k + 1], n) ==
      DeltaUndo(ops[..k], n) + (if ops[k].num == n && ops[k].undo then ops[k].op else 0)
  {
    assert ops[..k + 1][..k] == ops[..k];
  }

  /** Operation k can be done when the ones before it have been. */
  predicate Passes(val: seq<int>, ops: seq<Op>, k: nat)
    requires k < |ops| && ops[k].num < |val|
  {
    var v := val[ops[k].num] + Delta(ops[..k], ops[k].num);
    (ops[k].op == 0 ==> v == 0) && 0 <= v + ops[k].op <= SEMVMX
  }

  predicate InSet(val: seq<int>, ops: seq<Op>) {
    forall k :: 0 <= k < |ops| ==> ops[k].num < |val|
  }

  /** The whole batch can be done at once. */
  ghost predicate Succeeds(val: seq<int>, ops: seq<Op>)
    requires InSet(val, ops)
  {
    forall k: nat :: k < |ops| ==> Passes(val, ops, k)
  }

  /** Operation k is the first that cannot be done. */
  ghost predicate FailsAt(val: seq<int>, ops: seq<Op>, k: nat)
    requires InSet(val, ops)
  {
    k < |ops| && !Passes(val, ops, k) && forall j: nat :: j < k ==> Passes(val, ops, j)
  }

  const ERANGE := 34
  const EAGAIN := 11

  /** The return code for a batch that fails at operation k. */
  function Code(val: seq<int>, ops: seq<Op>, k: nat): int
    requires k < |ops| && ops[k].num < |val|
  {
    var v := val[ops[k].num] + Delta(ops[..k], ops[k].num);
    if ops[k].op != 0 && v + ops[k].op > SEMVMX then -ERANGE
    else if ops[k].nowait then -EAGAIN
    else 1
  }

  /** The values after the first k operations. */
  function ValAfter(val: seq<int>, ops: seq<Op>): (r: seq<int>)
    ensures |r| == |val|
  {
    seq(|val|, n requires 0 <= n < |val| => val[n] + Delta(ops, n))
  }

  /** The adjustments after the first k operations. */
  function AdjAfter(adj: seq<int>, ops: seq<Op>): (r: seq<int>)
    ensures |r| == |adj|
  {
    seq(|adj|, n requires 0 <= n < |adj| => Short(adj[n] - DeltaUndo(ops, n)))
  }

  ghost predicate Shorts(adj: seq<int>) {
    forall n :: 0 <= n < |adj| ==> IsShort(adj[n])
  }

  lemma NothingDone(val: seq<int>, adj: seq<int>)
    requires Shorts(adj)
    ensures ValAfter(val, []) == val && AdjAfter(adj, []) == adj
  {
  }

  /** One operation forth. */
  lemma Forth(val: seq<int>, adj: seq<int>, ops: seq<Op>, k: nat)
    requires k < |ops| && ops[k].num < |val|
    ensures var v, m := ValAfter(val, ops[..k]), ops[k].num;
      ValAfter(val, ops[..k + 1]) == v[m := v[m] + ops[k].op]
    ensures ops[k].num < |adj| ==>
      var a, m := AdjAfter(adj, ops[..k]), ops[k].num;
      AdjAfter(adj, ops[..k + 1]) == if ops[k].undo then a[m := Short(a[m] - ops[k].op)] else a
    ensures !ops[k].undo ==> AdjAfter(adj, ops[..k + 1]) == AdjAfter(adj, ops[..k])
  {
    var m := ops[k].num;
    forall n: nat | n < |val|
      ensures Delta(ops[..k + 1], n) == Delta(ops[..k], n) + (if ops[k].num == n then ops[k].op else 0)
    {
      DeltaStep(ops, k, n);
    }
    forall n: nat | n < |adj|
      ensures DeltaUndo(ops[..k + 1], n) ==
        DeltaUndo(ops[..k], n) + (if ops[k].num == n && ops[k].undo then ops[k].op else 0)
    {
      DeltaStep(ops, k, n);
    }
    if m < |adj| {
      ShortSum(adj[m] - DeltaUndo(ops[..k], m), -ops[k].op);
    }
  }

  /** One operation back. */
  lemma Back(val: seq<int>, adj: seq<int>, ops: seq<Op>, k: nat)
    requires k < |ops| && ops[k].num < |val| && Shorts(adj)
    ensures var v, m := ValAfter(val, ops[..k + 1]), ops[k].num;
      ValAfter(val, ops[..k]) == v[m := v[m] - ops[k].op]
    ensures ops[k].num < |adj| ==>
      var a, m := AdjAfter(adj, ops[..k + 1]), ops[k].num;
      AdjAfter(adj, ops[..k]) == if ops[k].undo then a[m := Short(a[m] + ops[k].op)] else a
    ensures !ops[k].undo ==> AdjAfter(adj, ops[..k + 1]) == AdjAfter(adj, ops[..k])
  {
    Forth(val, adj, ops, k);
    var m := ops[k].num;
    if m < |adj| {
      DeltaStep(ops, k, m);
      ShortSum(adj[m] - DeltaUndo(ops[..k + 1], m), ops[k].op);
    }
  }

  /** How often storing x as a short goes around. */
  function Turns(x: int): int {
    (x + 32768) / 65536
  }

  lemma ShortTurns(x: int)
    ensures Short(x) == x - 65536 * Turns(x) && (Turns(x) == 0 <==> IsShort(x))
  {
  }
}
