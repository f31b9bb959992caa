/** Linked lists as sequences of their elements. */
module Lists {

  predicate NoDup<T(==)>(l: seq<T>) {
    forall i, j :: 0 <= i < j < |l| ==> l[i] != l[j]
  }

  /** list_del of an element. */
  function Unlink<T(==,!new)>(l: seq<T>, x: T): (r: seq<T>)
    ensures NoDup(l) ==> NoDup(r) && x !in r
    ensures NoDup(l) ==> forall y :: y != x ==> (y in r <==> y in l)
    ensures |r| == if x in l then |l| - 1 else |l|
    ensures x !in l ==> r == l
  {
    if l == [] then []
    else if l[0] == x then
      assert NoDup(l) ==> x !in l[1..];
      l[1..]
    else
      var r := Unlink(l[1..], x);
      assert NoDup(l) ==> l[0] !in l[1..];
      assert l == [l[0]] + l[1..];
      [l[0]] + r
  }

  /** The rest of the list keeps its order. */
  lemma {:induction false} UnlinkAt<T(!new)>(l: seq<T>, x: T, k: nat)
    requires k < |l| && l[k] == x && x !in l[..k]
    ensures Unlink(l, x) == l[..k] + l[k + 1..]
  {
    if k > 0 {
      assert l[0] == l[..k][0] && l[1..][..k - 1] == l[..k][1..];
      UnlinkAt(l[1..], x, k - 1);
      assert l[..k] + l[k + 1..] == [l[0]] + (l[1..][..k - 1] + l[1..][k..]);
    } else {
      assert l[..0] + l[1..] == l[1..];
    }
  }
}
