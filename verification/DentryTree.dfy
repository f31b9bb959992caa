/** The dentry tree of fs/dcache.c: parent links and child lists. */
module DentryTree {
  import opened Lists

  type Id = nat

  /** l is the list of the children of d. */
  ghost predicate ChildrenOf(parent: map<Id, Id>, l: seq<Id>, d: Id) {
    NoDup(l) && forall c {:trigger c in l} :: c in l <==> c in parent && parent[c] == d && c != d
  }

  ghost predicate Closed(parent: map<Id, Id>) {
    forall d {:trigger parent[d]} :: d in parent ==> parent[d] in parent
  }

  /** The child lists say what the parent links say; a root is its own parent
      and on no child list. */
  ghost predicate Forest(parent: map<Id, Id>, kids: map<Id, seq<Id>>) {
    && parent.Keys == kids.Keys && Closed(parent)
    && (forall d {:trigger kids[d]} :: d in kids ==> ChildrenOf(parent, kids[d], d))
  }

  /** A dentry lies deeper than its parent. */
  ghost predicate Ranked(parent: map<Id, Id>, depth: Id -> nat) {
    forall d {:trigger parent[d]} :: d in parent && parent[d] != d ==> depth(parent[d]) < depth(d)
  }

  ghost predicate Tree(parent: map<Id, Id>, kids: map<Id, seq<Id>>, depth: Id -> nat) {
    Forest(parent, kids) && Ranked(parent, depth)
  }

  /** The n-th ancestor. */
  function Up(parent: map<Id, Id>, x: Id, n: nat): Id
    decreases n
  {
    if n == 0 || x !in parent then x else Up(parent, parent[x], n - 1)
  }

  /** x is d or lies below it. */
  ghost predicate Below(parent: map<Id, Id>, x: Id, d: Id) {
    exists n: nat :: Up(parent, x, n) == d
  }

  /** No dentry is its own ancestor, except that a root is its own parent. */
  ghost predicate Acyclic(parent: map<Id, Id>) {
    forall x, n: nat :: x in parent && n > 0 && Up(parent, x, n) == x ==> parent[x] == x
  }

  lemma {:induction false} UpDepth(parent: map<Id, Id>, kids: map<Id, seq<Id>>, depth: Id -> nat, x: Id, n: nat)
    requires Tree(parent, kids, depth) && x in parent
    ensures Up(parent, x, n) in parent && depth(Up(parent, x, n)) <= depth(x)
    ensures n > 0 && parent[x] != x ==> depth(Up(parent, x, n)) < depth(x)
    decreases n
  {
    if n > 0 {
      UpDepth(parent, kids, depth, parent[x], n - 1);
    }
  }

  /** Depths exclude cycles. */
  lemma RankedAcyclic(parent: map<Id, Id>, kids: map<Id, seq<Id>>, depth: Id -> nat)
    requires Tree(parent, kids, depth)
    ensures Acyclic(parent)
  {
    forall x, n: nat | x in parent && n > 0 && Up(parent, x, n) == x
      ensures parent[x] == x
    {
      UpDepth(parent, kids, depth, x, n);
    }
  }

  /** Below, by going up as long as the depth shrinks. */
  ghost predicate Under(parent: map<Id, Id>, depth: Id -> nat, x: Id, d: Id)
    decreases depth(x)
  {
    x == d || (x in parent && depth(parent[x]) < depth(x) && Under(parent, depth, parent[x], d))
  }

  lemma {:induction false} UnderIsBelow(parent: map<Id, Id>, kids: map<Id, seq<Id>>, depth: Id -> nat, x: Id, d: Id)
    requires Tree(parent, kids, depth) && x in parent
    ensures Under(parent, depth, x, d) <==> Below(parent, x, d)
    decreases depth(x)
  {
    assert Up(parent, x, 0) == x;
    if parent[x] != x {
      UnderIsBelow(parent, kids, depth, parent[x], d);
      if Below(parent, parent[x], d) {
        var n: nat :| Up(parent, parent[x], n) == d;
        assert Up(parent, x, n + 1) == d;
      }
      if x != d && Below(parent, x, d) {
        var n: nat :| Up(parent, x, n) == d;
        assert Up(parent, parent[x], n - 1) == d;
      }
    } else if Below(parent, x, d) {
      var n: nat :| Up(parent, x, n) == d;
      RootStays(parent, x, n);
    }
  }

  lemma {:induction false} RootStays(parent: map<Id, Id>, x: Id, n: nat)
    requires x in parent && parent[x] == x
    ensures Up(parent, x, n) == x
  {
    if n > 0 {
      RootStays(parent, x, n - 1);
    }
  }

  lemma {:induction false} UnderDepth(parent: map<Id, Id>, depth: Id -> nat, x: Id, d: Id)
    requires Under(parent, depth, x, d)
    ensures depth(d) <= depth(x) && (depth(d) == depth(x) ==> x == d)
    decreases depth(x)
  {
    if x != d {
      UnderDepth(parent, depth, parent[x], d);
    }
  }

  lemma {:induction false} UnderTrans(parent: map<Id, Id>, depth: Id -> nat, x: Id, y: Id, d: Id)
    requires Under(parent, depth, x, y) && Under(parent, depth, y, d)
    ensures Under(parent, depth, x, d)
    decreases depth(x)
  {
    if x != y {
      UnderTrans(parent, depth, parent[x], y, d);
    }
  }

  /** Two ancestors of one dentry: one of them is above the other. */
  lemma {:induction false} UnderBoth(parent: map<Id, Id>, depth: Id -> nat, x: Id, a: Id, b: Id)
    requires Under(parent, depth, x, a) && Under(parent, depth, x, b)
    ensures Under(parent, depth, a, b) || Under(parent, depth, b, a)
    decreases depth(x)
  {
    if x != a && x != b {
      UnderBoth(parent, depth, parent[x], a, b);
    }
  }

  /** What lies below d is d itself or lies below a child of d. */
  lemma {:induction false} UnderChild(parent: map<Id, Id>, kids: map<Id, seq<Id>>, depth: Id -> nat, x: Id, d: Id)
    returns (j: nat)
    requires Tree(parent, kids, depth) && d in parent && x in parent
    requires Under(parent, depth, x, d) && x != d
    ensures j < |kids[d]| && Under(parent, depth, x, kids[d][j])
    decreases depth(x)
  {
    if parent[x] == d {
      assert ChildrenOf(parent, kids[d], d) && x in kids[d];
      j :| 0 <= j < |kids[d]| && kids[d][j] == x;
    } else {
      j := UnderChild(parent, kids, depth, parent[x], d);
    }
  }

  /** A child lies below its parent. */
  lemma ChildUnder(parent: map<Id, Id>, kids: map<Id, seq<Id>>, depth: Id -> nat, d: Id, j: nat)
    requires Tree(parent, kids, depth) && d in parent && j < |kids[d]|
    ensures var c := kids[d][j];
      c in parent && parent[c] == d && c != d && depth(d) < depth(c) && Under(parent, depth, c, d)
  {
    assert ChildrenOf(parent, kids[d], d) && kids[d][j] in kids[d];
  }

  ghost function ChildDepth(depth: Id -> nat, d: Id, p: Id): Id -> nat {
    x => if x == d then depth(p) + 1 else depth(x)
  }

  lemma AddLink(parent: map<Id, Id>, depth: Id -> nat, d: Id, p: Id)
    requires Closed(parent) && Ranked(parent, depth) && d !in parent && (p in parent || p == d)
    ensures Closed(parent[d := p])
    ensures if p == d then Ranked(parent[d := p], depth) else Ranked(parent[d := p], ChildDepth(depth, d, p))
  {
  }

  lemma AddLeaf(parent: map<Id, Id>, kids: map<Id, seq<Id>>, depth: Id -> nat, d: Id, p: Id)
    requires Tree(parent, kids, depth) && d !in parent && p in parent
    ensures Forest(parent[d := p], kids[p := [d] + kids[p]][d := []])
    ensures Ranked(parent[d := p], ChildDepth(depth, d, p))
  {
    hide ChildrenOf, Closed, Ranked;
    AddLink(parent, depth, d, p);
    var parent', kids' := parent[d := p], kids[p := [d] + kids[p]][d := []];
    forall x | x in kids'
      ensures ChildrenOf(parent', kids'[x], x)
    {
      if x == d {
        NoChildren(parent, kids, d, p);
      } else {
        assert ChildrenOf(parent, kids[x], x);
        PushChild(parent, kids[x], d, p, x);
      }
    }
  }

  lemma NoChildren(parent: map<Id, Id>, kids: map<Id, seq<Id>>, d: Id, p: Id)
    requires Forest(parent, kids) && d !in parent && (p in parent || p == d)
    ensures ChildrenOf(parent[d := p], [], d)
  {
  }

  lemma PushChild(parent: map<Id, Id>, l: seq<Id>, d: Id, p: Id, x: Id)
    requires ChildrenOf(parent, l, x) && d !in parent && x != d
    ensures ChildrenOf(parent[d := p], if x == p then [d] + l else l, x)
  {
    assert d !in l;
  }

  lemma AddRoot(parent: map<Id, Id>, kids: map<Id, seq<Id>>, depth: Id -> nat, d: Id)
    requires Tree(parent, kids, depth) && d !in parent
    ensures Forest(parent[d := d], kids[d := []]) && Ranked(parent[d := d], depth)
  {
    hide ChildrenOf, Closed, Ranked;
    AddLink(parent, depth, d, d);
    forall x | x in kids || x == d
      ensures ChildrenOf(parent[d := d], kids[d := []][x], x)
    {
      if x == d {
        NoChildren(parent, kids, d, d);
      } else {
        assert ChildrenOf(parent, kids[x], x);
        PushChild(parent, kids[x], d, d, x);
      }
    }
  }

  /** The child lists without d. */
  function Orphaned(parent: map<Id, Id>, kids: map<Id, seq<Id>>, d: Id): (r: map<Id, seq<Id>>)
    ensures r.Keys == kids.Keys - {d}
  {
    (if d in parent && parent[d] in kids then kids[parent[d] := Unlink(kids[parent[d]], d)] else kids) - {d}
  }

  lemma RemoveLeaf(parent: map<Id, Id>, kids: map<Id, seq<Id>>, depth: Id -> nat, d: Id)
    requires Tree(parent, kids, depth) && d in parent && kids[d] == []
    ensures Tree(parent - {d}, Orphaned(parent, kids, d), depth)
    ensures forall x :: x in parent && x != d ==>
      |Orphaned(parent, kids, d)[x]| == if x == parent[d] then |kids[x]| - 1 else |kids[x]|
  {
    hide ChildrenOf, Orphaned, Closed;
    ParentIn(parent, kids, d);
    var kids' := Orphaned(parent, kids, d);
    RemoveClosed(parent, kids, d);
    forall x | x in kids'
      ensures ChildrenOf(parent - {d}, kids'[x], x)
      ensures |kids'[x]| == if x == parent[d] then |kids[x]| - 1 else |kids[x]|
    {
      DropAt(parent, kids, d, x);
    }
  }

  lemma ParentIn(parent: map<Id, Id>, kids: map<Id, seq<Id>>, d: Id)
    requires Forest(parent, kids) && d in parent
    ensures parent[d] in parent
  {
  }

  lemma RemoveClosed(parent: map<Id, Id>, kids: map<Id, seq<Id>>, d: Id)
    requires Forest(parent, kids) && d in parent && kids[d] == []
    ensures Closed(parent - {d})
  {
    hide ChildrenOf;
    var parent' := parent - {d};
    forall x {:trigger parent'[x]} | x in parent'
      ensures parent'[x] in parent'
    {
      NotLeafParent(parent, kids, x, d);
    }
  }

  lemma DropAt(parent: map<Id, Id>, kids: map<Id, seq<Id>>, d: Id, x: Id)
    requires Forest(parent, kids) && d in parent && x in kids && x != d
    ensures var kids' := Orphaned(parent, kids, d);
      ChildrenOf(parent - {d}, kids'[x], x) && |kids'[x]| == if x == parent[d] then |kids[x]| - 1 else |kids[x]|
  {
    assert ChildrenOf(parent, kids[x], x);
    hide ChildrenOf, Unlink;
    DropChild(parent, kids[x], d, x);
  }

  lemma DropChild(parent: map<Id, Id>, l: seq<Id>, d: Id, x: Id)
    requires ChildrenOf(parent, l, x) && d in parent && x != d
    ensures ChildrenOf(parent - {d}, Unlink(l, d), x)
    ensures parent[d] == x <==> d in l
    ensures parent[d] != x ==> Unlink(l, d) == l
  {
  }

  /** The parent links after d_move has exchanged those of d and t. */
  function Exchanged(parent: map<Id, Id>, d: Id, t: Id): (r: map<Id, Id>)
    requires d in parent && t in parent
    ensures r.Keys == parent.Keys
  {
    parent[d := parent[t]][t := parent[d]]
  }

  ghost function NewDepth(parent: map<Id, Id>, depth: Id -> nat, d: Id, t: Id): Id -> nat
    requires d in parent
  {
    x =>
      if x == t then depth(parent[d]) + 1
      else if Under(parent, depth, x, d) then depth(x) + depth(t) + 1
      else depth(x)
  }

  /** Exchanging the parents of d and a leaf t that does not lie below d leaves
      no cycle. */
  lemma ExchangeRanked(parent: map<Id, Id>, kids: map<Id, seq<Id>>, depth: Id -> nat, d: Id, t: Id)
    requires Tree(parent, kids, depth) && d in parent && t in parent
    requires parent[d] != d && parent[t] != t && kids[t] == [] && !Under(parent, depth, t, d)
    ensures Ranked(Exchanged(parent, d, t), NewDepth(parent, depth, d, t))
  {
    hide ChildrenOf, Under, Forest;
    forall x {:trigger Exchanged(parent, d, t)[x]} | x in parent && Exchanged(parent, d, t)[x] != x
      ensures NewDepth(parent, depth, d, t)(Exchanged(parent, d, t)[x]) < NewDepth(parent, depth, d, t)(x)
    {
      ExchangeDepth(parent, kids, depth, d, t, x);
    }
  }

  lemma ExchangeDepth(parent: map<Id, Id>, kids: map<Id, seq<Id>>, depth: Id -> nat, d: Id, t: Id, x: Id)
    requires Tree(parent, kids, depth) && d in parent && t in parent && x in parent
    requires parent[d] != d && parent[t] != t && kids[t] == [] && !Under(parent, depth, t, d)
    requires Exchanged(parent, d, t)[x] != x
    ensures NewDepth(parent, depth, d, t)(Exchanged(parent, d, t)[x]) < NewDepth(parent, depth, d, t)(x)
  {
    hide Tree, Under;
    UnderStep(parent, depth, t, d);
    UnderStep(parent, depth, x, d);
    RankedAt(parent, kids, depth, d);
    RankedAt(parent, kids, depth, t);
    RankedAt(parent, kids, depth, x);
    NotUnderParent(parent, depth, d);
    if x == t {
      assert Exchanged(parent, d, t)[x] == parent[d];
      LeafHasNoChild(parent, kids, depth, d, t);
    } else {
      LeafHasNoChild(parent, kids, depth, x, t);
      assert Exchanged(parent, d, t)[x] == if x == d then parent[t] else parent[x];
    }
  }

  lemma LeafHasNoChild(parent: map<Id, Id>, kids: map<Id, seq<Id>>, depth: Id -> nat, x: Id, t: Id)
    requires Tree(parent, kids, depth) && x in parent && t in kids && kids[t] == [] && x != t
    ensures parent[x] != t
  {
    NotLeafParent(parent, kids, x, t);
  }

  lemma NotUnderParent(parent: map<Id, Id>, depth: Id -> nat, d: Id)
    requires d in parent && depth(parent[d]) < depth(d)
    ensures !Under(parent, depth, parent[d], d)
  {
    hide Under;
    if Under(parent, depth, parent[d], d) {
      UnderDepth(parent, depth, parent[d], d);
    }
  }

  lemma RankedAt(parent: map<Id, Id>, kids: map<Id, seq<Id>>, depth: Id -> nat, x: Id)
    requires Tree(parent, kids, depth) && x in parent
    ensures parent[x] in parent && x in kids && (parent[x] != x ==> depth(parent[x]) < depth(x))
  {
    hide ChildrenOf;
  }

  lemma UnderStep(parent: map<Id, Id>, depth: Id -> nat, x: Id, d: Id)
    requires x in parent
    ensures Under(parent, depth, x, d) <==>
      x == d || (depth(parent[x]) < depth(x) && Under(parent, depth, parent[x], d))
  {
  }

  lemma NotLeafParent(parent: map<Id, Id>, kids: map<Id, seq<Id>>, x: Id, t: Id)
    requires Forest(parent, kids) && x in parent && t in kids && kids[t] == [] && x != t
    ensures parent[x] != t
  {
    assert ChildrenOf(parent, kids[t], t) && x !in kids[t];
  }

  /** The child lists after d and t have been unlinked and linked to the front of
      the other's list. */
  function Relinked(parent: map<Id, Id>, kids: map<Id, seq<Id>>, d: Id, t: Id): (r: map<Id, seq<Id>>)
    requires d in parent && t in parent && parent[d] in kids && parent[t] in kids
    ensures r.Keys == kids.Keys
  {
    var p, q := parent[d], parent[t];
    var k1 := kids[p := Unlink(kids[p], d)];
    var k2 := k1[q := Unlink(k1[q], t)];
    var k3 := k2[p := [t] + k2[p]];
    k3[q := [d] + k3[q]]
  }

  lemma ExchangeForest(parent: map<Id, Id>, kids: map<Id, seq<Id>>, d: Id, t: Id)
    requires Forest(parent, kids) && d in parent && t in parent && d != t
    requires parent[d] != d && parent[t] != t && parent[d] != t && parent[t] != d
    ensures Forest(Exchanged(parent, d, t), Relinked(parent, kids, d, t))
    ensures forall x :: x in kids ==> |Relinked(parent, kids, d, t)[x]| == |kids[x]|
  {
    hide ChildrenOf, Closed, Exchanged, Relinked;
    ExchangeClosed(parent, d, t);
    assert parent[d] in kids && parent[t] in kids by { ParentsIn(parent, kids, d, t); }
    var parent', kids' := Exchanged(parent, d, t), Relinked(parent, kids, d, t);
    forall x | x in kids
      ensures ChildrenOf(parent', kids'[x], x) && |kids'[x]| == |kids[x]|
    {
      assert ChildrenOf(parent, kids[x], x);
      RelinkedAt(parent, kids, d, t, x);
      ExchangeChild(parent, kids[x], d, t, x);
    }
  }

  lemma ExchangeClosed(parent: map<Id, Id>, d: Id, t: Id)
    requires Closed(parent) && d in parent && t in parent
    ensures Closed(Exchanged(parent, d, t))
  {
  }

  lemma ParentsIn(parent: map<Id, Id>, kids: map<Id, seq<Id>>, d: Id, t: Id)
    requires Closed(parent) && parent.Keys == kids.Keys && d in parent && t in parent
    ensures parent[d] in kids && parent[t] in kids
  {
  }

  lemma RelinkedAt(parent: map<Id, Id>, kids: map<Id, seq<Id>>, d: Id, t: Id, x: Id)
    requires d in parent && t in parent && parent[d] in kids && parent[t] in kids && x in kids
    ensures Relinked(parent, kids, d, t)[x] == Relist(kids[x], d, t, parent[d] == x, parent[t] == x)
  {
    hide Unlink;
    if parent[d] != x {
      assert forall l: seq<Id> :: [] + l == l;
    }
    if parent[t] != x {
      assert forall l: seq<Id> :: [] + l == l;
    }
  }

  /** What d_move does to the child list of x. */
  function Relist(l: seq<Id>, d: Id, t: Id, hadD: bool, hadT: bool): seq<Id> {
    var l1 := if hadD then Unlink(l, d) else l;
    var l2 := if hadT then Unlink(l1, t) else l1;
    (if hadT then [d] else []) + ((if hadD then [t] else []) + l2)
  }

  lemma ExchangeChild(parent: map<Id, Id>, l: seq<Id>, d: Id, t: Id, x: Id)
    requires ChildrenOf(parent, l, x) && d in parent && t in parent && d != t
    requires parent[d] != d && parent[t] != t && parent[d] != t && parent[t] != d
    ensures ChildrenOf(Exchanged(parent, d, t), Relist(l, d, t, parent[d] == x, parent[t] == x), x)
    ensures |Relist(l, d, t, parent[d] == x, parent[t] == x)| == |l|
  {
    hide Unlink, NoDup;
    assert d in l <==> parent[d] == x;
    assert t in l <==> parent[t] == x;
    Relisted(l, d, t);
  }

  lemma Relisted(l: seq<Id>, d: Id, t: Id)
    requires NoDup(l) && d != t
    ensures var r := Relist(l, d, t, d in l, t in l);
      && NoDup(r) && |r| == |l| && (d in r <==> t in l) && (t in r <==> d in l)
      && forall c :: c != d && c != t ==> (c in r <==> c in l)
  {
    hide Unlink, NoDup;
    var l1 := if d in l then Unlink(l, d) else l;
    var l2 := if t in l then Unlink(l1, t) else l1;
    assert NoDup(l1) && d !in l1 && (t in l1 <==> t in l);
    assert NoDup(l2) && d !in l2 && t !in l2;
    Pushed(l2, if d in l then [t] else [], if t in l then [d] else []);
  }

  lemma Pushed(l: seq<Id>, a: seq<Id>, b: seq<Id>)
    requires NoDup(l) && |a| <= 1 && |b| <= 1
    requires forall x :: x in a ==> x !in l
    requires forall x :: x in b ==> x !in l && x !in a
    ensures NoDup(b + (a + l))
    ensures forall x :: x in b + (a + l) <==> x in l || x in a || x in b
  {
    PushOne(l, a);
    PushOne(a + l, b);
  }

  lemma PushOne(l: seq<Id>, a: seq<Id>)
    requires NoDup(l) && |a| <= 1 && forall x :: x in a ==> x !in l
    ensures NoDup(a + l) && forall x :: x in a + l <==> x in l || x in a
  {
    assert forall i :: |a| <= i < |a + l| ==> (a + l)[i] == l[i - |a|];
    if a != [] {
      assert a[0] in a;
      assert forall i :: 0 <= i < |l| ==> l[i] in l;
    }
  }
}
