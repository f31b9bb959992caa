/** The lists of the wheel: what links a pending timer to its slot, and what
    each way of moving a timer keeps. */
module TimerLists {
  import opened Lists
  import opened TimerSpec
  import opened TimerPlacement

  /** The lists and the prev pointers agree: every pending timer is linked
      exactly once, in the slot its prev pointer names. */
  ghost predicate Linked(vec: seq<seq<TimerId>>, home: map<TimerId, nat>) {
    && |vec| == SLOTS
    && (forall s :: 0 <= s < SLOTS ==> NoDup(vec[s]))
    && (forall s, id :: 0 <= s < SLOTS && id in vec[s] ==> id in home && home[id] == s)
    && (forall id :: id in home ==> home[id] < SLOTS && id in vec[home[id]])
  }

  lemma LinkedPush(vec: seq<seq<TimerId>>, home: map<TimerId, nat>, id: TimerId, s: nat)
    requires Linked(vec, home) && id !in home && s < SLOTS
    ensures Linked(vec[s := [id] + vec[s]], home[id := s])
  {
  }

  lemma LinkedUnlink(vec: seq<seq<TimerId>>, home: map<TimerId, nat>, id: TimerId)
    requires Linked(vec, home) && id in home
    ensures home[id] < |vec|
    ensures Linked(vec[home[id] := Unlink(vec[home[id]], id)], home - {id})
  {
    var s := home[id];
    var l := Unlink(vec[s], id);
    var v, h := vec[s := l], home - {id};
    forall x | x in h
      ensures h[x] < SLOTS && x in v[h[x]]
    {
      assert x in vec[home[x]];
    }
  }

  lemma LinkedMoveHead(vec: seq<seq<TimerId>>, home: map<TimerId, nat>, s: nat, p: nat)
    requires Linked(vec, home) && s < SLOTS && p < SLOTS && p != s && vec[s] != []
    ensures vec[s][0] in home && home[vec[s][0]] == s
    ensures Linked(vec[s := vec[s][1..]][p := [vec[s][0]] + vec[p]], home[vec[s][0] := p])
  {
    var id := vec[s][0];
    assert id in vec[s];
    assert Unlink(vec[s], id) == vec[s][1..];
    LinkedUnlink(vec, home, id);
    var v := vec[s := vec[s][1..]];
    LinkedPush(v, home - {id}, id, p);
    assert (home - {id})[id := p] == home[id := p];
  }

  ghost predicate Good(clock: nat, done: nat, slot: nat, due: nat, expires: nat) {
    slot < SLOTS && expires < WORD && Home(clock, done, due, slot) && (TVR_SIZE <= slot ==> expires == due % WORD)
  }

  /** Every pending timer sits in a right place for its due tick; those still in
      slot `s` wait for the cascade of level n to reach them. */
  ghost predicate Cascading(clock: nat, n: nat, s: nat, home: map<TimerId, nat>, due: map<TimerId, nat>,
                            expires: map<TimerId, nat>)
    requires n >= 1
  {
    && home.Keys == due.Keys <= expires.Keys
    && forall id :: id in home ==> Good(clock, if home[id] == s then n - 1 else n, home[id], due[id], expires[id])
  }

  /** Every pending timer sits in a right place for its due tick. */
  ghost predicate Placed(clock: nat, done: nat, home: map<TimerId, nat>, due: map<TimerId, nat>,
                         expires: map<TimerId, nat>)
  {
    && home.Keys == due.Keys <= expires.Keys
    && forall id :: id in home ==> Good(clock, done, home[id], due[id], expires[id])
  }

  lemma PlacedInsert(clock: nat, done: nat, home: map<TimerId, nat>, due: map<TimerId, nat>,
                     expires: map<TimerId, nat>, id: TimerId, x: nat)
    requires Placed(clock, done, home, due, expires) && id !in home && x < WORD
    ensures var p := Place(x, clock % WORD, clock % TVR_SIZE);
      Placed(clock, done, home[id := p], due[id := DueTick(clock, x)], expires[id := x])
  {
    PlaceIsHome(clock, x, done);
    hide Home, Place, DueTick;
  }

  lemma PlacedRemove(clock: nat, done: nat, home: map<TimerId, nat>, due: map<TimerId, nat>,
                     expires: map<TimerId, nat>, id: TimerId)
    requires Placed(clock, done, home, due, expires)
    ensures Placed(clock, done, home - {id}, due - {id}, expires)
  {
    hide Home;
  }

  lemma StartCascade(clock: nat, n: nat, home: map<TimerId, nat>, due: map<TimerId, nat>,
                     expires: map<TimerId, nat>)
    requires 1 <= n <= 4 && clock % Unit(n) == 0 && Placed(clock, n - 1, home, due, expires)
    ensures Cascading(clock, n, Base(n) + clock / Unit(n) % TVN_SIZE, home, due, expires)
  {
    hide Home;
    var s := Base(n) + clock / Unit(n) % TVN_SIZE;
    forall id | id in home
      ensures Good(clock, if home[id] == s then n - 1 else n, home[id], due[id], expires[id])
    {
      if home[id] != s {
        HomeOtherSlot(clock, n, due[id], home[id]);
      }
    }
  }

  /** Moving one timer out of the slot being cascaded. */
  lemma CascadeOne(clock: nat, n: nat, home: map<TimerId, nat>, due: map<TimerId, nat>,
                   expires: map<TimerId, nat>, id: TimerId)
    requires 1 <= n <= 4 && clock % Unit(n) == 0
    requires var s := Base(n) + clock / Unit(n) % TVN_SIZE;
      Cascading(clock, n, s, home, due, expires) && id in home && home[id] == s
    ensures expires[id] < WORD
    ensures var s := Base(n) + clock / Unit(n) % TVN_SIZE;
      var p := Place(expires[id], clock % WORD, clock % TVR_SIZE);
      p != s && Cascading(clock, n, s, home[id := p], due, expires)
  {
    var s := Base(n) + clock / Unit(n) % TVN_SIZE;
    var p := Place(expires[id], clock % WORD, clock % TVR_SIZE);
    CascadedTimerMoves(clock, n, due[id], s);
    PlaceIsHome(clock, expires[id], n);
    assert Good(clock, n, p, due[id], expires[id]);
    hide Home, Place;
    assert p != s;
    var h := home[id := p];
    assert h.Keys == home.Keys;
  }

  lemma EndCascade(clock: nat, n: nat, s: nat, home: map<TimerId, nat>, due: map<TimerId, nat>,
                   expires: map<TimerId, nat>, vec: seq<seq<TimerId>>)
    requires n >= 1 && s < SLOTS && Cascading(clock, n, s, home, due, expires)
    requires Linked(vec, home) && vec[s] == []
    ensures Placed(clock, n, home, due, expires)
  {
    hide Home;
    forall id | id in home
      ensures home[id] != s
    {
      assert id in vec[home[id]];
    }
  }

  lemma PlacedAfterSweep(clock: nat, done: nat, home: map<TimerId, nat>, due: map<TimerId, nat>,
                         expires: map<TimerId, nat>)
    requires done <= 4 && (done < 4 ==> clock % Unit(done + 1) != 0)
    requires Placed(clock, done, home, due, expires)
    ensures Placed(clock, 4, home, due, expires)
  {
    hide Home;
    forall id | id in home
      ensures Good(clock, 4, home[id], due[id], expires[id])
    {
      assert Good(clock, done, home[id], due[id], expires[id]);
      HomeWithoutCascade(clock, done, due[id], home[id]);
    }
  }

  lemma PlacedAcrossTick(clock: nat, home: map<TimerId, nat>, due: map<TimerId, nat>,
                         expires: map<TimerId, nat>, vec: seq<seq<TimerId>>)
    requires Placed(clock, 4, home, due, expires) && Linked(vec, home) && vec[clock % TVR_SIZE] == []
    ensures forall id :: id in due ==> clock < due[id]
    ensures Placed(clock + 1, 0, home, due, expires)
  {
    hide Home;
    forall id | id in home
      ensures clock < due[id] && Good(clock + 1, 0, home[id], due[id], expires[id])
    {
      assert Good(clock, 4, home[id], due[id], expires[id]) && id in vec[home[id]];
      DueNowIsInRoot(clock, due[id], home[id]);
      HomeAcrossTick(clock, due[id], home[id]);
    }
  }

  lemma HeadIsDueNow(clock: nat, home: map<TimerId, nat>, due: map<TimerId, nat>,
                     expires: map<TimerId, nat>, vec: seq<seq<TimerId>>)
    requires Placed(clock, 4, home, due, expires) && Linked(vec, home) && vec[clock % TVR_SIZE] != []
    ensures var id := vec[clock % TVR_SIZE][0]; id in home && home[id] == clock % TVR_SIZE && due[id] == clock
  {
    hide Home;
    var id := vec[clock % TVR_SIZE][0];
    assert id in vec[clock % TVR_SIZE];
    assert Good(clock, 4, home[id], due[id], expires[id]);
    DueNowIsInRoot(clock, due[id], home[id]);
  }
}
