/** The timer wheel of kernel/sched.c: add_timer, mod_timer, del_timer,
    cascade_timers and run_timer_list on the vectors themselves, proved to run
    the simple clock of TimerSpec. */
module TimerWheel {
  import opened TimerSpec
  import opened TimerPlacement
  import opened Lists
  import opened TimerLists

  /** What other code does while run_timer_list has dropped the lock around a
      timer function: any number of calls, and clock interrupts. */
  datatype Call =
    | Add(id: TimerId, expires: nat)
    | Mod(id: TimerId, expires: nat)
    | Del(id: TimerId)
    | Jiffy

  /** An argument of type `unsigned long`. */
  predicate FitsWord(c: Call) {
    c.Add? || c.Mod? ==> c.expires < WORD
  }

  predicate AllFit(cs: seq<Call>) {
    forall i :: 0 <= i < |cs| ==> FitsWord(cs[i])
  }

  /** `later` extends `earlier` without a tick. */
  ghost predicate SameTick(earlier: seq<Event>, later: seq<Event>) {
    earlier <= later && forall i :: |earlier| <= i < |later| ==> later[i] != Tick
  }

  class Wheel {
    var jiffies: nat
    var timerJiffies: nat
    const index: array<nat>
    const vec: array<seq<TimerId>>
    /** The expires field of each timer that was ever armed. */
    var expires: map<TimerId, nat>
    /** The slot a pending timer is linked in: the prev pointer, null when absent. */
    var home: map<TimerId, nat>

    /** The unbounded tick count whose low 32 bits are timer_jiffies. */
    ghost var clock: nat
    /** The number of clock interrupts so far, whose low 32 bits are jiffies. */
    ghost var interrupts: nat
    /** The levels 1..done have been cascaded at this tick. */
    ghost var done: nat
    ghost var due: map<TimerId, nat>
    ghost var history: seq<Event>

    /** The vectors, the links and the due ticks agree at the current clock. */
    ghost predicate Consistent()
      reads `jiffies, `interrupts, `timerJiffies, `expires, `home, `clock, `done, `due, index, vec
    {
      && index.Length == 5 && vec.Length == SLOTS && done <= 4
      && timerJiffies == clock % WORD && jiffies == interrupts % WORD
      && (forall n :: 0 <= n <= 4 ==> index[n] == IndexAt(n, clock, done))
      && Linked(vec[..], home)
      && Placed(clock, done, home, due, expires)
    }

    /** Moreover, all that happened so far is a legal run of the simple clock
        ending in this clock value with exactly these timers pending. */
    ghost predicate Valid()
      reads this, index, vec
    {
      Consistent() && Legal(history) && Replay(history) == Clock(clock, due)
    }

    /** In every state that the methods below can reach: a timer armed with
        `x` at any point of the run and left alone since has run exactly once
        if the clock has passed its due tick, precisely while the clock showed
        that tick; otherwise it is still pending. */
    lemma EveryTimerRunsOnTime(i: nat, id: TimerId, x: nat)
      requires Valid() && i < |history| && history[i] == Arm(id, x) && LeftAlone(history, i, id)
      ensures var due' := DueTick(Replay(history[..i]).now, x);
        && (clock > due' ==> Fires(history[i + 1..], id) == 1)
        && (forall j :: i < j < |history| && history[j] == Fire(id) ==> Replay(history[..j]).now == due')
        && (Fires(history[i + 1..], id) == 0 ==> id in due && due[id] == due' && clock <= due')
    {
      hide Consistent;
      PendingUntilFired(history, i, id, x);
    }

    constructor ()
      ensures Valid() && fresh(index) && fresh(vec)
      ensures clock == 0 && done == 0 && history == [] && interrupts == 0
    {
      index := new nat[5](_ => 0);
      vec := new seq<TimerId>[SLOTS](_ => []);
      jiffies, timerJiffies := 0, 0;
      expires, home := map[], map[];
      clock, interrupts, done, due, history := 0, 0, 0, map[], [];
      new;
      EmptyWheel(vec[..]);
      hide Linked, Placed, IndexAt;
      assert Consistent();
    }

    static lemma EmptyWheel(v: seq<seq<TimerId>>)
      requires |v| == SLOTS && forall s :: 0 <= s < SLOTS ==> v[s] == []
      ensures forall n :: 0 <= n <= 4 ==> IndexAt(n, 0, 0) == 0
      ensures Linked(v, map[])
      ensures Placed(0, 0, map[], map[], map[])
    {
    }

    lemma RootIndex()
      requires Consistent()
      ensures index.Length == 5 && vec.Length == SLOTS
      ensures index[0] == clock % TVR_SIZE && home.Keys == due.Keys
    {
      hide Home, Linked;
    }

    /** internal_add_timer: link the timer at the head of the slot its expiry selects. */
    method InternalAddTimer(id: TimerId)
      requires index.Length == 5 && vec.Length == SLOTS && timerJiffies < WORD && index[0] < TVR_SIZE
      requires id in expires && expires[id] < WORD
      modifies this`home, vec
      ensures home == old(home)[id := Place(expires[id], timerJiffies, index[0])]
      ensures vec[..] == old(vec[..])[home[id] := [id] + old(vec[..])[home[id]]]
    {
      var x := expires[id];
      var idx := Ahead(x, timerJiffies);
      var s;
      if idx < 0x100 {
        s := x % 0x100;
      } else if idx < 0x4000 {
        s := Base(1) + x / 0x100 % TVN_SIZE;
      } else if idx < 0x10_0000 {
        s := Base(2) + x / 0x4000 % TVN_SIZE;
      } else if idx < 0x400_0000 {
        s := Base(3) + x / 0x10_0000 % TVN_SIZE;
      } else if idx >= HALF {
        s := index[0];
      } else {
        s := Base(4) + x / 0x400_0000 % TVN_SIZE;
      }
      vec[s] := [id] + vec[s];
      home := home[id := s];
    }

    /** Stores the expiry and links a timer that is not linked. */
    method Link(id: TimerId, x: nat)
      requires Consistent() && id !in home && x < WORD
      modifies this`home, this`expires, this`due, vec
      ensures Consistent() && due == old(due)[id := DueTick(clock, x)]
    {
      hide IndexAt, Placed, Linked, Place, DueTick;
      RootIndex();
      PlacedInsert(clock, done, home, due, expires, id, x);
      LinkedPush(vec[..], home, id, Place(x, timerJiffies, index[0]));
      expires := expires[id := x];
      InternalAddTimer(id);
      due := due[id := DueTick(clock, x)];
    }

    /** The unlinking of detach_timer. */
    method ListDel(id: TimerId)
      requires vec.Length == SLOTS && Linked(vec[..], home) && id in home
      modifies this`home, vec
      ensures Linked(vec[..], home) && home == old(home) - {id}
    {
      hide Linked, Unlink, NoDup;
      LinkedUnlink(vec[..], home, id);
      var s := home[id];
      ghost var v := vec[..];
      var l := Unlink(vec[s], id);
      vec[s] := l;
      assert vec[..] == v[s := l];
      home := home - {id};
    }

    /** detach_timer, with the links cleared. */
    method Detach(id: TimerId) returns (wasPending: bool)
      requires Consistent()
      modifies this`home, this`due, vec
      ensures Consistent() && wasPending == (id in old(due)) && id !in home && due == old(due) - {id}
    {
      hide IndexAt, Placed, Linked;
      RootIndex();
      PlacedRemove(clock, done, home, due, expires, id);
      wasPending := id in home;
      if wasPending {
        ListDel(id);
      } else {
        assert home - {id} == home;
      }
      due := due - {id};
    }

    /** add_timer: arming a pending timer is reported as a bug and changes nothing. */
    method AddTimer(id: TimerId, x: nat) returns (ok: bool)
      requires Valid() && x < WORD
      modifies this`home, this`expires, this`due, this`history, vec
      ensures Valid() && ok == (id !in old(due))
      ensures history == if ok then old(history) + [Arm(id, x)] else old(history)
    {
      RootIndex();
      if id in home {
        return false;
      }
      ExtendRun(history, Arm(id, x));
      hide Consistent, Legal, Replay, DueTick;
      Link(id, x);
      history := history + [Arm(id, x)];
      ok := true;
    }

    /** del_timer */
    method DelTimer(id: TimerId) returns (wasPending: bool)
      requires Valid()
      modifies this`home, this`due, this`history, vec
      ensures Valid() && wasPending == (id in old(due))
      ensures history == if wasPending then old(history) + [Disarm(id)] else old(history)
    {
      hide Consistent;
      wasPending := Detach(id);
      if wasPending {
        ExtendRun(history, Disarm(id));
        history := history + [Disarm(id)];
      } else {
        assert due == old(due);
      }
    }

    /** mod_timer: a pending timer is moved, an idle one is armed. */
    method ModTimer(id: TimerId, x: nat)
      requires Valid() && x < WORD
      modifies this`home, this`expires, this`due, this`history, vec
      ensures Valid() && history == old(history) + [Arm(id, x)]
    {
      hide Consistent, DueTick;
      var _ := Detach(id);
      Link(id, x);
      assert due == old(due)[id := DueTick(clock, x)];
      ExtendRun(history, Arm(id, x));
      history := history + [Arm(id, x)];
    }

    /** The loop of cascade_timers: re-insert every timer of slot `s`, then clear it. */
    method CascadeList(n: nat, s: nat)
      requires index.Length == 5 && vec.Length == SLOTS
      requires 1 <= n <= 4 && clock % Unit(n) == 0 && s == Base(n) + clock / Unit(n) % TVN_SIZE
      requires timerJiffies == clock % WORD && index[0] == clock % TVR_SIZE
      requires Linked(vec[..], home) && Cascading(clock, n, s, home, due, expires)
      modifies this`home, vec
      ensures Linked(vec[..], home) && Placed(clock, n, home, due, expires) && vec[s] == []
    {
      hide Placed, Linked, Cascading, Place;
      var list := vec[s];
      var k := 0;
      assert vec[..][s := list[0..]] == vec[..];
      while k < |list|
        invariant 0 <= k <= |list| && vec[s] == list
        invariant Linked(vec[..][s := list[k..]], home)
        invariant Cascading(clock, n, s, home, due, expires)
      {
        var id := list[k];
        ghost var v := vec[..][s := list[k..]];
        assert v[s][0] == id && v[s][1..] == list[k + 1..];
        MoveOne(n, v, s, id);
        ghost var p := Place(expires[id], timerJiffies, index[0]);
        InternalAddTimer(id);
        assert vec[..][s := list[k + 1..]] == v[s := list[k + 1..]][p := [id] + v[p]];
        k := k + 1;
      }
      ghost var v := vec[..];
      assert list[k..] == [];
      vec[s] := [];
      assert vec[..] == v[s := []];
      EndCascade(clock, n, s, home, due, expires, vec[..]);
    }

    /** cascade_timers(tvecs[n]) at a tick where the slot boundary of level n is reached. */
    method CascadeTimers(n: nat)
      requires Consistent() && 1 <= n <= 4 && done == n - 1 && clock % Unit(n) == 0
      modifies this`home, this`done, vec, index
      ensures Consistent() && done == n
      ensures index.Length == 5
      ensures n < 4 ==> (index[n] == 1 <==> clock % Unit(n + 1) == 0)
    {
      RootIndex();
      IndexOneMeansNextLevel(clock, n);
      OtherIndices(clock, n);
      hide IndexAt, Placed, Linked, Cascading, Unit;
      StartCascade(clock, n, home, due, expires);
      CascadeList(n, Base(n) + index[n]);
      index[n] := (index[n] + 1) % TVN_SIZE;
      done := n;
    }

    static lemma OtherIndices(clock: nat, n: nat)
      requires 1 <= n <= 4
      ensures forall m :: 0 <= m <= 4 && m != n ==> IndexAt(m, clock, n) == IndexAt(m, clock, n - 1)
    {
    }

    lemma MoveOne(n: nat, v: seq<seq<TimerId>>, s: nat, id: TimerId)
      requires 1 <= n <= 4 && clock % Unit(n) == 0 && s == Base(n) + clock / Unit(n) % TVN_SIZE
      requires index.Length == 5 && timerJiffies == clock % WORD && index[0] == clock % TVR_SIZE
      requires Linked(v, home) && Cascading(clock, n, s, home, due, expires) && v[s] != [] && id == v[s][0]
      ensures id in expires && expires[id] < WORD
      ensures var p := Place(expires[id], timerJiffies, index[0]);
        && p != s
        && Cascading(clock, n, s, home[id := p], due, expires)
        && Linked(v[s := v[s][1..]][p := [id] + v[p]], home[id := p])
    {
      hide Place, Linked, Cascading, Unit, NoDup;
      HeadCascades(clock, n, v, s, home, due, expires);
      CascadeOne(clock, n, home, due, expires, id);
      LinkedMoveHead(v, home, s, Place(expires[id], timerJiffies, index[0]));
    }

    /** The cascades at the start of a tick: level n + 1 is cascaded whenever
        level n has come round to its first slot. */
    method Sweep()
      requires Consistent() && done == 0
      modifies this`home, this`done, vec, index
      ensures Consistent() && done == 4
    {
      RootIndex();
      hide Consistent;
      if index[0] == 0 {
        var n := 1;
        CascadeTimers(n);
        while index[n] == 1 && n < 4
          invariant 1 <= n <= 4 && done == n && Consistent()
          invariant n < 4 ==> (index[n] == 1 <==> clock % Unit(n + 1) == 0)
        {
          n := n + 1;
          CascadeTimers(n);
        }
      }
      EndSweep();
    }

    /** Nothing is left to cascade at this tick. */
    ghost method EndSweep()
      requires Consistent() && (done < 4 ==> clock % Unit(done + 1) != 0)
      modifies this`done
      ensures Consistent() && done == 4
    {
      SkipRest(clock, done);
      hide IndexAt, Placed, Linked, Unit;
      PlacedAfterSweep(clock, done, home, due, expires);
      done := 4;
    }

    static lemma SkipRest(clock: nat, done: nat)
      requires done <= 4 && (done < 4 ==> clock % Unit(done + 1) != 0)
      ensures forall n :: 0 <= n <= 4 ==> IndexAt(n, clock, 4) == IndexAt(n, clock, done)
    {
      forall n | done < n <= 4
        ensures clock % Unit(n) != 0
      {
        NotMultiple(clock, done + 1, n, clock / Unit(n));
      }
    }

    /** A clock tick of do_timer. */
    method ClockInterrupt()
      requires Valid()
      modifies this`jiffies, this`interrupts
      ensures Valid() && interrupts == old(interrupts) + 1
    {
      hide IndexAt, Placed, Linked, Legal, Replay;
      jiffies := (jiffies + 1) % WORD;
      interrupts := interrupts + 1;
    }

    /** One call made by other code. */
    method DoCall(c: Call)
      requires Valid() && FitsWord(c)
      modifies this`home, this`expires, this`due, this`history, this`jiffies, this`interrupts, vec
      ensures Valid() && SameTick(old(history), history)
      ensures interrupts == old(interrupts) + Jiffies([c])
    {
      hide Consistent, Legal, Replay;
      match c {
        case Add(id, x) => var _ := AddTimer(id, x);
        case Mod(id, x) => ModTimer(id, x);
        case Del(id) => var _ := DelTimer(id);
        case Jiffy => ClockInterrupt();
      }
    }

    /** What happens while the lock is dropped around a timer function. */
    method DoCalls(cs: seq<Call>)
      requires Valid() && AllFit(cs)
      modifies this`home, this`expires, this`due, this`history, this`jiffies, this`interrupts, vec
      ensures Valid() && SameTick(old(history), history)
      ensures interrupts == old(interrupts) + Jiffies(cs)
    {
      hide Valid, SameTick;
      SameTickRefl(history);
      for k := 0 to |cs|
        invariant Valid() && SameTick(old(history), history)
        invariant interrupts == old(interrupts) + Jiffies(cs[..k])
      {
        assert cs[..k + 1] == cs[..k] + [cs[k]];
        JiffiesAppend(cs[..k], cs[k]);
        ghost var h := history;
        DoCall(cs[k]);
        SameTickTrans(old(history), h, history);
      }
      assert cs[..|cs|] == cs;
    }

    lemma HeadDue()
      requires Consistent() && done == 4 && vec[index[0]] != []
      ensures vec[index[0]][0] in due && due[vec[index[0]][0]] == clock
    {
      RootIndex();
      hide Placed, Linked, IndexAt;
      HeadIsDueNow(clock, home, due, expires, vec[..]);
    }

    /** Detaches the first timer of the slot being run, whose function is called next. */
    method FireHead()
      requires Valid() && done == 4 && vec[index[0]] != []
      modifies this`home, this`due, this`history, vec
      ensures Valid() && SameTick(old(history), history)
      ensures history == old(history) + [Fire(old(vec[index[0]][0]))]
      ensures |due| < |old(due)|
    {
      hide Consistent, Legal, Replay;
      assert index.Length == 5 && vec.Length == SLOTS && index[0] < SLOTS by { RootIndex(); }
      HeadDue();
      var id := vec[index[0]][0];
      ExtendRun(history, Fire(id));
      var _ := Detach(id);
      RemoveShrinks(old(due), id);
      history := history + [Fire(id)];
    }

    /** Detach the first timer of the slot, drop the lock, run the timer
        function, take the lock again. */
    method RunHead(script: seq<seq<Call>>, used: nat) returns (next: nat)
      requires Valid() && done == 4 && vec[index[0]] != []
      requires used < |script| ==> AllFit(script[used])
      modifies this`home, this`expires, this`due, this`history, this`jiffies, this`interrupts, vec
      ensures Valid() && SameTick(old(history), history)
      ensures next == if used < |script| then used + 1 else used
      ensures used < |script| ==> interrupts == old(interrupts) + Jiffies(script[used])
      ensures used >= |script| ==> interrupts == old(interrupts) && |due| < |old(due)|
    {
      hide Consistent, Legal, Replay, SameTick, AllFit;
      FireHead();
      next := used;
      if used < |script| {
        ghost var h := history;
        hide Valid;
        DoCalls(script[used]);
        SameTickTrans(old(history), h, history);
        next := used + 1;
      }
    }

    /** The inner loop of run_timer_list. */
    method RunSlot(script: seq<seq<Call>>, start: nat) returns (used: nat)
      requires Valid() && done == 4 && start <= |script| && forall k :: 0 <= k < |script| ==> AllFit(script[k])
      modifies this`home, this`expires, this`due, this`history, this`jiffies, this`interrupts, vec
      ensures Valid() && vec[index[0]] == [] && SameTick(old(history), history)
      ensures start <= used <= |script|
      ensures interrupts == old(interrupts) + AllJiffies(script[start..used])
    {
      used := start;
      RootIndex();
      hide Valid, SameTick, AllFit, AllJiffies;
      SameTickRefl(history);
      AllJiffiesNone(script, start);
      while vec[index[0]] != []
        invariant Valid() && SameTick(old(history), history)
        invariant start <= used <= |script|
        invariant interrupts == old(interrupts) + AllJiffies(script[start..used])
        decreases |script| - used, |due|
      {
        ghost var h, u := history, used;
        used := RunHead(script, used);
        SameTickTrans(old(history), h, history);
        if u < |script| {
          AllJiffiesStep(script, start, u);
        }
      }
    }

    static lemma IndicesAcrossTick(clock: nat)
      ensures IndexAt(0, clock + 1, 0) == (IndexAt(0, clock, 4) + 1) % TVR_SIZE
      ensures forall n :: 1 <= n <= 4 ==> IndexAt(n, clock + 1, 0) == IndexAt(n, clock, 4)
    {
      hide IndexAt;
      IndexAcrossTick(clock, 0);
      forall n | 1 <= n <= 4
        ensures IndexAt(n, clock + 1, 0) == IndexAt(n, clock, 4)
      {
        IndexAcrossTick(clock, n);
      }
    }

    static lemma NextWord(x: nat)
      ensures (x % WORD + 1) % WORD == (x + 1) % WORD
    {
    }

    /** The wheel goes on to the next tick. */
    method Advance()
      requires Consistent() && done == 4 && vec[index[0]] == []
      modifies this`timerJiffies, this`clock, this`done, index
      ensures Consistent() && done == 0 && clock == old(clock) + 1
      ensures forall id :: id in due ==> old(clock) < due[id]
    {
      RootIndex();
      hide IndexAt, Placed, Linked;
      PlacedAcrossTick(clock, home, due, expires, vec[..]);
      IndicesAcrossTick(clock);
      NextWord(clock);
      timerJiffies := (timerJiffies + 1) % WORD;
      index[0] := (index[0] + 1) % TVR_SIZE;
      clock, done := clock + 1, 0;
    }

    /** The tick ends once its slot has been run empty. */
    method NextTick()
      requires Valid() && done == 4 && vec[index[0]] == []
      modifies this`timerJiffies, this`clock, this`done, this`history, index
      ensures Valid() && done == 0 && history == old(history) + [Tick] && clock == old(clock) + 1
    {
      hide Consistent;
      ghost var c := Replay(history);
      assert c == Clock(clock, due);
      Advance();
      TickEnabled(c, old(clock), due);
      ExtendRun(history, Tick);
      hide Legal, Replay;
      history := history + [Tick];
    }

    lemma TickEnabled(c: Clock, now: nat, pending: map<TimerId, nat>)
      requires c == Clock(now, pending) && forall id :: id in pending ==> now < pending[id]
      ensures Enabled(c, Tick)
    {
    }

    /** One round of the outer loop of run_timer_list. */
    method RunTick(script: seq<seq<Call>>, start: nat) returns (used: nat)
      requires Valid() && done == 0 && start <= |script| && forall k :: 0 <= k < |script| ==> AllFit(script[k])
      modifies this`jiffies, this`interrupts, this`timerJiffies, this`expires, this`home,
               this`clock, this`done, this`due, this`history, index, vec
      ensures Valid() && done == 0 && clock == old(clock) + 1 && old(history) <= history
      ensures start <= used <= |script|
      ensures interrupts == old(interrupts) + AllJiffies(script[start..used])
    {
      hide Consistent, AllFit, Legal, Replay;
      Sweep();
      hide Valid;
      used := RunSlot(script, start);
      NextTick();
    }

    lemma WordLag()
      requires Valid()
      ensures timerJiffies == clock % WORD && jiffies == interrupts % WORD
    {
    }

    /** run_timer_list: every tick up to jiffies is swept, run empty and passed.
        `script[k]` is what other code does while the k-th timer function runs. */
    method RunTimerList(script: seq<seq<Call>>) returns (used: nat)
      requires Valid() && done == 0 && forall k :: 0 <= k < |script| ==> AllFit(script[k])
      modifies this`jiffies, this`interrupts, this`timerJiffies, this`expires, this`home,
               this`clock, this`done, this`due, this`history, index, vec
      ensures Valid() && done == 0 && used <= |script| && old(history) <= history
      ensures interrupts == old(interrupts) + AllJiffies(script[..used])
      ensures Ahead(jiffies, timerJiffies) >= HALF
      ensures old(clock) <= old(interrupts) + 1 && interrupts - old(clock) < HALF ==> clock == interrupts + 1
    {
      used := 0;
      ghost var start := clock;
      hide Valid, AllFit, Ahead;
      WordLag();
      LagOf(clock, interrupts);
      assert script[..used] == [];
      while Ahead(jiffies, timerJiffies) < HALF
        invariant Valid() && done == 0 && used <= |script| && old(history) <= history
        invariant interrupts == old(interrupts) + AllJiffies(script[..used])
        invariant start <= clock && timerJiffies == clock % WORD && jiffies == interrupts % WORD
        invariant start <= old(interrupts) + 1 && interrupts - start < HALF ==> clock <= interrupts + 1
        decreases |script| - used, Lag(interrupts, clock)
      {
        ghost var u := used;
        LagOf(clock, interrupts);
        used := RunTick(script, used);
        AllJiffiesSplit(script, u, used);
        WordLag();
      }
      LagOf(clock, interrupts);
    }
  }

  /** How many ticks run_timer_list still has to pass. */
  ghost function Lag(interrupts: nat, clock: nat): nat {
    var d := (interrupts - clock) % WORD;
    if d < HALF then d + 1 else 0
  }

  /** The signed 32-bit comparison of run_timer_list in terms of the unbounded counts. */
  lemma LagOf(clock: nat, interrupts: nat)
    ensures Ahead(interrupts % WORD, clock % WORD) == (interrupts - clock) % WORD
    ensures -1 <= interrupts - clock < HALF ==> (Ahead(interrupts % WORD, clock % WORD) < HALF <==> clock <= interrupts)
    ensures Ahead(interrupts % WORD, clock % WORD) < HALF ==> Lag(interrupts, clock + 1) < Lag(interrupts, clock)
  {
    var a, b := interrupts / WORD, clock / WORD;
    var d := (interrupts - clock) % WORD;
    ModUnique(interrupts % WORD - clock % WORD, (interrupts - clock) / WORD - a + b, d);
    if d > 0 {
      ModUnique(interrupts - clock - 1, (interrupts - clock) / WORD, d - 1);
    } else {
      ModUnique(interrupts - clock - 1, (interrupts - clock) / WORD - 1, WORD - 1);
    }
    if interrupts - clock == -1 {
      ModUnique(-1, -1, WORD - 1);
    } else if 0 <= interrupts - clock < HALF {
      ModUnique(interrupts - clock, 0, interrupts - clock);
    }
  }

  lemma AllJiffiesNone(script: seq<seq<Call>>, i: nat)
    requires i <= |script|
    ensures AllJiffies(script[i..i]) == 0
  {
    assert script[i..i] == [];
  }

  lemma {:induction false} AllJiffiesSplit(script: seq<seq<Call>>, i: nat, j: nat)
    requires i <= j <= |script|
    ensures AllJiffies(script[..j]) == AllJiffies(script[..i]) + AllJiffies(script[i..j])
  {
    if i == j {
      assert script[i..j] == [];
    } else {
      AllJiffiesSplit(script, i, j - 1);
      AllJiffiesStep(script, i, j - 1);
      assert script[..j][..j - 1] == script[..j - 1];
    }
  }

  lemma RemoveShrinks(m: map<TimerId, nat>, id: TimerId)
    requires id in m
    ensures |m - {id}| < |m|
  {
    assert m.Keys == (m - {id}).Keys + {id};
  }

  lemma SameTickRefl(h: seq<Event>)
    ensures SameTick(h, h)
  {
  }

  lemma SameTickTrans(a: seq<Event>, b: seq<Event>, c: seq<Event>)
    requires SameTick(a, b) && SameTick(b, c)
    ensures SameTick(a, c)
  {
  }

  lemma JiffiesAppend(cs: seq<Call>, c: Call)
    ensures Jiffies(cs + [c]) == Jiffies(cs) + Jiffies([c])
  {
    assert (cs + [c])[..|cs|] == cs;
    assert [c][..0] == [];
  }

  function Jiffies(cs: seq<Call>): nat {
    if cs == [] then 0 else Jiffies(cs[..|cs| - 1]) + (if cs[|cs| - 1].Jiffy? then 1 else 0)
  }

  function AllJiffies(script: seq<seq<Call>>): nat {
    if script == [] then 0 else AllJiffies(script[..|script| - 1]) + Jiffies(script[|script| - 1])
  }

  lemma AllJiffiesStep(script: seq<seq<Call>>, i: nat, j: nat)
    requires i <= j < |script|
    ensures AllJiffies(script[i..j + 1]) == AllJiffies(script[i..j]) + Jiffies(script[j])
  {
    assert script[i..j + 1][..j - i] == script[i..j];
  }

  lemma HeadCascades(clock: nat, n: nat, v: seq<seq<TimerId>>, s: nat, home: map<TimerId, nat>, due: map<TimerId, nat>,
                     expires: map<TimerId, nat>)
    requires n >= 1 && Linked(v, home) && s < SLOTS && v[s] != [] && Cascading(clock, n, s, home, due, expires)
    ensures var id := v[s][0]; id in home && home[id] == s && id in expires
  {
    hide Good, NoDup;
    assert v[s][0] in v[s];
  }
}
