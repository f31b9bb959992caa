/** Where the wheel of kernel/sched.c puts a timer, and why that place is right.

    The five vectors tv1..tv5 are numbered as 512 slots: tv1 is slots 0..255 and
    tvecs[n] for n = 1..4 is the 64 slots from Base(n).  `clock` is the unbounded
    tick count whose low 32 bits are timer_jiffies. */
module TimerPlacement {
  import opened TimerSpec

  const TVR_SIZE := 256
  const TVN_SIZE := 64
  const SLOTS := 512

  /** Ticks covered by one slot of tvecs[n]. */
  function Unit(n: nat): (u: nat)
    requires 1 <= n <= 4
    ensures u > 0
  {
    if n == 1 then 0x100 else if n == 2 then 0x4000 else if n == 3 then 0x10_0000 else 0x400_0000
  }

  function Base(n: nat): nat
    requires 1 <= n <= 4
  {
    TVR_SIZE + TVN_SIZE * (n - 1)
  }

  function LevelOf(slot: nat): (n: nat)
    requires TVR_SIZE <= slot < SLOTS
    ensures 1 <= n <= 4 && Base(n) <= slot < Base(n) + TVN_SIZE
  {
    (slot - TVR_SIZE) / TVN_SIZE + 1
  }

  /** The slot choice of internal_add_timer. */
  function Place(expires: nat, timerJiffies: nat, rootIndex: nat): (slot: nat)
    requires expires < WORD && timerJiffies < WORD && rootIndex < TVR_SIZE
    ensures slot < SLOTS
  {
    var idx := Ahead(expires, timerJiffies);
    if idx < 0x100 then expires % 0x100
    else if idx < 0x4000 then Base(1) + expires / 0x100 % TVN_SIZE
    else if idx < 0x10_0000 then Base(2) + expires / 0x4000 % TVN_SIZE
    else if idx < 0x400_0000 then Base(3) + expires / 0x10_0000 % TVN_SIZE
    else if idx >= HALF then rootIndex
    else Base(4) + expires / 0x400_0000 % TVN_SIZE
  }

  /** The tick at which the slot of tvecs[n] holding `due` is cascaded. */
  function CascadeTick(n: nat, due: nat): nat
    requires 1 <= n <= 4
  {
    due / Unit(n) * Unit(n)
  }

  /** `slot` is a right place for a timer due at `due` when the clock shows
      `clock` and the levels 1..done have already been cascaded at this tick:
      the slot will be emptied at or before `due`, and not again before that. */
  ghost predicate Home(clock: nat, done: nat, due: nat, slot: nat)
    requires slot < SLOTS
  {
    if slot < TVR_SIZE then
      clock <= due < clock + TVR_SIZE && slot == due % TVR_SIZE
    else
      var n := LevelOf(slot);
      && due < clock + TVN_SIZE * Unit(n)
      && slot == Base(n) + due / Unit(n) % TVN_SIZE
      && (clock < CascadeTick(n, due) || (clock == CascadeTick(n, due) && done < n))
  }

  /** The value of tvecs[n]->index. */
  ghost function IndexAt(n: nat, clock: nat, done: nat): (i: nat)
    requires n <= 4
    ensures i < TVR_SIZE && (n > 0 ==> i < TVN_SIZE)
  {
    if n == 0 then clock % TVR_SIZE
    else ((clock + Unit(n) - 1) / Unit(n) + (if n <= done && clock % Unit(n) == 0 then 1 else 0)) % TVN_SIZE
  }

  lemma DivPlusMultiple(q: nat, k: nat, u: nat, r: nat)
    requires u > 0
    ensures (q * (k * u) + r) / u == q * k + r / u
  {
    var a, d := q * k, r / u;
    Regroup(q, k, u);
    Distribute(a, d, u);
    Remainder(r, u);
    DivUnique(q * (k * u) + r, u, a + d);
  }

  lemma Regroup(q: nat, k: nat, u: nat)
    ensures q * (k * u) == q * k * u
  {
  }

  lemma Distribute(a: nat, d: nat, u: nat)
    ensures (a + d) * u == a * u + d * u
  {
  }

  lemma Remainder(r: nat, u: nat)
    requires u > 0
    ensures r / u * u <= r < r / u * u + u
  {
  }

  lemma DivUnique(x: nat, u: nat, d: nat)
    requires u > 0 && d * u <= x < d * u + u
    ensures x / u == d
  {
    var e := x / u;
    MulStep(e, d, u);
    MulStep(d, e, u);
  }

  lemma MulStep(a: nat, b: nat, u: nat)
    requires u > 0
    ensures a < b ==> a * u + u <= b * u
  {
    if a < b {
      assert (a + 1) * u <= b * u;
    }
  }

  /** Taking the low 32 bits first does not change the slot number. */
  lemma DivModWord(x: nat, k: nat, u: nat)
    requires u > 0 && 64 * k * u == WORD
    ensures (x % WORD) / u % TVN_SIZE == x / u % TVN_SIZE
  {
    var q, r := x / WORD, x % WORD;
    DivPlusMultiple(q, 64 * k, u, r);
    assert q * (64 * k) == 64 * (q * k);
    Mod64(q * k, r / u);
  }

  lemma Mod64(a: nat, b: nat)
    ensures (64 * a + b) % 64 == b % 64
  {
  }

  lemma ModUnique(x: int, k: int, d: nat)
    requires x == k * WORD + d && d < WORD
    ensures x % WORD == d
  {
  }

  lemma AheadOfClock(clock: nat, expires: nat)
    requires expires < WORD
    ensures Ahead(expires, clock % WORD) == Ahead(expires, clock)
    ensures (clock + Ahead(expires, clock)) % WORD == expires
  {
    var q, r := clock / WORD, clock % WORD;
    if expires >= r {
      ModUnique(expires - r, 0, expires - r);
      ModUnique(expires - clock, -q, expires - r);
      ModUnique(clock + (expires - r), q, expires);
    } else {
      ModUnique(expires - r, -1, expires - r + WORD);
      ModUnique(expires - clock, -q - 1, expires - r + WORD);
      ModUnique(clock + (expires - r + WORD), q + 1, expires);
    }
  }

  /** At least one slot width ahead: the slot's cascade is still to come. */
  lemma LevelHome(clock: nat, due: nat, n: nat, done: nat)
    requires 1 <= n <= 4 && clock + Unit(n) <= due < clock + TVN_SIZE * Unit(n)
    ensures Home(clock, done, due, Base(n) + due / Unit(n) % TVN_SIZE)
  {
    var u := Unit(n);
    assert due / u * u == due - due % u;
  }

  /** internal_add_timer always finds a right place, whatever the phase of the tick. */
  lemma PlaceIsHome(clock: nat, expires: nat, done: nat)
    requires expires < WORD
    ensures Home(clock, done, DueTick(clock, expires), Place(expires, clock % WORD, clock % TVR_SIZE))
    ensures TVR_SIZE <= Place(expires, clock % WORD, clock % TVR_SIZE) ==> DueTick(clock, expires) % WORD == expires
  {
    AheadOfClock(clock, expires);
    var d := Ahead(expires, clock);
    var due := clock + d;
    if d < 0x100 {
      assert expires % 0x100 == due % 0x100 by { LowByte(due); }
    } else if d < 0x4000 {
      DivModWord(due, 0x4_0000, 0x100);
      LevelHome(clock, due, 1, done);
    } else if d < 0x10_0000 {
      DivModWord(due, 0x1000, 0x4000);
      LevelHome(clock, due, 2, done);
    } else if d < 0x400_0000 {
      DivModWord(due, 0x40, 0x10_0000);
      LevelHome(clock, due, 3, done);
    } else if d < HALF {
      DivModWord(due, 1, 0x400_0000);
      LevelHome(clock, due, 4, done);
    }
  }

  lemma LowByte(x: nat)
    ensures (x % WORD) % 0x100 == x % 0x100
  {
    var q := x / WORD;
    assert x == 0x100 * (q * 0x100_0000) + x % WORD;
  }

  /** The timers found in the slot that is cascaded at this tick are due within
      one slot width, so they move to a lower vector: never back into the slot
      being emptied, and never into the vector being cascaded. */
  lemma CascadedTimerMoves(clock: nat, n: nat, due: nat, slot: nat)
    requires 1 <= n <= 4 && clock % Unit(n) == 0
    requires slot == Base(n) + clock / Unit(n) % TVN_SIZE
    requires Home(clock, n - 1, due, slot)
    ensures CascadeTick(n, due) == clock && clock <= due < clock + Unit(n)
    ensures Place(due % WORD, clock % WORD, clock % TVR_SIZE) < Base(n)
    ensures DueTick(clock, due % WORD) == due
  {
    var u := Unit(n);
    assert LevelOf(slot) == n;
    SameSlot(clock, due, u);
    SmallAhead(clock, due);
  }

  /** Every other timer stays where it is while a level is cascaded. */
  lemma HomeOtherSlot(clock: nat, n: nat, due: nat, slot: nat)
    requires 1 <= n <= 4 && clock % Unit(n) == 0 && slot < SLOTS
    requires slot != Base(n) + clock / Unit(n) % TVN_SIZE
    requires Home(clock, n - 1, due, slot)
    ensures Home(clock, n, due, slot)
  {
    if slot >= TVR_SIZE && LevelOf(slot) == n && clock == CascadeTick(n, due) {
      DivUnique(clock, Unit(n), due / Unit(n));
    }
  }

  lemma SameSlot(clock: nat, due: nat, u: nat)
    requires u > 0 && clock % u == 0
    requires clock <= due / u * u && due < clock + 64 * u
    requires due / u % 64 == clock / u % 64
    ensures due / u == clock / u && due / u * u == clock && due < clock + u
  {
    var a, b := clock / u, due / u;
    assert clock == a * u;
    assert b * u <= due < b * u + u;
    MulStep(b, a, u);
    MulStep(a + 63, b, u);
  }

  lemma SmallAhead(clock: nat, due: nat)
    requires clock <= due < clock + HALF
    ensures Ahead(due % WORD, clock % WORD) == due - clock
    ensures Ahead(due % WORD, clock) == due - clock
    ensures DueTick(clock, due % WORD) == due
  {
    var q, p := clock / WORD, due / WORD;
    AheadOfClock(clock, due % WORD);
    ModUnique(due % WORD - clock, -p, due - clock);
  }

  /** A timer whose due tick has not come keeps its place when the clock moves on. */
  lemma HomeAcrossTick(clock: nat, due: nat, slot: nat)
    requires slot < SLOTS && Home(clock, 4, due, slot) && clock < due
    ensures Home(clock + 1, 0, due, slot)
  {
  }

  /** After the sweep only slot `clock % 256` of tv1 holds timers due now. */
  lemma DueNowIsInRoot(clock: nat, due: nat, slot: nat)
    requires slot < SLOTS && Home(clock, 4, due, slot)
    ensures clock <= due
    ensures due == clock <==> slot == clock % TVR_SIZE
  {
    if slot >= TVR_SIZE {
      var u := Unit(LevelOf(slot));
      assert due / u * u <= due;
    }
  }

  /** A level whose slot boundary is not reached needs no cascade. */
  lemma HomeWithoutCascade(clock: nat, done: nat, due: nat, slot: nat)
    requires slot < SLOTS && Home(clock, done, due, slot) && done <= 4
    requires done < 4 ==> clock % Unit(done + 1) != 0
    ensures Home(clock, 4, due, slot)
  {
    if slot >= TVR_SIZE && done < LevelOf(slot) {
      var n := LevelOf(slot);
      NotMultiple(clock, done + 1, n, due / Unit(n));
    }
  }

  lemma NotMultiple(clock: nat, m: nat, n: nat, q: nat)
    requires 1 <= m <= n <= 4 && clock % Unit(m) != 0
    ensures clock != q * Unit(n)
  {
    if clock == q * Unit(n) {
      var k := Unit(n) / Unit(m);
      assert Unit(n) == k * Unit(m);
      assert clock == q * k * Unit(m);
      DivUnique(clock, Unit(m), q * k);
      assert false;
    }
  }

  /** The test `tvecs[n]->index == 1` after a cascade says that the next level is due too. */
  lemma IndexOneMeansNextLevel(clock: nat, n: nat)
    requires 1 <= n <= 4 && clock % Unit(n) == 0
    ensures IndexAt(n, clock, n - 1) == clock / Unit(n) % TVN_SIZE
    ensures IndexAt(n, clock, n) == (IndexAt(n, clock, n - 1) + 1) % TVN_SIZE
    ensures n < 4 ==> (IndexAt(n, clock, n) == 1 <==> clock % Unit(n + 1) == 0)
  {
    var u, q := Unit(n), clock / Unit(n);
    assert clock == q * u;
    DivUnique(clock + u - 1, u, q);
    if n < 4 {
      assert Unit(n + 1) == 64 * u;
      MultipleOf64(q, u);
    }
  }

  lemma MultipleOf64(q: nat, u: nat)
    requires u > 0
    ensures (q * u) % (64 * u) == 0 <==> q % 64 == 0
  {
    var h, r, v := q / 64, q % 64, 64 * u;
    calc {
      q * u;
      (64 * h + r) * u;
      64 * h * u + r * u;
      h * v + r * u;
    }
    MulStep(r, 64, u);
    DivUnique(q * u, v, h);
    assert (q * u) % v == q * u - (q * u) / v * v;
  }

  /** The indices after the clock moves on. */
  lemma IndexAcrossTick(clock: nat, n: nat)
    requires n <= 4
    ensures n == 0 ==> IndexAt(0, clock + 1, 0) == (IndexAt(0, clock, 4) + 1) % TVR_SIZE
    ensures n > 0 ==> IndexAt(n, clock + 1, 0) == IndexAt(n, clock, 4)
  {
    if n > 0 {
      var u, q, r := Unit(n), clock / Unit(n), clock % Unit(n);
      assert clock == q * u + r;
      assert (q + 1) * u == q * u + u;
      DivUnique(clock + u, u, q + 1);
      if r == 0 {
        DivUnique(clock + u - 1, u, q);
      } else {
        DivUnique(clock + u - 1, u, q + 1);
      }
    }
  }
}
