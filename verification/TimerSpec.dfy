/** The simple clock that the timer wheel of kernel/sched.c stands in for.

    Time is an unbounded tick count.  Arming a timer gives it a due tick, and
    a timer may only fire while the clock shows its due tick.  The clock may
    only move on when nothing is due. */
module TimerSpec {

  type TimerId = nat

  /** `unsigned long` is 32 bits wide. */
  const WORD := 0x1_0000_0000
  const HALF := 0x8000_0000

  /** The 32-bit difference `expires - timer_jiffies`. */
  function Ahead(expires: nat, now: nat): nat {
    (expires - now) % WORD
  }

  /** The tick at which a timer armed with `expires` must run: the tick that
      `expires` names when that is less than 2^31 ticks ahead, and the current
      tick when it lies in the past. */
  function DueTick(now: nat, expires: nat): nat {
    var d := Ahead(expires, now);
    if d < HALF then now + d else now
  }

  datatype Event =
    | Arm(id: TimerId, expires: nat)
    | Disarm(id: TimerId)
    | Fire(id: TimerId)
    | Tick

  datatype Clock = Clock(now: nat, pending: map<TimerId, nat>)

  ghost predicate Enabled(c: Clock, e: Event) {
    match e
    case Arm(_, _) => true
    case Disarm(id) => id in c.pending
    case Fire(id) => id in c.pending && c.pending[id] == c.now
    case Tick => forall id :: id in c.pending ==> c.now < c.pending[id]
  }

  ghost function Apply(c: Clock, e: Event): Clock {
    match e
    case Arm(id, x) => c.(pending := c.pending[id := DueTick(c.now, x)])
    case Disarm(id) => c.(pending := c.pending - {id})
    case Fire(id) => c.(pending := c.pending - {id})
    case Tick => c.(now := c.now + 1)
  }

  /** The clock after a whole run of events, starting at tick 0 with no timer armed. */
  ghost function Replay(es: seq<Event>): Clock {
    if es == [] then Clock(0, map[])
    else Apply(Replay(es[..|es| - 1]), es[|es| - 1])
  }

  ghost predicate Legal(es: seq<Event>) {
    es == [] || (Legal(es[..|es| - 1]) && Enabled(Replay(es[..|es| - 1]), es[|es| - 1]))
  }

  lemma ExtendRun(es: seq<Event>, e: Event)
    requires Legal(es) && Enabled(Replay(es), e)
    ensures Legal(es + [e]) && Replay(es + [e]) == Apply(Replay(es), e)
  {
    assert (es + [e])[..|es|] == es;
  }

  ghost function Fires(es: seq<Event>, id: TimerId): nat {
    if es == [] then 0
    else Fires(es[..|es| - 1], id) + (if es[|es| - 1] == Fire(id) then 1 else 0)
  }

  /** `id` is neither armed again nor disarmed after position `i`. */
  ghost predicate LeftAlone(es: seq<Event>, i: nat, id: TimerId) {
    forall j :: i < j < |es| ==> !(es[j].Arm? && es[j].id == id) && es[j] != Disarm(id)
  }

  lemma TailFront(es: seq<Event>, a: nat)
    requires a < |es|
    ensures es[a..][..|es[a..]| - 1] == es[..|es| - 1][a..]
  {
    var x, y := es[a..][..|es[a..]| - 1], es[..|es| - 1][a..];
    assert |x| == |y| && forall j :: 0 <= j < |x| ==> x[j] == es[a + j] == y[j];
  }

  /** The timer is pending with its due tick as long as it has not fired, and it has
      fired at most once. */
  ghost predicate Tracks(c: Clock, id: TimerId, due: nat, fired: nat) {
    if fired == 0 then id in c.pending && c.pending[id] == due && c.now <= due
    else fired == 1 && id !in c.pending
  }

  lemma TracksOn(c: Clock, e: Event, id: TimerId, due: nat, fired: nat)
    requires Tracks(c, id, due, fired) && Enabled(c, e) && !(e.Arm? && e.id == id) && e != Disarm(id)
    ensures Tracks(Apply(c, e), id, due, fired + if e == Fire(id) then 1 else 0)
    ensures e == Fire(id) ==> c.now == due
  {
    hide DueTick;
  }

  lemma ArmTracks(c: Clock, id: TimerId, x: nat)
    ensures Tracks(Apply(c, Arm(id, x)), id, DueTick(c.now, x), 0)
  {
  }

  lemma LastEvent(es: seq<Event>)
    requires es != [] && Legal(es)
    ensures var front, e := es[..|es| - 1], es[|es| - 1];
      Legal(front) && Enabled(Replay(front), e) && Replay(es) == Apply(Replay(front), e)
  {
    hide Enabled, Apply;
  }

  /** A timer that is left alone is pending with its due tick until it fires, and it
      fires at most once, while the clock shows that tick. */
  lemma {:induction false} PendingUntilFired(es: seq<Event>, i: nat, id: TimerId, expires: nat)
    requires Legal(es) && i < |es| && es[i] == Arm(id, expires) && LeftAlone(es, i, id)
    ensures Tracks(Replay(es), id, DueTick(Replay(es[..i]).now, expires), Fires(es[i + 1..], id))
    ensures forall j :: i < j < |es| && es[j] == Fire(id) ==>
      Replay(es[..j]).now == DueTick(Replay(es[..i]).now, expires)
  {
    hide DueTick, Replay, Legal, Enabled, Apply, Tracks;
    var k := |es| - 1;
    var due := DueTick(Replay(es[..i]).now, expires);
    LastEvent(es);
    if i == k {
      assert es[i + 1..] == [];
      ArmTracks(Replay(es[..i]), id, expires);
    } else {
      var front := es[..k];
      assert front[..i] == es[..i];
      PendingUntilFired(front, i, id, expires);
      TailFront(es, i + 1);
      assert Fires(es[i + 1..], id) == Fires(front[i + 1..], id) + (if es[k] == Fire(id) then 1 else 0);
      TracksOn(Replay(front), es[k], id, due, Fires(front[i + 1..], id));
      forall j | i < j < |es| && es[j] == Fire(id)
        ensures Replay(es[..j]).now == due
      {
        if j < k {
          assert front[j] == es[j] && front[..j] == es[..j];
        }
      }
    }
  }

  /** Main law of the simple clock: once the clock has passed the due tick of a
      timer that was left alone, the timer has fired exactly once, and it fired
      while the clock showed the due tick. */
  lemma FiresExactlyOnce(es: seq<Event>, i: nat, id: TimerId, expires: nat)
    requires Legal(es) && i < |es| && es[i] == Arm(id, expires) && LeftAlone(es, i, id)
    requires Replay(es).now > DueTick(Replay(es[..i]).now, expires)
    ensures Fires(es[i + 1..], id) == 1
    ensures forall j :: i < j < |es| && es[j] == Fire(id) ==>
      Replay(es[..j]).now == DueTick(Replay(es[..i]).now, expires)
  {
    PendingUntilFired(es, i, id, expires);
  }
}
