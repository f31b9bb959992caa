/** A message queue of ipc/msg.c with its sleeping receivers: each method is one
    region under the queue lock. */
module MsgQueue {
  import opened Lists

  /** struct msg_msg without its text; the id stands for its address. */
  datatype Msg = Msg(id: nat, mtype: int, ts: nat)

  datatype Mode = Any | Equal | NotEqual | LessEqual

  /** r_msg of a sleeping receiver: -EAGAIN, another error, or the message. */
  datatype Slot = Again | Failed(code: int) | Got(msg: Msg)

  /** struct msg_receiver; listed says whether it is on q_receivers. */
  datatype Receiver = Receiver(task: nat, mtype: int, mode: Mode, maxsize: int, slot: Slot, listed: bool)

  const E2BIG := 7
  const EIDRM := 43
  const INT_MAX := 0x7fff_ffff
  const LONG_MIN := -0x8000_0000

  /** testmsg */
  predicate TestMsg(m: Msg, mtype: int, mode: Mode) {
    match mode
    case Any => true
    case LessEqual => m.mtype <= mtype
    case Equal => m.mtype == mtype
    case NotEqual => m.mtype != mtype
  }

  /** convert_mode: the type to look for, with the negation of a long. */
  function Convert(msgtyp: int, except: bool): (r: (int, Mode)) {
    if msgtyp == 0 then (0, Any)
    else if msgtyp < 0 then (if msgtyp == LONG_MIN then LONG_MIN else -msgtyp, LessEqual)
    else if except then (msgtyp, NotEqual)
    else (msgtyp, Equal)
  }

  /** What a receiver asks for: any message, those of a type, those not of a type, or
      those of a type up to the magnitude of a negative one. */
  predicate Wanted(m: Msg, msgtyp: int, except: bool) {
    if msgtyp == 0 then true
    else if msgtyp < 0 then m.mtype <= -msgtyp
    else m.mtype == msgtyp <==> !except
  }

  /** The test after the conversion accepts just the messages asked for, unless the
      type is LONG_MIN, which accepts none of them. */
  lemma ConvertIsExact(msgtyp: int, except: bool, m: Msg)
    requires LONG_MIN <= msgtyp < -LONG_MIN && 1 <= m.mtype < -LONG_MIN
    ensures var (t, mode) := Convert(msgtyp, except);
      && (TestMsg(m, t, mode) <==> Wanted(m, msgtyp, except) && msgtyp != LONG_MIN)
      && ((TestMsg(m, t, mode) <==> Wanted(m, msgtyp, except)) <==> msgtyp != LONG_MIN)
  {
  }

  /** A message of type 1 is asked for by LONG_MIN, and not found. */
  lemma LongMinExample(id: nat)
    ensures var m := Msg(id, 1, 0);
      Wanted(m, LONG_MIN, false) && !TestMsg(m, Convert(LONG_MIN, false).0, Convert(LONG_MIN, false).1)
  {
  }

  function SumSizes(l: seq<Msg>): nat {
    if l == [] then 0 else SumSizes(l[..|l| - 1]) + l[|l| - 1].ts
  }

  lemma {:induction false} SumRemove(l: seq<Msg>, i: nat)
    requires i < |l|
    ensures SumSizes(l[..i] + l[i + 1..]) == SumSizes(l) - l[i].ts
  {
    var n := |l| - 1;
    if i == n {
      assert l[..i] + l[i + 1..] == l[..n];
    } else {
      SumRemove(l[..n], i);
      assert l[..n][..i] + l[..n][i + 1..] == (l[..i] + l[i + 1..])[..n - 1];
    }
  }

  /** How often m occurs. */
  function Count(l: seq<Msg>, m: Msg): nat {
    if l == [] then 0 else Count(l[..|l| - 1], m) + Is(l[|l| - 1], m)
  }

  function Is(a: Msg, m: Msg): nat {
    if a == m then 1 else 0
  }

  lemma CountMore(l: seq<Msg>, a: Msg, m: Msg)
    ensures Count(l + [a], m) == Count(l, m) + Is(a, m)
  {
    assert (l + [a])[..|l|] == l;
  }

  lemma {:induction false} CountConcat(a: seq<Msg>, b: seq<Msg>, m: Msg)
    ensures Count(a + b, m) == Count(a, m) + Count(b, m)
  {
    if b == [] {
      assert a + b == a;
    } else {
      var n := |b| - 1;
      assert a + b == (a + b[..n]) + [b[n]];
      CountConcat(a, b[..n], m);
      CountMore(a + b[..n], b[n], m);
    }
  }

  lemma CountRemove(l: seq<Msg>, i: nat, m: Msg)
    requires i < |l|
    ensures Count(l, m) == Count(l[..i] + l[i + 1..], m) + Is(l[i], m)
  {
    assert l == (l[..i] + [l[i]]) + l[i + 1..];
    CountConcat(l[..i] + [l[i]], l[i + 1..], m);
    CountMore(l[..i], l[i], m);
    CountConcat(l[..i], l[i + 1..], m);
  }

  /** How often m is in the hands of a receiver that has not picked it up. */
  function Handed(asleep: seq<Receiver>, m: Msg): nat {
    if asleep == [] then 0 else Handed(asleep[..|asleep| - 1], m) + InSlot(asleep[|asleep| - 1], m)
  }

  function InSlot(r: Receiver, m: Msg): nat {
    if r.slot == Got(m) then 1 else 0
  }

  lemma {:induction false} HandedUpdate(asleep: seq<Receiver>, k: nat, r: Receiver, m: Msg)
    requires k < |asleep|
    ensures Handed(asleep[k := r], m) + InSlot(asleep[k], m) == Handed(asleep, m) + InSlot(r, m)
  {
    var n := |asleep| - 1;
    if k < n {
      HandedUpdate(asleep[..n], k, r, m);
      assert asleep[k := r][..n] == asleep[..n][k := r];
    } else {
      assert asleep[k := r][..n] == asleep[..n];
    }
  }

  lemma {:induction false} HandedRemove(asleep: seq<Receiver>, k: nat, m: Msg)
    requires k < |asleep|
    ensures Handed(asleep, m) == Handed(asleep[..k] + asleep[k + 1..], m) + InSlot(asleep[k], m)
  {
    var n := |asleep| - 1;
    var r := asleep[..k] + asleep[k + 1..];
    if k < n {
      HandedRemove(asleep[..n], k, m);
      assert r[..n - 1] == asleep[..n][..k] + asleep[..n][k + 1..];
    } else {
      assert r == asleep[..n];
    }
  }

  /** The receivers hold the same messages, and one more if it is given. */
  ghost predicate SameHands(a0: seq<Receiver>, a: seq<Receiver>, more: seq<Msg>) {
    forall m :: Handed(a, m) == Handed(a0, m) + Count(more, m)
  }

  lemma SetSlot(a0: seq<Receiver>, a: seq<Receiver>, k: nat, slot: Slot)
    requires k < |a| && SameHands(a0, a, []) && !a[k].slot.Got?
    ensures SameHands(a0, a[k := a[k].(listed := false, slot := slot)], if slot.Got? then [slot.msg] else [])
  {
    var r := a[k].(listed := false, slot := slot);
    forall m
      ensures Handed(a[k := r], m) == Handed(a0, m) + Count(if slot.Got? then [slot.msg] else [], m)
    {
      HandedUpdate(a, k, r, m);
      assert Count([], m) == 0;
    }
  }

  /** Every accepted message is queued, handed over, received or destroyed. */
  ghost predicate Conserved(accepted: seq<Msg>, messages: seq<Msg>, asleep: seq<Receiver>, received: seq<Msg>,
      destroyed: seq<Msg>) {
    forall m :: Count(accepted, m) == Count(messages, m) + Handed(asleep, m) + Count(received, m) + Count(destroyed, m)
  }

  lemma ConservedSend(accepted: seq<Msg>, messages: seq<Msg>, a0: seq<Receiver>, a: seq<Receiver>, received: seq<Msg>,
                      destroyed: seq<Msg>, msg: Msg, sent: bool)
    requires Conserved(accepted, messages, a0, received, destroyed) && SameHands(a0, a, if sent then [msg] else [])
    ensures Conserved(accepted + [msg], if sent then messages else messages + [msg], a, received, destroyed)
  {
    forall m
      ensures Count(accepted + [msg], m) == Count(if sent then messages else messages + [msg], m) + Handed(a, m)
        + Count(received, m) + Count(destroyed, m)
    {
      CountMore(accepted, msg, m);
      CountMore(messages, msg, m);
      CountMore([], msg, m);
      assert [] + [msg] == [msg];
    }
  }

  lemma ConservedTake(accepted: seq<Msg>, messages: seq<Msg>, asleep: seq<Receiver>, received: seq<Msg>,
      destroyed: seq<Msg>, i: nat)
    requires Conserved(accepted, messages, asleep, received, destroyed) && i < |messages|
    ensures Conserved(accepted, messages[..i] + messages[i + 1..], asleep, received + [messages[i]], destroyed)
  {
    forall m
      ensures Count(accepted, m) == Count(messages[..i] + messages[i + 1..], m) + Handed(asleep, m)
        + Count(received + [messages[i]], m) + Count(destroyed, m)
    {
      CountRemove(messages, i, m);
      CountMore(received, messages[i], m);
    }
  }

  lemma ConservedWake(accepted: seq<Msg>, messages: seq<Msg>, asleep: seq<Receiver>, received: seq<Msg>,
      destroyed: seq<Msg>, k: nat)
    requires Conserved(accepted, messages, asleep, received, destroyed) && k < |asleep|
    ensures var s := asleep[k].slot;
      var now := if s.Got? then received + [s.msg] else received;
      Conserved(accepted, messages, asleep[..k] + asleep[k + 1..], now, destroyed)
  {
    var s := asleep[k].slot;
    forall m
      ensures Count(accepted, m) == Count(messages, m) + Handed(asleep[..k] + asleep[k + 1..], m)
        + Count(if s.Got? then received + [s.msg] else received, m) + Count(destroyed, m)
    {
      HandedRemove(asleep, k, m);
      if s.Got? {
        CountMore(received, s.msg, m);
      }
    }
  }

  lemma ConservedWait(accepted: seq<Msg>, messages: seq<Msg>, asleep: seq<Receiver>, received: seq<Msg>,
      destroyed: seq<Msg>, r: Receiver)
    requires Conserved(accepted, messages, asleep, received, destroyed) && !r.slot.Got?
    ensures Conserved(accepted, messages, asleep + [r], received, destroyed)
  {
    assert (asleep + [r])[..|asleep|] == asleep;
  }

  lemma ConservedFree(accepted: seq<Msg>, messages: seq<Msg>, a0: seq<Receiver>, a: seq<Receiver>, received: seq<Msg>,
                      destroyed: seq<Msg>)
    requires Conserved(accepted, messages, a0, received, destroyed) && SameHands(a0, a, [])
    ensures Conserved(accepted, [], a, received, destroyed + messages)
  {
    forall m
      ensures Count(accepted, m) == Count([], m) + Handed(a, m) + Count(received, m) + Count(destroyed + messages, m)
    {
      CountConcat(destroyed, messages, m);
      assert Count([], m) == 0;
    }
  }

  /** No sleeping receiver on the list could take a queued message. */
  ghost predicate NoMatch(messages: seq<Msg>, asleep: seq<Receiver>) {
    forall i, j :: 0 <= i < |messages| && 0 <= j < |asleep| && asleep[j].listed ==>
      !TestMsg(messages[i], asleep[j].mtype, asleep[j].mode)
  }

  ghost predicate ListedWait(asleep: seq<Receiver>) {
    forall j :: 0 <= j < |asleep| && asleep[j].listed ==> asleep[j].slot == Again
  }

  /** Message i is the one a receiver gets: the first that matches, or for a bound
      the earliest among those of the least type. */
  ghost predicate Selected(messages: seq<Msg>, mtype: int, mode: Mode, i: nat) {
    && i < |messages| && TestMsg(messages[i], mtype, mode)
    && if mode == LessEqual then
         && (forall j :: 0 <= j < |messages| && messages[j].mtype <= mtype ==> messages[i].mtype <= messages[j].mtype)
         && (forall j :: 0 <= j < i ==> messages[j].mtype != messages[i].mtype)
       else forall j :: 0 <= j < i ==> !TestMsg(messages[j], mtype, mode)
  }

  /** The search of sys_msgrcv. */
  method FindMsg(messages: seq<Msg>, msgtyp0: int, mode: Mode) returns (found: int)
    requires forall i :: 0 <= i < |messages| ==> messages[i].mtype >= 1
    ensures -1 <= found < |messages|
    ensures found >= 0 ==> Selected(messages, msgtyp0, mode, found)
    ensures found < 0 ==> forall i :: 0 <= i < |messages| ==> !TestMsg(messages[i], msgtyp0, mode)
  {
    var msgtyp, k := msgtyp0, 0;
    found := -1;
    while k < |messages|
      invariant 0 <= k <= |messages| && -1 <= found < k
      invariant found < 0 ==> msgtyp == msgtyp0 && forall j :: 0 <= j < k ==> !TestMsg(messages[j], msgtyp0, mode)
      invariant found >= 0 ==>
        mode == LessEqual && msgtyp == messages[found].mtype - 1 && messages[found].mtype <= msgtyp0
      invariant found >= 0 ==>
        forall j :: 0 <= j < k && messages[j].mtype <= msgtyp0 ==> messages[found].mtype <= messages[j].mtype
      invariant found >= 0 ==> forall j :: 0 <= j < found ==> messages[j].mtype != messages[found].mtype
    {
      if TestMsg(messages[k], msgtyp, mode) {
        found := k;
        if mode == LessEqual && messages[k].mtype != 1 {
          msgtyp := messages[k].mtype - 1;
        } else {
          break;
        }
      }
      k := k + 1;
    }
  }

  datatype Sent = Full | Sleeps | Done
  datatype Received = Message(msg: Msg) | TooBig | Nothing | Waits

  /** The receiver is on the list and waits for such a message. */
  predicate Matches(r: Receiver, msg: Msg) {
    r.listed && TestMsg(msg, r.mtype, r.mode)
  }

  predicate Takes(r: Receiver, msg: Msg) {
    Matches(r, msg) && msg.ts <= r.maxsize
  }

  /** A receiver that the message has been offered to. */
  function Offered(r: Receiver, msg: Msg): Receiver {
    if !Matches(r, msg) then r
    else r.(listed := false, slot := if msg.ts <= r.maxsize then Got(msg) else Failed(-E2BIG))
  }

  /** The first receiver that takes the message is at n, or there is none and n is the end.
      The message has been offered to all up to there, and to nobody behind. */
  ghost predicate SentTo(before: seq<Receiver>, after: seq<Receiver>, msg: Msg, sent: bool, n: nat) {
    && |after| == |before| && n <= |before| && (sent <==> n < |before|) && (sent ==> Takes(before[n], msg))
    && (forall j :: 0 <= j < n ==> !Takes(before[j], msg))
    && (forall j :: 0 <= j < |before| ==> after[j] == if j <= n then Offered(before[j], msg) else before[j])
  }

  ghost predicate Delivered(before: seq<Receiver>, after: seq<Receiver>, msg: Msg, sent: bool) {
    exists n: nat :: SentTo(before, after, msg, sent, n)
  }

  class Queue {
    var messages: seq<Msg>
    var asleep: seq<Receiver>
    var cbytes: int
    var qnum: int
    var qbytes: int
    var removed: bool
    ghost var accepted: seq<Msg>
    ghost var received: seq<Msg>
    ghost var destroyed: seq<Msg>

    ghost predicate Valid()
      reads this
    {
      && NoMatch(messages, asleep) && ListedWait(asleep) && NoDup(accepted)
      && Conserved(accepted, messages, asleep, received, destroyed)
      && cbytes == SumSizes(messages) && qnum == |messages|
      && (forall i :: 0 <= i < |messages| ==> messages[i].mtype >= 1)
      && (removed ==> messages == [] && forall j :: 0 <= j < |asleep| ==> !asleep[j].listed)
    }

    /** newque */
    constructor (qbytes: int)
      ensures Valid() && messages == [] && asleep == [] && accepted == [] && !removed && this.qbytes == qbytes
    {
      messages, asleep, cbytes, qnum, removed := [], [], 0, 0, false;
      this.qbytes := qbytes;
      accepted, received, destroyed := [], [], [];
    }

    /** pipelined_send: the message goes to the first receiver that wants it and
        can take it; those that want it but cannot are sent away. */
    method PipelinedSend(msg: Msg) returns (sent: bool)
      requires Valid() && msg !in accepted && msg.mtype >= 1
      modifies this`asleep
      ensures NoMatch(messages, asleep) && ListedWait(asleep) && |asleep| == |old(asleep)|
      ensures SameHands(old(asleep), asleep, if sent then [msg] else [])
      ensures Delivered(old(asleep), asleep, msg, sent)
      ensures !sent ==>
        forall j :: 0 <= j < |asleep| && asleep[j].listed ==> !TestMsg(msg, asleep[j].mtype, asleep[j].mode)
      ensures forall j :: 0 <= j < |asleep| && asleep[j].listed ==> old(asleep)[j].listed
    {
      hide SameHands, TestMsg, NoDup, SumSizes, Conserved;
      var k := 0;
      NoChange(asleep);
      while k < |asleep|
        invariant 0 <= k <= |asleep| == |old(asleep)| && NoMatch(messages, asleep) && ListedWait(asleep)
        invariant SameHands(old(asleep), asleep, [])
        invariant forall j :: 0 <= j < k && asleep[j].listed ==> !TestMsg(msg, asleep[j].mtype, asleep[j].mode)
        invariant forall j :: 0 <= j < |asleep| && asleep[j].listed ==> old(asleep)[j].listed
        invariant forall j :: 0 <= j < k ==> !Takes(old(asleep)[j], msg)
        invariant forall j :: 0 <= j < |asleep| ==>
          asleep[j] == if j < k then Offered(old(asleep)[j], msg) else old(asleep)[j]
      {
        var r := asleep[k];
        if r.listed && TestMsg(msg, r.mtype, r.mode) {
          if r.maxsize < msg.ts {
            SetSlot(old(asleep), asleep, k, Failed(-E2BIG));
            asleep := asleep[k := r.(listed := false, slot := Failed(-E2BIG))];
          } else {
            SetSlot(old(asleep), asleep, k, Got(msg));
            asleep := asleep[k := r.(listed := false, slot := Got(msg))];
            assert SentTo(old(asleep), asleep, msg, true, k);
            return true;
          }
        }
        k := k + 1;
      }
      assert SentTo(old(asleep), asleep, msg, false, k);
      sent := false;
    }

    /** sys_msgsnd up to the point where it returns or goes to sleep. */
    method Send(msg: Msg, nowait: bool) returns (out: Sent)
      requires Valid() && !removed && msg !in accepted && msg.mtype >= 1
      modifies this
      ensures Valid() && !removed && qbytes == old(qbytes) && received == old(received) && destroyed == old(destroyed)
      ensures out.Done? <==> msg.ts + old(cbytes) <= qbytes && 1 + old(qnum) <= qbytes
      ensures !out.Done? ==> (out.Full? <==> nowait)
      ensures !out.Done? ==> messages == old(messages) && asleep == old(asleep) && accepted == old(accepted)
      ensures out.Done? ==> accepted == old(accepted) + [msg]
      ensures out.Done? ==> Delivered(old(asleep), asleep, msg, messages == old(messages))
      ensures out.Done? ==> || (messages == old(messages) + [msg] && SameHands(old(asleep), asleep, []))
                            || (messages == old(messages) && SameHands(old(asleep), asleep, [msg]))
    {
      hide SameHands, TestMsg, Conserved, NoMatch, NoDup, SumSizes, Delivered;
      if msg.ts + cbytes > qbytes || 1 + qnum > qbytes {
        return if nowait then Full else Sleeps;
      }
      var sent := PipelinedSend(msg);
      ConservedSend(accepted, messages, old(asleep), asleep, received, destroyed, msg, sent);
      NoDupMore(accepted, msg);
      accepted := accepted + [msg];
      if !sent {
        Enqueued(messages, asleep, msg);
        messages := messages + [msg];
        cbytes := cbytes + msg.ts;
        qnum := qnum + 1;
      }
      out := Done;
    }

    /** sys_msgrcv up to the point where it has a message, fails or goes to sleep. */
    method Receive(task: nat, msgsz: int, msgtyp: int, noError: bool, nowait: bool, except: bool)
      returns (out: Received)
      requires Valid() && !removed
      modifies this
      ensures Valid() && !removed && accepted == old(accepted) && destroyed == old(destroyed)
      ensures var (t, mode) := Convert(msgtyp, except);
        && (out.Nothing? || out.Waits? <==>
          forall i :: 0 <= i < |old(messages)| ==> !TestMsg(old(messages)[i], t, mode))
        && (out.Nothing? ==> nowait) && (out.Waits? ==> !nowait)
        && (out.Message? || out.TooBig? ==>
          exists i: nat :: Taken(old(messages), messages, t, mode, i, msgsz, noError, out))
      ensures !out.Message? ==> messages == old(messages) && received == old(received)
      ensures out.Message? ==> received == old(received) + [out.msg]
      ensures asleep == if out.Waits? then
        var size := if noError then INT_MAX else msgsz;
        old(asleep) + [Receiver(task, Convert(msgtyp, except).0, Convert(msgtyp, except).1, size, Again, true)]
        else old(asleep)
    {
      hide Conserved, TestMsg, Convert, Selected;
      var (t, mode) := Convert(msgtyp, except);
      var found := FindMsg(messages, t, mode);
      if found >= 0 {
        SelectedMatches(messages, t, mode, found);
        var msg := messages[found];
        if msgsz < msg.ts && !noError {
          assert Taken(messages, messages, t, mode, found, msgsz, noError, TooBig);
          return TooBig;
        }
        SumRemove(messages, found);
        ConservedTake(accepted, messages, asleep, received, destroyed, found);
        messages := messages[..found] + messages[found + 1..];
        qnum := qnum - 1;
        cbytes := cbytes - msg.ts;
        received := received + [msg];
        assert Taken(old(messages), messages, t, mode, found, msgsz, noError, Message(msg));
        return Message(msg);
      }
      if nowait {
        return Nothing;
      }
      var r := Receiver(task, t, mode, if noError then INT_MAX else msgsz, Again, true);
      ConservedWait(accepted, messages, asleep, received, destroyed, r);
      asleep := asleep + [r];
      out := Waits;
    }

    /** A receiver that wakes up: it has a message, or an error; with -EAGAIN it
        leaves the list, to return -EINTR or to search again. */
    method Wake(k: nat) returns (slot: Slot)
      requires Valid() && k < |asleep|
      modifies this`asleep, this`received
      ensures Valid() && slot == old(asleep[k].slot) && asleep == old(asleep[..k] + asleep[k + 1..])
      ensures received == if slot.Got? then old(received) + [slot.msg] else old(received)
    {
      hide Conserved, TestMsg, SumSizes;
      slot := asleep[k].slot;
      ConservedWake(accepted, messages, asleep, received, destroyed, k);
      asleep := asleep[..k] + asleep[k + 1..];
      if slot.Got? {
        received := received + [slot.msg];
      }
    }

    /** freeque: receivers are sent away and the queued messages destroyed. */
    method Free()
      requires Valid() && !removed
      modifies this
      ensures Valid() && removed && messages == [] && destroyed == old(destroyed) + old(messages)
      ensures accepted == old(accepted) && received == old(received) && SameHands(old(asleep), asleep, [])
      ensures |asleep| == |old(asleep)| && forall j :: 0 <= j < |asleep| ==> !asleep[j].listed
      ensures forall j :: 0 <= j < |asleep| ==>
        asleep[j].slot == if old(asleep)[j].listed then Failed(-EIDRM) else old(asleep)[j].slot
    {
      hide SameHands, TestMsg, Conserved, Away;
      SendAway();
      ConservedFree(accepted, messages, old(asleep), asleep, received, destroyed);
      NoneListed(old(asleep), asleep);
      destroyed := destroyed + messages;
      messages, cbytes, qnum, removed := [], 0, 0, true;
    }

    method SendAway()
      requires ListedWait(asleep)
      modifies this`asleep
      ensures |asleep| == |old(asleep)| && SameHands(old(asleep), asleep, [])
      ensures forall j :: 0 <= j < |asleep| ==> asleep[j] == Away(old(asleep)[j])
    {
      hide SameHands;
      NoChange(asleep);
      var k := 0;
      while k < |asleep|
        invariant 0 <= k <= |asleep| == |old(asleep)| && SameHands(old(asleep), asleep, [])
        invariant forall j :: 0 <= j < k ==> asleep[j] == Away(old(asleep)[j])
        invariant forall j :: k <= j < |asleep| ==> asleep[j] == old(asleep)[j]
      {
        if asleep[k].listed {
          SetSlot(old(asleep), asleep, k, Failed(-EIDRM));
          asleep := asleep[k := asleep[k].(listed := false, slot := Failed(-EIDRM))];
        }
        k := k + 1;
      }
    }
  }

  /** A receiver on the list is sent away. */
  function Away(r: Receiver): Receiver {
    if r.listed then r.(listed := false, slot := Failed(-EIDRM)) else r
  }

  lemma NoneListed(a0: seq<Receiver>, a: seq<Receiver>)
    requires |a| == |a0| && forall j :: 0 <= j < |a| ==> a[j] == Away(a0[j])
    ensures forall j :: 0 <= j < |a| ==>
      !a[j].listed && a[j].slot == if a0[j].listed then Failed(-EIDRM) else a0[j].slot
  {
  }

  lemma NoDupMore(l: seq<Msg>, m: Msg)
    requires NoDup(l) && m !in l
    ensures NoDup(l + [m])
  {
  }

  lemma Enqueued(messages: seq<Msg>, asleep: seq<Receiver>, msg: Msg)
    requires NoMatch(messages, asleep)
    requires forall j :: 0 <= j < |asleep| && asleep[j].listed ==> !TestMsg(msg, asleep[j].mtype, asleep[j].mode)
    ensures NoMatch(messages + [msg], asleep) && SumSizes(messages + [msg]) == SumSizes(messages) + msg.ts
  {
    assert (messages + [msg])[..|messages|] == messages;
  }

  lemma NoChange(a: seq<Receiver>)
    ensures SameHands(a, a, [])
  {
  }

  /** The message selected leaves the queue, unless it is too big for the receiver. */
  ghost predicate Taken(m0: seq<Msg>, m: seq<Msg>, mtype: int, mode: Mode, i: nat, msgsz: int, noError: bool,
      out: Received) {
    && i < |m0| && Selected(m0, mtype, mode, i)
    && if msgsz < m0[i].ts && !noError then out == TooBig && m == m0
       else out == Message(m0[i]) && m == m0[..i] + m0[i + 1..]
  }

  lemma SelectedMatches(messages: seq<Msg>, mtype: int, mode: Mode, i: nat)
    requires Selected(messages, mtype, mode, i)
    ensures i < |messages| && TestMsg(messages[i], mtype, mode)
  {
  }

  /** Each accepted message is in exactly one place, once. */
  lemma ExactlyOnce(accepted: seq<Msg>, messages: seq<Msg>, asleep: seq<Receiver>, received: seq<Msg>,
      destroyed: seq<Msg>, m: Msg)
    requires Conserved(accepted, messages, asleep, received, destroyed) && NoDup(accepted) && m in accepted
    ensures Count(messages, m) + Handed(asleep, m) + Count(received, m) + Count(destroyed, m) == 1
  {
    OnceEach(accepted, m);
  }

  lemma {:induction false} OnceEach(l: seq<Msg>, m: Msg)
    requires NoDup(l)
    ensures Count(l, m) == if m in l then 1 else 0
  {
    if l != [] {
      var n := |l| - 1;
      OnceEach(l[..n], m);
      assert l == l[..n] + [l[n]];
    }
  }
}
