/** Pipes of fs/pipe.c: a ring of one page between several readers and writers.
    Each method runs from taking the pipe semaphore to giving it up. */
module Pipe {
  import opened Bytes

  const PIPE_SIZE: nat := 4096
  const PIPE_BUF: nat := 4096

  /** The bytes in the ring, oldest first. */
  function Ring(b: seq<Byte>, start: nat, len: nat): (r: seq<Byte>)
    requires |b| == PIPE_SIZE && len <= PIPE_SIZE
    ensures |r| == len
  {
    seq(len, i requires 0 <= i < len => b[(start + i) % PIPE_SIZE])
  }

  /** Taking a chunk that does not wrap. */
  lemma RingTake(b: seq<Byte>, start: nat, len: nat, chars: nat)
    requires |b| == PIPE_SIZE && start < PIPE_SIZE && chars <= len <= PIPE_SIZE && start + chars <= PIPE_SIZE
    ensures Ring(b, start, len) == b[start..start + chars] + Ring(b, (start + chars) % PIPE_SIZE, len - chars)
  {
    var r, t := Ring(b, start, len), Ring(b, (start + chars) % PIPE_SIZE, len - chars);
    forall i | chars <= i < len
      ensures r[i] == t[i - chars]
    {
      assert (start + i) % PIPE_SIZE == ((start + chars) % PIPE_SIZE + (i - chars)) % PIPE_SIZE;
    }
  }

  /** Adding a chunk that does not wrap. */
  lemma RingAdd(b: seq<Byte>, b': seq<Byte>, start: nat, len: nat, data: seq<Byte>)
    requires |b| == |b'| == PIPE_SIZE && start < PIPE_SIZE && len + |data| <= PIPE_SIZE
    requires var end := (start + len) % PIPE_SIZE;
      end + |data| <= PIPE_SIZE && b' == Patched(b, end, data)
    ensures Ring(b', start, len + |data|) == Ring(b, start, len) + data
  {
    var end := (start + len) % PIPE_SIZE;
    var r := Ring(b', start, len + |data|);
    forall i | 0 <= i < len
      ensures r[i] == Ring(b, start, len)[i]
    {
      Outside(start, len, |data|, i);
    }
    forall i | len <= i < len + |data|
      ensures r[i] == data[i - len]
    {
      assert (start + i) % PIPE_SIZE == end + (i - len);
    }
  }

  /** A byte of the ring does not lie in the free space behind it. */
  lemma Outside(start: nat, len: nat, n: nat, i: nat)
    requires start < PIPE_SIZE && len + n <= PIPE_SIZE && i < len && (start + len) % PIPE_SIZE + n <= PIPE_SIZE
    ensures var end, x := (start + len) % PIPE_SIZE, (start + i) % PIPE_SIZE; x < end || end + n <= x
  {
  }

  /** The loop of pipe_read over the ring. */
  method TakeFrom(buf: array<Byte>, start0: nat, len0: nat, count: nat) returns (data: seq<Byte>, start: nat, len: nat)
    requires buf.Length == PIPE_SIZE && start0 < PIPE_SIZE && len0 <= PIPE_SIZE
    ensures |data| == (if count < len0 then count else len0) && len == len0 - |data| && start < PIPE_SIZE
    ensures data + Ring(buf[..], start, len) == Ring(buf[..], start0, len0)
  {
    hide Ring;
    var left: nat := count;
    data, start, len := [], start0, len0;
    assert [] + Ring(buf[..], start, len) == Ring(buf[..], start, len);
    while left > 0 && len > 0
      invariant left + |data| == count && len + |data| == len0 && start < PIPE_SIZE && len <= PIPE_SIZE
      invariant data + Ring(buf[..], start, len) == Ring(buf[..], start0, len0)
    {
      var chars := PIPE_SIZE - start;
      chars := if chars > left then left else chars;
      chars := if chars > len then len else chars;
      RingTake(buf[..], start, len, chars);
      assert buf[..][start..start + chars] == buf[start..start + chars];
      Assoc(data, buf[start..start + chars], Ring(buf[..], (start + chars) % PIPE_SIZE, len - chars));
      data := data + buf[start..start + chars];
      start := (start + chars) % PIPE_SIZE;
      len := len - chars;
      left := left - chars;
    }
    if len == 0 {
      EmptyRing(buf[..], start, 0);
      start := 0;
    }
  }

  lemma Assoc(a: seq<Byte>, b: seq<Byte>, c: seq<Byte>)
    ensures a + (b + c) == (a + b) + c
  {
  }

  /** A completed write of at most PIPE_BUF bytes: where in the stream it begins,
      and its bytes. */
  datatype Stretch = Stretch(at: nat, data: seq<Byte>)

  /** Each write of at most PIPE_BUF bytes is one stretch of the stream, and no two
      of them overlap. */
  ghost predicate Contiguous(written: seq<Byte>, small: seq<Stretch>) {
    && (forall k :: 0 <= k < |small| ==>
          small[k].at + |small[k].data| <= |written| &&
            written[small[k].at..small[k].at + |small[k].data|] == small[k].data)
    && (forall j, k :: 0 <= j < k < |small| ==> small[j].at + |small[j].data| <= small[k].at)
  }

  lemma MoreWritten(written: seq<Byte>, small: seq<Stretch>, data: seq<Byte>)
    requires Contiguous(written, small)
    ensures Contiguous(written + data, small) && Contiguous(written + data, small + [Stretch(|written|, data)])
  {
    var w := written + data;
    forall k | 0 <= k < |small|
      ensures w[small[k].at..small[k].at + |small[k].data|] == small[k].data
    {
      assert w[small[k].at..small[k].at + |small[k].data|] == written[small[k].at..small[k].at + |small[k].data|];
    }
  }

  /** Where pipe_write is when it takes the semaphore. */
  datatype WritePhase = Begin | Copying

  /** How a region ends. */
  datatype WriteEnd = Finished | WouldBlock | BrokenPipe | WriteSleeps(phase: WritePhase)

  /** What another process does while a writer sleeps. */
  datatype Turn = Reads(count: nat) | Writes(data: seq<Byte>)

  datatype ReadEnd = ReadDone | ReadWouldBlock | ReadSleeps

  /** A write has to wait: at its beginning for room for all of it if it is small and else
      for one byte, and later on for one byte. */
  predicate NoRoom(len: nat, phase: WritePhase, data: seq<Byte>) {
    PIPE_SIZE < len + (if phase == Begin && |data| <= PIPE_BUF then |data| else 1)
  }

  class Buffer {
    const buf: array<Byte>
    var start: nat
    var len: nat
    ghost var written: seq<Byte>
    ghost var taken: seq<Byte>
    ghost var small: seq<Stretch>

    /** What was read followed by what is in the ring is what was written. */
    ghost predicate Valid()
      reads this, buf
    {
      && buf.Length == PIPE_SIZE && start < PIPE_SIZE && len <= PIPE_SIZE
      && taken + Ring(buf[..], start, len) == written
      && Contiguous(written, small)
    }

    constructor ()
      ensures Valid() && fresh(buf) && len == 0 && written == [] && taken == [] && small == []
    {
      buf := new Byte[PIPE_SIZE](_ => 0);
      start, len := 0, 0;
      written, taken, small := [], [], [];
    }

    /** Reading what is available. */
    method Take(count: nat) returns (data: seq<Byte>)
      requires Valid()
      modifies this`start, this`len, this`taken
      ensures Valid() && |data| == (if count < old(len) then count else old(len)) && len == old(len) - |data|
      ensures taken == old(taken) + data && data == Ring(old(buf[..]), old(start), old(len))[..|data|]
    {
      hide Ring, Contiguous;
      ghost var r0 := Ring(buf[..], start, len);
      data, start, len := TakeFrom(buf, start, len, count);
      ghost var r := Ring(buf[..], start, len);
      assert (data + r)[..|data|] == data;
      assert taken + (data + r) == (taken + data) + r;
      taken := taken + data;
    }

    /** pipe_read from taking the semaphore to giving it up; `writers` and
        `waitingWriters` tell that there are such. */
    method Read(count: nat, writers: bool, waitingWriters: bool, nonblock: bool)
      returns (data: seq<Byte>, end: ReadEnd, bug: bool)
      requires Valid()
      modifies this`start, this`len, this`taken
      ensures Valid() && taken == old(taken) + data && !bug
      ensures |data| == if count < old(len) then count else old(len)
      ensures end.ReadSleeps? <==> writers && !nonblock && |data| < count && (old(len) == 0 || waitingWriters)
      ensures end.ReadWouldBlock? <==> writers && nonblock && count > 0 && old(len) == 0
    {
      bug, data := false, [];
      if count == 0 {
        assert taken == taken + data;
        return data, ReadDone, bug;
      }
      if len == 0 {
        assert taken == taken + data;
        end := if !writers then ReadDone else if nonblock then ReadWouldBlock else ReadSleeps;
        return;
      }
      data := Take(count);
      if |data| < count && waitingWriters && !nonblock {
        bug := len != 0;
        end := if !writers then ReadDone else ReadSleeps;
        return;
      }
      end := ReadDone;
    }

    /** The loop of pipe_write as long as there is space. */
    method Put(data: seq<Byte>) returns (n: nat)
      requires Valid()
      modifies this`len, this`written, buf
      ensures buf.Length == PIPE_SIZE && start < PIPE_SIZE && len <= PIPE_SIZE
      ensures taken + Ring(buf[..], start, len) == written
      ensures n == (if |data| < PIPE_SIZE - old(len) then |data| else PIPE_SIZE - old(len)) && len == old(len) + n
      ensures written == old(written) + data[..n]
    {
      hide Ring, Contiguous;
      n := 0;
      assert written == old(written) + data[..0];
      while n < |data| && len < PIPE_SIZE
        invariant 0 <= n <= |data| && len == old(len) + n && len <= PIPE_SIZE && buf.Length == PIPE_SIZE
        invariant start < PIPE_SIZE
        invariant taken + Ring(buf[..], start, len) == written && written == old(written) + data[..n]
      {
        var end := (start + len) % PIPE_SIZE;
        var chars := PIPE_SIZE - end;
        chars := if chars > |data| - n then |data| - n else chars;
        chars := if chars > PIPE_SIZE - len then PIPE_SIZE - len else chars;
        ghost var b, piece := buf[..], data[n..n + chars];
        CopyIn(buf, end, data[n..n + chars]);
        RingAdd(b, buf[..], start, len, piece);
        assert data[..n + chars] == data[..n] + piece;
        Assoc(taken, Ring(b, start, len), piece);
        Assoc(old(written), data[..n], piece);
        written := written + piece;
        len := len + chars;
        n := n + chars;
      }
    }

    /** pipe_write from taking the semaphore to giving it up, with `data` still to be
        written and `whole` the size of the whole write. */
    method Write(data: seq<Byte>, phase: WritePhase, whole: nat, readers: bool, nonblock: bool)
      returns (n: nat, end: WriteEnd)
      requires Valid() && |data| <= whole && (phase == Begin ==> |data| == whole) && (phase == Copying ==> data != [])
      modifies this, buf
      ensures Valid() && start == old(start) && taken == old(taken)
      ensures n <= |data| && written == old(written) + data[..n] && len == old(len) + n
      ensures whole <= PIPE_BUF && phase == Begin ==> n == 0 || n == |data|
      ensures n ==
        if !readers || NoRoom(old(len), phase, data) then 0
        else if |data| < PIPE_SIZE - old(len) then |data|
        else PIPE_SIZE - old(len)
      ensures small ==
        if 0 < whole <= PIPE_BUF && n == whole then old(small) + [Stretch(|old(written)|, data)] else old(small)
      ensures end.BrokenPipe? <==> !readers && data != []
      ensures end.WouldBlock? <==> readers && data != [] && nonblock && phase == Begin && NoRoom(old(len), phase, data)
      ensures end.WriteSleeps? <==> readers && !nonblock && n < |data|
      ensures end.WriteSleeps? ==> (end.phase == Begin <==> phase == Begin && NoRoom(old(len), phase, data))
      ensures end.WriteSleeps? ==> (end.phase == Begin <==> phase == Begin && n == 0)
    {
      hide Ring, Contiguous;
      n := 0;
      assert written == written + data[..0];
      if data == [] {
        return n, Finished;
      }
      if !readers {
        return n, BrokenPipe;
      }
      var free := if |data| <= PIPE_BUF then |data| else 1;
      if phase == Begin && PIPE_SIZE - len < free {
        return n, if nonblock then WouldBlock else WriteSleeps(Begin);
      }
      if phase == Copying && len == PIPE_SIZE {
        return n, if nonblock then Finished else WriteSleeps(Copying);
      }
      ghost var w0 := written;
      n := Put(data);
      MoreWritten(w0, small, data[..n]);
      if whole <= PIPE_BUF && n == whole {
        assert data[..n] == data;
        small := small + [Stretch(|w0|, data)];
      }
      end := if n == |data| || nonblock then Finished else WriteSleeps(Copying);
    }

    /** What others do while a writer sleeps. */
    method TakeTurns(turns: seq<Turn>)
      requires Valid()
      modifies this, buf
      ensures Valid() && old(small) <= small
    {
      hide Ring, Contiguous;
      for k := 0 to |turns|
        invariant Valid() && old(small) <= small
      {
        match turns[k] {
          case Reads(count) =>
            var bytes, e, bug := Read(count, true, true, true);
          case Writes(bytes) =>
            var j, e := Write(bytes, Begin, |bytes|, true, true);
        }
      }
    }

    /** A whole blocking write, with what others do each time it sleeps.  A write of at
        most PIPE_BUF bytes goes in as one stretch when it finishes, and not at all
        before. */
    method WriteAll(data: seq<Byte>, others: seq<seq<Turn>>) returns (n: nat, asleep: bool)
      requires Valid()
      modifies this, buf
      ensures Valid() && n <= |data| && (asleep <==> n < |data|) && old(small) <= small
      ensures 0 < |data| <= PIPE_BUF && asleep ==> n == 0
      ensures 0 < |data| <= PIPE_BUF && !asleep ==>
        small != [] && small[|small| - 1].data == data && small[|small| - 1].at + |data| == |written|
    {
      hide Ring, Contiguous;
      Nothing(data);
      var phase, k := Begin, 0;
      n, asleep := 0, false;
      while true
        invariant Valid() && 0 <= k <= |others| && n <= |data| && old(small) <= small && (n == |data| ==> n == 0)
        invariant phase == Begin ==> n == 0
        invariant |data| <= PIPE_BUF ==> phase == Begin
        decreases |others| - k
      {
        var m, end := Write(data[n..], phase, |data|, true, false);
        asleep, n := end.WriteSleeps?, n + m;
        if !asleep {
          return;
        }
        if k == |others| {
          return;
        }
        TakeTurns(others[k]);
        phase, k := end.phase, k + 1;
      }
    }
  }

  lemma Nothing(data: seq<Byte>)
    ensures data[0..] == data && data[..0] == []
  {
  }

  lemma EmptyRing(b: seq<Byte>, x: nat, y: nat)
    requires |b| == PIPE_SIZE
    ensures Ring(b, x, 0) == Ring(b, y, 0)
  {
  }
}
