/** The kernel log of kernel/printk.c: a ring of characters that printk writes
    while do_syslog reads, giving up the lock for every character. */
module PrintkLog {

  const LOG_BUF_LEN: nat := 16384

  /** unsigned long is 32 bits wide. */
  const WORD: nat := 0x1_0000_0000

  /** The ring holds the latest characters of the stream. */
  ghost predicate Holds(b: seq<char>, stream: seq<char>) {
    && |b| == LOG_BUF_LEN
    && forall k: nat {:trigger stream[k]} :: k < |stream| <= k + LOG_BUF_LEN ==> b[k % LOG_BUF_LEN] == stream[k]
  }

  lemma HoldsMore(b: seq<char>, stream: seq<char>, c: char)
    requires Holds(b, stream)
    ensures Holds(b[|stream| % LOG_BUF_LEN := c], stream + [c])
  {
    var s, b' := stream + [c], b[|stream| % LOG_BUF_LEN := c];
    forall k: nat | k < |s| <= k + LOG_BUF_LEN
      ensures b'[k % LOG_BUF_LEN] == s[k]
    {
      if k < |stream| {
        Apart(k, |stream|);
        assert s[k] == stream[k];
      }
    }
  }

  lemma Apart(k: nat, n: nat)
    requires k < n < k + LOG_BUF_LEN
    ensures k % LOG_BUF_LEN != n % LOG_BUF_LEN
  {
  }

  /** A position in a word names the same place in the ring. */
  lemma SamePlace(x: nat)
    ensures x % WORD % LOG_BUF_LEN == x % LOG_BUF_LEN
  {
    assert x == x / WORD * WORD + x % WORD;
    assert WORD == 262144 * LOG_BUF_LEN;
  }

  /** The test of do_syslog whether the character at a position has been
      overwritten, in 32 bits: j is the position, p the end of the log. */
  predicate SeemsGone(j: nat, p: nat) {
    (j % WORD + LOG_BUF_LEN) % WORD < p % WORD
  }

  /** j + LOG_BUF_LEN and p lie in the same stretch of 2^32 positions, whole turns
      of p beyond the first aside. */
  predicate InTurn(j: nat, p: nat) {
    var q := j + LOG_BUF_LEN;
    if p <= q then q / WORD == p / WORD
    else (p - q) % WORD != 0 && q / WORD == (q + (p - q) % WORD) / WORD
  }

  /** The test is right exactly when no multiple of 2^32 lies between the two
      positions that it compares. */
  lemma TestIsExact(j: nat, p: nat)
    requires j < p
    ensures (SeemsGone(j, p) <==> j + LOG_BUF_LEN < p) <==> InTurn(j, p)
    ensures p < j + LOG_BUF_LEN + WORD ==> (InTurn(j, p) <==> (j + LOG_BUF_LEN) / WORD == p / WORD)
  {
    var q := j + LOG_BUF_LEN;
    AddMod(j, LOG_BUF_LEN);
    hide SeemsGone;
    if p <= q {
      Ahead(p, q - p);
    } else {
      var d := (p - q) % WORD;
      AddMod(p - q, q);
      assert p % WORD == (q + d) % WORD;
      Ahead(q, d);
      if p < q + WORD {
        assert d == p - q;
      }
    }
    Compares(j, p);
  }

  lemma Compares(j: nat, p: nat)
    ensures SeemsGone(j, p) <==> (j + LOG_BUF_LEN) % WORD < p % WORD
  {
    AddMod(j, LOG_BUF_LEN);
  }

  /** Less than a turn further on, the remainder is larger unless a multiple is passed. */
  lemma Ahead(a: nat, d: nat)
    requires d < WORD
    ensures a % WORD <= (a + d) % WORD <==> a / WORD == (a + d) / WORD
    ensures (a + d) % WORD == a % WORD <==> d == 0
  {
    var r := a % WORD;
    assert a == a / WORD * WORD + r;
    if r + d < WORD {
      InEpoch(a + d, a / WORD);
    } else {
      InEpoch(a + d, a / WORD + 1);
    }
  }

  lemma InEpoch(j: nat, e: nat)
    requires e * WORD <= j < (e + 1) * WORD
    ensures j % WORD == j - e * WORD && j / WORD == e
  {
  }

  /** Once the position has gone around, it can miss one: the position 2^32 - 20000 of
      a log that has come to 2^32 + 5 has been overwritten, and does not seem gone. */
  lemma WrapExample()
    ensures var j, p := WORD - 20000, WORD + 5; j + LOG_BUF_LEN < p && !SeemsGone(j, p)
  {
  }

  /** It can also give up one that is there, with nobody writing: the latest character
      of a log of 2^32 - 1 seems gone. */
  lemma TruncatedExample()
    ensures var p := WORD - 1; p <= p - 1 + LOG_BUF_LEN && SeemsGone(p - 1, p)
    ensures FirstGone(WORD - 1, [], 100, 0) == 0 && FirstLost(WORD - 1, [], 100, 0) == 100
  {
    NoWriter(WORD - 1, 100);
  }

  // ----- what a read of types 3 and 4 comes to

  /** The end of the log when the reader, which began at end e, asks for the i-th
      character: others[k] has been logged after the k-th. */
  function EndAt(e: nat, others: seq<seq<char>>, i: nat): (p: nat)
    ensures p >= e
  {
    if i == 0 then e else EndAt(e, others, i - 1) + if i - 1 < |others| then |others[i - 1]| else 0
  }

  /** The character seems gone when it is asked for. */
  predicate GoneAt(e: nat, others: seq<seq<char>>, i: nat) {
    i < e && SeemsGone(e - 1 - i, EndAt(e, others, i))
  }

  /** It is gone. */
  predicate LostAt(e: nat, others: seq<seq<char>>, i: nat) {
    i < e && e - 1 - i + LOG_BUF_LEN < EndAt(e, others, i)
  }

  /** No multiple of 2^32 comes in between. */
  predicate TurnAt(e: nat, others: seq<seq<char>>, i: nat) {
    i < e && InTurn(e - 1 - i, EndAt(e, others, i))
  }

  /** The first of the latest `count` characters, from the i-th on, that seems gone. */
  function FirstGone(e: nat, others: seq<seq<char>>, count: nat, i: nat): (n: nat)
    requires i <= count <= e
    ensures i <= n <= count
    ensures forall k: nat :: i <= k < n ==> !GoneAt(e, others, k)
    ensures n < count ==> GoneAt(e, others, n)
    decreases count - i
  {
    if i == count || GoneAt(e, others, i) then i else FirstGone(e, others, count, i + 1)
  }

  /** The first that is gone. */
  function FirstLost(e: nat, others: seq<seq<char>>, count: nat, i: nat): (n: nat)
    requires i <= count <= e
    ensures i <= n <= count
    ensures forall k: nat :: i <= k < n ==> !LostAt(e, others, k)
    ensures n < count ==> LostAt(e, others, n)
    decreases count - i
  {
    if i == count || LostAt(e, others, i) then i else FirstLost(e, others, count, i + 1)
  }

  /** The read stops at the first character that is gone if and only if none of those
      up to it was asked for across a multiple of 2^32. */
  lemma ReadIsExact(e: nat, others: seq<seq<char>>, count: nat)
    requires count <= e
    ensures var n := FirstLost(e, others, count, 0);
      FirstGone(e, others, count, 0) == n <==> forall i: nat :: i <= n && i < count ==> TurnAt(e, others, i)
  {
    hide GoneAt, LostAt, TurnAt, FirstGone, FirstLost;
    forall i: nat | i < count
      ensures (GoneAt(e, others, i) <==> LostAt(e, others, i)) <==> TurnAt(e, others, i)
    {
      OneExact(e, others, i);
    }
    var n, g := FirstLost(e, others, count, 0), FirstGone(e, others, count, 0);
    if g < n {
      assert !LostAt(e, others, g) && GoneAt(e, others, g) && !TurnAt(e, others, g);
    } else if n < g {
      assert LostAt(e, others, n) && !GoneAt(e, others, n) && !TurnAt(e, others, n);
    }
  }

  lemma OneExact(e: nat, others: seq<seq<char>>, i: nat)
    requires i < e
    ensures (GoneAt(e, others, i) <==> LostAt(e, others, i)) <==> TurnAt(e, others, i)
  {
    hide InTurn, SeemsGone, EndAt;
    TestIsExact(e - 1 - i, EndAt(e, others, i));
  }

  /** With nobody writing nothing is lost, and the read gives all or nothing: all
      unless the log ends in the last 16383 positions before a multiple of 2^32. */
  lemma NoWriter(e: nat, count: nat)
    requires count <= e && count <= LOG_BUF_LEN
    ensures FirstLost(e, [], count, 0) == count
    ensures FirstGone(e, [], count, 0) == if e % WORD + LOG_BUF_LEN <= WORD then count else 0
  {
    hide GoneAt, LostAt, FirstGone, FirstLost;
    forall i: nat | i < count
      ensures !LostAt(e, [], i)
      ensures e % WORD + LOG_BUF_LEN <= WORD ==> !GoneAt(e, [], i)
      ensures i == 0 && e % WORD + LOG_BUF_LEN > WORD ==> GoneAt(e, [], i)
    {
      AloneAt(e, i);
    }
    assert count > 0 && e % WORD + LOG_BUF_LEN > WORD ==> GoneAt(e, [], 0);
  }

  lemma AloneAt(e: nat, i: nat)
    requires i < e && i < LOG_BUF_LEN
    ensures !LostAt(e, [], i)
    ensures e % WORD + LOG_BUF_LEN <= WORD ==> !GoneAt(e, [], i)
    ensures i == 0 && e % WORD + LOG_BUF_LEN > WORD ==> GoneAt(e, [], i)
  {
    hide SeemsGone;
    var d := LOG_BUF_LEN - 1 - i;
    StaysPut(e, i);
    Compares(e - 1 - i, e);
    assert e - 1 - i + LOG_BUF_LEN == e + d;
    Ahead(e, d);
    Room(e, d);
  }

  lemma {:induction false} StaysPut(e: nat, i: nat)
    ensures EndAt(e, [], i) == e
  {
    if i > 0 {
      StaysPut(e, i - 1);
    }
  }

  lemma Room(e: nat, d: nat)
    requires d < WORD
    ensures e / WORD == (e + d) / WORD <==> e % WORD + d < WORD
  {
    var r := e % WORD;
    assert e == e / WORD * WORD + r;
    if r + d < WORD {
      InEpoch(e + d, e / WORD);
    } else {
      InEpoch(e + d, e / WORD + 1);
    }
  }

  /** The latest position below p in the same place of the ring as j. */
  function Latest(j: nat, p: nat): (k: nat)
    requires j < p
    ensures j <= k < p <= k + LOG_BUF_LEN
    ensures k == j <==> p <= j + LOG_BUF_LEN
  {
    p - 1 - (p - 1 - j) % LOG_BUF_LEN
  }

  lemma LatestPlace(j: nat, p: nat)
    requires j < p
    ensures Latest(j, p) % LOG_BUF_LEN == j % LOG_BUF_LEN
  {
    var q := (p - 1 - j) / LOG_BUF_LEN;
    assert Latest(j, p) == j + q * LOG_BUF_LEN;
    Rounds(j, q);
  }

  lemma {:induction false} Rounds(j: nat, q: nat)
    ensures (j + q * LOG_BUF_LEN) % LOG_BUF_LEN == j % LOG_BUF_LEN
  {
    if q > 0 {
      Rounds(j, q - 1);
      assert j + q * LOG_BUF_LEN == j + (q - 1) * LOG_BUF_LEN + LOG_BUF_LEN;
    }
  }

  /** The counters of a log of n characters, each in a word. */
  ghost predicate Kept(start: nat, size: nat, logged: nat, n: nat) {
    && start < WORD && size <= LOG_BUF_LEN && size <= n && (start + size) % WORD == n % WORD
    && logged <= n && logged < WORD
  }

  lemma KeptFacts(start: nat, size: nat, logged: nat, n: nat)
    requires Kept(start, size, logged, n)
    ensures (start + size) % WORD == n % WORD && logged <= n && Kept(start, size, 0, n)
    ensures size <= LOG_BUF_LEN && logged < WORD
  {
  }

  /** The counters after so many more characters. */
  ghost predicate Grew(logged0: nat, size0: nat, logged: nat, size: nat, more: nat) {
    logged == (logged0 + more) % WORD && size == Min(size0 + more, LOG_BUF_LEN)
  }

  lemma GrewNone(logged: nat, size: nat)
    requires logged < WORD && size <= LOG_BUF_LEN
    ensures Grew(logged, size, logged, size, 0)
  {
  }

  lemma GrewMore(l0: nat, s0: nat, l1: nat, s1: nat, l2: nat, s2: nat, a: nat, b: nat)
    requires Grew(l0, s0, l1, s1, a) && Grew(l1, s1, l2, s2, b)
    ensures Grew(l0, s0, l2, s2, a + b)
  {
    AddMod(l0 + a, b);
  }

  lemma NextLogged(logged: nat, i: nat)
    ensures ((logged + i) % WORD + 1) % WORD == (logged + (i + 1)) % WORD
  {
  }

  lemma KeptMore(start: nat, size: nat, logged: nat, n: nat)
    requires Kept(start, size, logged, n)
    ensures size < LOG_BUF_LEN ==> Kept(start, size + 1, (logged + 1) % WORD, n + 1)
    ensures size == LOG_BUF_LEN ==> Kept((start + 1) % WORD, size, (logged + 1) % WORD, n + 1)
  {
    StepMod(start, size, n);
  }

  class Log {
    const buf: array<char>
    var start: nat
    var size: nat
    var logged: nat
    ghost var stream: seq<char>

    ghost predicate Valid()
      reads this, buf
    {
      Holds(buf[..], stream) && Kept(start, size, logged, |stream|)
    }

    constructor ()
      ensures Valid() && fresh(buf) && stream == [] && logged == 0
    {
      buf := new char[LOG_BUF_LEN](_ => '\0');
      start, size, logged, stream := 0, 0, 0, [];
    }

    /** One character goes into the ring. */
    method Put(c: char)
      requires Valid()
      modifies this, buf
      ensures Valid() && stream == old(stream) + [c] && logged == (old(logged) + 1) % WORD
      ensures size == if old(size) == LOG_BUF_LEN then LOG_BUF_LEN else old(size) + 1
    {
      hide Holds, Kept;
      var at := (start + size) % WORD % LOG_BUF_LEN;
      ghost var b := buf[..];
      PutPlace(b, start, size, logged, stream, c);
      KeptMore(start, size, logged, |stream|);
      buf[at] := c;
      assert buf[..] == b[at := c];
      if size < LOG_BUF_LEN {
        size := size + 1;
      } else {
        start := (start + 1) % WORD;
      }
      logged := (logged + 1) % WORD;
      stream := stream + [c];
    }

    /** printk, with the text it comes to. */
    method Printk(text: seq<char>)
      requires Valid()
      modifies this, buf
      ensures Valid() && stream == old(stream) + text && Grew(old(logged), old(size), logged, size, |text|)
    {
      hide Holds, Kept;
      KeptFacts(start, size, logged, |stream|);
      var i := 0;
      assert stream == old(stream) + text[..0];
      while i < |text|
        invariant 0 <= i <= |text| && Valid() && stream == old(stream) + text[..i]
        invariant logged == (old(logged) + i) % WORD && size == Min(old(size) + i, LOG_BUF_LEN)
      {
        Put(text[i]);
        NextLogged(old(logged), i);
        assert text[..i + 1] == text[..i] + [text[i]];
        i := i + 1;
      }
      assert text[..i] == text;
    }

    /** The test and the fetch of one character, i from the end of the log as it was
        when the reader began. */
    method ReadChar(limit: nat, i: nat, ghost e: nat) returns (gone: bool, c: char)
      requires Valid() && e <= |stream| && limit == e % WORD && i < e && i < LOG_BUF_LEN
      ensures gone <==> SeemsGone(e - 1 - i, |stream|)
      ensures c == stream[Latest(e - 1 - i, |stream|)]
    {
      hide Holds, Latest, Kept;
      KeptFacts(start, size, logged, |stream|);
      var j := (limit + WORD - 1 - i) % WORD;
      Position(limit, e, i);
      assert buf.Length == LOG_BUF_LEN by { RingLength(buf[..], stream); }
      gone := (j + LOG_BUF_LEN) % WORD < (start + size) % WORD;
      c := buf[j % LOG_BUF_LEN];
      Fetched(buf[..], stream, e - 1 - i);
    }

    /** The latest `count` characters, from the last one back, until one seems gone. */
    method CopyBack(count: nat, others: seq<seq<char>>) returns (user: seq<char>, n: nat)
      requires Valid() && count <= LOG_BUF_LEN && count <= |stream|
      modifies this, buf
      ensures Valid() && old(stream) <= stream && |user| == count
      ensures n == FirstGone(|old(stream)|, others, count, 0) && |stream| == EndAt(|old(stream)|, others, n)
      ensures Copied(user, stream, |old(stream)|, others, n)
      ensures Grew(old(logged), old(size), logged, size, |stream| - |old(stream)|)
    {
      hide Holds, Kept, Latest, FirstGone, GoneAt, EndAt, Copied, SeemsGone, Grew;
      KeptFacts(start, size, logged, |stream|);
      GrewNone(logged, size);
      NoneCopied(stream, |stream|, others, count);
      var limit := (start + size) % WORD;
      ghost var e, s0 := |stream|, stream;
      user := seq(count, _ => '\0');
      n := 0;
      while n < count
        invariant 0 <= n <= count && Valid() && |user| == count && s0 <= stream && |stream| == EndAt(e, others, n)
        invariant forall k: nat :: k < n ==> !GoneAt(e, others, k)
        invariant Copied(user, stream, e, others, n)
        invariant Grew(old(logged), old(size), logged, size, |stream| - e)
        decreases count - n
      {
        var gone, c := ReadChar(limit, n, e);
        IsGone(e, others, n);
        if gone {
          break;
        }
        ghost var s, l1, s1 := stream, logged, size;
        if n < |others| {
          Printk(others[n]);
          GrewMore(old(logged), old(size), l1, s1, logged, size, |s| - e, |others[n]|);
        }
        NextEnd(e, others, n);
        OneCopied(user, s, stream, e, others, n, c);
        user := user[count - 1 - n := c];
        n := n + 1;
      }
      StopsThere(e, others, count, n);
    }

    /** Types 3 and 4 of do_syslog for a buffer of len characters: others[i] is what is
        logged when the lock is given up after the i-th character. */
    method ReadLast(len: nat, doClear: bool, others: seq<seq<char>>) returns (user: seq<char>, n: nat)
      requires Valid()
      modifies this, buf
      ensures Valid() && old(stream) <= stream && n <= |user|
      ensures var e, count := |old(stream)|, Min(Min(len, LOG_BUF_LEN), old(logged));
        && count <= e && n == FirstGone(e, others, count, 0) && |stream| == EndAt(e, others, n)
        && Copied(user[..n], stream, e, others, n)
        && (n <= FirstLost(e, others, count, 0) ==> user[..n] == old(stream)[e - n..])
      ensures Grew(if doClear then 0 else old(logged), old(size), logged, size, |stream| - |old(stream)|)
    {
      hide Holds, Kept, FirstGone, FirstLost, EndAt, Copied, Grew;
      KeptFacts(start, size, logged, |stream|);
      var count: nat := Min(len, LOG_BUF_LEN);
      count := Min(count, logged);
      if doClear {
        logged := 0;
      }
      ghost var s0 := stream;
      user, n := CopyBack(count, others);
      ghost var u := user;
      if n != count {
        user := Shift(user, n);
      }
      Corrected(u, user, stream, |s0|, others, n);
      CopiedRight(user[..n], s0, stream, others, count);
    }

    /** One character of a read of type 2: the oldest that has not been read. */
    method ReadOne() returns (c: char)
      requires Valid() && size > 0
      modifies this`start, this`size
      ensures Valid() && stream == old(stream) && c == stream[|stream| - old(size)] && size == old(size) - 1
    {
      hide Kept, Holds;
      ReadPlace(buf[..], start, size, logged, stream);
      c := buf[start % LOG_BUF_LEN];
      start := (start + 1) % WORD;
      size := size - 1;
    }

    /** Type 5: the log is clear as far as types 3 and 4 go. */
    method Clear()
      requires Valid()
      modifies this`logged
      ensures Valid() && logged == 0
    {
      logged := 0;
    }
  }

  function Min(a: nat, b: nat): nat {
    if a < b then a else b
  }

  lemma PutPlace(b: seq<char>, start: nat, size: nat, logged: nat, stream: seq<char>, c: char)
    requires Holds(b, stream) && Kept(start, size, logged, |stream|)
    ensures var at := (start + size) % WORD % LOG_BUF_LEN; at < |b| && Holds(b[at := c], stream + [c])
    ensures size <= LOG_BUF_LEN
  {
    hide Holds;
    SamePlace(|stream|);
    RingLength(b, stream);
    HoldsMore(b, stream, c);
  }

  lemma RingLength(b: seq<char>, stream: seq<char>)
    requires Holds(b, stream)
    ensures |b| == LOG_BUF_LEN
  {
  }

  lemma StepMod(start: nat, size: nat, n: nat)
    requires (start + size) % WORD == n % WORD
    ensures (start + size + 1) % WORD == (n + 1) % WORD && ((start + 1) % WORD + size) % WORD == (n + 1) % WORD
  {
    NextMod(start + size, n);
    AddMod(start + 1, size);
  }

  lemma NextMod(a: nat, b: nat)
    requires a % WORD == b % WORD
    ensures (a + 1) % WORD == (b + 1) % WORD
  {
    assert (a + 1) % WORD == if a % WORD == WORD - 1 then 0 else a % WORD + 1;
    assert (b + 1) % WORD == if b % WORD == WORD - 1 then 0 else b % WORD + 1;
  }

  lemma AddMod(a: nat, b: nat)
    ensures (a % WORD + b) % WORD == (a + b) % WORD
  {
    var r, q := a % WORD, a / WORD;
    assert a + b == (r + b) + q * WORD;
    WholeTurns(r + b, q);
  }

  lemma {:induction false} WholeTurns(x: nat, q: nat)
    ensures (x + q * WORD) % WORD == x % WORD
  {
    if q > 0 {
      WholeTurns(x, q - 1);
    }
  }

  lemma StartIs(start: nat, size: nat, n: nat)
    requires start < WORD && size <= n && (start + size) % WORD == n % WORD
    ensures start == (n - size) % WORD
  {
    var m := n - size;
    assert m % WORD < WORD && (m % WORD + size) % WORD == n % WORD;
  }

  lemma ReadPlace(b: seq<char>, start: nat, size: nat, logged: nat, stream: seq<char>)
    requires Holds(b, stream) && Kept(start, size, logged, |stream|) && size > 0
    ensures size <= |stream| && start % LOG_BUF_LEN < |b| && b[start % LOG_BUF_LEN] == stream[|stream| - size]
    ensures Kept((start + 1) % WORD, size - 1, logged, |stream|)
  {
    var k := |stream| - size;
    StartIs(start, size, |stream|);
    SamePlace(k);
    assert stream[k] == b[k % LOG_BUF_LEN];
    AddMod(start + 1, size - 1);
  }

  /** The position of the i-th character from the end, in a word. */
  lemma Position(limit: nat, end: nat, i: nat)
    requires limit == end % WORD && i < end && i < LOG_BUF_LEN
    ensures (limit + WORD - 1 - i) % WORD == (end - 1 - i) % WORD
  {
  }

  /** The character in the place of position j is the latest that went there. */
  lemma Fetched(b: seq<char>, s: seq<char>, j: nat)
    requires Holds(b, s) && j < |s|
    ensures b[j % WORD % LOG_BUF_LEN] == s[Latest(j, |s|)]
  {
    LatestPlace(j, |s|);
    SamePlace(j);
    assert s[Latest(j, |s|)] == b[Latest(j, |s|) % LOG_BUF_LEN];
  }

  lemma IsGone(e: nat, others: seq<seq<char>>, i: nat)
    requires i < e
    ensures GoneAt(e, others, i) <==> SeemsGone(e - 1 - i, EndAt(e, others, i))
  {
  }

  lemma NextEnd(e: nat, others: seq<seq<char>>, i: nat)
    ensures EndAt(e, others, i + 1) == EndAt(e, others, i) + if i < |others| then |others[i]| else 0
  {
  }

  /** The last i places of the user's buffer hold what was in the ring when asked for. */
  ghost predicate Copied(user: seq<char>, s: seq<char>, e: nat, others: seq<seq<char>>, i: nat) {
    i <= |user| <= e && forall k: nat :: k < i ==> CopiedAt(user, s, e, others, k)
  }

  /** The k-th character from the end is the latest in its place at that time. */
  ghost predicate CopiedAt(user: seq<char>, s: seq<char>, e: nat, others: seq<seq<char>>, k: nat) {
    && k < |user| && k < e && EndAt(e, others, k) <= |s|
    && user[|user| - 1 - k] == s[Latest(e - 1 - k, EndAt(e, others, k))]
  }

  lemma NoneCopied(s: seq<char>, e: nat, others: seq<seq<char>>, count: nat)
    requires count <= e
    ensures Copied(seq(count, _ => '\0'), s, e, others, 0) && EndAt(e, others, 0) == e
  {
  }

  lemma OneCopied(user: seq<char>, s: seq<char>, s': seq<char>, e: nat, others: seq<seq<char>>, i: nat, c: char)
    requires Copied(user, s, e, others, i) && i < |user| && s <= s' && |s| == EndAt(e, others, i)
    requires c == s[Latest(e - 1 - i, |s|)]
    ensures Copied(user[|user| - 1 - i := c], s', e, others, i + 1)
  {
    hide Latest, EndAt, CopiedAt;
    var u := user[|user| - 1 - i := c];
    forall k: nat | k < i + 1
      ensures CopiedAt(u, s', e, others, k)
    {
      StillCopied(user, s, s', e, others, i, c, k);
    }
  }

  lemma StillCopied(user: seq<char>, s: seq<char>, s': seq<char>, e: nat, others: seq<seq<char>>, i: nat, c: char,
      k: nat)
    requires k < i ==> CopiedAt(user, s, e, others, k)
    requires k <= i < |user| <= e && s <= s' && |s| == EndAt(e, others, i) && c == s[Latest(e - 1 - i, |s|)]
    ensures CopiedAt(user[|user| - 1 - i := c], s', e, others, k)
  {
    hide EndAt, Latest;
  }

  lemma StopsThere(e: nat, others: seq<seq<char>>, count: nat, n: nat)
    requires n <= count <= e && (forall k: nat :: k < n ==> !GoneAt(e, others, k))
    requires n < count ==> GoneAt(e, others, n)
    ensures n == FirstGone(e, others, count, 0)
  {
    hide GoneAt, FirstGone;
    var g := FirstGone(e, others, count, 0);
  }

  /** After the correction the characters are at the front. */
  lemma Corrected(u: seq<char>, user: seq<char>, s: seq<char>, e: nat, others: seq<seq<char>>, n: nat)
    requires Copied(u, s, e, others, n) && n <= |user| && user[..n] == u[|u| - n..]
    ensures Copied(user[..n], s, e, others, n)
  {
    hide Latest, EndAt;
    forall k: nat | k < n
      ensures CopiedAt(user[..n], s, e, others, k)
    {
      assert CopiedAt(u, s, e, others, k);
      assert user[..n][n - 1 - k] == u[|u| - n..][n - 1 - k];
    }
  }

  /** Characters that are not gone are those of the stream. */
  lemma CopiedRight(user: seq<char>, s0: seq<char>, s: seq<char>, others: seq<seq<char>>, count: nat)
    requires Copied(user, s, |s0|, others, |user|) && s0 <= s && |user| <= count <= |s0|
    ensures |user| <= FirstLost(|s0|, others, count, 0) ==> user == s0[|s0| - |user|..]
  {
    hide Latest, EndAt, FirstLost;
    var e, n := |s0|, |user|;
    if n <= FirstLost(e, others, count, 0) {
      forall x: nat | x < n
        ensures user[x] == s0[e - n..][x]
      {
        var i := n - 1 - x;
        assert CopiedAt(user, s, e, others, i) && !LostAt(e, others, i);
        assert Latest(e - 1 - i, EndAt(e, others, i)) == e - 1 - i;
        assert s[e - 1 - i] == s0[e - 1 - i];
      }
    }
  }

  /** A read that stopped early moves what it has, the last n characters, to the front. */
  method Shift(user0: seq<char>, n: nat) returns (user: seq<char>)
    requires n <= |user0|
    ensures |user| == |user0| && user[..n] == user0[|user0| - n..]
  {
    var offset := |user0| - n;
    user := user0;
    var i := 0;
    while i < n
      invariant 0 <= i <= n && |user| == |user0|
      invariant forall k :: 0 <= k < i ==> user[k] == user0[k + offset]
      invariant forall k :: i <= k < |user| ==> user[k] == user0[k]
    {
      user := user[i := user[i + offset]];
      i := i + 1;
    }
  }
}
