/** Message texts of ipc/msg.c: a text that does not fit behind the header goes
    into a chain of segments. */
module MsgText {

  /** A page without struct msg_msg, and without struct msg_msgseg. */
  const DATALEN_MSG := 4096 - 20
  const DATALEN_SEG := 4096 - 4

  /** The text behind the header and the segments. */
  datatype Stored = Stored(head: string, segs: seq<string>)

  function Joined(segs: seq<string>): string {
    if segs == [] then [] else Joined(segs[..|segs| - 1]) + segs[|segs| - 1]
  }

  /** All segments but the last are full. */
  predicate Packed(segs: seq<string>) {
    forall k :: 0 <= k < |segs| ==> 0 < |segs[k]| <= DATALEN_SEG && (k < |segs| - 1 ==> |segs[k]| == DATALEN_SEG)
  }

  ghost predicate Holds(m: Stored, text: string) {
    && Packed(m.segs) && m.head + Joined(m.segs) == text
    && |m.head| == (if |text| > DATALEN_MSG then DATALEN_MSG else |text|)
  }

  /** load_msg */
  method LoadMsg(src: string) returns (m: Stored)
    ensures Holds(m, src)
  {
    var alen := if |src| > DATALEN_MSG then DATALEN_MSG else |src|;
    var head, at := src[..alen], alen;
    var segs: seq<string> := [];
    while at < |src|
      invariant alen <= at <= |src| && head == src[..alen] && Joined(segs) == src[alen..at]
      invariant Packed(segs) && (at < |src| ==> forall k :: 0 <= k < |segs| ==> |segs[k]| == DATALEN_SEG)
    {
      var n := if |src| - at > DATALEN_SEG then DATALEN_SEG else |src| - at;
      var seg := src[at..at + n];
      assert (segs + [seg])[..|segs|] == segs;
      assert src[alen..at] + seg == src[alen..at + n];
      segs := segs + [seg];
      at := at + n;
    }
    assert src[..alen] + src[alen..] == src;
    m := Stored(head, segs);
  }

  lemma {:induction false} JoinedSplit(segs: seq<string>, k: nat)
    requires k <= |segs|
    ensures Joined(segs) == Joined(segs[..k]) + Joined(segs[k..])
  {
    if k == |segs| {
      assert segs[..k] == segs && segs[k..] == [];
    } else {
      var n := |segs| - 1;
      JoinedSplit(segs[..n], k);
      assert segs[..n][..k] == segs[..k] && segs[..n][k..] == segs[k..][..n - k];
      assert segs[k..][n - k] == segs[n];
    }
  }

  /** store_msg: the first len bytes of the text. */
  method StoreMsg(m: Stored, len: nat, ghost text: string) returns (dest: string)
    requires Holds(m, text) && len <= |text|
    ensures dest == text[..len]
  {
    var alen := if len > DATALEN_MSG then DATALEN_MSG else len;
    dest := m.head[..alen];
    assert text[..alen] == m.head[..alen];
    var left, k := len - alen, 0;
    while left > 0
      invariant 0 <= left <= len && |dest| == len - left && dest == text[..len - left] && 0 <= k <= |m.segs|
      invariant left > 0 ==> |m.head| == DATALEN_MSG && len - left == DATALEN_MSG + |Joined(m.segs[..k])|
      decreases left
    {
      NextSegment(m, text, k, len - left);
      var n := if left > DATALEN_SEG then DATALEN_SEG else left;
      assert m.segs[..k + 1][..k] == m.segs[..k];
      dest := dest + m.segs[k][..n];
      left, k := left - n, k + 1;
    }
  }

  /** The next segment continues the text. */
  lemma NextSegment(m: Stored, text: string, k: nat, at: nat)
    requires Holds(m, text) && k <= |m.segs| && at == |m.head| + |Joined(m.segs[..k])| && at < |text|
    ensures k < |m.segs| && at + |m.segs[k]| <= |text| && text[at..at + |m.segs[k]|] == m.segs[k]
    ensures |m.segs[k]| == DATALEN_SEG || at + |m.segs[k]| == |text|
  {
    hide Joined;
    assert m.segs[..|m.segs|] == m.segs;
    OneMore(m.segs, k);
    var rest := Joined(m.segs[k + 1..]);
    Middle(m.head, Joined(m.segs[..k]), m.segs[k], rest);
  }

  lemma OneMore(segs: seq<string>, k: nat)
    requires k < |segs|
    ensures Joined(segs) == Joined(segs[..k]) + segs[k] + Joined(segs[k + 1..])
    ensures k == |segs| - 1 ==> Joined(segs[k + 1..]) == []
  {
    hide Joined;
    JoinedSplit(segs, k + 1);
    JoinedSnoc(segs, k);
    if k == |segs| - 1 {
      assert segs[k + 1..] == [];
      JoinedNone();
    }
  }

  lemma JoinedSnoc(segs: seq<string>, k: nat)
    requires k < |segs|
    ensures Joined(segs[..k + 1]) == Joined(segs[..k]) + segs[k]
  {
    assert segs[..k + 1][..k] == segs[..k];
  }

  lemma JoinedNone()
    ensures Joined([]) == []
  {
  }

  lemma Middle(a: string, b: string, c: string, d: string)
    ensures var t := a + (b + c + d);
      |a| + |b| + |c| <= |t| && t[|a| + |b|..|a| + |b| + |c|] == c && (d == [] ==> |a| + |b| + |c| == |t|)
  {
  }
}
