/** Bytes and copying into a buffer. */
module Bytes {

  type Byte = x: int | 0 <= x < 256

  /** The buffer with data at a place. */
  function Patched(b: seq<Byte>, at: nat, data: seq<Byte>): (r: seq<Byte>)
    requires at + |data| <= |b|
    ensures |r| == |b|
  {
    b[..at] + data + b[at + |data|..]
  }

  /** memcpy or copy_from_user */
  method CopyIn(buf: array<Byte>, at: nat, data: seq<Byte>)
    requires at + |data| <= buf.Length
    modifies buf
    ensures buf[..] == Patched(old(buf[..]), at, data)
  {
    ghost var b0 := buf[..];
    var i := 0;
    assert data[..0] == [];
    while i < |data|
      invariant 0 <= i <= |data| && |b0| == buf.Length
      invariant buf[..] == Patched(b0, at, data[..i])
    {
      ghost var b := buf[..];
      buf[at + i] := data[i];
      assert buf[..] == b[at + i := data[i]];
      StoreOne(b0, at, data, i);
      i := i + 1;
    }
    assert data[..i] == data;
  }

  lemma StoreOne(b: seq<Byte>, at: nat, data: seq<Byte>, i: nat)
    requires at + |data| <= |b| && i < |data|
    ensures Patched(b, at, data[..i])[at + i := data[i]] == Patched(b, at, data[..i + 1])
  {
  }

  lemma PatchedAt(b: seq<Byte>, at: nat, data: seq<Byte>, x: nat)
    requires at + |data| <= |b| && x < |b|
    ensures Patched(b, at, data)[x] == if at <= x < at + |data| then data[x - at] else b[x]
  {
  }
}
