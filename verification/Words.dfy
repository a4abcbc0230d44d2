/** Bytes, and the little-endian words the files are made of. */
module Words {

  type byte = b: int | 0 <= b < 0x100

  // A 16-bit word.
  function Put16(v: nat): (r: seq<byte>)
    ensures |r| == 2
  {
    [v % 0x100, v / 0x100 % 0x100]
  }

  function Get16(p: seq<byte>): (v: nat)
    requires |p| >= 2
    ensures v < 0x10000
  {
    p[0] + p[1] as int * 0x100
  }

  lemma Word16(v: nat, rest: seq<byte>)
    requires v < 0x10000
    ensures var p := Put16(v); v == p[0] + p[1] as int * 0x100
    ensures Get16(Put16(v) + rest) == v
  {
  }

  // A 32-bit one.
  function Put32(v: nat): (r: seq<byte>)
    ensures |r| == 4
  {
    Put16(v % 0x10000) + Put16(v / 0x10000)
  }

  function Get32(p: seq<byte>): nat
    requires |p| >= 4
  {
    Get16(p[..2]) + Get16(p[2..4]) * 0x10000
  }

  lemma Word32(v: nat, rest: seq<byte>)
    requires v < 0x1_0000_0000
    ensures var p := Put32(v); v == p[0] + p[1] as int * 0x100 + p[2] as int * 0x10000 + p[3] as int * 0x1000000
    ensures Get32(Put32(v) + rest) == v
  {
    var p := Put32(v) + rest;
    assert p[..2] == Put16(v % 0x10000) + [] && p[2..4] == Put16(v / 0x10000) + [];
    Word16(v % 0x10000, []);
    Word16(v / 0x10000, []);
    hide Get16, Put16;
  }

  lemma SliceOfSlice<T>(s: seq<T>, p: nat, q: nat, i: nat, j: nat)
    requires p <= q <= |s| && i <= j <= q - p
    ensures s[p..q][i..j] == s[p + i..p + j]
  {
    var a, b := s[p..q][i..j], s[p + i..p + j];
    forall k | 0 <= k < j - i ensures a[k] == b[k] {
      var m := k + i;
      assert a[k] == s[p..q][m];
    }
  }

  // memcpy into the buffer.
  method CopyTo(buf: array<byte>, p: nat, v: seq<byte>)
    requires p + |v| <= buf.Length
    modifies buf
    ensures buf[..p + |v|] == old(buf[..p]) + v
  {
    for i := 0 to |v|
      invariant buf[..p + i] == old(buf[..p]) + v[..i]
    {
      buf[p + i] := v[i];
    }
    assert v[..|v|] == v;
  }
}
