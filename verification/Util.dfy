/** Packing, unpacking and checksums (src/util.c). */
module Util {
  import opened Common

  /** Four bytes, most significant first; a shift by 8 is a division by 256. */
  function Pack32(u: int): (b: Bytes)
    ensures |b| == 4
    ensures u % TWO32 == b[0] as int * 16777216 + b[1] as int * 65536 + b[2] as int * 256 + b[3] as int
  {
    var v := u % TWO32;
    var v8 := v / 256;
    var v16 := v8 / 256;
    [v16 / 256, v16 % 256, v8 % 256, v % 256]
  }

  lemma PackWraps(u: nat)
    ensures Pack32(u % TWO32) == Pack32(u)
  {
    var v := u % TWO32;
    assert v % TWO32 == v;
  }

  function Unpack32(b: Bytes): (n: nat)
    requires |b| == 4
    ensures n < TWO32
  {
    (((b[0] as int) * 256 + b[1]) * 256 + b[2]) * 256 + b[3]
  }

  function Pack16(u: int): (b: Bytes)
    ensures |b| == 2
    ensures u % TWO16 == b[0] as int * 256 + b[1] as int
  {
    var v := u % TWO16;
    [v / 256, v % 256]
  }

  function Unpack16(b: Bytes): (n: nat)
    requires |b| == 2
    ensures n < TWO16
  {
    (b[0] as int) * 256 + b[1]
  }

  /** Numbers come back modulo the width of their field. */
  lemma PackedNumbers(u: int)
    ensures Unpack32(Pack32(u)) == u % TWO32
    ensures Unpack16(Pack16(u)) == u % TWO16
  {
  }

  function Sum(data: Bytes): nat
  {
    if data == [] then 0 else Sum(data[..|data| - 1]) + data[|data| - 1]
  }

  /** Every byte counts once. */
  lemma {:induction false} SumAdds(a: Bytes, b: Bytes)
    ensures Sum(a + b) == Sum(a) + Sum(b)
    ensures |b| == 1 ==> Sum(b) == b[0]
  {
    if b == [] {
      assert a + b == a;
    } else {
      var n := |b| - 1;
      assert (a + b)[..|a + b| - 1] == a + b[..n];
      SumAdds(a, b[..n]);
    }
  }

  /** calc_checksum */
  method CalcChecksum(data: Bytes) returns (cs: nat)
    ensures cs == Sum(data) % TWO32
  {
    cs := 0;
    for i := 0 to |data|
      invariant cs == Sum(data[..i]) % TWO32
    {
      cs := (cs + data[i]) % TWO32;
      assert data[..i + 1][..i] == data[..i];
    }
    assert data[..|data|] == data;
  }

  lemma {:induction false} SumBound(data: Bytes)
    ensures Sum(data) <= 255 * |data|
  {
    if data != [] {
      SumBound(data[..|data| - 1]);
    }
  }

  function Zeros(n: nat): (z: Bytes)
    ensures |z| == n && forall i :: 0 <= i < n ==> z[i] == 0
  {
    seq(n, i => 0)
  }

  // ---------- in place ----------

  method PackUint32(a: array<byte>, u: int, at: nat)
    requires at + 4 <= a.Length
    modifies a
    ensures a[at..at + 4] == Pack32(u)
    ensures forall i :: 0 <= i < a.Length && !(at <= i < at + 4) ==> a[i] == old(a[i])
  {
    var v := u % TWO32;
    a[at + 3] := v % 256;
    a[at + 2] := (v / 256) % 256;
    a[at + 1] := (v / 256 / 256) % 256;
    a[at] := v / 256 / 256 / 256;
  }

  method PackUint16(a: array<byte>, u: int, at: nat)
    requires at + 2 <= a.Length
    modifies a
    ensures a[at..at + 2] == Pack16(u)
    ensures forall i :: 0 <= i < a.Length && !(at <= i < at + 2) ==> a[i] == old(a[i])
  {
    var v := u % TWO16;
    a[at + 1] := v % 256;
    a[at] := v / 256;
  }

  /** memcpy into a packet. */
  method Put(a: array<byte>, data: Bytes, at: nat)
    requires at + |data| <= a.Length
    modifies a
    ensures a[at..at + |data|] == data
    ensures forall i :: 0 <= i < a.Length && !(at <= i < at + |data|) ==> a[i] == old(a[i])
  {
    forall i | 0 <= i < |data| {
      a[at + i] := data[i];
    }
  }
}
