/** Bytes and the 16-bit words of a little-endian machine. */
module Octets {

  type byte = x: int | 0 <= x < 256

  type Bytes = seq<byte>

  function Word16(b: Bytes, i: nat): (v: nat)
    requires i + 2 <= |b|
    ensures v < 0x1_0000
  {
    b[i] as nat + 256 * b[i + 1] as nat
  }

  function Zeros(n: nat): (r: Bytes)
    ensures |r| == n
  {
    seq(n, _ => 0)
  }

  function Le16(v: nat): Bytes { [v % 256, v / 256 % 256] }

  function Le32(v: nat): Bytes { [v % 256, v / 256 % 256, v / 65536 % 256, v / 16777216 % 256] }

  /** The bytes 0x34 0x12 are the word 0x1234. */
  lemma LowByteFirst()
    ensures Word16([0x34, 0x12], 0) == 0x1234
  {
  }

  lemma Word16OfLe16(b: Bytes, i: nat, v: nat)
    requires v < 0x1_0000 && i + 2 <= |b| && b[i] == Le16(v)[0] && b[i + 1] == Le16(v)[1]
    ensures Word16(b, i) == v
  {
  }

  lemma Le32Digits(v: nat)
    requires v < 0x1_0000_0000
    ensures v % 256 + 256 * (v / 256 % 256) + 65536 * (v / 65536 % 256) + 16777216 * (v / 16777216 % 256) == v
  {
  }

  function Put16(b: Bytes, i: nat, v: nat): (r: Bytes)
    requires i + 2 <= |b|
    ensures |r| == |b| && (v < 0x1_0000 ==> Word16(r, i) == v)
    ensures forall j :: 0 <= j < |b| && j != i && j != i + 1 ==> r[j] == b[j]
  {
    b[i := v % 256][i + 1 := v / 256 % 256]
  }

  function Copy(b: Bytes, i: nat, data: Bytes): (r: Bytes)
    requires i + |data| <= |b|
    ensures |r| == |b|
    ensures forall j :: 0 <= j < |b| ==> r[j] == if i <= j < i + |data| then data[j - i] else b[j]
  {
    b[..i] + data + b[i + |data|..]
  }

  method Store16(buf: array<byte>, i: nat, v: nat)
    requires i + 2 <= buf.Length
    modifies buf
    ensures buf[..] == Put16(old(buf[..]), i, v)
  {
    buf[i] := v % 256;
    buf[i + 1] := v / 256 % 256;
  }

  method Memcpy(buf: array<byte>, i: nat, data: Bytes)
    requires i + |data| <= buf.Length
    modifies buf
    ensures buf[..] == Copy(old(buf[..]), i, data)
  {
    var k := 0;
    while k < |data|
      invariant k <= |data|
      invariant buf[..] == Copy(old(buf[..]), i, data[..k])
    {
      buf[i + k] := data[k];
      k := k + 1;
    }
    assert data[..k] == data;
  }
}
