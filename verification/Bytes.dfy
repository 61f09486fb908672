/** Big-endian numbers in byte strings (utils/bits/pio). */
module Bytes {
  type byte = b: int | 0 <= b < 256

  /** The low 16, 32 and 64 bits of n. */
  function U16(n: nat): (s: seq<byte>)
    ensures |s| == 2
  {
    [n / 0x100 % 256, n % 256]
  }

  function U32(n: nat): (s: seq<byte>)
    ensures |s| == 4
  {
    [n / 0x100_0000 % 256, n / 0x1_0000 % 256, n / 0x100 % 256, n % 256]
  }

  function U64(n: nat): (s: seq<byte>)
    ensures |s| == 8
  {
    U32(n / 0x1_0000_0000) + U32(n % 0x1_0000_0000)
  }

  function Get16(b: seq<byte>, pos: nat): (n: nat)
    requires pos + 2 <= |b|
    ensures n < 0x1_0000
  {
    b[pos] as int * 0x100 + b[pos + 1] as int
  }

  function Get24(b: seq<byte>, pos: nat): (n: nat)
    requires pos + 3 <= |b|
    ensures n < 0x100_0000
  {
    b[pos] as int * 0x1_0000 + b[pos + 1] as int * 0x100 + b[pos + 2] as int
  }

  function Get32(b: seq<byte>, pos: nat): (n: nat)
    requires pos + 4 <= |b|
    ensures n < 0x1_0000_0000
  {
    b[pos] as int * 0x100_0000 + b[pos + 1] as int * 0x1_0000 + b[pos + 2] as int * 0x100 + b[pos + 3] as int
  }

  /** Reading back what was written, wherever it stands. */
  lemma Get16U16(b: seq<byte>, pos: nat, n: nat)
    requires pos + 2 <= |b| && b[pos..pos + 2] == U16(n) && n < 0x1_0000
    ensures Get16(b, pos) == n
  {
    assert b[pos] == b[pos..pos + 2][0] && b[pos + 1] == b[pos..pos + 2][1];
  }

  lemma Get32U32(b: seq<byte>, pos: nat, n: nat)
    requires pos + 4 <= |b| && b[pos..pos + 4] == U32(n) && n < 0x1_0000_0000
    ensures Get32(b, pos) == n
  {
    var w := b[pos..pos + 4];
    assert b[pos] == w[0] && b[pos + 1] == w[1] && b[pos + 2] == w[2] && b[pos + 3] == w[3];
    var q1, q2, q3 := n / 0x100, n / 0x1_0000, n / 0x100_0000;
    assert q1 / 0x100 == q2 && q2 / 0x100 == q3 && q3 < 0x100;
    assert n == q1 * 0x100 + n % 0x100 && q1 == q2 * 0x100 + q1 % 0x100 && q2 == q3 * 0x100 + q2 % 0x100;
  }
}
