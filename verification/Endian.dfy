/** Fixed-width integers in wire order. */
module Endian {
  import opened Framing

  const TWO_TO_32: int := 0x1_0000_0000

  type Uint32 = n: int | 0 <= n < TWO_TO_32

  function Le32(b: seq<Byte>): Uint32
    requires |b| >= 4
  {
    (b[0] as int) + 0x100 * (b[1] as int) + 0x1_0000 * (b[2] as int) + 0x100_0000 * (b[3] as int)
  }

  function Be32(b: seq<Byte>): Uint32
    requires |b| >= 4
  {
    Le32([b[3], b[2], b[1], b[0]])
  }

  function PutLe32(n: Uint32): seq<Byte> {
    [n % 0x100, n / 0x100 % 0x100, n / 0x1_0000 % 0x100, n / 0x100_0000]
  }

  function PutBe32(n: Uint32): seq<Byte> {
    [n / 0x100_0000, n / 0x1_0000 % 0x100, n / 0x100 % 0x100, n % 0x100]
  }

  lemma Le32RoundTrip(n: Uint32)
    ensures Le32(PutLe32(n)) == n
  {
    assert n == 0x100 * (n / 0x100) + n % 0x100;
    assert n / 0x100 == 0x100 * (n / 0x1_0000) + n / 0x100 % 0x100;
    assert n / 0x1_0000 == 0x100 * (n / 0x100_0000) + n / 0x1_0000 % 0x100;
  }

  lemma Be32RoundTrip(n: Uint32)
    ensures Be32(PutBe32(n)) == n
  {
    Le32RoundTrip(n);
    var b := PutBe32(n);
    assert [b[3], b[2], b[1], b[0]] == PutLe32(n);
  }

  const TWO_TO_64: int := 0x1_0000_0000_0000_0000
  const TWO_TO_63: int := 0x8000_0000_0000_0000

  type Int64 = n: int | -0x8000_0000_0000_0000 <= n < 0x8000_0000_0000_0000

  /** Eight bytes read as a two's complement number. */
  function Le64(b: seq<Byte>): Int64
    requires |b| >= 8
  {
    var n := Le32(b[..4]) + TWO_TO_32 * Le32(b[4..8]);
    if n < TWO_TO_63 then n else n - TWO_TO_64
  }

  function PutLe64(v: Int64): seq<Byte> {
    var n := if v < 0 then v + TWO_TO_64 else v;
    PutLe32(n % TWO_TO_32) + PutLe32(n / TWO_TO_32)
  }

  lemma Le64RoundTrip(v: Int64)
    ensures Le64(PutLe64(v)) == v
  {
    var n := if v < 0 then v + TWO_TO_64 else v;
    Le32RoundTrip(n % TWO_TO_32);
    Le32RoundTrip(n / TWO_TO_32);
    var b := PutLe64(v);
    assert b[..4] == PutLe32(n % TWO_TO_32) && b[4..8] == PutLe32(n / TWO_TO_32);
    assert n == TWO_TO_32 * (n / TWO_TO_32) + n % TWO_TO_32;
  }
}
