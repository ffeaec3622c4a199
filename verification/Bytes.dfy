// Byte strings and their big-endian numbers.
module Bytes {
  type Byte = x: int | 0 <= x < 256

  const U16 := 0x1_0000
  const U32 := 0x1_0000_0000
  const U63 := 0x8000_0000_0000_0000
  const U64 := 0x1_0000_0000_0000_0000

  function BigEndian16(b: seq<Byte>): (n: nat)
    requires |b| == 2
    ensures n < U16
  {
    0x100 * b[0] as int + b[1] as int
  }

  function PutBigEndian16(n: nat): (b: seq<Byte>)
    requires n < U16
    ensures |b| == 2 && BigEndian16(b) == n
  {
    [n / 0x100, n % 0x100]
  }

  lemma BigEndian16Unique(b: seq<Byte>)
    requires |b| == 2
    ensures PutBigEndian16(BigEndian16(b)) == b
  {
  }

  function BigEndian32(b: seq<Byte>): (n: nat)
    requires |b| == 4
    ensures n < U32
  {
    U16 * BigEndian16(b[..2]) + BigEndian16(b[2..])
  }

  function PutBigEndian32(n: nat): (b: seq<Byte>)
    requires n < U32
    ensures |b| == 4 && BigEndian32(b) == n
  {
    var hi, lo := PutBigEndian16(n / U16), PutBigEndian16(n % U16);
    assert (hi + lo)[..2] == hi && (hi + lo)[2..] == lo;
    hi + lo
  }

  // Network order: the first byte weighs most.
  lemma BigEndian32Bytes(b: seq<Byte>)
    requires |b| == 4
    ensures BigEndian32(b) == 0x100_0000 * b[0] as int + 0x1_0000 * b[1] as int + 0x100 * b[2] as int + b[3] as int
  {
  }

  lemma Halves(hi: nat, lo: nat)
    requires lo < U16
    ensures (U16 * hi + lo) / U16 == hi && (U16 * hi + lo) % U16 == lo
  {
  }

  lemma BigEndian32Unique(b: seq<Byte>)
    requires |b| == 4
    ensures PutBigEndian32(BigEndian32(b)) == b
  {
    var hi, lo := b[..2], b[2..];
    Halves(BigEndian16(hi), BigEndian16(lo));
    BigEndian16Unique(hi);
    BigEndian16Unique(lo);
    assert b == hi + lo;
  }
}
