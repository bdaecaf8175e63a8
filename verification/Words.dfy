// Machine words and bytes.
module Words {
  type Byte = b: nat | b < 256
  type Bytes = seq<Byte>
  type UInt32 = n: nat | n < 0x1_0000_0000

  // Unsigned 32-bit sums and differences wrap around.
  function Add32(a: UInt32, b: UInt32): UInt32 {
    var n: int := a as int + b as int;
    if n < 0x1_0000_0000 then n else n - 0x1_0000_0000
  }

  function Sub32(a: UInt32, b: UInt32): UInt32 {
    var n: int := a as int - b as int;
    if n >= 0 then n else n + 0x1_0000_0000
  }

  // A 32-bit word used only through OR, AND and AND-NOT, as the set of its one bits:
  // w | x is w + x, w & x is w * x, w & ~x is w - x.
  type Bit = b: nat | b < 32
  type Word = set<Bit>

  lemma NoneMissing(a: Word, b: Word)
    ensures a - b == {} <==> a <= b
  {
    if a - b == {} {
      forall x | x in a ensures x in b {
        assert x !in a - b;
      }
    }
  }

  // Little-endian 32-bit fields, as put32 writes them.
  function Le32(v: UInt32): (b: Bytes)
    ensures |b| == 4
    ensures b[0] as int + 0x100 * b[1] as int + 0x1_0000 * b[2] as int + 0x100_0000 * b[3] as int == v
  {
    assert v == v % 0x100 + 0x100 * (v / 0x100);
    assert v / 0x100 == v / 0x100 % 0x100 + 0x100 * (v / 0x1_0000);
    assert v / 0x1_0000 == v / 0x1_0000 % 0x100 + 0x100 * (v / 0x100_0000);
    [v % 0x100, v / 0x100 % 0x100, v / 0x1_0000 % 0x100, v / 0x100_0000]
  }

  function Get32(b: Bytes, at: nat): UInt32
    requires at + 4 <= |b|
  {
    b[at] as int + 0x100 * b[at + 1] as int + 0x1_0000 * b[at + 2] as int + 0x100_0000 * b[at + 3] as int
  }

  lemma Le32RoundTrip(v: UInt32)
    ensures Get32(Le32(v), 0) == v
  {
  }

  lemma Get32At(b: Bytes, at: nat, v: UInt32)
    requires at + 4 <= |b| && b[at..at + 4] == Le32(v)
    ensures Get32(b, at) == v
  {
    Le32RoundTrip(v);
    var f := b[at..at + 4];
    assert f[0] == b[at] && f[1] == b[at + 1] && f[2] == b[at + 2] && f[3] == b[at + 3];
  }
}
