/** Fixed-width unsigned machine words and their little-endian byte images. */
module Words {

  type byte = x: int | 0 <= x < 0x100
  type uint16 = x: int | 0 <= x < 0x1_0000
  type uint32 = x: int | 0 <= x < 0x1_0000_0000

  const WORD_LIMIT := 0x1_0000_0000

  function Zeros(n: nat): (s: seq<byte>)
    ensures |s| == n && forall i :: 0 <= i < n ==> s[i] == 0
  {
    seq(n, i => 0)
  }

  function Le16(x: uint16): (b: seq<byte>)
    ensures |b| == 2
  {
    [x % 0x100, x / 0x100]
  }

  function FromLe16(b: seq<byte>): uint16
    requires |b| == 2
  {
    var lo: int, hi: int := b[0], b[1];
    lo + 0x100 * hi
  }

  function Le32(x: uint32): (b: seq<byte>)
    ensures |b| == 4
  {
    Le16(x % 0x1_0000) + Le16(x / 0x1_0000)
  }

  function FromLe32(b: seq<byte>): uint32
    requires |b| == 4
  {
    var lo: int, hi: int := FromLe16(b[..2]), FromLe16(b[2..]);
    lo + 0x1_0000 * hi
  }

  lemma Le16OfFromLe16(b: seq<byte>)
    requires |b| == 2
    ensures Le16(FromLe16(b)) == b
  {
  }

  /** Storing a 32-bit word and loading it back gives the word. */
  lemma FromLe32OfLe32(x: uint32)
    ensures FromLe32(Le32(x)) == x
  {
  }

  /** The number whose bytes are these, the lowest first. */
  function FromBytes(a: int, b: int, c: int, d: int): int {
    a + 0x100 * b + 0x1_0000 * c + 0x100_0000 * d
  }

  lemma Le32Bytes(x: uint32)
    ensures var b := Le32(x); x == FromBytes(b[0], b[1], b[2], b[3])
  {
  }

  lemma Halves(lo: uint16, hi: uint16)
    ensures var x: int := (lo as int) + 0x1_0000 * (hi as int); x % 0x1_0000 == lo && x / 0x1_0000 == hi
  {
  }

  lemma Le32OfFromLe32(b: seq<byte>)
    requires |b| == 4
    ensures Le32(FromLe32(b)) == b
  {
    Halves(FromLe16(b[..2]), FromLe16(b[2..]));
    Le16OfFromLe16(b[..2]);
    Le16OfFromLe16(b[2..]);
    assert b == b[..2] + b[2..];
  }
}
