/**
 Fixed-width little-endian numbers.

 They are read as `binary.LittleEndian` reads them and written as `int.to_bytes` writes
 them: the least significant byte first, and as many bytes as the width says whatever
 the number. The two are inverse to each other on numbers below 256 to the power of the
 width, and the widths in use are 1, 2, 4 and 8. Eight bytes are exactly the range of
 an unsigned 64-bit integer, so nothing wraps around.
 */
module LittleEndian {
  type byte = x: int | 0 <= x < 0x100
  type Uint64 = x: int | 0 <= x < 0x1_0000_0000_0000_0000

  /** 256 to the power `width`: one more than the largest number `width` bytes hold. */
  function Limit(width: nat): (l: nat)
    ensures l > 0
  {
    if width == 0 then 1 else 0x100 * Limit(width - 1)
  }

  function ToBytes(n: nat, width: nat): (s: seq<byte>)
    ensures |s| == width
  {
    if width == 0 then [] else [n % 0x100] + ToBytes(n / 0x100, width - 1)
  }

  function FromBytes(s: seq<byte>): (n: nat)
    ensures n < Limit(|s|)
  {
    if s == [] then 0 else s[0] + 0x100 * FromBytes(s[1..])
  }

  /** Writing and then reading gives the number back. */
  lemma {:induction false} ReadBack(n: nat, width: nat)
    requires n < Limit(width)
    ensures FromBytes(ToBytes(n, width)) == n
  {
    if width > 0 {
      ReadBack(n / 0x100, width - 1);
      assert ToBytes(n, width)[1..] == ToBytes(n / 0x100, width - 1);
    }
  }

  /** Reading and then writing gives the bytes back. */
  lemma {:induction false} WriteBack(s: seq<byte>)
    ensures ToBytes(FromBytes(s), |s|) == s
  {
    if s != [] {
      WriteBack(s[1..]);
      assert s == [s[0]] + s[1..];
    }
  }

  /** The eight-byte limit is the range of a `uint64`. */
  lemma EightBytes()
    ensures Limit(1) == 0x100 && Limit(2) == 0x1_0000 && Limit(4) == 0x1_0000_0000
    ensures Limit(8) == 0x1_0000_0000_0000_0000
  {
    assert Limit(2) == 0x100 * Limit(1);
    assert Limit(3) == 0x100 * Limit(2);
    assert Limit(4) == 0x100 * Limit(3);
    assert Limit(5) == 0x100 * Limit(4);
    assert Limit(6) == 0x100 * Limit(5);
    assert Limit(7) == 0x100 * Limit(6);
    assert Limit(8) == 0x100 * Limit(7);
  }
}
