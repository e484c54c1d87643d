/** Machine words, bytes and little-endian byte sequences. */
module Words {

  const TWO64: int := 0x1_0000_0000_0000_0000
  const TWO63: int := 0x8000_0000_0000_0000
  const TWO32: int := 0x1_0000_0000
  const TWO31: int := 0x8000_0000
  const INT32_MAX: int := 0x7FFF_FFFF

  type byte = x: int | 0 <= x < 256
  type u64 = x: int | 0 <= x < 0x1_0000_0000_0000_0000

  datatype Option<+T> = None | Some(value: T) {
    function GetOr(default: T): T {
      match this case Some(v) => v case None => default
    }
  }

  /** x fits a signed 32-bit field. */
  predicate I32(x: int) { -TWO31 <= x < TWO31 }

  /** The two's complement reading of a 64-bit word. */
  function Signed64(x: u64): int { if x < TWO63 then x else x - TWO64 }

  function Signed32(x: int): int { if x < TWO31 then x else x - TWO32 }

  function Signed8(x: int): int { if x < 128 then x else x - 256 }

  function Wrap(x: int): u64 { x % TWO64 }

  function Add64(a: int, b: int): u64 { Wrap(a + b) }

  function Sub64(a: int, b: int): u64 { Wrap(a - b) }

  function Mul64(a: int, b: int): u64 { Wrap(a * b) }

  function Pow256(n: nat): (p: nat)
    ensures p > 0
  {
    if n == 0 then 1 else 256 * Pow256(n - 1)
  }

  /** The n low bytes of x, least significant first. */
  function LE(n: nat, x: nat): (bs: seq<byte>)
    ensures |bs| == n
  {
    if n == 0 then [] else [x % 256] + LE(n - 1, x / 256)
  }

  /** The number a little-endian byte sequence stands for. */
  function UnLE(bs: seq<byte>): (x: nat)
    ensures x < Pow256(|bs|)
  {
    if |bs| == 0 then 0 else bs[0] + 256 * UnLE(bs[1..])
  }

  /** Reading back what was written gives the value, when it fits. */
  lemma {:induction false} UnLELE(n: nat, x: nat)
    requires x < Pow256(n)
    ensures UnLE(LE(n, x)) == x
  {
    if n > 0 {
      UnLELE(n - 1, x / 256);
      assert LE(n, x)[1..] == LE(n - 1, x / 256);
    }
  }

  /** And writing back what was read gives the bytes. */
  lemma {:induction false} LEUnLE(bs: seq<byte>)
    ensures LE(|bs|, UnLE(bs)) == bs
  {
    if |bs| > 0 {
      LEUnLE(bs[1..]);
      assert bs == [bs[0]] + bs[1..];
    }
  }

  lemma Pow256Values()
    ensures Pow256(1) == 256
    ensures Pow256(2) == 0x1_0000
    ensures Pow256(4) == TWO32
    ensures Pow256(8) == TWO64
  {
    assert Pow256(3) == 0x100_0000;
    assert Pow256(4) == TWO32;
    assert Pow256(5) == 0x100_0000_0000;
    assert Pow256(6) == 0x1_0000_0000_0000;
    assert Pow256(7) == 0x100_0000_0000_0000;
  }

  function Pow2(n: nat): (p: nat)
    ensures p > 0
  {
    if n == 0 then 1 else 2 * Pow2(n - 1)
  }
}
