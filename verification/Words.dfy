/** Machine words shared by the native supervisors: octets, saturating 64-bit
    addition, and the little-endian fields of the wire formats. */
module Words {
  newtype Byte = x: int | 0 <= x < 256

  const U32_MAX: nat := 0xFFFF_FFFF
  const U64_MAX: nat := 0xFFFF_FFFF_FFFF_FFFF

  type U32 = x: int | 0 <= x <= U32_MAX
  type U64 = x: int | 0 <= x <= U64_MAX

  function Min(a: int, b: int): int {
    if a <= b then a else b
  }

  /** The guard is written as in C, where `left + right` itself could wrap. */
  function SaturatingAdd(left: U64, right: U64): (r: U64)
    ensures r == Min(left + right, U64_MAX)
  {
    if U64_MAX - left < right then U64_MAX else left + right
  }

  function Sum(xs: seq<U64>): nat {
    if xs == [] then 0 else Sum(xs[..|xs| - 1]) + xs[|xs| - 1]
  }

  /** The `width` low-order octets of `value`, least significant first. */
  function LittleEndian(value: nat, width: nat): (r: seq<Byte>)
    ensures |r| == width
  {
    if width == 0 then [] else [(value % 256) as Byte] + LittleEndian(value / 256, width - 1)
  }

  function BigEndian(value: nat, width: nat): (r: seq<Byte>)
    ensures |r| == width
  {
    if width == 0 then [] else BigEndian(value / 256, width - 1) + [(value % 256) as Byte]
  }

  function FromLittleEndian(bytes: seq<Byte>): nat {
    if bytes == [] then 0 else bytes[0] as nat + 256 * FromLittleEndian(bytes[1..])
  }

  function Pow256(width: nat): (r: nat)
    ensures r > 0
  {
    if width == 0 then 1 else 256 * Pow256(width - 1)
  }

  lemma {:induction false} LittleEndianRoundTrip(value: nat, width: nat)
    requires value < Pow256(width)
    ensures FromLittleEndian(LittleEndian(value, width)) == value
  {
    if width > 0 {
      LittleEndianRoundTrip(value / 256, width - 1);
      assert LittleEndian(value, width)[1..] == LittleEndian(value / 256, width - 1);
    }
  }

  /** Big-endian octets are the little-endian ones in reverse. */
  lemma {:induction false} BigEndianIsReversed(value: nat, width: nat, i: nat)
    requires i < width
    ensures BigEndian(value, width)[i] == LittleEndian(value, width)[width - 1 - i]
  {
    if i < width - 1 {
      BigEndianIsReversed(value / 256, width - 1, i);
    }
  }

  lemma MultipleIsFar(d: int, bound: int)
    requires bound >= 0
    ensures d >= 1 ==> d * bound >= bound
    ensures d <= -1 ==> d * bound <= -bound
  {
    if d >= 1 {
      assert d * bound == (d - 1) * bound + bound;
    } else if d <= -1 {
      assert d * bound == (d + 1) * bound - bound;
    }
  }

  lemma DivModUnique(c: nat, bound: nat, q: nat, r: nat)
    requires r < bound && c == q * bound + r
    ensures c / bound == q && c % bound == r
  {
    assert c == (c / bound) * bound + c % bound;
    var d := c / bound - q;
    assert d * bound == (c / bound) * bound - q * bound;
    MultipleIsFar(d, bound);
  }

  /** A remainder may be taken early. */
  lemma RemainderStep(a: nat, b: nat, m: nat)
    requires m > 0
    ensures (a + b) % m == (a % m + b) % m
  {
    var s := a % m + b;
    assert (a / m + s / m) * m == (a / m) * m + (s / m) * m;
    DivModUnique(a + b, m, a / m + s / m, s % m);
  }
}
