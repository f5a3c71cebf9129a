/** What the word operations and constants of the hash are, said without the
    expressions that compute them. */
module Sha256Words {
  import opened Words
  import opened Sha256

  // ---------- the functions on words ----------

  /** A rotation to the right: the low `n` bits come out on top, above the others. */
  lemma RotationTurns(x: Word, n: bv6)
    requires 0 < n < 32
    ensures RotR(x, n) >> (32 - n) == x & ((1 << n) - 1)
    ensures RotR(x, n) & (0xFFFF_FFFF >> n) == x >> n
  {
  }

  /** Where `x` has ones the bits are those of `y`, elsewhere those of `z`. */
  lemma ChooseChooses(x: Word, y: Word, z: Word)
    ensures Ch(x, y, z) & x == y & x && Ch(x, y, z) & !x == z & !x
  {
  }

  /** Where `x` and `y` agree the bits are theirs, elsewhere those of `z`. */
  lemma MajorityDecides(x: Word, y: Word, z: Word)
    ensures Maj(x, y, z) & !(x ^ y) == x & !(x ^ y) && Maj(x, y, z) & (x ^ y) == z & (x ^ y)
  {
  }

  /** Where the four functions send the top bit: by 2, 13 and 22; 6, 11 and 25; 7,
      18 and 3; 17, 19 and 10. */
  lemma SigmasOfTopBit()
    ensures BigSigma0(0x8000_0000) == (1 << 29) | (1 << 18) | (1 << 9)
    ensures BigSigma1(0x8000_0000) == (1 << 25) | (1 << 20) | (1 << 6)
    ensures SmallSigma0(0x8000_0000) == (1 << 24) | (1 << 13) | (1 << 28)
    ensures SmallSigma1(0x8000_0000) == (1 << 14) | (1 << 12) | (1 << 21)
  {
  }

  // ---------- words and octets ----------

  /** The first octet is the most significant. */
  lemma LoadIsBigEndian(b0: Byte, b1: Byte, b2: Byte, b3: Byte)
    ensures var w := Load(b0, b1, b2, b3);
            w >> 24 == b0 as Word && (w >> 16) & 0xFF == b1 as Word && (w >> 8) & 0xFF == b2 as Word
            && w & 0xFF == b3 as Word
  {
  }

  lemma OctetAsWord(v: Word)
    requires v < 256
    ensures v as int < 256 && (v as Byte) as Word == v
  {
  }

  lemma Octet3Is(w: Word)
    ensures Octet3(w) as Word == w >> 24
  {
    OctetAsWord(w >> 24);
  }

  lemma Octet2Is(w: Word)
    ensures Octet2(w) as Word == (w >> 16) & 0xFF
  {
    OctetAsWord((w >> 16) & 0xFF);
  }

  lemma Octet1Is(w: Word)
    ensures Octet1(w) as Word == (w >> 8) & 0xFF
  {
    OctetAsWord((w >> 8) & 0xFF);
  }

  lemma Octet0Is(w: Word)
    ensures Octet0(w) as Word == w & 0xFF
  {
    OctetAsWord(w & 0xFF);
  }

  lemma FourOctets(w: Word, v: Word)
    requires v >> 24 == w >> 24 && (v >> 16) & 0xFF == (w >> 16) & 0xFF && (v >> 8) & 0xFF == (w >> 8) & 0xFF
    requires v & 0xFF == w & 0xFF
    ensures v == w
  {
  }

  /** Storing a word and loading it gives it back. */
  lemma LoadOfStored(w: Word)
    ensures Load(Octet3(w), Octet2(w), Octet1(w), Octet0(w)) == w
  {
    Octet3Is(w);
    Octet2Is(w);
    Octet1Is(w);
    Octet0Is(w);
    LoadIsBigEndian(Octet3(w), Octet2(w), Octet1(w), Octet0(w));
    FourOctets(w, Load(Octet3(w), Octet2(w), Octet1(w), Octet0(w)));
  }

  // ---------- the constants ----------

  /** The first 64 primes, eight to a row. */
  function Primes(row: nat): (p: seq<nat>)
    requires row < 8
    ensures |p| == 8
  {
    match row
    case 0 => [2, 3, 5, 7, 11, 13, 17, 19]
    case 1 => [23, 29, 31, 37, 41, 43, 47, 53]
    case 2 => [59, 61, 67, 71, 73, 79, 83, 89]
    case 3 => [97, 101, 103, 107, 109, 113, 127, 131]
    case 4 => [137, 139, 149, 151, 157, 163, 167, 173]
    case 5 => [179, 181, 191, 193, 197, 199, 211, 223]
    case 6 => [227, 229, 233, 239, 241, 251, 257, 263]
    case _ => [269, 271, 277, 281, 283, 293, 307, 311]
  }

  function WholeCubeRoot(p: nat): nat {
    if p < 8 then 1 else if p < 27 then 2 else if p < 64 then 3 else if p < 125 then 4 else if p < 216 then 5 else 6
  }

  /** `k` is the first 32 bits of the fraction of the cube root of `p`, which lies
      between `r` and `r` + 1 in units of 2^-32. */
  predicate CubeRootFraction(p: nat, k: U32) {
    var r := WholeCubeRoot(p) * 0x1_0000_0000 + k;
    r * r * r <= p * 0x1_0000_0000_0000_0000_0000_0000 < (r + 1) * (r + 1) * (r + 1)
  }

  predicate CubeRootFractions(p: seq<nat>, k: seq<U32>)
    requires |p| == 8 == |k|
  {
    && CubeRootFraction(p[0], k[0]) && CubeRootFraction(p[1], k[1]) && CubeRootFraction(p[2], k[2])
    && CubeRootFraction(p[3], k[3]) && CubeRootFraction(p[4], k[4]) && CubeRootFraction(p[5], k[5])
    && CubeRootFraction(p[6], k[6]) && CubeRootFraction(p[7], k[7])
  }

  lemma Row0()
    ensures CubeRootFractions(Primes(0), RoundConstants(0))
  {
  }

  lemma Row1()
    ensures CubeRootFractions(Primes(1), RoundConstants(1))
  {
  }

  lemma Row2()
    ensures CubeRootFractions(Primes(2), RoundConstants(2))
  {
  }

  lemma Row3()
    ensures CubeRootFractions(Primes(3), RoundConstants(3))
  {
  }

  lemma Row4()
    ensures CubeRootFractions(Primes(4), RoundConstants(4))
  {
  }

  lemma Row5()
    ensures CubeRootFractions(Primes(5), RoundConstants(5))
  {
  }

  lemma Row6()
    ensures CubeRootFractions(Primes(6), RoundConstants(6))
  {
  }

  lemma Row7()
    ensures CubeRootFractions(Primes(7), RoundConstants(7))
  {
  }

  /** Section 4.2.2: constant `t` comes from the cube root of prime number `t`. */
  lemma ConstantsAreCubeRoots(row: nat)
    requires row < 8
    ensures CubeRootFractions(Primes(row), RoundConstants(row))
  {
    Row0();
    Row1();
    Row2();
    Row3();
    Row4();
    Row5();
    Row6();
    Row7();
  }

  predicate SquareRootFraction(p: nat, whole: nat, k: nat) {
    var r := whole * 0x1_0000_0000 + k;
    r * r <= p * 0x1_0000_0000_0000_0000 < (r + 1) * (r + 1)
  }

  /** Section 5.3.3: the initial value comes from square roots of primes. */
  lemma InitialIsSquareRoots()
    ensures var v := INITIAL;
            && SquareRootFraction(2, 1, v.a as nat) && SquareRootFraction(3, 1, v.b as nat)
            && SquareRootFraction(5, 2, v.c as nat) && SquareRootFraction(7, 2, v.d as nat)
            && SquareRootFraction(11, 3, v.e as nat) && SquareRootFraction(13, 3, v.f as nat)
            && SquareRootFraction(17, 4, v.g as nat) && SquareRootFraction(19, 4, v.h as nat)
  {
  }
}
