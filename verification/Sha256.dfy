/** Streaming SHA-256 as both supervisors implement it, proved equal to the
    one-shot hash of FIPS 180-4 (padding: section 5.1.1, hashing: section 6.2). */
module Sha256 {
  import opened Words

  // ---------- FIPS 180-4 ----------

  type Word = bv32
  type Octets = seq<Byte>

  datatype Hash = Hash(a: Word, b: Word, c: Word, d: Word, e: Word, f: Word, g: Word, h: Word)

  const INITIAL := Hash(0x6a09e667, 0xbb67ae85, 0x3c6ef372, 0xa54ff53a,
                        0x510e527f, 0x9b05688c, 0x1f83d9ab, 0x5be0cd19)

  /** Section 4.2.2, eight constants to a row. */
  function RoundConstants(row: nat): (k: seq<U32>)
    requires row < 8
    ensures |k| == 8
  {
    match row
    case 0 => [0x428a2f98, 0x71374491, 0xb5c0fbcf, 0xe9b5dba5, 0x3956c25b, 0x59f111f1, 0x923f82a4, 0xab1c5ed5]
    case 1 => [0xd807aa98, 0x12835b01, 0x243185be, 0x550c7dc3, 0x72be5d74, 0x80deb1fe, 0x9bdc06a7, 0xc19bf174]
    case 2 => [0xe49b69c1, 0xefbe4786, 0x0fc19dc6, 0x240ca1cc, 0x2de92c6f, 0x4a7484aa, 0x5cb0a9dc, 0x76f988da]
    case 3 => [0x983e5152, 0xa831c66d, 0xb00327c8, 0xbf597fc7, 0xc6e00bf3, 0xd5a79147, 0x06ca6351, 0x14292967]
    case 4 => [0x27b70a85, 0x2e1b2138, 0x4d2c6dfc, 0x53380d13, 0x650a7354, 0x766a0abb, 0x81c2c92e, 0x92722c85]
    case 5 => [0xa2bfe8a1, 0xa81a664b, 0xc24b8b70, 0xc76c51a3, 0xd192e819, 0xd6990624, 0xf40e3585, 0x106aa070]
    case 6 => [0x19a4c116, 0x1e376c08, 0x2748774c, 0x34b0bcb5, 0x391c0cb3, 0x4ed8aa4a, 0x5b9cca4f, 0x682e6ff3]
    case _ => [0x748f82ee, 0x78a5636f, 0x84c87814, 0x8cc70208, 0x90befffa, 0xa4506ceb, 0xbef9a3f7, 0xc67178f2]
  }

  /** The word operations of sections 3.2 and 4.1.2.  The streaming proof holds
      for every choice of them; `FIPS` below is the standard's. */
  datatype WordOps = WordOps(
    add: (Word, Word) -> Word,
    ch: (Word, Word, Word) -> Word,
    maj: (Word, Word, Word) -> Word,
    bigSigma0: Word -> Word,
    bigSigma1: Word -> Word,
    smallSigma0: Word -> Word,
    smallSigma1: Word -> Word,
    load: (Byte, Byte, Byte, Byte) -> Word,
    octet3: Word -> Byte,
    octet2: Word -> Byte,
    octet1: Word -> Byte,
    octet0: Word -> Byte,
    k: nat -> Word)

  const FIPS := WordOps(Add, Ch, Maj, BigSigma0, BigSigma1, SmallSigma0, SmallSigma1, Load,
                        Octet3, Octet2, Octet1, Octet0, RoundConstant)

  function RoundConstant(t: nat): Word { if t < 64 then RoundConstants(t / 8)[t % 8] as Word else 0 }
  function Add(x: Word, y: Word): Word { x + y }
  function Ch(x: Word, y: Word, z: Word): Word { (x & y) ^ (!x & z) }
  function Maj(x: Word, y: Word, z: Word): Word { (x & y) ^ (x & z) ^ (y & z) }
  function RotR(x: Word, n: bv6): Word
    requires 0 < n < 32
  {
    (x >> n) | (x << (32 - n))
  }
  function BigSigma0(x: Word): Word { RotR(x, 2) ^ RotR(x, 13) ^ RotR(x, 22) }
  function BigSigma1(x: Word): Word { RotR(x, 6) ^ RotR(x, 11) ^ RotR(x, 25) }
  function SmallSigma0(x: Word): Word { RotR(x, 7) ^ RotR(x, 18) ^ (x >> 3) }
  function SmallSigma1(x: Word): Word { RotR(x, 17) ^ RotR(x, 19) ^ (x >> 10) }
  function Load(b0: Byte, b1: Byte, b2: Byte, b3: Byte): Word {
    ((b0 as Word) << 24) | ((b1 as Word) << 16) | ((b2 as Word) << 8) | (b3 as Word)
  }
  function Octet3(w: Word): Byte { (w >> 24) as Byte }
  function Octet2(w: Word): Byte { ((w >> 16) & 0xFF) as Byte }
  function Octet1(w: Word): Byte { ((w >> 8) & 0xFF) as Byte }
  function Octet0(w: Word): Byte { (w & 0xFF) as Byte }

  function WordAt(o: WordOps, b: Octets, at: nat): Word
    requires at + 4 <= |b|
  {
    o.load(b[at], b[at + 1], b[at + 2], b[at + 3])
  }

  function WordOctets(o: WordOps, w: Word): (r: Octets)
    ensures |r| == 4
  {
    [o.octet3(w), o.octet2(w), o.octet1(w), o.octet0(w)]
  }

  function Expand(o: WordOps, w16: Word, w15: Word, w7: Word, w2: Word): Word {
    o.add(o.add(o.add(w16, o.smallSigma0(w15)), w7), o.smallSigma1(w2))
  }

  /** The first `count` words of the message schedule, section 6.2.2 step 1. */
  function Schedule(o: WordOps, block: Octets, count: nat): (w: seq<Word>)
    requires |block| == 64
    ensures |w| == count
  {
    if count == 0 then [] else
      var w, t := Schedule(o, block, count - 1), count - 1;
      w + [if t < 16 then WordAt(o, block, 4 * t)
           else Expand(o, w[t - 16], w[t - 15], w[t - 7], w[t - 2])]
  }

  function T1(o: WordOps, v: Hash, k: Word, w: Word): Word {
    o.add(o.add(o.add(o.add(v.h, o.bigSigma1(v.e)), o.ch(v.e, v.f, v.g)), k), w)
  }

  function T2(o: WordOps, v: Hash): Word { o.add(o.bigSigma0(v.a), o.maj(v.a, v.b, v.c)) }

  /** One iteration of section 6.2.2 step 3. */
  function Round(o: WordOps, v: Hash, k: Word, w: Word): Hash {
    Hash(o.add(T1(o, v, k, w), T2(o, v)), v.a, v.b, v.c, o.add(v.d, T1(o, v, k, w)), v.e, v.f, v.g)
  }

  function Rounds(o: WordOps, v: Hash, w: seq<Word>, t: nat): Hash
    requires t <= |w|
  {
    if t == 0 then v else Round(o, Rounds(o, v, w, t - 1), o.k(t - 1), w[t - 1])
  }

  function Compress(o: WordOps, v: Hash, block: Octets): Hash
    requires |block| == 64
  {
    var w := Schedule(o, block, |block|);
    var r := Rounds(o, v, w, |w|);
    Hash(o.add(v.a, r.a), o.add(v.b, r.b), o.add(v.c, r.c), o.add(v.d, r.d),
         o.add(v.e, r.e), o.add(v.f, r.f), o.add(v.g, r.g), o.add(v.h, r.h))
  }

  type Compression = (Hash, Octets) -> Hash

  function CompressionOf(o: WordOps): Compression {
    (v: Hash, block: Octets) => if |block| == 64 then Compress(o, v, block) else v
  }

  /** Section 6.2.2: block i is folded into the hash value of blocks 1 to i-1. */
  function HashBlocks(f: Compression, v: Hash, m: Octets): Hash
    decreases |m|
  {
    if |m| < 64 then v else f(HashBlocks(f, v, m[..|m| - 64]), m[|m| - 64..])
  }

  function Zeros(n: nat): (r: Octets)
    ensures |r| == n && forall i :: 0 <= i < n ==> r[i] == 0
  {
    seq(n, _ => 0)
  }

  /** The length in bits, modulo 2^64. */
  function BitCount(length: nat): U64 {
    (8 * length) % (U64_MAX + 1)
  }

  function PaddingZeros(length: nat): (r: nat)
    ensures (length + r + 9) % 64 == 0 && r < 64
  {
    (55 - length) % 64
  }

  /** Section 5.1.1: the padding has the smallest number of zero octets that
      makes the padded length a multiple of 64. */
  function Padding(length: nat): (r: Octets)
    ensures (length + |r|) % 64 == 0 && 9 <= |r| <= 72
    ensures r[0] == 0x80 && forall i :: 1 <= i < |r| - 8 ==> r[i] == 0
  {
    [0x80] + Zeros(PaddingZeros(length)) + BigEndian(BitCount(length), 8)
  }

  function Digest(o: WordOps, v: Hash): (r: Octets)
    ensures |r| == 32
  {
    WordOctets(o, v.a) + WordOctets(o, v.b) + WordOctets(o, v.c) + WordOctets(o, v.d)
    + WordOctets(o, v.e) + WordOctets(o, v.f) + WordOctets(o, v.g) + WordOctets(o, v.h)
  }

  function HashWith(o: WordOps, f: Compression, m: Octets): (r: Octets)
    ensures |r| == 32
  {
    Digest(o, HashBlocks(f, INITIAL, m + Padding(|m|)))
  }

  function Sha256Of(m: Octets): (r: Octets)
    ensures |r| == 32
  {
    HashWith(FIPS, CompressionOf(FIPS), m)
  }

  // ---------- the streaming implementation ----------

  lemma PaddingZerosUnique(length: nat, n: nat, blocks: nat)
    requires length + n + 9 == 64 * blocks && n < 64
    ensures n == PaddingZeros(length)
  {
  }

  lemma BitCountStep(length: nat, amount: nat)
    ensures BitCount(length + amount) == (BitCount(length) + 8 * amount) % (U64_MAX + 1)
  {
    RemainderStep(8 * length, 8 * amount, U64_MAX + 1);
  }

  lemma PaddingJoins(m: Octets)
    ensures m + [0x80] + Zeros(PaddingZeros(|m|)) + BigEndian(BitCount(|m|), 8) == m + Padding(|m|)
  {
  }

  method LoadWords(o: WordOps, octets: Octets, words: array<Word>)
    requires |octets| == 64 == words.Length
    modifies words
    ensures words[..16] == Schedule(o, octets, 16)
  {
    for index := 0 to 16
      invariant words[..index] == Schedule(o, octets, index)
    {
      words[index] := WordAt(o, octets, 4 * index);
      assert words[..index + 1] == words[..index] + [words[index]];
    }
  }

  method ExpandWords(o: WordOps, octets: Octets) returns (words: array<Word>)
    requires |octets| == 64
    ensures fresh(words) && words.Length == 64 && words[..] == Schedule(o, octets, words.Length)
  {
    words := new Word[64](_ => 0);
    LoadWords(o, octets, words);
    for index := 16 to words.Length
      invariant words[..index] == Schedule(o, octets, index)
    {
      words[index] := Expand(o, words[index - 16], words[index - 15], words[index - 7], words[index - 2]);
      assert words[..index + 1] == words[..index] + [words[index]];
    }
    assert words[..] == words[..words.Length];
  }

  method RunRounds(o: WordOps, start: Hash, words: array<Word>) returns (v: Hash)
    ensures v == Rounds(o, start, words[..], words.Length)
  {
    v := start;
    for index := 0 to words.Length
      invariant v == Rounds(o, start, words[..], index)
    {
      var first, second := T1(o, v, o.k(index), words[index]), T2(o, v);
      v := Hash(o.add(first, second), v.a, v.b, v.c, o.add(v.d, first), v.e, v.f, v.g);
    }
  }

  ghost predicate Implements(o: WordOps, f: Compression) {
    forall v: Hash, b: Octets {:trigger Compress(o, v, b)} :: |b| == 64 ==> f(v, b) == Compress(o, v, b)
  }

  class Context {
    const ops: WordOps
    var state: Hash
    const block: array<Byte>
    var bitCount: U64
    var blockUsed: nat
    ghost const f: Compression
    ghost var folded: Octets  // the whole blocks already in `state`
    ghost var blocks: nat     // how many they are

    ghost predicate Valid()
      reads this, block
    {
      && Folded()
      && blockUsed < 64
      && bitCount == BitCount(|Absorbed()|)
    }

    ghost predicate Folded()
      reads this, block
    {
      && block.Length == 64 && blockUsed <= 64 && |folded| == 64 * blocks
      && state == HashBlocks(f, INITIAL, folded) && Implements(ops, f)
    }

    /** Everything passed to `Update` so far. */
    ghost function Absorbed(): Octets
      requires Folded()
      reads this, block
    {
      folded + block[..blockUsed]
    }

    constructor (ops: WordOps)
      ensures Valid() && this.ops == ops && f == CompressionOf(ops)
      ensures fresh(block) && Absorbed() == []
    {
      this.ops, f := ops, CompressionOf(ops);
      block := new Byte[64](_ => 0);
      state := INITIAL;
      bitCount, blockUsed := 0, 0;
      folded, blocks := [], 0;
    }

    method Transform()
      requires block.Length == 64 && Implements(ops, f)
      modifies this`state
      ensures state == f(old(state), block[..])
    {
      var words := ExpandWords(ops, block[..]);
      var v := RunRounds(ops, state, words);
      state := Hash(ops.add(state.a, v.a), ops.add(state.b, v.b), ops.add(state.c, v.c), ops.add(state.d, v.d),
                    ops.add(state.e, v.e), ops.add(state.f, v.f), ops.add(state.g, v.g), ops.add(state.h, v.h));
      assert state == Compress(ops, old(state), block[..]);
    }

    /** Folds a block that has just become full. */
    method FlushBlock()
      requires Folded() && blockUsed == 64
      modifies this`state, this`blockUsed, this`folded, this`blocks
      ensures Folded() && blockUsed == 0 && blocks == old(blocks) + 1
      ensures Absorbed() == old(Absorbed())
    {
      ghost var all := folded + block[..];
      assert all[..|all| - 64] == folded && all[|all| - 64..] == block[..];
      Transform();
      blockUsed, folded, blocks := 0, all, blocks + 1;
      assert block[..64] == block[..];
    }

    /** The bounded copy into `block`; every write lands inside its 64 octets. */
    method Append(octets: Octets)
      requires Folded() && blockUsed + |octets| <= 64
      modifies this`blockUsed, block
      ensures Folded() && blockUsed == old(blockUsed) + |octets|
      ensures Absorbed() == old(Absorbed()) + octets
    {
      ghost var waiting := block[..blockUsed];
      forall i | 0 <= i < |octets| {
        block[blockUsed + i] := octets[i];
      }
      blockUsed := blockUsed + |octets|;
      assert block[..blockUsed] == waiting + octets;
    }

    method AbsorbPiece(piece: Octets)
      requires Valid() && blockUsed + |piece| <= 64
      modifies this, block
      ensures Valid() && Absorbed() == old(Absorbed()) + piece
    {
      BitCountStep(|Absorbed()|, |piece|);
      Append(piece);
      bitCount := (bitCount + 8 * |piece|) % (U64_MAX + 1);
      if blockUsed == 64 {
        FlushBlock();
      }
    }

    method Update(data: Octets)
      requires Valid()
      modifies this, block
      ensures Valid() && Absorbed() == old(Absorbed()) + data
    {
      var at := 0;
      while at < |data|
        invariant at <= |data|
        invariant Valid() && Absorbed() == old(Absorbed()) + data[..at]
      {
        var amount := AbsorbNext(data[at..]);
        assert data[..at + amount] == data[..at] + data[at..][..amount];
        at := at + amount;
      }
      assert data[..at] == data;
    }

    /** As much of the rest as the block still takes. */
    method AbsorbNext(rest: Octets) returns (amount: nat)
      requires Valid() && rest != []
      modifies this, block
      ensures Valid() && 0 < amount <= |rest| && Absorbed() == old(Absorbed()) + rest[..amount]
    {
      var space := 64 - blockUsed;
      amount := if |rest| < space then |rest| else space;
      AbsorbPiece(rest[..amount]);
    }

    /** Zero octets up to `limit`, after `n` zeros already written. */
    method AppendZeros(limit: nat, ghost prefix: Octets, ghost n: nat)
      requires Folded() && blockUsed <= limit <= 64 && Absorbed() == prefix + Zeros(n)
      modifies this`blockUsed, block
      ensures Folded() && blockUsed == limit
      ensures Absorbed() == prefix + Zeros(n + limit - old(blockUsed))
    {
      ghost var more := n;
      while blockUsed < limit
        invariant Folded() && blockUsed <= limit
        invariant more == n + blockUsed - old(blockUsed) && Absorbed() == prefix + Zeros(more)
      {
        Append([0]);
        assert Zeros(more) + [0] == Zeros(more + 1);
        more := more + 1;
      }
    }

    /** The marker octet and the zeros, leaving room for the length field. */
    method AppendMarkerAndZeros() returns (ghost zeros: nat)
      requires Valid()
      modifies this, block
      ensures Folded() && blockUsed == 56 && zeros < 64
      ensures bitCount == old(bitCount)
      ensures Absorbed() == old(Absorbed()) + [0x80] + Zeros(zeros)
    {
      ghost var prefix, used := Absorbed() + [0x80], blockUsed;
      Append([0x80]);
      assert Absorbed() == prefix + Zeros(0);
      zeros := 0;
      if blockUsed > 56 {
        AppendZeros(64, prefix, 0);
        FlushBlock();
        zeros := 63 - used;
      }
      AppendZeros(56, prefix, zeros);
      zeros := zeros + 56 - if used >= 56 then 0 else used + 1;
    }

    method Pad()
      requires Valid()
      modifies this, block
      ensures Folded() && blockUsed == 0
      ensures Absorbed() == old(Absorbed()) + Padding(|old(Absorbed())|)
    {
      var originalBits := bitCount;
      ghost var m := Absorbed();
      ghost var zeros := AppendMarkerAndZeros();
      PaddingZerosUnique(|m|, zeros, blocks + 1);
      PaddingJoins(m);
      Append(BigEndian(originalBits, 8));
      FlushBlock();
    }

    method Wipe()
      requires block.Length == 64
      modifies this, block
    {
      state, bitCount, blockUsed, folded, blocks := Hash(0, 0, 0, 0, 0, 0, 0, 0), 0, 0, [], 0;
      forall i | 0 <= i < 64 {
        block[i] := 0;
      }
    }

    /** Consumes the context: the fields are wiped after the digest is taken. */
    method Final() returns (digest: Octets)
      requires Valid()
      modifies this, block
      ensures digest == HashWith(ops, f, old(Absorbed()))
    {
      Pad();
      assert Absorbed() == folded;
      digest := Digest(ops, state);
      Wipe();
    }
  }

  method Sha256Bytes(data: Octets) returns (digest: Octets)
    ensures digest == Sha256Of(data)
  {
    var context := new Context(FIPS);
    context.Update(data);
    assert context.Absorbed() == data;
    digest := context.Final();
  }

  function Concat(pieces: seq<Octets>): Octets {
    if pieces == [] then [] else Concat(pieces[..|pieces| - 1]) + pieces[|pieces| - 1]
  }

  /** However a message is cut into updates, the digest is the one-shot hash. */
  method DigestOfPieces(pieces: seq<Octets>) returns (digest: Octets)
    ensures digest == Sha256Of(Concat(pieces))
  {
    var context := new Context(FIPS);
    for i := 0 to |pieces|
      invariant context.Valid() && fresh(context) && fresh(context.block)
      invariant context.Absorbed() == Concat(pieces[..i])
    {
      assert pieces[..i + 1][..i] == pieces[..i];
      context.Update(pieces[i]);
    }
    assert pieces[..|pieces|] == pieces;
    digest := context.Final();
  }
}
