/** Where the parts of SHA-256 and HMAC come from: what its functions do to each bit, which numbers its
    constants are (sections 4.1.2, 4.2.2 and 5.3.3 of FIPS 180-4), and the two pads of HMAC. */
module ShaLaws {
  import opened BlockFold
  import opened Bytes
  import opened ShaSpec

  // ---- Bits ------------------------------------------------------------------------------

  /** One place to the right, the last bit to the front; and n places are n times one. */
  lemma RotrOnce(v: bv32)
    ensures Rotr(v, 1) == (v >> 1) | ((v & 1) << 31)
  {
  }

  lemma RotrAgain(v: bv32, n: bv6)
    requires 0 < n < 31
    ensures Rotr(v, n + 1) == Rotr(Rotr(v, n), 1)
  {
  }

  lemma RotlUndoesRotr(v: bv32, n: bv6)
    requires 0 < n < 32
    ensures Rotl(Rotr(v, n), n) == v
  {
  }

  /** Where e has a bit, it is f's that is chosen, and elsewhere g's. */
  lemma ChooseBits(e: bv32, f: bv32, g: bv32)
    ensures Choose(e, f, g) & e == f & e
    ensures Choose(e, f, g) & !e == g & !e
  {
  }

  /** Where two agree, theirs is the majority, and where they differ the third decides. */
  lemma MajorityBits(a: bv32, b: bv32, c: bv32)
    ensures Majority(a, b, c) & !(a ^ b) == a & !(a ^ b)
    ensures Majority(a, b, c) & (a ^ b) == c & (a ^ b)
  {
  }

  /** The parity of three: where b has no bit, it is set when c and d differ, and elsewhere when they agree. */
  lemma ParityBits(b: bv32, c: bv32, d: bv32)
    ensures Parity(b, c, d) & !b == (c ^ d) & !b
    ensures Parity(b, c, d) & b == !(c ^ d) & b
  {
  }

  /** The stages of SHA-1: a choice, a parity, a majority, and the parity again. */
  lemma Mix1Chooses(t: nat, b: bv32, c: bv32, d: bv32)
    requires t < 20
    ensures Mix1(t, b, c, d) & b == c & b && Mix1(t, b, c, d) & !b == d & !b
  {
  }

  lemma Mix1IsParity(t: nat, b: bv32, c: bv32, d: bv32)
    requires 20 <= t < 40 || 60 <= t < 80
    ensures Mix1(t, b, c, d) == Parity(b, c, d)
  {
  }

  lemma Mix1IsMajority(t: nat, b: bv32, c: bv32, d: bv32)
    requires 40 <= t < 60
    ensures Mix1(t, b, c, d) & !(b ^ c) == b & !(b ^ c)
    ensures Mix1(t, b, c, d) & (b ^ c) == d & (b ^ c)
  {
  }

  // ---- Constants -------------------------------------------------------------------------

  /** The word is the first 32 bits of the fraction of the cube root of n: root is that root, cut
      to 32 bits behind the point. */
  predicate CubeRootBits(n: int, root: int, word: bv32) {
    && root * root * root <= n * 0x1_0000_0000_0000_0000_0000_0000 < (root + 1) * (root + 1) * (root + 1)
    && root % 0x1_0000_0000 == word as int
  }

  predicate SquareRootBits(n: int, root: int, word: bv32) {
    && root * root <= n * 0x1_0000_0000_0000_0000 < (root + 1) * (root + 1)
    && root % 0x1_0000_0000 == word as int
  }

  /** The constants of the rounds: the cube roots of the first 64 primes, in order. */
  lemma CubeRoots0()
    ensures K_ROWS[0] == [0x428a2f98, 0x71374491, 0xb5c0fbcf, 0xe9b5dba5, 0x3956c25b, 0x59f111f1, 0x923f82a4, 0xab1c5ed5]
    ensures CubeRootBits(2, 0x1428a2f98, 0x428a2f98)
    ensures CubeRootBits(3, 0x171374491, 0x71374491)
    ensures CubeRootBits(5, 0x1b5c0fbcf, 0xb5c0fbcf)
    ensures CubeRootBits(7, 0x1e9b5dba5, 0xe9b5dba5)
    ensures CubeRootBits(11, 0x23956c25b, 0x3956c25b)
    ensures CubeRootBits(13, 0x259f111f1, 0x59f111f1)
    ensures CubeRootBits(17, 0x2923f82a4, 0x923f82a4)
    ensures CubeRootBits(19, 0x2ab1c5ed5, 0xab1c5ed5)
  {
  }

  lemma CubeRoots1()
    ensures K_ROWS[1] == [0xd807aa98, 0x12835b01, 0x243185be, 0x550c7dc3, 0x72be5d74, 0x80deb1fe, 0x9bdc06a7, 0xc19bf174]
    ensures CubeRootBits(23, 0x2d807aa98, 0xd807aa98)
    ensures CubeRootBits(29, 0x312835b01, 0x12835b01)
    ensures CubeRootBits(31, 0x3243185be, 0x243185be)
    ensures CubeRootBits(37, 0x3550c7dc3, 0x550c7dc3)
    ensures CubeRootBits(41, 0x372be5d74, 0x72be5d74)
    ensures CubeRootBits(43, 0x380deb1fe, 0x80deb1fe)
    ensures CubeRootBits(47, 0x39bdc06a7, 0x9bdc06a7)
    ensures CubeRootBits(53, 0x3c19bf174, 0xc19bf174)
  {
  }

  lemma CubeRoots2()
    ensures K_ROWS[2] == [0xe49b69c1, 0xefbe4786, 0x0fc19dc6, 0x240ca1cc, 0x2de92c6f, 0x4a7484aa, 0x5cb0a9dc, 0x76f988da]
    ensures CubeRootBits(59, 0x3e49b69c1, 0xe49b69c1)
    ensures CubeRootBits(61, 0x3efbe4786, 0xefbe4786)
    ensures CubeRootBits(67, 0x40fc19dc6, 0x0fc19dc6)
    ensures CubeRootBits(71, 0x4240ca1cc, 0x240ca1cc)
    ensures CubeRootBits(73, 0x42de92c6f, 0x2de92c6f)
    ensures CubeRootBits(79, 0x44a7484aa, 0x4a7484aa)
    ensures CubeRootBits(83, 0x45cb0a9dc, 0x5cb0a9dc)
    ensures CubeRootBits(89, 0x476f988da, 0x76f988da)
  {
  }

  lemma CubeRoots3()
    ensures K_ROWS[3] == [0x983e5152, 0xa831c66d, 0xb00327c8, 0xbf597fc7, 0xc6e00bf3, 0xd5a79147, 0x06ca6351, 0x14292967]
    ensures CubeRootBits(97, 0x4983e5152, 0x983e5152)
    ensures CubeRootBits(101, 0x4a831c66d, 0xa831c66d)
    ensures CubeRootBits(103, 0x4b00327c8, 0xb00327c8)
    ensures CubeRootBits(107, 0x4bf597fc7, 0xbf597fc7)
    ensures CubeRootBits(109, 0x4c6e00bf3, 0xc6e00bf3)
    ensures CubeRootBits(113, 0x4d5a79147, 0xd5a79147)
    ensures CubeRootBits(127, 0x506ca6351, 0x06ca6351)
    ensures CubeRootBits(131, 0x514292967, 0x14292967)
  {
  }

  lemma CubeRoots4()
    ensures K_ROWS[4] == [0x27b70a85, 0x2e1b2138, 0x4d2c6dfc, 0x53380d13, 0x650a7354, 0x766a0abb, 0x81c2c92e, 0x92722c85]
    ensures CubeRootBits(137, 0x527b70a85, 0x27b70a85)
    ensures CubeRootBits(139, 0x52e1b2138, 0x2e1b2138)
    ensures CubeRootBits(149, 0x54d2c6dfc, 0x4d2c6dfc)
    ensures CubeRootBits(151, 0x553380d13, 0x53380d13)
    ensures CubeRootBits(157, 0x5650a7354, 0x650a7354)
    ensures CubeRootBits(163, 0x5766a0abb, 0x766a0abb)
    ensures CubeRootBits(167, 0x581c2c92e, 0x81c2c92e)
    ensures CubeRootBits(173, 0x592722c85, 0x92722c85)
  {
  }

  lemma CubeRoots5()
    ensures K_ROWS[5] == [0xa2bfe8a1, 0xa81a664b, 0xc24b8b70, 0xc76c51a3, 0xd192e819, 0xd6990624, 0xf40e3585, 0x106aa070]
    ensures CubeRootBits(179, 0x5a2bfe8a1, 0xa2bfe8a1)
    ensures CubeRootBits(181, 0x5a81a664b, 0xa81a664b)
    ensures CubeRootBits(191, 0x5c24b8b70, 0xc24b8b70)
    ensures CubeRootBits(193, 0x5c76c51a3, 0xc76c51a3)
    ensures CubeRootBits(197, 0x5d192e819, 0xd192e819)
    ensures CubeRootBits(199, 0x5d6990624, 0xd6990624)
    ensures CubeRootBits(211, 0x5f40e3585, 0xf40e3585)
    ensures CubeRootBits(223, 0x6106aa070, 0x106aa070)
  {
  }

  lemma CubeRoots6()
    ensures K_ROWS[6] == [0x19a4c116, 0x1e376c08, 0x2748774c, 0x34b0bcb5, 0x391c0cb3, 0x4ed8aa4a, 0x5b9cca4f, 0x682e6ff3]
    ensures CubeRootBits(227, 0x619a4c116, 0x19a4c116)
    ensures CubeRootBits(229, 0x61e376c08, 0x1e376c08)
    ensures CubeRootBits(233, 0x62748774c, 0x2748774c)
    ensures CubeRootBits(239, 0x634b0bcb5, 0x34b0bcb5)
    ensures CubeRootBits(241, 0x6391c0cb3, 0x391c0cb3)
    ensures CubeRootBits(251, 0x64ed8aa4a, 0x4ed8aa4a)
    ensures CubeRootBits(257, 0x65b9cca4f, 0x5b9cca4f)
    ensures CubeRootBits(263, 0x6682e6ff3, 0x682e6ff3)
  {
  }

  lemma CubeRoots7()
    ensures K_ROWS[7] == [0x748f82ee, 0x78a5636f, 0x84c87814, 0x8cc70208, 0x90befffa, 0xa4506ceb, 0xbef9a3f7, 0xc67178f2]
    ensures CubeRootBits(269, 0x6748f82ee, 0x748f82ee)
    ensures CubeRootBits(271, 0x678a5636f, 0x78a5636f)
    ensures CubeRootBits(277, 0x684c87814, 0x84c87814)
    ensures CubeRootBits(281, 0x68cc70208, 0x8cc70208)
    ensures CubeRootBits(283, 0x690befffa, 0x90befffa)
    ensures CubeRootBits(293, 0x6a4506ceb, 0xa4506ceb)
    ensures CubeRootBits(307, 0x6bef9a3f7, 0xbef9a3f7)
    ensures CubeRootBits(311, 0x6c67178f2, 0xc67178f2)
  {
  }

  /** The initial state: the square roots of the first eight primes. */
  lemma SquareRoots()
    ensures SquareRootBits(2, 0x16a09e667, INITIAL_256.a)
    ensures SquareRootBits(3, 0x1bb67ae85, INITIAL_256.b)
    ensures SquareRootBits(5, 0x23c6ef372, INITIAL_256.c)
    ensures SquareRootBits(7, 0x2a54ff53a, INITIAL_256.d)
    ensures SquareRootBits(11, 0x3510e527f, INITIAL_256.e)
    ensures SquareRootBits(13, 0x39b05688c, INITIAL_256.f)
    ensures SquareRootBits(17, 0x41f83d9ab, INITIAL_256.g)
    ensures SquareRootBits(19, 0x45be0cd19, INITIAL_256.h)
  {
  }

  // ---- HMAC ------------------------------------------------------------------------------

  /** The key, filled with zeros to a block, with each byte xored with the pad. */
  predicate Masked(key: seq<byte>, pad: byte, masked: seq<byte>) {
    && |masked| == 64
    && forall i | 0 <= i < 64 :: masked[i] == Xor(if i < |key| then key[i] else 0, pad)
  }

  lemma XorOfBits(a: byte, b: byte)
    ensures Xor(a, b) as bv8 == (a as bv8) ^ (b as bv8)
  {
    ByteOfBits((a as bv8) ^ (b as bv8));
  }

  lemma ByteOfBits(v: bv8)
    ensures (v as byte) as bv8 == v
  {
  }

  /** Section 2 of RFC 2104: the key goes in twice, xored with 0x36 in front of the text and with 0x5c in
      front of the first digest. */
  lemma HmacPads(key: seq<byte>, text: seq<byte>, inner: seq<byte>, outer: seq<byte>)
    requires |key| <= 64 && Masked(key, 0x36, inner) && Masked(key, 0x5c, outer)
    ensures Hmac(key, text) == HashSha256(outer + HashSha256(inner + text))
  {
    MaskedIsXor(key, 0x36, inner);
    MaskedIsXor(key, 0x5c, outer);
  }

  lemma MaskedIsXor(key: seq<byte>, pad: byte, masked: seq<byte>)
    requires |key| <= 64 && Masked(key, pad, masked)
    ensures masked == XorAll(BlockKey(key), pad)
  {
    var k := BlockKey(key);
    assert forall i | 0 <= i < 64 :: k[i] == if i < |key| then key[i] else 0;
    assert forall i | 0 <= i < 64 :: masked[i] == Xor(k[i], pad);
  }

  /** A key longer than a block stands for its digest. */
  lemma HmacLongKey(key: seq<byte>, text: seq<byte>)
    requires |key| > 64
    ensures Hmac(key, text) == Hmac(HashSha256(key), text)
  {
    assert BlockKey(key) == BlockKey(HashSha256(key));
  }
}
