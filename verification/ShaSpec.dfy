/** The compression functions and digests of FIPS 180-4 (sections 6.1 and 6.2),
    and HMAC of RFC 2104, as mathematics. */
module ShaSpec {
  import opened Bytes
  import opened BlockFold

  /** A hash value; its constructor says which function it belongs to. */
  datatype Words =
    | Sha1(a: bv32, b: bv32, c: bv32, d: bv32, e: bv32)
    | Sha256(a: bv32, b: bv32, c: bv32, d: bv32, e: bv32, f: bv32, g: bv32, h: bv32)

  const INITIAL_1: Words := Sha1(0x67452301, 0xefcdab89, 0x98badcfe, 0x10325476, 0xc3d2e1f0)
  const INITIAL_256: Words :=
    Sha256(0x6a09e667, 0xbb67ae85, 0x3c6ef372, 0xa54ff53a, 0x510e527f, 0x9b05688c, 0x1f83d9ab, 0x5be0cd19)

  /** The round constants of SHA-256, in rows of eight. */
  const K_ROWS: seq<seq<bv32>> := [
    [0x428a2f98, 0x71374491, 0xb5c0fbcf, 0xe9b5dba5, 0x3956c25b, 0x59f111f1, 0x923f82a4, 0xab1c5ed5],
    [0xd807aa98, 0x12835b01, 0x243185be, 0x550c7dc3, 0x72be5d74, 0x80deb1fe, 0x9bdc06a7, 0xc19bf174],
    [0xe49b69c1, 0xefbe4786, 0x0fc19dc6, 0x240ca1cc, 0x2de92c6f, 0x4a7484aa, 0x5cb0a9dc, 0x76f988da],
    [0x983e5152, 0xa831c66d, 0xb00327c8, 0xbf597fc7, 0xc6e00bf3, 0xd5a79147, 0x06ca6351, 0x14292967],
    [0x27b70a85, 0x2e1b2138, 0x4d2c6dfc, 0x53380d13, 0x650a7354, 0x766a0abb, 0x81c2c92e, 0x92722c85],
    [0xa2bfe8a1, 0xa81a664b, 0xc24b8b70, 0xc76c51a3, 0xd192e819, 0xd6990624, 0xf40e3585, 0x106aa070],
    [0x19a4c116, 0x1e376c08, 0x2748774c, 0x34b0bcb5, 0x391c0cb3, 0x4ed8aa4a, 0x5b9cca4f, 0x682e6ff3],
    [0x748f82ee, 0x78a5636f, 0x84c87814, 0x8cc70208, 0x90befffa, 0xa4506ceb, 0xbef9a3f7, 0xc67178f2]]

  const K256: seq<bv32> :=
    K_ROWS[0] + K_ROWS[1] + K_ROWS[2] + K_ROWS[3] + K_ROWS[4] + K_ROWS[5] + K_ROWS[6] + K_ROWS[7]

  function Rotr(v: bv32, n: bv6): bv32
    requires 0 < n < 32
  {
    (v >> n) | (v << (32 - n))
  }

  function Rotl(v: bv32, n: bv6): bv32
    requires 0 < n < 32
  {
    (v << n) | (v >> (32 - n))
  }

  function ReadBe32(block: Block, i: nat): bv32
    requires i < 16
  {
    Word(block[4 * i], block[4 * i + 1], block[4 * i + 2], block[4 * i + 3])
  }

  /** Four bytes, the most significant first. */
  function Word(a: byte, b: byte, c: byte, d: byte): bv32 {
    WordOf(a as int * 0x100_0000 + b as int * 0x1_0000 + c as int * 0x100 + d as int)
  }

  function WordOf(n: nat): bv32
    requires n < 0x1_0000_0000
  {
    n as bv32
  }

  /** A message schedule: sixteen words of the block, then words made from earlier ones. */
  type Schedule = w: seq<bv32> | |w| >= 16 witness seq(16, i => 0)

  function BlockWords(block: Block): Schedule {
    seq(16, i requires 0 <= i < 16 => ReadBe32(block, i))
  }

  function Grow(next: Schedule -> bv32, start: Schedule, n: nat): (w: Schedule)
    ensures |w| == |start| + n
  {
    if n == 0 then start else var w := Grow(next, start, n - 1); w + [next(w)]
  }

  // ---- SHA-256 ------------------------------------------------------------------

  /** A word from those 16, 15, 7 and 2 places before it. */
  function Mixed256(w16: bv32, w15: bv32, w7: bv32, w2: bv32): bv32 {
    w16 + SmallSigma0(w15) + w7 + SmallSigma1(w2)
  }

  function SmallSigma0(v: bv32): bv32 {
    Rotr(v, 7) ^ Rotr(v, 18) ^ (v >> 3)
  }

  function SmallSigma1(v: bv32): bv32 {
    Rotr(v, 17) ^ Rotr(v, 19) ^ (v >> 10)
  }

  function Next256(w: Schedule): bv32 {
    var t := |w|;
    Mixed256(w[t - 16], w[t - 15], w[t - 7], w[t - 2])
  }

  function BigSigma0(a: bv32): bv32 {
    Rotr(a, 2) ^ Rotr(a, 13) ^ Rotr(a, 22)
  }

  function BigSigma1(e: bv32): bv32 {
    Rotr(e, 6) ^ Rotr(e, 11) ^ Rotr(e, 25)
  }

  function Choose(e: bv32, f: bv32, g: bv32): bv32 {
    (e & f) ^ ((!e) & g)
  }

  function Majority(a: bv32, b: bv32, c: bv32): bv32 {
    (a & b) ^ (a & c) ^ (b & c)
  }

  function Round256(v: Words, k: bv32, w: bv32): Words
    requires v.Sha256?
  {
    var temp1 := v.h + BigSigma1(v.e) + Choose(v.e, v.f, v.g) + k + w;
    var temp2 := BigSigma0(v.a) + Majority(v.a, v.b, v.c);
    Sha256(temp1 + temp2, v.a, v.b, v.c, v.d + temp1, v.e, v.f, v.g)
  }

  function Rounds256(w: seq<bv32>, v: Words, t: nat): (r: Words)
    requires v.Sha256? && t <= |K256| <= |w|
    ensures r.Sha256?
  {
    if t == 0 then v else Round256(Rounds256(w, v, t - 1), K256[t - 1], w[t - 1])
  }

  // ---- SHA-1 --------------------------------------------------------------------

  /** A word from those 16, 14, 8 and 3 places before it. */
  function Mixed1(w16: bv32, w14: bv32, w8: bv32, w3: bv32): bv32 {
    Rotl(w3 ^ w8 ^ w14 ^ w16, 1)
  }

  function Next1(w: Schedule): bv32 {
    var t := |w|;
    Mixed1(w[t - 16], w[t - 14], w[t - 8], w[t - 3])
  }

  function Parity(b: bv32, c: bv32, d: bv32): bv32 {
    b ^ c ^ d
  }

  function Mix1(t: nat, b: bv32, c: bv32, d: bv32): bv32 {
    if t < 20 then (b & c) | (!b & d)
    else if t < 40 then Parity(b, c, d)
    else if t < 60 then (b & c) | (b & d) | (c & d)
    else Parity(b, c, d)
  }

  /** One constant for each stage of twenty rounds. */
  const K1: seq<bv32> := [0x5a827999, 0x6ed9eba1, 0x8f1bbcdc, 0xca62c1d6]

  function Round1(v: Words, t: nat, w: bv32): Words
    requires v.Sha1? && t < 20 * |K1|
  {
    Sha1(Rotl(v.a, 5) + Mix1(t, v.b, v.c, v.d) + v.e + K1[t / 20] + w, v.a, Rotl(v.b, 30), v.c, v.d)
  }

  function Rounds1(w: seq<bv32>, v: Words, t: nat): (r: Words)
    requires v.Sha1? && t <= 20 * |K1| <= |w|
    ensures r.Sha1?
  {
    if t == 0 then v else Round1(Rounds1(w, v, t - 1), t - 1, w[t - 1])
  }

  // ---- Digests ------------------------------------------------------------------

  function Plus(v: Words, r: Words): Words
    requires v.Sha1? == r.Sha1?
  {
    match v
    case Sha1(a, b, c, d, e) => Sha1(a + r.a, b + r.b, c + r.c, d + r.d, e + r.e)
    case Sha256(a, b, c, d, e, f, g, h) =>
      Sha256(a + r.a, b + r.b, c + r.c, d + r.d, e + r.e, f + r.f, g + r.g, h + r.h)
  }

  function Compress(v: Words, block: Block): Words {
    var start := BlockWords(block);
    Plus(v, if v.Sha1? then Rounds1(Grow(Next1, start, 20 * |K1| - 16), v, 20 * |K1|)
            else Rounds256(Grow(Next256, start, |K256| - 16), v, |K256|))
  }

  function WordBytes(w: bv32): (r: seq<byte>)
    ensures |r| == 4
  {
    var n := w as int;
    [n / 0x100_0000 % 256, n / 0x1_0000 % 256, n / 0x100 % 256, n % 256]
  }

  function DigestBytes(v: Words): (r: seq<byte>) {
    var five := WordBytes(v.a) + WordBytes(v.b) + WordBytes(v.c) + WordBytes(v.d) + WordBytes(v.e);
    if v.Sha1? then five else five + WordBytes(v.f) + WordBytes(v.g) + WordBytes(v.h)
  }

  function HashFrom(initial: Words, message: seq<byte>): seq<byte> {
    DigestBytes(Fold(Compress, initial, Padded(message)))
  }

  lemma {:induction false} FoldKeepsFunction(v: Words, data: seq<byte>)
    requires |data| % 64 == 0
    ensures Fold(Compress, v, data).Sha1? == v.Sha1?
    decreases |data|
  {
    if |data| > 0 {
      FoldKeepsFunction(Compress(v, data[..64]), data[64..]);
    }
  }

  function HashSha1(message: seq<byte>): (d: seq<byte>)
    ensures |d| == 20
  {
    FoldKeepsFunction(INITIAL_1, Padded(message));
    HashFrom(INITIAL_1, message)
  }

  function HashSha256(message: seq<byte>): (d: seq<byte>)
    ensures |d| == 32
  {
    FoldKeepsFunction(INITIAL_256, Padded(message));
    HashFrom(INITIAL_256, message)
  }

  // ---- HMAC, section 2 of RFC 2104 ------------------------------------------------

  function Xor(a: byte, b: byte): byte {
    ((a as bv8) ^ (b as bv8)) as byte
  }

  function XorAll(key: seq<byte>, pad: byte): (r: seq<byte>)
    ensures |r| == |key|
  {
    seq(|key|, i requires 0 <= i < |key| => Xor(key[i], pad))
  }

  /** A key longer than a block is hashed first; either way it is zero-filled to one block. */
  function BlockKey(key: seq<byte>): (k: seq<byte>)
    ensures |k| == 64
  {
    var short := if |key| > 64 then HashSha256(key) else key;
    short + Zeros(64 - |short|)
  }

  function Hmac(key: seq<byte>, text: seq<byte>): seq<byte> {
    var k := BlockKey(key);
    HashSha256(XorAll(k, 0x5c) + HashSha256(XorAll(k, 0x36) + text))
  }
}
