/** The block structure SHA-1 and SHA-256 share: padding to 64-byte blocks
    (FIPS 180-4, section 5.1.1) and folding a compression step over them
    (sections 5.2.1 and 6). The compression step is a parameter here. */
module BlockFold {
  import opened Bytes


  type Block = b: seq<byte> | |b| == 64 witness Zeros(64)

  function Fold<H>(step: (H, Block) -> H, h: H, data: seq<byte>): H
    requires |data| % 64 == 0
    decreases |data|
  {
    if |data| == 0 then h else Fold(step, step(h, data[..64]), data[64..])
  }

  lemma {:induction false} FoldSplit<H>(step: (H, Block) -> H, h: H, a: seq<byte>, b: seq<byte>)
    requires |a| % 64 == 0 && |b| % 64 == 0
    ensures |a + b| % 64 == 0
    ensures Fold(step, h, a + b) == Fold(step, Fold(step, h, a), b)
    decreases |a|
  {
    if |a| == 0 {
      assert a + b == b;
    } else {
      assert (a + b)[..64] == a[..64];
      assert (a + b)[64..] == a[64..] + b;
      FoldSplit(step, step(h, a[..64]), a[64..], b);
    }
  }

  lemma FoldSnoc<H>(step: (H, Block) -> H, h: H, a: seq<byte>, block: Block)
    requires |a| % 64 == 0
    ensures Fold(step, h, a + block) == step(Fold(step, h, a), block)
  {
    FoldSplit(step, h, a, block);
    assert block[..64] == block && block[64..] == [];
  }

  /** n >> 8 * i */
  function ShiftBytes(n: nat, i: nat): nat {
    if i == 0 then n else ShiftBytes(n / 256, i - 1)
  }

  /** The low k bytes of n, most significant first. */
  function BigEndian(n: nat, k: nat): (r: seq<byte>)
    ensures |r| == k
  {
    seq(k, i requires 0 <= i < k => ShiftBytes(n, k - 1 - i) % 256)
  }

  function FromBigEndian(b: seq<byte>): nat {
    if |b| == 0 then 0 else 256 * FromBigEndian(b[..|b| - 1]) + b[|b| - 1] as int
  }

  function Pow256(k: nat): (p: nat)
    ensures p > 0
  {
    if k == 0 then 1 else 256 * Pow256(k - 1)
  }

  lemma {:induction false} BigEndianRoundTrip(n: nat, k: nat)
    requires n < Pow256(k)
    ensures FromBigEndian(BigEndian(n, k)) == n
  {
    if k > 0 {
      BigEndianRoundTrip(n / 256, k - 1);
      var init := BigEndian(n, k)[..k - 1];
      forall i | 0 <= i < k - 1 ensures init[i] == BigEndian(n / 256, k - 1)[i] {
        assert ShiftBytes(n, k - 1 - i) == ShiftBytes(n / 256, k - 2 - i);
      }
      assert init == BigEndian(n / 256, k - 1);
      assert BigEndian(n, k)[k - 1] == ShiftBytes(n, 0) % 256;
    }
  }

  /** The zero bytes that bring a message, its 0x80 and an 8-byte length to a block edge. */
  function PadZeros(length: nat): (k: nat) {
    (55 - length) % 64
  }

  /** Section 5.1.1: the zero count completes the block, and no smaller one does. */
  lemma PadZerosIsLeast(length: nat, k: nat)
    ensures (length + 1 + PadZeros(length) + 8) % 64 == 0
    ensures (length + 1 + k + 8) % 64 == 0 ==> PadZeros(length) <= k
  {
    if (length + 1 + k + 8) % 64 == 0 && k < 64 {
      assert (55 - length - k) % 64 == 0;
    }
  }

  /** The zero count in terms of the fill of the last block. */
  lemma PadZerosAfter(done: nat, used: nat)
    requires done % 64 == 0 && used < 64
    ensures PadZeros(done + used) == if used < 56 then 55 - used else 119 - used
  {
    assert (55 - (done + used)) % 64 == (55 - used) % 64;
  }

  function Padded(message: seq<byte>): (p: seq<byte>)
    ensures |p| % 64 == 0
  {
    PaddedToBlocks(|message|);
    message + [0x80] + Zeros(PadZeros(|message|)) + BigEndian(BitCount(|message|), 8)
  }

  lemma PaddedToBlocks(length: nat)
    ensures (length + 1 + PadZeros(length) + 8) % 64 == 0
  {
  }

  /** The message length in bits, as a 64-bit counter holds it. */
  function BitCount(length: nat): nat {
    8 * length % 0x1_0000_0000_0000_0000
  }

  /** The bit count may be kept modulo 2^64 as a message grows. */
  lemma BitCountAdds(m: nat, d: nat)
    ensures (BitCount(m) + 8 * d) % 0x1_0000_0000_0000_0000 == BitCount(m + d)
  {
    var q := 8 * m / 0x1_0000_0000_0000_0000;
    assert 8 * (m + d) == q * 0x1_0000_0000_0000_0000 + (8 * m % 0x1_0000_0000_0000_0000 + 8 * d);
  }

  lemma PaddedParts(m: seq<byte>)
    ensures |Padded(m)| >= |m| + 9
    ensures Padded(m)[..|m|] == m
    ensures Padded(m)[|Padded(m)| - 8..] == BigEndian(BitCount(|m|), 8)
  {
  }

  lemma LengthFieldRoundTrip(m: seq<byte>)
    requires 8 * |m| < 0x1_0000_0000_0000_0000
    ensures FromBigEndian(BigEndian(BitCount(|m|), 8)) == 8 * |m|
  {
    assert Pow256(8) == 0x1_0000_0000_0000_0000;
    BigEndianRoundTrip(8 * |m|, 8);
  }

  /** The padding loses nothing: equal padded texts come from equal messages. */
  lemma PaddedIsInjective(a: seq<byte>, b: seq<byte>)
    requires 8 * |a| < 0x1_0000_0000_0000_0000 && 8 * |b| < 0x1_0000_0000_0000_0000
    requires Padded(a) == Padded(b)
    ensures a == b
  {
    PaddedParts(a);
    PaddedParts(b);
    LengthFieldRoundTrip(a);
    LengthFieldRoundTrip(b);
  }
}
