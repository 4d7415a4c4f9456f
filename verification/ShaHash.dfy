/** The loops of sha1_compress and sha256_compress, digests of chunked messages, and HMAC. */
module ShaHash {
  import opened Bytes
  import opened BlockFold
  import opened ShaSpec
  import opened ShaContext

  /** The schedule loop of either function: words from the block, then extension in place. */
  method FillSchedule(next: Schedule -> bv32, block: Block, size: nat) returns (words: array<bv32>)
    requires size >= 16
    ensures fresh(words) && words[..] == Grow(next, BlockWords(block), size - 16)
  {
    words := new bv32[size];
    for i := 0 to 16
      invariant words[..i] == BlockWords(block)[..i]
    {
      words[i] := ReadBe32(block, i);
    }
    for i := 16 to size
      invariant words[..i] == Grow(next, BlockWords(block), i - 16)
    {
      words[i] := next(words[..i]);
      assert words[..i + 1] == words[..i] + [words[i]];
    }
    assert words[..] == words[..size];
  }

  method CompressSha256(v: Words, block: Block) returns (r: Words)
    requires v.Sha256?
    ensures r == Compress(v, block)
  {
    var words := FillSchedule(Next256, block, |K256|);
    var w := v;
    for i := 0 to |K256|
      invariant w == Rounds256(words[..], v, i)
    {
      w := Round256(w, K256[i], words[i]);
    }
    r := Plus(v, w);
  }

  method CompressSha1(v: Words, block: Block) returns (r: Words)
    requires v.Sha1?
    ensures r == Compress(v, block)
  {
    var words := FillSchedule(Next1, block, 20 * |K1|);
    var w := v;
    for i := 0 to 20 * |K1|
      invariant w == Rounds1(words[..], v, i)
    {
      w := Round1(w, i, words[i]);
    }
    r := Plus(v, w);
  }

  /** The digest of a message handed over in any pieces is the hash of the whole message. */
  method HashPieces(initial: Words, pieces: seq<seq<byte>>) returns (digest: seq<byte>)
    ensures digest == HashFrom(initial, Flatten(pieces))
  {
    var context := new Context(initial, Compress);
    for i := 0 to |pieces|
      invariant fresh(context) && fresh(context.buffer)
      invariant context.Valid() && context.step == Compress && context.initial == initial
      invariant context.Message() == Flatten(pieces[..i])
    {
      context.Update(pieces[i]);
      FlattenTake(pieces, i);
    }
    assert pieces[..|pieces|] == pieces;
    var result := context.Final();
    digest := DigestBytes(result);
  }

  method NormalizeKey(key: seq<byte>) returns (normalized: array<byte>)
    ensures fresh(normalized) && normalized[..] == BlockKey(key)
  {
    normalized := new byte[64](_ => 0);
    var short := key;
    if |key| > 64 {
      short := HashPieces(INITIAL_256, [key]);
      FlattenOne(key);
      assert short == HashSha256(key);
    }
    forall k | 0 <= k < |short| {
      normalized[k] := short[k];
    }
    assert normalized[..] == short + Zeros(64 - |short|);
  }

  method XorPad(key: array<byte>, pad: byte) returns (padded: array<byte>)
    ensures fresh(padded) && padded[..] == XorAll(key[..], pad)
  {
    padded := new byte[key.Length];
    for i := 0 to key.Length
      invariant forall j | 0 <= j < i :: padded[j] == Xor(key[j], pad)
    {
      padded[i] := Xor(key[i], pad);
    }
  }

  /** hmac_sha256 computes HMAC for every key length. */
  method HmacSha256(key: seq<byte>, data: seq<byte>) returns (digest: seq<byte>)
    ensures digest == Hmac(key, data)
  {
    var normalizedKey := NormalizeKey(key);
    var innerPad := XorPad(normalizedKey, 0x36);
    var outerPad := XorPad(normalizedKey, 0x5c);
    var innerDigest := HashPieces(INITIAL_256, [innerPad[..], data]);
    FlattenTwo(innerPad[..], data);
    digest := HashPieces(INITIAL_256, [outerPad[..], innerDigest]);
    FlattenTwo(outerPad[..], innerDigest);
  }

  lemma FlattenOne<T>(a: seq<T>)
    ensures Flatten([a]) == a
  {
    assert Flatten([a]) == a + Flatten<T>([]);
  }

  lemma FlattenTwo<T>(a: seq<T>, b: seq<T>)
    ensures Flatten([a, b]) == a + b
  {
    assert [a, b][1..] == [b];
    FlattenOne(b);
  }
}
