/** The streaming contexts of sha1.c and sha256.c, which share one structure: a state,
    a bit count, a 64-byte buffer and its fill. The compression step is a field here;
    ShaHash supplies the two steps. */
module ShaContext {
  import opened Bytes
  import opened BlockFold

  class Context<H> {
    const step: (H, Block) -> H
    var state: H
    var bits: nat
    const buffer: array<byte>
    var used: nat
    ghost const initial: H
    ghost var done: seq<byte>  // the bytes compressed into state so far

    /** Everything but the bit count, which update advances before the bytes. */
    ghost predicate Buffered()
      reads this, buffer
    {
      && buffer.Length == 64
      && used < 64
      && |done| % 64 == 0
      && state == Fold(step, initial, done)
    }

    /** Every byte hashed so far. */
    ghost function Message(): seq<byte>
      reads this, buffer
      requires Buffered()
    {
      done + buffer[..used]
    }

    ghost predicate Valid()
      reads this, buffer
    {
      Buffered() && bits == BitCount(|Message()|)
    }

    constructor (initial: H, step: (H, Block) -> H)
      ensures Valid() && fresh(buffer)
      ensures this.step == step && this.initial == initial && Message() == []
    {
      this.step := step;
      this.initial := initial;
      state := initial;
      bits := 0;
      buffer := new byte[64];
      used := 0;
      done := [];
    }

    /** Compresses the full buffer. */
    method Absorb()
      requires buffer.Length == 64 && |done| % 64 == 0 && state == Fold(step, initial, done)
      modifies this`state, this`used, this`done
      ensures Buffered() && used == 0 && done == old(done) + buffer[..]
    {
      FoldSnoc(step, initial, done, buffer[..]);
      state := step(state, buffer[..]);
      done := done + buffer[..];
      used := 0;
    }

    method Copy(piece: seq<byte>)
      requires Buffered() && |piece| <= 64 - used
      modifies this`used, buffer
      ensures used == old(used) + |piece| && buffer[..used] == old(buffer[..used]) + piece
    {
      forall k | 0 <= k < |piece| {
        buffer[used + k] := piece[k];
      }
      assert buffer[..used + |piece|] == old(buffer[..used]) + piece;
      used := used + |piece|;
    }

    /** Copies one piece that fits into the buffer, compressing when it fills. */
    method Take(piece: seq<byte>)
      requires Buffered() && 0 < |piece| <= 64 - used
      modifies this`state, this`used, this`done, buffer
      ensures Buffered() && Message() == old(Message()) + piece
    {
      Copy(piece);
      if used == 64 {
        assert buffer[..] == buffer[..used];
        Absorb();
      }
    }

    method Update(data: seq<byte>)
      requires Valid()
      modifies this`state, this`bits, this`used, this`done, buffer
      ensures Valid() && Message() == old(Message()) + data
    {
      BitCountAdds(|Message()|, |data|);
      bits := (bits + 8 * |data|) % 0x1_0000_0000_0000_0000;
      var cursor := 0;
      while cursor < |data|
        invariant cursor <= |data|
        invariant Buffered() && Message() == old(Message()) + data[..cursor]
        invariant bits == BitCount(|old(Message())| + |data|)
      {
        var take := 64 - used;
        if take > |data| - cursor {
          take := |data| - cursor;
        }
        Take(data[cursor..cursor + take]);
        assert data[..cursor + take] == data[..cursor] + data[cursor..cursor + take];
        cursor := cursor + take;
      }
    }

    /** Writes zeros from used up to limit. */
    method ZeroFill(limit: nat)
      requires buffer.Length == 64 && used <= limit <= 64
      modifies this`used, buffer
      ensures used == limit
      ensures buffer[..limit] == old(buffer[..used]) + Zeros(limit - old(used))
    {
      while used < limit
        invariant old(used) <= used <= limit
        invariant buffer[..used] == old(buffer[..used]) + Zeros(used - old(used))
      {
        buffer[used] := 0;
        used := used + 1;
      }
    }

    /** Zeros to the end of the block, which is then compressed. */
    method FillBlock()
      requires buffer.Length == 64 && used <= 64 && |done| % 64 == 0 && state == Fold(step, initial, done)
      modifies this`state, this`used, this`done, buffer
      ensures Buffered() && used == 0 && done == old(done + buffer[..used] + Zeros(64 - used))
    {
      ghost var whole := done + buffer[..used] + Zeros(64 - used);
      ZeroFill(64);
      assert buffer[..64] == buffer[..];
      Absorb();
      assert done == whole;
    }

    /** Appends 0x80 and zeros, leaving room for the length at the end of the block. */
    method Pad()
      requires Buffered()
      modifies this`state, this`used, this`done, buffer
      ensures Buffered() && used == 56
      ensures Message() == old(Message()) + [0x80] + Zeros(PadZeros(|old(Message())|))
    {
      ghost var start := used;
      ghost var marked := Message() + [0x80];
      buffer[used] := 0x80;
      used := used + 1;
      assert buffer[..used] == old(buffer[..used]) + [0x80];
      if used > 56 {
        FillBlock();
        assert done == marked + Zeros(63 - start);
      }
      ZeroFill(56);
      PadZerosAfter(|old(done)|, start);
    }

    method WriteLength()
      requires buffer.Length == 64
      modifies buffer
      ensures buffer[..] == old(buffer[..56]) + BigEndian(bits, 8)
    {
      ghost var length := BigEndian(bits, 8);
      for i := 0 to 8
        invariant buffer[..56] == old(buffer[..56])
        invariant buffer[64 - i..] == length[8 - i..]
      {
        assert length[7 - i] == ShiftBytes(bits, i) % 256;
        buffer[63 - i] := ShiftBytes(bits, i) % 256;
        assert buffer[63 - i..] == [buffer[63 - i]] + buffer[64 - i..];
      }
    }

    /** Pads and compresses what is left. The context is spent afterwards. */
    method Final() returns (result: H)
      requires Valid()
      modifies this`state, this`used, this`done, buffer
      ensures result == Fold(step, initial, Padded(old(Message())))
    {
      Pad();
      WriteLength();
      Absorb();
      assert done == Padded(old(Message()));
      result := state;
    }
  }
}
