// Octets, and the few facts about byte sequences the other modules share.
module Bytes {
  type byte = x: int | 0 <= x < 256

  const NUL: byte := 0
  const LF: byte := 10
  const CR: byte := 13
  const SPACE: byte := 32
  const QUOTE: byte := 34
  const DOT: byte := 46
  const BACKSLASH: byte := 92

  function Zeros(n: nat): (z: seq<byte>)
    ensures |z| == n
    ensures forall i | 0 <= i < n :: z[i] == 0
  {
    seq(n, i => 0)
  }

  /** The pieces of a stream laid end to end. */
  function Flatten<T>(pieces: seq<seq<T>>): seq<T> {
    if |pieces| == 0 then [] else pieces[0] + Flatten(pieces[1..])
  }

  lemma Regroup<T>(a: seq<T>, b: seq<T>, c: seq<T>)
    ensures a + b + c == a + (b + c)
  {
  }

  lemma FlattenSnoc<T>(pieces: seq<seq<T>>, last: seq<T>)
    ensures Flatten(pieces + [last]) == Flatten(pieces) + last
  {
    if |pieces| == 0 {
      assert pieces + [last] == [last];
    } else {
      assert (pieces + [last])[1..] == pieces[1..] + [last];
      FlattenSnoc(pieces[1..], last);
    }
  }

  lemma FlattenTake<T>(pieces: seq<seq<T>>, k: nat)
    requires k < |pieces|
    ensures Flatten(pieces[..k + 1]) == Flatten(pieces[..k]) + pieces[k]
  {
    assert pieces[..k + 1] == pieces[..k] + [pieces[k]];
    FlattenSnoc(pieces[..k], pieces[k]);
  }
}
