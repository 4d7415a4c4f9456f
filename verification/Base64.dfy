/** Base64 as section 4 of RFC 4648 defines it. */
module Base64 {
  import opened Bytes
  import opened Wrappers

  const PAD: byte := 61

  function Symbol(v: int): (c: byte)
    requires 0 <= v < 64
    ensures IsSymbol(c)
  {
    if v < 26 then 65 + v
    else if v < 52 then 97 + (v - 26)
    else if v < 62 then 48 + (v - 52)
    else if v == 62 then 43
    else 47
  }

  predicate IsSymbol(c: byte) {
    65 <= c <= 90 || 97 <= c <= 122 || 48 <= c <= 57 || c == 43 || c == 47
  }

  function Value(c: byte): (v: int)
    requires IsSymbol(c)
    ensures 0 <= v < 64
  {
    if 65 <= c <= 90 then c as int - 65
    else if 97 <= c <= 122 then c as int - 97 + 26
    else if 48 <= c <= 57 then c as int - 48 + 52
    else if c == 43 then 62
    else 63
  }

  lemma SymbolValue(v: int)
    requires 0 <= v < 64
    ensures Value(Symbol(v)) == v
  {
  }

  // ---- Encoding ----------------------------------------------------------------------

  function Byte(group: seq<byte>, i: nat): (b: int)
    ensures 0 <= b < 256
  {
    if i < |group| then group[i] as int else 0
  }

  /** The 24 bits of a group of one to three octets. */
  function Bits(group: seq<byte>): (v: int)
    ensures 0 <= v < 0x100_0000
  {
    Byte(group, 0) * 65536 + Byte(group, 1) * 256 + Byte(group, 2)
  }

  function Quad(group: seq<byte>): (q: seq<byte>)
    requires 1 <= |group| <= 3
    ensures |q| == 4
  {
    var v := Bits(group);
    [Symbol(v / 262144), Symbol(v / 4096 % 64),
     if |group| < 2 then PAD else Symbol(v / 64 % 64),
     if |group| < 3 then PAD else Symbol(v % 64)]
  }

  predicate Coded(s: seq<byte>) {
    forall i | 0 <= i < |s| :: IsSymbol(s[i]) || s[i] == PAD
  }

  function Encode(data: seq<byte>): (e: seq<byte>)
    ensures |e| == (|data| + 2) / 3 * 4
  {
    if |data| == 0 then []
    else if |data| <= 3 then Quad(data)
    else Quad(data[..3]) + Encode(data[3..])
  }

  lemma {:induction false} EncodeIsCoded(data: seq<byte>)
    ensures Coded(Encode(data))
  {
    if |data| > 3 {
      EncodeIsCoded(data[3..]);
      var q := Quad(data[..3]);
      assert Coded(q);
    }
  }

  // ---- Decoding ----------------------------------------------------------------------

  function Octets(v: int, n: nat): (r: seq<byte>)
    requires 0 <= v < 0x100_0000 && 1 <= n <= 3
    ensures |r| == n
  {
    [v / 65536, v / 256 % 256, v % 256][..n]
  }

  /** A quad gives three octets; only the last one may be padded. */
  function Unquad(q: seq<byte>, last: bool): (r: Option<seq<byte>>)
    requires |q| == 4
    ensures r.Some? ==> 1 <= |r.value| <= 3
  {
    if !IsSymbol(q[0]) || !IsSymbol(q[1]) then None
    else
      var head := Value(q[0]) * 262144 + Value(q[1]) * 4096;
      if IsSymbol(q[2]) && IsSymbol(q[3]) then Some(Octets(head + Value(q[2]) * 64 + Value(q[3]), 3))
      else if !last || q[3] != PAD then None
      else if IsSymbol(q[2]) then Some(Octets(head + Value(q[2]) * 64, 2))
      else if q[2] == PAD then Some(Octets(head, 1))
      else None
  }

  function Decode(s: seq<byte>): Option<seq<byte>> {
    if |s| == 0 then Some([])
    else if |s| < 4 then None
    else
      var first, more := Unquad(s[..4], |s| == 4), Decode(s[4..]);
      if first.None? || more.None? then None else Some(first.value + more.value)
  }

  // ---- Round trip --------------------------------------------------------------------

  lemma Sextets(v: int)
    requires 0 <= v < 0x100_0000
    ensures v == v / 262144 * 262144 + v / 4096 % 64 * 4096 + v / 64 % 64 * 64 + v % 64
    ensures 0 <= v / 262144 < 64
  {
    var a := v / 64;
    var b := a / 64;
    assert v / 4096 == b && v / 262144 == b / 64;
    assert v == a * 64 + v % 64 && a == b * 64 + a % 64 && b == b / 64 * 64 + b % 64;
  }

  lemma OctetsOfBits(group: seq<byte>)
    requires 1 <= |group| <= 3
    ensures Octets(Bits(group), |group|) == group
  {
    var v, a, b, c := Bits(group), Byte(group, 0), Byte(group, 1), Byte(group, 2);
    assert v / 65536 == a;
    assert v / 256 == a * 256 + b;
    assert v % 256 == c;
  }

  /** The sextets that padding stands for are zero. */
  lemma PaddedBits(group: seq<byte>)
    requires 1 <= |group| <= 3
    ensures |group| < 3 ==> Bits(group) % 64 == 0
    ensures |group| < 2 ==> Bits(group) / 64 % 64 == 0
  {
  }

  lemma QuadRoundTrip(group: seq<byte>, last: bool)
    requires 1 <= |group| <= 3 && (|group| == 3 || last)
    ensures Unquad(Quad(group), last) == Some(group)
  {
    var v := Bits(group);
    Sextets(v);
    PaddedBits(group);
    OctetsOfBits(group);
    SymbolValue(v / 262144);
    SymbolValue(v / 4096 % 64);
    SymbolValue(v / 64 % 64);
    SymbolValue(v % 64);
  }

  /** Decoding undoes encoding. */
  lemma {:induction false} Base64RoundTrip(data: seq<byte>)
    ensures Decode(Encode(data)) == Some(data)
  {
    if |data| > 3 {
      var quad, more := Quad(data[..3]), Encode(data[3..]);
      Base64RoundTrip(data[3..]);
      QuadRoundTrip(data[..3], false);
      assert (quad + more)[..4] == quad && (quad + more)[4..] == more;
      assert data == data[..3] + data[3..];
    } else if |data| > 0 {
      QuadRoundTrip(data, true);
      OneQuad(Quad(data));
    }
  }

  lemma OneQuad(q: seq<byte>)
    requires |q| == 4
    ensures Decode(q) == Unquad(q, true)
  {
    assert q[..4] == q && q[4..] == [];
    assert Decode([]) == Some([]);
    if Unquad(q, true).Some? {
      assert Unquad(q, true).value + [] == Unquad(q, true).value;
    }
  }
}
