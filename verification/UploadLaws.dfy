/** Base64 text and uploads as they stand on the wire: the alphabet, the vectors of section 10 of RFC 4648,
    which texts decode, and what becomes of uploads that are not in order. */
module UploadLaws {
  import opened Base64
  import opened Bytes
  import opened DotFrame
  import opened LogJson
  import opened PolicyReceive
  import opened ShaSpec
  import opened Wrappers
  import P4J1
  import PolicyDelivery
  import PolicySend

  // ---- The alphabet ----------------------------------------------------------------------

  /** Table 1 of RFC 4648. */
  lemma Alphabet()
    ensures [Symbol(0), Symbol(1), Symbol(2), Symbol(3), Symbol(4), Symbol(5), Symbol(6), Symbol(7)]
         == Ascii("ABCDEFGH")
    ensures [Symbol(8), Symbol(9), Symbol(10), Symbol(11), Symbol(12), Symbol(13), Symbol(14), Symbol(15)]
         == Ascii("IJKLMNOP")
    ensures [Symbol(16), Symbol(17), Symbol(18), Symbol(19), Symbol(20), Symbol(21), Symbol(22), Symbol(23)]
         == Ascii("QRSTUVWX")
    ensures [Symbol(24), Symbol(25), Symbol(26), Symbol(27), Symbol(28), Symbol(29), Symbol(30), Symbol(31)]
         == Ascii("YZabcdef")
    ensures [Symbol(32), Symbol(33), Symbol(34), Symbol(35), Symbol(36), Symbol(37), Symbol(38), Symbol(39)]
         == Ascii("ghijklmn")
    ensures [Symbol(40), Symbol(41), Symbol(42), Symbol(43), Symbol(44), Symbol(45), Symbol(46), Symbol(47)]
         == Ascii("opqrstuv")
    ensures [Symbol(48), Symbol(49), Symbol(50), Symbol(51), Symbol(52), Symbol(53), Symbol(54), Symbol(55)]
         == Ascii("wxyz0123")
    ensures [Symbol(56), Symbol(57), Symbol(58), Symbol(59), Symbol(60), Symbol(61), Symbol(62), Symbol(63)]
         == Ascii("456789+/")
  {
  }

  /** And nothing else is a symbol. */
  lemma OnlySymbols(c: byte)
    requires IsSymbol(c)
    ensures Symbol(Value(c)) == c
  {
  }

  /** Test vectors of section 10: "f", "fo" and "foo" are "Zg==", "Zm8=" and "Zm9v". */
  lemma VectorF()
    ensures Encode([102]) == [90, 103, 61, 61]
  {
  }

  lemma VectorFo()
    ensures Encode([102, 111]) == [90, 109, 56, 61]
  {
  }

  lemma VectorFoo()
    ensures Encode([102, 111, 111]) == [90, 109, 57, 118]
  {
    assert Bits([102, 111, 111]) == 6713199;
    assert Quad([102, 111, 111]) == [Symbol(25), Symbol(38), Symbol(61), Symbol(47)];
  }

  /** Groups are encoded one after the other. */
  lemma EncodeGroups(group: seq<byte>, more: seq<byte>)
    requires |group| == 3 && more != []
    ensures Encode(group + more) == Encode(group) + Encode(more)
  {
    assert (group + more)[..3] == group && (group + more)[3..] == more;
  }

  // ---- Which texts decode ------------------------------------------------------------------

  /** Whole quads of symbols, the last with up to two pads at its end. */
  predicate Padded4(s: seq<byte>) {
    && |s| % 4 == 0
    && (forall i | 0 <= i < |s| - 2 :: IsSymbol(s[i]))
    && (s != [] ==> var a, b := s[|s| - 2], s[|s| - 1];
         (IsSymbol(a) && (IsSymbol(b) || b == 61)) || (a == 61 && b == 61))
  }

  predicate Symbols(s: seq<byte>) {
    forall i | 0 <= i < |s| :: IsSymbol(s[i])
  }

  lemma QuadOfSymbols(q: seq<byte>)
    requires |q| == 4
    ensures Unquad(q, false).Some? <==> Symbols(q)
    ensures Unquad(q, true).Some? <==> Padded4(q)
  {
    assert Symbols(q) <==> IsSymbol(q[0]) && IsSymbol(q[1]) && IsSymbol(q[2]) && IsSymbol(q[3]);
  }

  lemma PaddedStep(first: seq<byte>, more: seq<byte>)
    requires |first| == 4 && |more| > 0
    ensures Padded4(first + more) <==> Symbols(first) && Padded4(more)
  {
    var s := first + more;
    assert forall i | 0 <= i < 4 :: s[i] == first[i];
    assert forall i | 0 <= i < |more| :: s[i + 4] == more[i];
    if Padded4(s) {
      assert |more| >= 4;
      forall i | 0 <= i < |more| - 2 ensures IsSymbol(more[i]) {
        assert more[i] == s[i + 4];
      }
    }
    if Symbols(first) && Padded4(more) {
      forall i | 0 <= i < |s| - 2 ensures IsSymbol(s[i]) {
        assert i >= 4 ==> s[i] == more[i - 4];
      }
    }
  }

  lemma DecodeStep(first: seq<byte>, more: seq<byte>)
    requires |first| == 4 && |more| > 0
    ensures Decode(first + more).Some? <==> Unquad(first, false).Some? && Decode(more).Some?
  {
    assert (first + more)[..4] == first && (first + more)[4..] == more;
  }

  lemma {:induction false} DecodesPadded(s: seq<byte>)
    ensures Decode(s).Some? <==> Padded4(s)
  {
    if |s| == 4 {
      OneQuad(s);
      QuadOfSymbols(s);
    } else if |s| > 4 {
      var first, more := s[..4], s[4..];
      assert s == first + more;
      DecodesPadded(more);
      DecodeStep(first, more);
      QuadOfSymbols(first);
      PaddedStep(first, more);
    }
  }

  // ---- Lines -------------------------------------------------------------------------------

  /** The sender's lines have 76 characters, all but the last. */
  lemma {:induction false} LinesOf76(text: seq<byte>, i: nat)
    requires i < |PolicySend.Chunked(text)|
    ensures if i < |PolicySend.Chunked(text)| - 1 then |PolicySend.Chunked(text)[i]| == 76
            else 1 <= |PolicySend.Chunked(text)[i]| <= 76
  {
    if |text| > 76 && i > 0 {
      LinesOf76(text[76..], i - 1);
    }
  }

  /** The receiver takes a line of up to 158 bytes whole, and a longer one 159 bytes at a time. */
  lemma LinesOf159(input: seq<byte>)
    requires input != []
    ensures var i := IndexOf(LF, input);
      Taken(input) == if i < |input| && i <= 158 then i + 1 else if |input| < 159 then |input| else 159
  {
  }

  /** Bytes that stand for a line as it is. */
  predicate OneLine(line: seq<byte>) {
    |line| <= 158 && 0 !in line && 10 !in line && 13 !in line
  }

  lemma StripNothing(line: seq<byte>, end: seq<byte>)
    requires OneLine(line) && (end == [10] || end == [13, 10])
    ensures Strip(CString(line + end)) == line
  {
    CStringIsWhole(line + end);
    assert Strip(line) == line;
    if end == [10] {
      assert (line + end)[..|line|] == line;
    } else {
      assert (line + end)[..|line| + 1] == line + [13];
      assert (line + [13])[..|line|] == line;
    }
  }

  /** A line is base64 text to be gathered, or it ends the upload: when it is empty, or holds a byte that
      is neither a symbol nor a pad. */
  lemma GathersOrEnds(line: seq<byte>, rest: seq<byte>)
    requires OneLine(line)
    ensures var input := line + [10] + rest;
      if line != [] && (forall i | 0 <= i < |line| :: IsSymbol(line[i]) || line[i] == 61) then
        Gathered(input) == line + Gathered(rest) && Left(input) == Left(rest)
      else Gathered(input) == [] && Left(input) == rest
  {
    var input := line + [10] + rest;
    assert forall j | 0 <= j < |line| :: input[j] == line[j];
    IndexOfIs(LF, input, |line|);
    assert Taken(input) == |line| + 1 && input[..|line| + 1] == line + [10] && input[|line| + 1..] == rest;
    StripNothing(line, [10]);
  }

  // ---- Verdicts ----------------------------------------------------------------------------

  /** What becomes of an upload: 21848 characters hold 16384 octets. */
  lemma Verdicts(encoded: seq<byte>, expected: seq<byte>)
    ensures Judged(encoded, expected).TooLarge? <==> |encoded| > 21848
    ensures var decoded := Decode(encoded);
      && (decoded.Some? <==> Padded4(encoded))
      && (decoded.None? && |encoded| <= 21848 ==> Judged(encoded, expected).InvalidBase64?)
      && (decoded.Some? && |encoded| <= 21848 && |decoded.value| > 16384 ==> Judged(encoded, expected).InvalidBase64?)
      && (decoded.Some? && |encoded| <= 21848 && |decoded.value| <= 16384 ==>
           if HashSha1(decoded.value) == expected then Judged(encoded, expected) == Staged(decoded.value)
           else Judged(encoded, expected).Mismatch?)
  {
    DecodesPadded(encoded);
  }

  /** The command line: the name of the command and the lower-case digest. */
  lemma CommandText(policy: seq<byte>)
    ensures PolicyDelivery.Command(policy) == Ascii("p4exec policy ") + Ascii("upload ") + P4J1.HexText(HashSha1(policy))
  {
    assert Ascii("p4exec policy upload ") == Ascii("p4exec policy ") + Ascii("upload ");
  }
}
