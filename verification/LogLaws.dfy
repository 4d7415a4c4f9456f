/** Reports, P4J1 lines and responses as they stand on the wire, byte by byte. */
module LogLaws {
  import opened Bytes
  import opened DotFrame
  import opened DotReceive
  import opened LogJson
  import opened P4J1
  import opened ShaSpec
  import opened Wrappers

  // ---- The report ------------------------------------------------------------------------

  /** A quote and a backslash are escaped by a backslash, other printable bytes stand for themselves, and
      the rest are four hexadecimal digits. */
  lemma EscapedBytes(ch: byte)
    ensures ch == 34 || ch == 92 ==> EscapeByte(ch) == [92, ch]
    ensures 32 <= ch < 127 && ch != 34 && ch != 92 ==> EscapeByte(ch) == [ch]
    ensures ch < 32 || ch >= 127 ==> EscapeByte(ch)[..4] == [92, 117, 48, 48] && |EscapeByte(ch)| == 6
  {
  }

  /** The digits are those of C's %x. */
  lemma HexDigits()
    ensures [HexDigit(0), HexDigit(1), HexDigit(2), HexDigit(3), HexDigit(4), HexDigit(5), HexDigit(6), HexDigit(7)]
         == Ascii("01234567")
    ensures [HexDigit(8), HexDigit(9), HexDigit(10), HexDigit(11), HexDigit(12), HexDigit(13), HexDigit(14), HexDigit(15)]
         == Ascii("89abcdef")
  {
  }

  /** Digits are read in either case, and nothing else is a digit. */
  lemma HexDigitsRead(n: nat, d: byte)
    requires n < 16
    ensures HexValue(d) == Some(n) <==> d == HexDigit(n) || (n >= 10 && d == HexDigit(n) - 32)
  {
  }

  lemma HexOrNothing(d: byte)
    ensures HexValue(d).Some? ==> 0 <= HexValue(d).value < 16
    ensures IsDigit(d) <==> HexValue(d).Some? && HexValue(d).value < 10
  {
  }

  lemma EscapeOne(ch: byte, rest: seq<byte>)
    ensures Escape([ch] + rest) == EscapeByte(ch) + Escape(rest)
  {
    assert ([ch] + rest)[1..] == rest;
  }

  lemma EscapeThree()
    ensures Escape([34, 10, 200]) == Ascii("\\\"") + Ascii("\\u000a") + Ascii("\\u00c8")
  {
    EscapeOne(34, [10, 200]);
    EscapeOne(10, [200]);
    EscapeOne(200, []);
    assert [34] + [10, 200] == [34, 10, 200] && [10] + [200] == [10, 200] && [200] + [] == [200];
    assert EscapeByte(34) == Ascii("\\\"") && EscapeByte(10) == Ascii("\\u000a") && EscapeByte(200) == Ascii("\\u00c8");
  }

  /** The report of a log that holds a quote, a line feed and the byte 200. */
  lemma ReportOfThree()
    ensures Report([34, 10, 200]) == Ascii("{\"type\":\"logs\",\"length\":") + Ascii("3") + Ascii(",\"text\":")
      + (Ascii("\"") + (Ascii("\\\"") + Ascii("\\u000a") + Ascii("\\u00c8")) + Ascii("\"")) + Ascii("}")
  {
    EscapeThree();
    CStringIsWhole([34, 10, 200]);
    assert Decimal(3) == Ascii("3") && [QUOTE] == Ascii("\"");
  }

  lemma DecimalOf(n: nat)
    requires n >= 10
    ensures Decimal(n) == Decimal(n / 10) + Decimal(n % 10)
  {
  }

  // ---- The line --------------------------------------------------------------------------

  /** Two digits for each byte, the high one first. */
  lemma {:induction false} HexTextAt(bytes: seq<byte>, i: nat)
    requires i < |bytes|
    ensures HexText(bytes)[2 * i] == HexDigit(bytes[i] as int / 16)
    ensures HexText(bytes)[2 * i + 1] == HexDigit(bytes[i] as int % 16)
  {
    if i > 0 {
      HexTextAt(bytes[1..], i - 1);
    }
  }

  lemma HexIsText(bytes: seq<byte>, hex: seq<byte>)
    requires |hex| == 2 * |bytes|
    requires forall i | 0 <= i < |bytes| :: hex[2 * i] == HexDigit(bytes[i] as int / 16)
    requires forall i | 0 <= i < |bytes| :: hex[2 * i + 1] == HexDigit(bytes[i] as int % 16)
    ensures hex == HexText(bytes)
  {
    forall k | 0 <= k < |hex| ensures hex[k] == HexText(bytes)[k] {
      HexTextAt(bytes, k / 2);
      assert k == 2 * (k / 2) || k == 2 * (k / 2) + 1;
    }
  }

  /** A line: the prefix, the length, the digest in hexadecimal and the text. */
  lemma LineText(json: seq<byte>)
    ensures Line(json) == Ascii("P4J1 ") + (Decimal(|json|) + ([32] + (HexText(HashSha1(json)) + ([32] + json))))
  {
  }

  // ---- strtoul ---------------------------------------------------------------------------

  /** It passes over leading space, */
  lemma StrtoulBlank(blank: byte, s: seq<byte>)
    requires blank == 32 || 9 <= blank <= 13
    ensures Strtoul([blank] + s) == if Strtoul(s).1 == 0 then (0, 0) else (Strtoul(s).0, Strtoul(s).1 + 1)
  {
    var t := [blank] + s;
    assert t[1..] == s;
    assert t[SpaceCount(t)..] == s[SpaceCount(s)..];
  }

  /** takes a sign, negating as unsigned numbers do, and stops at the largest unsigned long. */
  lemma StrtoulSign(minus: bool, digits: seq<byte>, rest: seq<byte>)
    requires |digits| > 0 && AllDigits(digits) && |rest| > 0 && !IsDigit(rest[0])
    ensures var v := DigitsValue(digits);
      Strtoul([if minus then 45 else 43] + (digits + rest))
        == (if v > 0xffff_ffff_ffff_ffff then 0xffff_ffff_ffff_ffff
            else if minus && v > 0 then 0x1_0000_0000_0000_0000 - v
            else v,
            1 + |digits|)
  {
    var s := [if minus then 45 else 43] + (digits + rest);
    assert s[0..] == s && s[1..] == digits + rest && SpaceCount(s) == 0;
    MagnitudeOf(digits, rest, minus);
  }

  lemma MagnitudeOf(digits: seq<byte>, rest: seq<byte>, minus: bool)
    requires |digits| > 0 && AllDigits(digits) && |rest| > 0 && !IsDigit(rest[0])
    ensures var v := DigitsValue(digits);
      Magnitude(digits + rest, minus)
        == (if v > 0xffff_ffff_ffff_ffff then 0xffff_ffff_ffff_ffff
            else if minus && v > 0 then 0x1_0000_0000_0000_0000 - v
            else v,
            |digits|)
  {
    DigitCountIs(digits, rest);
    assert (digits + rest)[..|digits|] == digits;
  }

  /** Without a digit there is nothing. */
  lemma StrtoulNothing(s: seq<byte>)
    requires |s| == 0 || (s[0] != 32 && !(9 <= s[0] <= 13) && s[0] != 43 && s[0] != 45 && !IsDigit(s[0]))
    ensures Strtoul(s) == (0, 0)
  {
    assert s[0..] == s && SpaceCount(s) == 0;
  }

  // ---- Lower case --------------------------------------------------------------------------

  /** power4d lowers a digest in upper case and leaves everything else. */
  lemma Lowered()
    ensures Lower(Ascii("AZaz09@[")) == Ascii("azaz09@[")
  {
  }

  // ---- The response ----------------------------------------------------------------------

  lemma StuffNext(lineStart: bool, first: byte, tail: seq<byte>, text: seq<byte>)
    requires text == [first] + tail
    ensures Stuff(lineStart, text) == (if lineStart && first == 46 then [46, 46] else [first]) + Stuff(first == 10, tail)
  {
    StuffFirst(lineStart, first, tail);
  }

  /** A text of two lines that start with dots, the second without a line end, as it is framed. */
  lemma FrameOfDots()
    ensures Frame([46, 10, 46, 46, 97]) == [46, 46, 10, 46, 46, 46, 97, 10, 46, 10]
    ensures Frame([97, 10]) == [97, 10, 46, 10] && Frame([]) == [46, 10]
  {
    StuffNext(true, 46, [10, 46, 46, 97], [46, 10, 46, 46, 97]);
    StuffNext(false, 10, [46, 46, 97], [10, 46, 46, 97]);
    StuffNext(true, 46, [46, 97], [46, 46, 97]);
    StuffNext(false, 46, [97], [46, 97]);
    StuffNext(false, 97, [], [97]);
    StuffNext(true, 97, [10], [97, 10]);
    StuffNext(false, 10, [], [10]);
  }

  /** A line that starts with a dot must go on with another; the first is dropped. */
  lemma UnstuffLines(rest: seq<byte>)
    ensures Unstuff([46]) == None && Unstuff([46, 46] + rest) == Some([46] + rest)
    ensures rest == [] || rest[0] != 46 ==> Unstuff(rest) == Some(rest) && Unstuff([46] + rest) == None
  {
    assert ([46, 46] + rest)[1..] == [46] + rest;
  }
}
