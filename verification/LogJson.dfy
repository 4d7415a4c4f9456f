/** The log report as JSON text: escaping as console.cpp does it, and the reading of it that
    section 7 of RFC 8259 prescribes. */
module LogJson {
  import opened Bytes
  import opened Wrappers

  function Ascii(s: string): (r: seq<byte>)
    requires forall i | 0 <= i < |s| :: 0 <= s[i] as int < 128
    ensures |r| == |s|
    ensures forall i | 0 <= i < |s| :: r[i] as int == s[i] as int
  {
    seq(|s|, i requires 0 <= i < |s| => s[i] as int)
  }

  function HexDigit(n: int): (d: byte)
    requires 0 <= n < 16
    ensures 48 <= d <= 57 || 97 <= d <= 102
  {
    if n < 10 then 48 + n else 87 + n
  }

  function HexValue(d: byte): Option<int> {
    if 48 <= d <= 57 then Some(d as int - 48)
    else if 97 <= d <= 102 then Some(d as int - 87)
    else if 65 <= d <= 70 then Some(d as int - 55)
    else None
  }

  lemma HexDigitValue(n: int)
    requires 0 <= n < 16
    ensures HexValue(HexDigit(n)) == Some(n)
  {
  }

  /** What a C string function sees of a buffer. */
  function CString(text: seq<byte>): (r: seq<byte>)
    ensures NUL !in r
  {
    if |text| == 0 || text[0] == NUL then [] else [text[0]] + CString(text[1..])
  }

  lemma {:induction false} CStringIsWhole(text: seq<byte>)
    ensures CString(text) == text <==> NUL !in text
  {
    if |text| > 0 && text[0] != NUL {
      CStringIsWhole(text[1..]);
      assert text == [text[0]] + text[1..];
    }
  }

  // ---- Escaping -------------------------------------------------------------------

  const LETTER_U: byte := 117
  const ZERO: byte := 48

  function EscapeByte(ch: byte): (r: seq<byte>)
    ensures 1 <= |r| <= 6
    ensures forall i | 0 <= i < |r| :: SPACE <= r[i] <= 126
  {
    if ch == QUOTE || ch == BACKSLASH then [BACKSLASH, ch]
    else if SPACE <= ch <= 126 then [ch]
    else [BACKSLASH, LETTER_U, ZERO, ZERO, HexDigit(ch as int / 16), HexDigit(ch as int % 16)]
  }

  function Escape(text: seq<byte>): (r: seq<byte>)
    ensures |text| <= |r| <= 6 * |text|
    ensures forall i | 0 <= i < |r| :: SPACE <= r[i] <= 126
  {
    if |text| == 0 then [] else EscapeByte(text[0]) + Escape(text[1..])
  }

  function Quoted(text: seq<byte>): seq<byte> {
    [QUOTE] + Escape(text) + [QUOTE]
  }

  datatype Scanned = Scanned(text: seq<byte>, rest: seq<byte>)

  /** One character of a string token: plain, a two-byte escape, or \u00hh, read as the byte
      it was made from. Section 7 of RFC 8259 makes it the code point U+00hh: a reader of JSON
      finds the log as Latin-1. */
  function ScanByte(s: seq<byte>): (r: Option<(byte, nat)>)
    ensures r.Some? ==> 0 < r.value.1 <= |s|
  {
    if |s| == 0 || s[0] == QUOTE || s[0] < SPACE then None
    else if s[0] != BACKSLASH then Some((s[0], 1))
    else if |s| >= 2 && (s[1] == QUOTE || s[1] == BACKSLASH) then Some((s[1], 2))
    else if |s| >= 6 && s[1] == LETTER_U && s[2] == ZERO && s[3] == ZERO
      && HexValue(s[4]).Some? && HexValue(s[5]).Some?
    then Some((HexValue(s[4]).value * 16 + HexValue(s[5]).value, 6))
    else None
  }

  /** The rest of a string token, up to its closing quote. */
  function ScanString(s: seq<byte>): Option<Scanned>
    decreases |s|
  {
    if |s| > 0 && s[0] == QUOTE then Some(Scanned([], s[1..]))
    else
      var first := ScanByte(s);
      if first.None? then None
      else
        var more := ScanString(s[first.value.1..]);
        if more.None? then None else Some(Scanned([first.value.0] + more.value.text, more.value.rest))
  }

  lemma ScanEscapedByte(ch: byte, rest: seq<byte>)
    ensures ScanByte(EscapeByte(ch) + rest) == Some((ch, |EscapeByte(ch)|))
    ensures EscapeByte(ch)[0] != QUOTE
  {
    HexDigitValue(ch as int / 16);
    HexDigitValue(ch as int % 16);
  }

  lemma EscapeThen(text: seq<byte>, tail: seq<byte>)
    requires |text| > 0
    ensures Escape(text) + tail == EscapeByte(text[0]) + (Escape(text[1..]) + tail)
  {
  }

  lemma ScanStep(ch: byte, more: seq<byte>)
    ensures var s := EscapeByte(ch) + more;
      ScanString(s) == if ScanString(more).None? then None
                       else Some(Scanned([ch] + ScanString(more).value.text, ScanString(more).value.rest))
  {
    ScanEscapedByte(ch, more);
    assert (EscapeByte(ch) + more)[|EscapeByte(ch)|..] == more;
  }

  /** Every byte survives escaping and reading. */
  lemma {:induction false} ScanEscaped(text: seq<byte>, rest: seq<byte>)
    ensures ScanString(Escape(text) + ([QUOTE] + rest)) == Some(Scanned(text, rest))
  {
    var tail := [QUOTE] + rest;
    if |text| == 0 {
      assert Escape(text) + tail == tail;
    } else {
      ScanEscaped(text[1..], rest);
      EscapeThen(text, tail);
      ScanStep(text[0], Escape(text[1..]) + tail);
      assert text == [text[0]] + text[1..];
    }
  }

  // ---- Decimal numbers --------------------------------------------------------------

  predicate IsDigit(d: byte) {
    48 <= d <= 57
  }

  function Decimal(n: nat): (r: seq<byte>)
    ensures |r| > 0 && forall i | 0 <= i < |r| :: IsDigit(r[i])
  {
    if n < 10 then [48 + n] else Decimal(n / 10) + [48 + n % 10]
  }

  function DigitsValue(s: seq<byte>): nat
    requires forall i | 0 <= i < |s| :: IsDigit(s[i])
  {
    if |s| == 0 then 0
    else
      assert IsDigit(s[|s| - 1]);
      10 * DigitsValue(s[..|s| - 1]) + (s[|s| - 1] as int - 48)
  }

  lemma {:induction false} DecimalRoundTrip(n: nat)
    ensures DigitsValue(Decimal(n)) == n
  {
    if n >= 10 {
      DecimalRoundTrip(n / 10);
      assert Decimal(n)[..|Decimal(n)| - 1] == Decimal(n / 10);
    } else {
      assert DigitsValue([]) == 0;
      assert Decimal(n)[..0] == [];
    }
  }

  function DigitCount(s: seq<byte>): (n: nat)
    ensures n <= |s| && forall i | 0 <= i < n :: IsDigit(s[i])
    ensures n < |s| ==> !IsDigit(s[n])
  {
    if |s| == 0 || !IsDigit(s[0]) then 0 else 1 + DigitCount(s[1..])
  }

  lemma DigitCountIs(digits: seq<byte>, rest: seq<byte>)
    requires forall i | 0 <= i < |digits| :: IsDigit(digits[i])
    requires |rest| > 0 && !IsDigit(rest[0])
    ensures DigitCount(digits + rest) == |digits|
  {
    var s := digits + rest;
    assert !IsDigit(s[|digits|]);
    assert forall i | 0 <= i < |digits| :: IsDigit(s[i]);
  }

  // ---- The report -------------------------------------------------------------------

  const LOG_HEAD: seq<byte> := Ascii("{\"type\":\"logs\",\"length\":")
  const LOG_TEXT: seq<byte> := Ascii(",\"text\":")
  const LOG_END: seq<byte> := Ascii("}")

  /** What report logs prints for a snapshot: the length of the snapshot, and its text up to a
      NUL, which ends the C string. */
  function Report(text: seq<byte>): seq<byte> {
    LOG_HEAD + Decimal(|text|) + LOG_TEXT + Quoted(CString(text)) + LOG_END
  }

  datatype Log = Log(length: nat, text: seq<byte>)

  /** Reads a report back. */
  function ReadReport(json: seq<byte>): Option<Log> {
    if !(LOG_HEAD <= json) then None
    else
      var s := json[|LOG_HEAD|..];
      var n := DigitCount(s);
      if n == 0 || !(LOG_TEXT + [QUOTE] <= s[n..]) then None
      else
        var scanned := ScanString(s[n..][|LOG_TEXT| + 1..]);
        if scanned.None? || scanned.value.rest != LOG_END then None
        else Some(Log(DigitsValue(s[..n]), scanned.value.text))
  }

  lemma DropHead(head: seq<byte>, rest: seq<byte>)
    ensures head <= head + rest && (head + rest)[|head|..] == rest
  {
  }

  lemma DropQuote(inner: seq<byte>, rest: seq<byte>)
    ensures ([QUOTE] + inner + [QUOTE] + rest)[1..] == inner + ([QUOTE] + rest)
  {
  }

  lemma RegroupFive(a: seq<byte>, b: seq<byte>, c: seq<byte>, d: seq<byte>, e: seq<byte>)
    ensures a + b + c + d + e == a + (b + (c + (d + e)))
  {
    assert a + b + c + d + e == a + (b + c + d + e);
    assert b + c + d + e == b + (c + d + e);
  }

  lemma ReadQuoted(text: seq<byte>, rest: seq<byte>)
    ensures Quoted(text)[0] == QUOTE
    ensures ScanString((Quoted(text) + rest)[1..]) == Some(Scanned(text, rest))
  {
    ScanEscaped(text, rest);
    DropQuote(Escape(text), rest);
  }

  lemma ReadTextField(text: seq<byte>)
    ensures var s := LOG_TEXT + (Quoted(text) + LOG_END);
      && LOG_TEXT + [QUOTE] <= s
      && ScanString(s[|LOG_TEXT| + 1..]) == Some(Scanned(text, LOG_END))
  {
    var s := LOG_TEXT + (Quoted(text) + LOG_END);
    ReadQuoted(text, LOG_END);
    assert s[|LOG_TEXT| + 1..] == (Quoted(text) + LOG_END)[1..];
    assert s[..|LOG_TEXT| + 1] == LOG_TEXT + [QUOTE];
  }

  lemma ReportParts(text: seq<byte>)
    ensures Report(text) == LOG_HEAD + (Decimal(|text|) + (LOG_TEXT + (Quoted(CString(text)) + LOG_END)))
  {
    RegroupFive(LOG_HEAD, Decimal(|text|), LOG_TEXT, Quoted(CString(text)), LOG_END);
  }

  lemma ReadLengthField(n: nat, field: seq<byte>)
    requires |field| > 0 && !IsDigit(field[0])
    ensures var s := LOG_HEAD + (Decimal(n) + field);
      && LOG_HEAD <= s
      && s[|LOG_HEAD|..] == Decimal(n) + field
      && DigitCount(Decimal(n) + field) == |Decimal(n)|
      && (Decimal(n) + field)[..|Decimal(n)|] == Decimal(n)
      && (Decimal(n) + field)[|Decimal(n)|..] == field
  {
    DropHead(LOG_HEAD, Decimal(n) + field);
    DigitCountIs(Decimal(n), field);
    DropHead(Decimal(n), field);
  }

  /** A report reads back as the length of the snapshot and its text up to the first NUL. */
  lemma ReportRoundTrip(text: seq<byte>)
    ensures ReadReport(Report(text)) == Some(Log(|text|, CString(text)))
  {
    var field := LOG_TEXT + (Quoted(CString(text)) + LOG_END);
    ReportParts(text);
    assert field[0] == LOG_TEXT[0] == 44;
    ReadLengthField(|text|, field);
    DecimalRoundTrip(|text|);
    ReadTextField(CString(text));
  }

  /** The log text survives the report exactly when it holds no NUL. */
  lemma ReportKeepsText(text: seq<byte>)
    ensures ReadReport(Report(text)) == Some(Log(|text|, text)) <==> NUL !in text
  {
    ReportRoundTrip(text);
    CStringIsWhole(text);
  }

  // ---- Sizes ------------------------------------------------------------------------

  const LOG_BUFFER_BYTES: nat := 16384
  const BASE_BYTES: nat := 96

  lemma {:induction false} CStringIsNoLonger(text: seq<byte>)
    ensures |CString(text)| <= |text| && |Escape(CString(text))| <= |Escape(text)|
  {
    if |text| > 0 && text[0] != NUL {
      CStringIsNoLonger(text[1..]);
      assert CString(text)[1..] == CString(text[1..]);
    }
  }

  lemma {:induction false} DecimalLength(n: nat, k: nat, limit: nat)
    requires n < limit && k > 0 && limit == Pow10(k)
    ensures |Decimal(n)| <= k
  {
    if n >= 10 {
      DecimalLength(n / 10, k - 1, limit / 10);
    }
  }

  function Pow10(k: nat): (p: nat)
    ensures p > 0
  {
    if k == 0 then 1 else 10 * Pow10(k - 1)
  }

  /** The capacity measured before allocation holds the report and its NUL. */
  lemma MeasuredCapacitySuffices(text: seq<byte>)
    requires |text| <= LOG_BUFFER_BYTES
    ensures |Report(text)| < BASE_BYTES + |Escape(text)|
    ensures |Report(text)| <= 98344
  {
    CStringIsNoLonger(text);
    assert Pow10(5) == 100000;
    DecimalLength(|text|, 5, 100000);
  }

  predicate Printable(s: seq<byte>) {
    forall i | 0 <= i < |s| :: SPACE <= s[i] <= 126
  }

  lemma PrintableJoin(a: seq<byte>, b: seq<byte>)
    requires Printable(a) && Printable(b)
    ensures Printable(a + b)
  {
  }

  lemma PrintableHead()
    ensures Printable(LOG_HEAD)
  {
  }

  lemma PrintableRest()
    ensures Printable(LOG_TEXT) && Printable(LOG_END)
  {
  }

  /** A report is one line of printable ASCII, whatever the log holds. */
  lemma ReportIsPrintable(text: seq<byte>)
    ensures Printable(Report(text))
  {
    var digits := Decimal(|text|);
    assert forall i | 0 <= i < |digits| :: IsDigit(digits[i]);
    PrintableHead();
    PrintableRest();
    assert Printable(Quoted(CString(text)));
    PrintableJoin(LOG_HEAD, digits);
    PrintableJoin(LOG_HEAD + digits, LOG_TEXT);
    PrintableJoin(LOG_HEAD + digits + LOG_TEXT, Quoted(CString(text)));
    PrintableJoin(LOG_HEAD + digits + LOG_TEXT + Quoted(CString(text)), LOG_END);
  }
}
