/** The P4J1 line: a JSON text with its length and SHA-1, as the firmware prints it and as the
    two clients parse it. */
module P4J1 {
  import opened Bytes
  import opened LogJson
  import opened ShaSpec

  const PREFIX: seq<byte> := Ascii("P4J1 ")

  function HexText(bytes: seq<byte>): (r: seq<byte>)
    ensures |r| == 2 * |bytes|
    ensures forall i | 0 <= i < |r| :: 48 <= r[i] <= 57 || 97 <= r[i] <= 102
  {
    if |bytes| == 0 then []
    else [HexDigit(bytes[0] as int / 16), HexDigit(bytes[0] as int % 16)] + HexText(bytes[1..])
  }

  /** The lower-case hexadecimal SHA-1, 40 digits. */
  function Sha1Hex(data: seq<byte>): (r: seq<byte>)
    ensures |r| == 40
    ensures forall i | 0 <= i < 40 :: 48 <= r[i] <= 57 || 97 <= r[i] <= 102
  {
    HexText(HashSha1(data))
  }

  /** A size, a digest and the text, between single spaces. */
  function Fields(digits: seq<byte>, digest: seq<byte>, json: seq<byte>): seq<byte> {
    PREFIX + (digits + ([SPACE] + (digest + ([SPACE] + json))))
  }

  /** json_output_print, without its line end. */
  function Line(json: seq<byte>): seq<byte> {
    Fields(Decimal(|json|), Sha1Hex(json), json)
  }

  // ---- power4ctl --------------------------------------------------------------------

  const ULONG_LIMIT: nat := 0x1_0000_0000_0000_0000

  function SpaceCount(s: seq<byte>): (n: nat)
    ensures n <= |s|
  {
    if |s| > 0 && (s[0] == SPACE || 9 <= s[0] <= 13) then 1 + SpaceCount(s[1..]) else 0
  }

  /** The digits at the front as an unsigned long, negated behind a minus, and how many there are. */
  function Magnitude(s: seq<byte>, minus: bool): (r: (nat, nat))
    ensures r.1 <= |s|
  {
    var n := DigitCount(s);
    var v := DigitsValue(s[..n]);
    (if v >= ULONG_LIMIT then ULONG_LIMIT - 1 else if minus && v > 0 then ULONG_LIMIT - v else v, n)
  }

  function Signed(s: seq<byte>): (r: (nat, nat))
    ensures r.1 <= |s|
  {
    if |s| > 0 && (s[0] == 43 || s[0] == 45) then
      var r := Magnitude(s[1..], s[0] == 45);
      if r.1 == 0 then (0, 0) else (r.0, 1 + r.1)
    else Magnitude(s, false)
  }

  /** strtoul in base 10: the value, and how many bytes it took, none if there was no digit. */
  function Strtoul(s: seq<byte>): (r: (nat, nat))
    ensures r.1 <= |s|
  {
    var blanks := SpaceCount(s);
    var r := Signed(s[blanks..]);
    if r.1 == 0 then (0, 0) else (r.0, blanks + r.1)
  }

  datatype Parsed = NotFrame | Bad | Payload(json: seq<byte>)

  predicate AllHex(s: seq<byte>) {
    forall i | 0 <= i < |s| :: HexValue(s[i]).Some?
  }

  /** parse_p4j1. */
  function ParseC(line: seq<byte>): Parsed {
    if !(PREFIX <= line) then NotFrame
    else
      var p := line[|PREFIX|..];
      var (size, used) := Strtoul(p);
      if used == 0 || used == |p| || p[used] != SPACE then NotFrame
      else
        var q := p[used + 1..];
        if |q| < 41 || q[40] != SPACE || !AllHex(q[..40]) then NotFrame
        else if |q[41..]| != size || q[..40] != Sha1Hex(q[41..]) then Bad
        else Payload(q[41..])
  }

  // ---- power4d ----------------------------------------------------------------------

  const INT_LIMIT: nat := 0x8000_0000_0000_0000

  function Lower(s: seq<byte>): (r: seq<byte>)
    ensures |r| == |s|
  {
    seq(|s|, i requires 0 <= i < |s| => if 65 <= s[i] <= 90 then s[i] + 32 else s[i])
  }

  function FirstSpace(s: seq<byte>): (n: nat)
    ensures n <= |s| && (n < |s| ==> s[n] == SPACE)
    ensures forall i | 0 <= i < n :: s[i] != SPACE
  {
    if |s| == 0 || s[0] == SPACE then 0 else 1 + FirstSpace(s[1..])
  }

  predicate AllDigits(s: seq<byte>) {
    forall i | 0 <= i < |s| :: IsDigit(s[i])
  }

  /** The digest, a space and the text. */
  function SwiftBody(q: seq<byte>, size: nat): Parsed {
    if |q| < 41 || q[40] != SPACE || !AllHex(q[..40]) then Bad
    else if |q[41..]| != size || Lower(q[..40]) != Sha1Hex(q[41..]) then Bad
    else Payload(q[41..])
  }

  /** P4J1.parse. */
  function ParseSwift(line: seq<byte>): Parsed {
    if !(PREFIX <= line) then NotFrame
    else
      var p := line[|PREFIX|..];
      var used := FirstSpace(p);
      if used == |p| || used == 0 || !AllDigits(p[..used]) then Bad
      else if DigitsValue(p[..used]) >= INT_LIMIT then Bad
      else SwiftBody(p[used + 1..], DigitsValue(p[..used]))
  }

  // ---- Round trip -------------------------------------------------------------------

  lemma StrtoulDigits(digits: seq<byte>, rest: seq<byte>)
    requires |digits| > 0 && AllDigits(digits)
    requires DigitsValue(digits) < ULONG_LIMIT && |rest| > 0 && rest[0] == SPACE
    ensures Strtoul(digits + rest) == (DigitsValue(digits), |digits|)
  {
    var s := digits + rest;
    DigitCountIs(digits, rest);
    assert s[..|digits|] == digits;
    assert s[0] == digits[0] && IsDigit(s[0]);
    assert SpaceCount(s) == 0;
    assert s[0..] == s;
  }

  lemma FirstSpaceIs(head: seq<byte>, rest: seq<byte>)
    requires SPACE !in head && |rest| > 0 && rest[0] == SPACE
    ensures FirstSpace(head + rest) == |head|
  {
    var s := head + rest;
    assert s[|head|] == SPACE;
    assert forall i | 0 <= i < |head| :: s[i] == head[i];
  }

  lemma LowerSha1Hex(data: seq<byte>)
    ensures Lower(Sha1Hex(data)) == Sha1Hex(data) && AllHex(Sha1Hex(data))
  {
    var h := Sha1Hex(data);
    assert forall i | 0 <= i < 40 :: 48 <= h[i] <= 57 || 97 <= h[i] <= 102;
  }

  lemma BodyParts(digest: seq<byte>, json: seq<byte>)
    requires |digest| == 40
    ensures var q := digest + ([SPACE] + json);
      |q| >= 41 && q[40] == SPACE && q[..40] == digest && q[41..] == json
  {
  }

  lemma SizeParts(digits: seq<byte>, body: seq<byte>)
    ensures var p := digits + ([SPACE] + body); var n := |digits|;
      n < |p| && p[n] == SPACE && p[..n] == digits && p[n + 1..] == body
  {
  }

  lemma CReadsFields(digits: seq<byte>, digest: seq<byte>, json: seq<byte>)
    requires |digits| > 0 && AllDigits(digits)
    requires DigitsValue(digits) == |json| < INT_LIMIT && |digest| == 40 && AllHex(digest)
    ensures ParseC(Fields(digits, digest, json)) == if digest == Sha1Hex(json) then Payload(json) else Bad
  {
    var body := digest + ([SPACE] + json);
    DropHead(PREFIX, digits + ([SPACE] + body));
    StrtoulDigits(digits, [SPACE] + body);
    SizeParts(digits, body);
    BodyParts(digest, json);
  }

  lemma DigitsHoldNoSpace(digits: seq<byte>)
    requires AllDigits(digits)
    ensures SPACE !in digits
  {
    forall i | 0 <= i < |digits| ensures digits[i] != SPACE {
      assert IsDigit(digits[i]);
    }
  }

  lemma SwiftReadsSize(digits: seq<byte>, body: seq<byte>)
    requires |digits| > 0 && AllDigits(digits) && DigitsValue(digits) < INT_LIMIT
    ensures ParseSwift(PREFIX + (digits + ([SPACE] + body))) == SwiftBody(body, DigitsValue(digits))
  {
    DropHead(PREFIX, digits + ([SPACE] + body));
    DigitsHoldNoSpace(digits);
    FirstSpaceIs(digits, [SPACE] + body);
    SizeParts(digits, body);
  }

  lemma SwiftReadsFields(digits: seq<byte>, digest: seq<byte>, json: seq<byte>)
    requires |digits| > 0 && AllDigits(digits)
    requires DigitsValue(digits) == |json| < INT_LIMIT && |digest| == 40 && AllHex(digest)
    ensures ParseSwift(Fields(digits, digest, json))
         == if Lower(digest) == Sha1Hex(json) then Payload(json) else Bad
  {
    SwiftReadsSize(digits, digest + ([SPACE] + json));
    BodyParts(digest, json);
  }

  /** Both clients take from a line of the firmware exactly the JSON text it was made from. */
  lemma LineRoundTrip(json: seq<byte>)
    requires |json| < INT_LIMIT
    ensures ParseC(Line(json)) == Payload(json)
    ensures ParseSwift(Line(json)) == Payload(json)
  {
    DecimalRoundTrip(|json|);
    LowerSha1Hex(json);
    CReadsFields(Decimal(|json|), Sha1Hex(json), json);
    SwiftReadsFields(Decimal(|json|), Sha1Hex(json), json);
  }

  // ---- Where the clients differ -----------------------------------------------------

  lemma SplitAt(s: seq<byte>, i: nat)
    requires i < |s| && s[i] == SPACE
    ensures s == s[..i] + ([SPACE] + s[i + 1..])
  {
  }

  lemma SwiftBodyAccepts(q: seq<byte>, size: nat)
    requires SwiftBody(q, size).Payload?
    ensures var digest, json := q[..40], SwiftBody(q, size).json;
      && q == digest + ([SPACE] + json)
      && |json| == size && AllHex(digest) && Lower(digest) == Sha1Hex(json)
  {
    SplitAt(q, 40);
  }

  /** The digest of a line that power4d accepts. */
  function DigestOf(line: seq<byte>): seq<byte>
    requires ParseSwift(line).Payload?
  {
    var p := line[|PREFIX|..];
    p[FirstSpace(p) + 1..][..40]
  }

  predicate InLowerCase(digest: seq<byte>) {
    Lower(digest) == digest
  }

  /** What power4d accepts has this form, with a size and digest that match the text. */
  lemma SwiftAccepts(line: seq<byte>) returns (digits: seq<byte>, digest: seq<byte>)
    requires ParseSwift(line).Payload?
    ensures var json := ParseSwift(line).json;
      && line == Fields(digits, digest, json)
      && |digits| > 0 && AllDigits(digits)
      && DigitsValue(digits) == |json| < INT_LIMIT
      && digest == DigestOf(line) && |digest| == 40 && AllHex(digest) && Lower(digest) == Sha1Hex(json)
  {
    var p := line[|PREFIX|..];
    var used := FirstSpace(p);
    digits, digest := p[..used], p[used + 1..][..40];
    SplitAt(p, used);
    SwiftBodyAccepts(p[used + 1..], DigitsValue(digits));
    assert line == PREFIX + p;
  }

  /** power4ctl compares the digest as text, power4d after lowering it: of the lines power4d
      accepts, power4ctl accepts those whose digest is in lower case, with the same text, and
      reports the others as damaged. */
  lemma ClientsAgree(line: seq<byte>)
    requires ParseSwift(line).Payload?
    ensures ParseC(line) == if InLowerCase(DigestOf(line)) then ParseSwift(line) else Bad
  {
    var digits, digest := SwiftAccepts(line);
    CReadsFields(digits, digest, ParseSwift(line).json);
    LowerSha1Hex(ParseSwift(line).json);
  }
}
