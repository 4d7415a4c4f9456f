/** A policy's way from power4ctl to the staging slot. */
module PolicyDelivery {
  import opened Base64
  import opened Bytes
  import opened DotFrame
  import opened LineInput
  import opened PolicyReceive
  import opened ShaSpec
  import opened Wrappers
  import LogJson
  import P4J1
  import PolicySend

  // ---- The digest in the command -----------------------------------------------------

  /** checksum_parse_sha1_hex, without its check of the length. */
  function ParseHex(s: seq<byte>): Option<seq<byte>> {
    if |s| < 2 then Some([])
    else
      var high, low, more := LogJson.HexValue(s[0]), LogJson.HexValue(s[1]), ParseHex(s[2..]);
      if high.None? || low.None? || more.None? then None
      else Some([high.value * 16 + low.value] + more.value)
  }

  lemma {:induction false} HexRoundTrip(bytes: seq<byte>)
    ensures ParseHex(P4J1.HexText(bytes)) == Some(bytes)
  {
    if |bytes| > 0 {
      var text, high, low := P4J1.HexText(bytes), bytes[0] as int / 16, bytes[0] as int % 16;
      HexRoundTrip(bytes[1..]);
      LogJson.HexDigitValue(high);
      LogJson.HexDigitValue(low);
      assert text[2..] == P4J1.HexText(bytes[1..]);
      assert bytes == [bytes[0]] + bytes[1..];
    }
  }

  // ---- Gathering the lines -----------------------------------------------------------

  predicate IsUploadLine(line: seq<byte>) {
    1 <= |line| <= PolicySend.LINE_WIDTH && Coded(line)
  }

  lemma CStringOfClean(text: seq<byte>)
    requires NUL !in text
    ensures LogJson.CString(text) == text
  {
    LogJson.CStringIsWhole(text);
  }

  lemma CodedIsClean(line: seq<byte>)
    requires Coded(line)
    ensures NUL !in line && CR !in line && LF !in line
  {
  }

  lemma TakesLine(line: seq<byte>, rest: seq<byte>)
    requires Coded(line) && |line| <= PolicySend.LINE_WIDTH
    ensures var input := line + [LF] + rest;
      Taken(input) == |line| + 1 && NextText(input) == line && input[Taken(input)..] == rest
  {
    var input := line + [LF] + rest;
    CodedIsClean(line);
    IndexOfIs(LF, input, |line|);
    assert input[..|line| + 1] == line + [LF];
    CStringOfClean(line + [LF]);
    assert (line + [LF])[..|line|] == line;
    assert Strip(line + [LF]) == Strip(line);
    assert Strip(line) == line;
  }

  lemma GathersLine(line: seq<byte>, rest: seq<byte>)
    requires IsUploadLine(line)
    ensures Gathered(line + [LF] + rest) == line + Gathered(rest)
    ensures Left(line + [LF] + rest) == Left(rest)
  {
    TakesLine(line, rest);
  }

  lemma GathersBlank(rest: seq<byte>)
    ensures Gathered([LF] + rest) == [] && Left([LF] + rest) == rest
  {
    TakesLine([], rest);
    assert [] + [LF] + rest == [LF] + rest;
  }

  lemma {:induction false} GathersLines(lines: seq<seq<byte>>, rest: seq<byte>)
    requires forall i | 0 <= i < |lines| :: IsUploadLine(lines[i])
    ensures var input := Joined(lines, [LF]) + ([LF] + rest);
      Gathered(input) == Flatten(lines) && Left(input) == rest
  {
    if |lines| == 0 {
      GathersBlank(rest);
      assert Joined(lines, [LF]) + ([LF] + rest) == [LF] + rest;
    } else {
      var more := Joined(lines[1..], [LF]) + ([LF] + rest);
      GathersLines(lines[1..], rest);
      GathersLine(lines[0], more);
      Regroup(lines[0] + [LF], Joined(lines[1..], [LF]), [LF] + rest);
    }
  }

  // ---- The burst ---------------------------------------------------------------------

  const COMMAND: seq<byte> := LogJson.Ascii("p4exec policy upload ")

  function Command(policy: seq<byte>): seq<byte> {
    COMMAND + P4J1.Sha1Hex(policy)
  }

  /** All that power4ctl writes for an upload: the command, the base64 lines, a blank line. */
  function Burst(policy: seq<byte>): seq<byte> {
    Command(policy) + [CR] + (PolicySend.Remaining(0, Encode(policy)) + [CR])
  }

  /** The same as lines. */
  function BurstLines(policy: seq<byte>): seq<seq<byte>> {
    [Command(policy)] + PolicySend.Chunked(Encode(policy)) + [[]]
  }

  lemma {:induction false} JoinedSnoc(lines: seq<seq<byte>>, last: seq<byte>, end: seq<byte>)
    ensures Joined(lines + [last], end) == Joined(lines, end) + (last + end)
  {
    if |lines| == 0 {
      assert lines + [last] == [last];
      LastLine(last, end);
    } else {
      JoinedSnoc(lines[1..], last, end);
      assert (lines + [last])[1..] == lines[1..] + [last];
      Regroup(lines[0] + end, Joined(lines[1..], end), last + end);
    }
  }

  lemma JoinedBurst(policy: seq<byte>, end: seq<byte>)
    ensures Joined(BurstLines(policy), end)
         == Command(policy) + end + (Joined(PolicySend.Chunked(Encode(policy)), end) + end)
  {
    var chunks := PolicySend.Chunked(Encode(policy));
    var blank: seq<byte> := [];
    assert BurstLines(policy) == [Command(policy)] + (chunks + [blank]);
    FirstOfJoined(Command(policy), chunks + [blank], end);
    JoinedSnoc(chunks, blank, end);
    assert blank + end == end;
  }

  lemma Quadruples(n: nat)
    ensures n * 4 % 4 == 0
  {
  }

  lemma EncodingIsWhole(policy: seq<byte>)
    ensures |Encode(policy)| % 4 == 0
  {
    Quadruples((|policy| + 2) / 3);
  }

  lemma BurstIsLines(policy: seq<byte>)
    ensures Burst(policy) == Joined(BurstLines(policy), [CR])
  {
    EncodingIsWhole(policy);
    PolicySend.LinesFromStart(Encode(policy));
    JoinedBurst(policy, [CR]);
  }

  lemma {:induction false} ChunksAreUploadLines(code: seq<byte>)
    requires Coded(code)
    ensures forall i | 0 <= i < |PolicySend.Chunked(code)| :: IsUploadLine(PolicySend.Chunked(code)[i])
    decreases |code|
  {
    if |code| > PolicySend.LINE_WIDTH {
      ChunksAreUploadLines(code[PolicySend.LINE_WIDTH..]);
    }
  }

  lemma CommandIsClean(policy: seq<byte>)
    ensures NoLineEnd(Command(policy))
  {
    var digest := P4J1.Sha1Hex(policy);
    assert forall i | 0 <= i < |digest| :: digest[i] >= 48;
  }

  lemma CleanLines(first: seq<byte>, chunks: seq<seq<byte>>, last: seq<byte>)
    requires NoLineEnd(first) && NoLineEnd(last)
    requires forall i | 0 <= i < |chunks| :: NoLineEnd(chunks[i])
    ensures forall i | 0 <= i < |[first] + chunks + [last]| :: NoLineEnd(([first] + chunks + [last])[i])
  {
  }

  lemma ChunksAreClean(chunks: seq<seq<byte>>)
    requires forall i | 0 <= i < |chunks| :: IsUploadLine(chunks[i])
    ensures forall i | 0 <= i < |chunks| :: NoLineEnd(chunks[i])
  {
    forall i | 0 <= i < |chunks| ensures NoLineEnd(chunks[i]) {
      CodedIsClean(chunks[i]);
    }
  }

  lemma BurstLinesAreClean(policy: seq<byte>)
    ensures forall i | 0 <= i < |BurstLines(policy)| :: NoLineEnd(BurstLines(policy)[i])
  {
    var chunks := PolicySend.Chunked(Encode(policy));
    EncodeIsCoded(policy);
    ChunksAreUploadLines(Encode(policy));
    ChunksAreClean(chunks);
    CommandIsClean(policy);
    CleanLines(Command(policy), chunks, []);
  }

  /** What the command finds on its standard input, when the host's next bytes are rest. */
  function UploadInput(policy: seq<byte>, rest: seq<byte>): seq<byte> {
    Joined(PolicySend.Chunked(Encode(policy)), [LF]) + ([LF] + Normal(true, rest))
  }

  /** The console reads the command on a line of its own, and after it the upload. */
  lemma ConsoleReadsBurst(policy: seq<byte>, rest: seq<byte>)
    ensures Normal(false, Burst(policy) + rest) == Command(policy) + [LF] + UploadInput(policy, rest)
  {
    var lines := BurstLines(policy);
    BurstIsLines(policy);
    BurstLinesAreClean(policy);
    AnyLineEnding(false, lines, [CR]);
    NormalSplit(false, Burst(policy), rest);
    JoinedBurst(policy, [LF]);
    RegroupFour(Command(policy) + [LF], Joined(PolicySend.Chunked(Encode(policy)), [LF]), [LF], Normal(true, rest));
  }

  lemma RegroupFour(a: seq<byte>, b: seq<byte>, c: seq<byte>, d: seq<byte>)
    ensures a + (b + c) + d == a + (b + (c + d))
  {
    assert (b + c) + d == b + (c + d);
  }

  lemma Gathers(policy: seq<byte>, rest: seq<byte>)
    ensures Gathered(UploadInput(policy, rest)) == Encode(policy)
    ensures Left(UploadInput(policy, rest)) == Normal(true, rest)
  {
    EncodeIsCoded(policy);
    ChunksAreUploadLines(Encode(policy));
    GathersLines(PolicySend.Chunked(Encode(policy)), Normal(true, rest));
  }

  lemma EncodedSize(policy: seq<byte>)
    ensures |policy| <= MAX_DECODED ==> |Encode(policy)| <= MAX_ENCODED
  {
  }

  /** A policy sent by power4ctl is staged unchanged exactly when it has at most 16 KiB, and
      what the host sends next is left for the next command. */
  lemma UploadArrives(policy: seq<byte>, rest: seq<byte>)
    ensures Normal(false, Burst(policy) + rest) == Command(policy) + [LF] + UploadInput(policy, rest)
    ensures ParseHex(P4J1.Sha1Hex(policy)) == Some(HashSha1(policy))
    ensures Judged(Gathered(UploadInput(policy, rest)), HashSha1(policy)) == Staged(policy)
      <==> |policy| <= 16384
    ensures Left(UploadInput(policy, rest)) == Normal(true, rest)
  {
    ConsoleReadsBurst(policy, rest);
    HexRoundTrip(HashSha1(policy));
    Gathers(policy, rest);
    Base64RoundTrip(policy);
    EncodedSize(policy);
  }

  /** The line buffer of the TCP console. */
  const CONSOLE_LINE_BYTES: nat := 256

  /** The digest argument of the command line. */
  function DigestIn(line: seq<byte>): Option<seq<byte>> {
    var text := Strip(LogJson.CString(line));
    if COMMAND <= text then ParseHex(text[|COMMAND|..]) else None
  }

  lemma CommandIsText(policy: seq<byte>)
    ensures var line := Command(policy) + [LF];
      LF !in Command(policy) && LogJson.CString(line) == line && Strip(line) == Command(policy)
  {
    var command, digest := Command(policy), P4J1.Sha1Hex(policy);
    CommandIsClean(policy);
    forall i | 0 <= i < |command| ensures command[i] != NUL {
      assert i >= |COMMAND| ==> command[i] == digest[i - |COMMAND|];
    }
    CStringOfClean(command + [LF]);
    StripOne(command);
  }

  lemma StripOne(text: seq<byte>)
    requires CR !in text && LF !in text
    ensures Strip(text + [LF]) == text
  {
    assert (text + [LF])[..|text|] == text;
    assert Strip(text) == text;
  }

  lemma CommandDigest(policy: seq<byte>)
    ensures DigestIn(Command(policy) + [LF]) == Some(HashSha1(policy))
  {
    CommandIsText(policy);
    LogJson.DropHead(COMMAND, P4J1.Sha1Hex(policy));
    HexRoundTrip(HashSha1(policy));
  }

  lemma CommandLine(policy: seq<byte>, rest: seq<byte>)
    ensures var line := Command(policy) + [LF];
      CONSOLE_LINE_BYTES == 256 && LineLength(line + rest, 256) == |line| && (line + rest)[..|line|] == line
        && (line + rest)[|line|..] == rest
  {
    var line := Command(policy) + [LF];
    CommandIsText(policy);
    assert line[..|line| - 1] == Command(policy);
    LineLengthIs(line, rest, CONSOLE_LINE_BYTES);
  }

  lemma Pieces(head: seq<byte>, body: seq<byte>, end: seq<byte>)
    ensures [] + head + body + end == head + (body + end)
  {
  }

  method SendBurst(fd: PolicySend.Descriptor, policy: seq<byte>)
    requires fd.reliable && fd.sent == []
    modifies fd
    ensures fd.sent == Burst(policy)
  {
    var head := Command(policy) + [CR];
    var ok := fd.Write(head);
    ok := PolicySend.SendBase64(fd, policy);
    Pieces(head, PolicySend.Remaining(0, Encode(policy)), [CR]);
  }

  /** The whole upload over a connection that holds: power4ctl writes the command and the lines,
      the console reads the command on a line of its own and the upload from the same stream.
      The policy is staged exactly when it has at most 16 KiB, and then the next bytes of the
      host are what the next command finds. */
  method UploadPolicy(fd: PolicySend.Descriptor, policy: seq<byte>, rest: seq<byte>) returns (r: Upload, stdin: Stdin)
    requires fd.reliable && fd.sent == []
    modifies fd
    ensures r == Staged(policy) <==> |policy| <= 16384
    ensures fresh(stdin.socket) && (!r.TooLarge? ==> stdin.Input() == Normal(true, rest))
  {
    SendBurst(fd, policy);
    var socket := new SocketStream(fd.sent + rest, true);
    stdin := new Stdin(socket);
    UploadArrives(policy, rest);
    CommandDigest(policy);
    CommandLine(policy, UploadInput(policy, rest));
    var line := stdin.Fgets(CONSOLE_LINE_BYTES);
    var digest := DigestIn(line);
    r := ReceivePolicy(stdin, digest.value);
  }

  // ---- The receive buffer ------------------------------------------------------------

  /** The ring the serial driver fills while nothing is read yet. */
  const RX_BUFFER_BYTES: nat := MAX_ENCODED + 1024

  lemma {:induction false} JoinedLength(code: seq<byte>)
    ensures |Joined(PolicySend.Chunked(code), [CR])| * 76 <= |code| * 77 + 75
    ensures code == [] ==> Joined(PolicySend.Chunked(code), [CR]) == []
    decreases |code|
  {
    if |code| > PolicySend.LINE_WIDTH {
      var line, more := code[..PolicySend.LINE_WIDTH], code[PolicySend.LINE_WIDTH..];
      JoinedLength(more);
      assert code == line + more;
      PolicySend.ChunkedMore(line, more);
    } else if |code| > 0 {
      PolicySend.ChunkedOne(code);
    }
  }

  /** Nothing the host sends in one burst is dropped: it fits the ring with 600 bytes to spare. */
  lemma BurstFits(policy: seq<byte>)
    requires |policy| <= MAX_DECODED
    ensures RX_BUFFER_BYTES == 22872 && |Burst(policy)| + 600 <= RX_BUFFER_BYTES
  {
    EncodedSize(policy);
    EncodingIsWhole(policy);
    PolicySend.LinesFromStart(Encode(policy));
    JoinedLength(Encode(policy));
  }
}
