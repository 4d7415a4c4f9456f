/** From the log buffer to the two clients: the whole way of a log report. */
module LogDelivery {
  import opened Bytes
  import opened CtlResponse
  import opened DotFrame
  import opened DotReceive
  import opened LineReader
  import opened LogJson
  import opened ResponseDelivery
  import opened Responses
  import opened Wrappers
  import P4J1

  // ---- The line --------------------------------------------------------------------

  function LogLine(snapshot: seq<byte>): seq<byte> {
    P4J1.Line(Report(snapshot))
  }

  lemma DecimalIsPrintable(n: nat)
    ensures Printable(Decimal(n))
  {
    var digits := Decimal(n);
    forall i | 0 <= i < |digits| ensures SPACE <= digits[i] <= 126 {
      assert IsDigit(digits[i]);
    }
  }

  lemma FieldsArePrintable(digits: seq<byte>, digest: seq<byte>, json: seq<byte>)
    requires Printable(digits) && Printable(digest) && Printable(json)
    ensures Printable(P4J1.Fields(digits, digest, json))
  {
    PrintableJoin([SPACE], json);
    PrintableJoin(digest, [SPACE] + json);
    PrintableJoin([SPACE], digest + ([SPACE] + json));
    PrintableJoin(digits, [SPACE] + (digest + ([SPACE] + json)));
    PrintableJoin(P4J1.PREFIX, digits + ([SPACE] + (digest + ([SPACE] + json))));
  }

  /** The line is printable, does not start with a dot, and with its CR is short enough for
      both clients, by more than 32000 bytes. */
  lemma LogLineIsShort(snapshot: seq<byte>)
    requires |snapshot| <= LOG_BUFFER_BYTES
    ensures Printable(LogLine(snapshot)) && LogLine(snapshot)[0] == 80
    ensures |LogLine(snapshot)| <= 98396
  {
    var json := Report(snapshot);
    MeasuredCapacitySuffices(snapshot);
    ReportIsPrintable(snapshot);
    DecimalIsPrintable(|json|);
    assert Printable(P4J1.Sha1Hex(json));
    FieldsArePrintable(Decimal(|json|), P4J1.Sha1Hex(json), json);
    assert Pow10(5) == 100000;
    DecimalLength(|json|, 5, 100000);
  }

  // ---- The wire --------------------------------------------------------------------

  lemma OneLine(line: seq<byte>)
    requires LF !in line
    ensures Lines(line + [LF]) == [line]
  {
    var text := line + [LF];
    IndexOfIs(LF, text, |line|);
    assert text[..|line|] == line;
    assert text[|line| + 1..] == [];
    assert Lines([]) == [];
  }

  lemma PrintableArrives(client: Client, crlf: bool, line: seq<byte>)
    requires Printable(line)
    ensures Arrivals(client, crlf, [line]) == [line] && LF !in line
  {
    IntactArrives(client, crlf, line);
  }

  lemma OneLineStuffed(line: seq<byte>)
    requires LF !in line && |line| > 0 && line[0] != DOT
    ensures StuffedLines(Lines(line + [LF])) == [line]
  {
    OneLine(line);
    assert StuffLine(line) == line;
  }

  /** The report line arrives as it is, needs no stuffing, and is short enough. */
  lemma LogLineOnWire(client: Client, crlf: bool, snapshot: seq<byte>)
    requires |snapshot| <= LOG_BUFFER_BYTES
    ensures var line := LogLine(snapshot);
      && StuffedLines(Lines(line + [LF])) == [line] && Arrivals(client, crlf, [line]) == [line]
      && ShortLines(C_LIMIT, [line])
  {
    LogLineIsShort(snapshot);
    PrintableArrives(client, crlf, LogLine(snapshot));
    OneLineStuffed(LogLine(snapshot));
  }

  lemma OneLineOutcomes(json: seq<byte>)
    requires |json| < P4J1.INT_LIMIT
    ensures var line := P4J1.Line(json);
      && SwiftOutcome([line]) == Success(json)
      && WellStuffed([line]) && Status(Json, [line]) == 1 && Printed(Json, [line]) == [json]
  {
    P4J1.LineRoundTrip(json);
    SwiftOutcomeOfLine(P4J1.Line(json), json);
    CtlOutcomeOfLine(P4J1.Line(json), json);
  }

  lemma SwiftOutcomeOfLine(line: seq<byte>, json: seq<byte>)
    requires |line| > 0 && line[0] != DOT && P4J1.ParseSwift(line) == P4J1.Payload(json)
    ensures SwiftOutcome([line]) == Success(json)
  {
    var none: seq<seq<byte>> := [];
    SwiftSnoc(none, line);
    assert none + [line] == [line];
  }

  lemma CtlOutcomeOfLine(line: seq<byte>, json: seq<byte>)
    requires |line| > 0 && line[0] != DOT && P4J1.ParseC(line) == P4J1.Payload(json)
    ensures WellStuffed([line]) && Status(Json, [line]) == 1 && Printed(Json, [line]) == [json]
  {
    var none: seq<seq<byte>> := [];
    LastFrameSnoc(none, line);
    PrintedSnoc(Json, none, line);
    assert none + [line] == [line] && Printed(Json, none) == [];
  }

  /** What a client takes of a report, for any echo and any bytes behind the response. */
  lemma ReportOnWire(client: Client, limit: nat, snapshot: seq<byte>, crlf: bool, echo: Option<seq<byte>>,
                     echoed: Option<seq<byte>>, rest: seq<byte>)
    requires |snapshot| <= LOG_BUFFER_BYTES && limit >= C_LIMIT && Expects(echo, echoed, snapshot)
    ensures var stream := Sent(crlf, echo, LogLine(snapshot) + [LF]) + rest;
      && Fits(client, limit, stream)
      && ToTerminator(client, stream) == Some(Raw(EchoLines(crlf, echo) + [LogLine(snapshot)], rest))
      && Body(EchoLines(crlf, echo) + [LogLine(snapshot)], echoed)
           == EchoLeft(crlf, echo, echoed) + [LogLine(snapshot)]
  {
    var text := LogLine(snapshot) + [LF];
    LogLineOnWire(client, crlf, snapshot);
    TakesSent(client, crlf, echo, text, rest);
    SentFits(client, limit, crlf, echo, text, rest);
    BodyOfSent(crlf, echo, echoed, [LogLine(snapshot)]);
  }

  /** The echo on the wire, and the one the client waits for, if any. */
  predicate Expects(echo: Option<seq<byte>>, echoed: Option<seq<byte>>, snapshot: seq<byte>) {
    && (echo.Some? ==> Command(echo.value))
    && echoed != Some([DOT]) && echoed != Some(LogLine(snapshot))
  }

  /** Whatever the log holds, whichever the transport, and whether or not a client recognises
      the echo of its command, both take from the wire a report that reads back as the length
      of the log and its text up to the first NUL; no line is too long for either of them, and
      the bytes after the response stay unread. */
  lemma LogArrives(snapshot: seq<byte>, crlf: bool, echo: Option<seq<byte>>, echoed: Option<seq<byte>>, rest: seq<byte>)
    requires |snapshot| <= LOG_BUFFER_BYTES && Expects(echo, echoed, snapshot)
    ensures var stream := Sent(crlf, echo, LogLine(snapshot) + [LF]) + rest;
      && SwiftTook(stream, rest, echoed, Success(Report(snapshot)))
      && Whole(Json, stream, rest, echoed, 1, [Report(snapshot)])
      && Fits(Ctl, C_LIMIT, stream) && Fits(Daemon, LINE_LIMIT, stream)
    ensures ReadReport(Report(snapshot)) == Some(Log(|snapshot|, CString(snapshot)))
  {
    ReportOnWire(Ctl, C_LIMIT, snapshot, crlf, echo, echoed, rest);
    ReportOnWire(Daemon, LINE_LIMIT, snapshot, crlf, echo, echoed, rest);
    ReportOutcomes(snapshot, crlf, echo, echoed);
    ReportRoundTrip(snapshot);
  }

  lemma ReportOutcomes(snapshot: seq<byte>, crlf: bool, echo: Option<seq<byte>>, echoed: Option<seq<byte>>)
    requires |snapshot| <= LOG_BUFFER_BYTES && Expects(echo, echoed, snapshot)
    ensures var lines := EchoLeft(crlf, echo, echoed) + [LogLine(snapshot)];
      && SwiftOutcome(lines) == Success(Report(snapshot))
      && WellStuffed(lines) && Status(Json, lines) == 1 && Printed(Json, lines) == [Report(snapshot)]
  {
    EchoIsIgnored(crlf, echo, echoed, [LogLine(snapshot)]);
    MeasuredCapacitySuffices(snapshot);
    OneLineOutcomes(Report(snapshot));
  }

  const REPORT_LOGS: seq<byte> := TOOL_PREFIX + Ascii("report logs")

  /** As it is over a serial line: both clients wait for the echo of this command, and what
      comes is not quite that. */
  lemma SerialReport(snapshot: seq<byte>)
    requires |snapshot| <= LOG_BUFFER_BYTES
    ensures REPORT_LOGS == Ascii("p4exec ") + Ascii("report logs")
    ensures Expects(Some(REPORT_LOGS), Some(REPORT_LOGS), snapshot)
    ensures EchoLeft(true, Some(REPORT_LOGS), Some(REPORT_LOGS)) == [REPORT_LOGS + [CR]]
  {
    assert Printable(Ascii("report logs"));
    ToolCommand(Ascii("report logs"));
    LogLineIsShort(snapshot);
    assert REPORT_LOGS[0] == 112;
    assert |REPORT_LOGS + [CR]| == |REPORT_LOGS| + 1;
  }

  /** read_dot_response of power4ctl on such a wire: it prints the report, and nothing else. */
  method CtlGetsLog(wire: Wire, ghost snapshot: seq<byte>, ghost crlf: bool, ghost echo: Option<seq<byte>>,
                    echoed: Option<seq<byte>>, ghost rest: seq<byte>)
    returns (status: int, printed: seq<seq<byte>>)
    requires |snapshot| <= LOG_BUFFER_BYTES && Expects(echo, echoed, snapshot)
    requires wire.reliable && wire.incoming == Sent(crlf, echo, LogLine(snapshot) + [LF]) + rest
    modifies wire
    ensures status == 1 && printed == [Report(snapshot)] && wire.incoming == rest
  {
    ghost var stream := wire.incoming;
    LogArrives(snapshot, crlf, echo, echoed, rest);
    status, printed := ReadC(wire, Json, echoed);
    if Stopped(Json, stream, wire.incoming, echoed, status, printed) {
      StoppedIsIllStuffed(Json, stream, wire.incoming, echoed, status, printed);
    }
  }

  /** readDotResponse of power4d on it, however the bytes come in chunks. */
  method SwiftGetsLog(connection: Connection, ghost snapshot: seq<byte>, ghost crlf: bool,
                      ghost echo: Option<seq<byte>>, echoed: Option<seq<byte>>, ghost rest: seq<byte>)
    returns (r: Response)
    requires |snapshot| <= LOG_BUFFER_BYTES && Expects(echo, echoed, snapshot)
    requires connection.wire.reliable
    requires connection.Stream() == Sent(crlf, echo, LogLine(snapshot) + [LF]) + rest
    modifies connection, connection.wire
    ensures r == Done(Success(Report(snapshot))) && connection.Stream() == rest
  {
    LogArrives(snapshot, crlf, echo, echoed, rest);
    r := ReadSwift(connection, echoed);
  }

  // ---- Where the two loops differ ----------------------------------------------------

  /** The last frame that power4d accepts has its digest in lower case. */
  predicate LastInLowerCase(lines: seq<seq<byte>>) {
    |lines| > 0 &&
    var last := lines[|lines| - 1];
    if SwiftParsed(last).Payload? then P4J1.InLowerCase(P4J1.DigestOf(Plain(last)))
    else LastInLowerCase(lines[..|lines| - 1])
  }

  lemma GoodPrefix(lines: seq<seq<byte>>, k: nat)
    requires !AnyBad(lines) && k <= |lines|
    ensures !AnyBad(lines[..k])
  {
  }

  lemma LineAgrees(line: seq<byte>)
    requires Unstuff(line).Some?
    ensures SwiftParsed(line).NotFrame? ==> P4J1.ParseC(Plain(line)).NotFrame?
    ensures SwiftParsed(line).Payload? ==>
      P4J1.ParseC(Plain(line))
        == if P4J1.InLowerCase(P4J1.DigestOf(Plain(line))) then SwiftParsed(line) else P4J1.Bad
  {
    if SwiftParsed(line).Payload? {
      P4J1.ClientsAgree(Plain(line));
    }
  }

  lemma {:induction false} SameLastFrame(lines: seq<seq<byte>>)
    requires WellStuffed(lines) && !AnyBad(lines)
    ensures LastFrame(lines) ==
      if SwiftPayload(lines).None? then P4J1.NotFrame
      else if LastInLowerCase(lines) then P4J1.Payload(SwiftPayload(lines).value)
      else P4J1.Bad
  {
    if |lines| > 0 {
      var last := lines[|lines| - 1];
      assert Unstuff(last).Some? && !SwiftParsed(last).Bad?;
      LineAgrees(last);
      GoodPrefix(lines, |lines| - 1);
      SameLastFrame(lines[..|lines| - 1]);
    }
  }

  lemma NoBadIsWellStuffed(lines: seq<seq<byte>>)
    requires !AnyBad(lines)
    ensures WellStuffed(lines)
  {
    forall i | 0 <= i < |lines| ensures Unstuff(lines[i]).Some? {
      assert !SwiftParsed(lines[i]).Bad?;
    }
  }

  lemma {:induction false} LowerCaseOfPayload(lines: seq<seq<byte>>)
    requires LastInLowerCase(lines)
    ensures SwiftPayload(lines).Some?
  {
    if !SwiftParsed(lines[|lines| - 1]).Payload? {
      LowerCaseOfPayload(lines[..|lines| - 1]);
    }
  }

  lemma SameOutcome(lines: seq<seq<byte>>)
    requires !AnyBad(lines) && WellStuffed(lines)
    ensures SwiftOutcome(lines).Success? <==> Status(Json, lines) != 0
    ensures Status(Json, lines) == 1 <==> LastInLowerCase(lines)
    ensures Status(Json, lines) == 1 ==>
      var printed := Printed(Json, lines);
      printed != [] && printed[|printed| - 1] == SwiftPayload(lines).value
  {
    SameLastFrame(lines);
    if LastInLowerCase(lines) {
      LowerCaseOfPayload(lines);
      LastPrinted(lines);
    }
  }

  lemma {:induction false} LastPrinted(lines: seq<seq<byte>>)
    requires LastFrame(lines).Payload?
    ensures Printed(Json, lines) != []
    ensures Printed(Json, lines)[|Printed(Json, lines)| - 1] == LastFrame(lines).json
  {
    var n := |lines| - 1;
    if P4J1.ParseC(Plain(lines[n])).NotFrame? {
      LastPrinted(lines[..n]);
      assert Printed(Json, lines) == Printed(Json, lines[..n]);
    }
  }

  /** For the lines of any response: power4d takes it exactly when no line of it is bad and
      power4ctl finds a frame. When the digest of the last frame is in lower case, power4ctl
      takes it too and prints the same text last; otherwise it calls it damaged. What power4ctl
      takes and power4d does not has a bad line, which power4ctl forgives. */
  lemma SwiftIsStricter(lines: seq<seq<byte>>)
    ensures SwiftOutcome(lines).Success? <==>
      !AnyBad(lines) && WellStuffed(lines) && Status(Json, lines) != 0
    ensures SwiftOutcome(lines).Success? && LastInLowerCase(lines) <==>
      !AnyBad(lines) && WellStuffed(lines) && Status(Json, lines) == 1
    ensures SwiftOutcome(lines).Success? && LastInLowerCase(lines) ==>
      var printed := Printed(Json, lines);
      printed != [] && printed[|printed| - 1] == SwiftOutcome(lines).payload
  {
    if AnyBad(lines) {
      assert SwiftOutcome(lines) == Failure;
    } else {
      NoBadIsWellStuffed(lines);
      SameOutcome(lines);
    }
  }

  lemma EmptyFrameIsBad()
    ensures P4J1.ParseSwift(P4J1.PREFIX) == P4J1.Bad
    ensures Unstuff(P4J1.PREFIX) == Some(P4J1.PREFIX)
  {
    assert P4J1.PREFIX[|P4J1.PREFIX|..] == [];
    assert P4J1.FirstSpace([]) == 0;
  }

  /** The forgiven line: a damaged frame, then a good one. */
  lemma DamagedThenGood(json: seq<byte>)
    requires |json| < P4J1.INT_LIMIT
    ensures var lines := [P4J1.PREFIX, P4J1.Line(json)];
      SwiftOutcome(lines) == Failure && Status(Json, lines) == 1
  {
    var first, second := P4J1.PREFIX, P4J1.Line(json);
    P4J1.LineRoundTrip(json);
    EmptyFrameIsBad();
    assert second[0] == 80;
    assert Plain(second) == second;
    var lines := [first, second];
    assert SwiftParsed(lines[0]).Bad? && lines[1] == second;
  }
}
