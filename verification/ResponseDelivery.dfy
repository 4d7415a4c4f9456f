/** From the console to a client: the echo of the command, the framed response, and what either
    client takes from the wire. */
module ResponseDelivery {
  import opened Bytes
  import opened CtlResponse
  import opened DotFrame
  import opened DotReceive
  import opened LineReader
  import opened LogJson
  import opened Responses
  import opened Wrappers
  import P4J1

  // ---- The wire --------------------------------------------------------------------

  /** What the serial console prints while a command is typed and entered; the TCP console
      prints nothing. */
  function Printout(command: seq<byte>): seq<byte> {
    command + [CR, LF]
  }

  /** What a client finds behind the prompt: the echo of its command if there is one, then the
      frame. The driver that makes CR LF of the LF of the frame does so for the echo's LF too. */
  function Sent(crlf: bool, echo: Option<seq<byte>>, text: seq<byte>): seq<byte> {
    if echo.Some? then OnWire(crlf, Printout(echo.value)) + OnWire(crlf, Frame(text)) else OnWire(crlf, Frame(text))
  }

  const CONSOLE_LINE_BYTES: nat := 256

  /** A line that the console echoes as it was sent, that is no frame and needs no stuffing. */
  predicate Command(command: seq<byte>) {
    && Printable(command) && |command| < CONSOLE_LINE_BYTES
    && !(P4J1.PREFIX <= command) && !([DOT] <= command)
  }

  const TOOL_PREFIX: seq<byte> := Ascii("p4exec ")

  /** The commands of both clients are such lines. */
  lemma ToolCommand(rest: seq<byte>)
    requires Printable(rest) && |rest| < 249
    ensures Command(Ascii("p4exec ") + rest)
    ensures |rest| == 248 ==> !Command([112] + Ascii("p4exec ") + rest)
  {
    var command := TOOL_PREFIX + rest;
    assert command[0] == 112 && P4J1.PREFIX[0] == 80;
    PrintableJoin(TOOL_PREFIX, rest);
  }

  /** The echo as a line: over a serial line a CR too many. */
  function EchoLine(crlf: bool, command: seq<byte>): seq<byte> {
    if crlf then command + [CR] else command
  }

  function EchoLines(crlf: bool, echo: Option<seq<byte>>): seq<seq<byte>> {
    if echo.Some? then [EchoLine(crlf, echo.value)] else []
  }

  lemma EchoArrives(client: Client, crlf: bool, command: seq<byte>)
    requires Printable(command)
    ensures Arrival(client, crlf, command + [CR]) == EchoLine(crlf, command)
  {
    IntactArrives(client, true, EchoLine(crlf, command));
  }

  lemma EchoOnWire(crlf: bool, command: seq<byte>)
    requires Printable(command)
    ensures OnWire(crlf, Printout(command)) == command + [CR] + LineEnd(crlf)
    ensures crlf ==> OnWire(crlf, Printout(command)) == command + [CR, CR, LF]
  {
    var line := command + [CR];
    assert Printout(command) == line + [LF];
    OnWireSplit(crlf, line, [LF]);
    OnWireLine(crlf, line);
    OnWireLf(crlf);
  }

  // ---- What a client takes -----------------------------------------------------------

  lemma TakesEcho(client: Client, crlf: bool, command: seq<byte>, after: seq<byte>)
    requires Command(command) && ToTerminator(client, after).Some?
    ensures ToTerminator(client, OnWire(crlf, Printout(command)) + after)
         == Behind([EchoLine(crlf, command)], ToTerminator(client, after))
  {
    EchoOnWire(crlf, command);
    EchoArrives(client, crlf, command);
    TakesLine(client, crlf, command + [CR], after);
  }

  /** The lines a client takes: the echo, if there is one, and the response. */
  lemma TakesSent(client: Client, crlf: bool, echo: Option<seq<byte>>, text: seq<byte>, rest: seq<byte>)
    requires echo.Some? ==> Command(echo.value)
    ensures ToTerminator(client, Sent(crlf, echo, text) + rest)
         == Some(Raw(EchoLines(crlf, echo) + Arrivals(client, crlf, StuffedLines(Lines(text))), rest))
  {
    var frame := OnWire(crlf, Frame(text));
    FrameArrives(client, crlf, text, rest);
    if echo.Some? {
      TakesEcho(client, crlf, echo.value, frame + rest);
      Regroup(OnWire(crlf, Printout(echo.value)), frame, rest);
    } else {
      BehindNothing(ToTerminator(client, frame + rest));
    }
  }

  predicate ShortLines(limit: nat, lines: seq<seq<byte>>) {
    forall i | 0 <= i < |lines| :: LF !in lines[i] && |lines[i]| + 2 < limit
  }

  lemma FitsLine(client: Client, limit: nat, crlf: bool, line: seq<byte>, after: seq<byte>)
    requires LF !in line && |line| + 1 < limit && Fits(client, limit, after)
    ensures Fits(client, limit, line + LineEnd(crlf) + after)
  {
    FirstLineOnWire(client, crlf, line, after);
    IndexOfIs(LF, line + LineEnd(crlf) + after, |line| + |LineEnd(crlf)| - 1);
  }

  lemma FitsDot(client: Client, limit: nat, crlf: bool, rest: seq<byte>)
    requires limit > 2
    ensures Fits(client, limit, [DOT] + LineEnd(crlf) + rest)
  {
    DotArrives(client, crlf, []);
    assert [DOT] + [] == [DOT];
    FirstLineOnWire(client, crlf, [DOT], rest);
    IndexOfIs(LF, [DOT] + LineEnd(crlf) + rest, |LineEnd(crlf)|);
  }

  lemma {:induction false} FitsLines(client: Client, limit: nat, crlf: bool, lines: seq<seq<byte>>, after: seq<byte>)
    requires ShortLines(limit, StuffedLines(lines)) && Fits(client, limit, after)
    ensures Fits(client, limit, Joined(StuffedLines(lines), LineEnd(crlf)) + after)
  {
    var stuffed := StuffedLines(lines);
    if lines == [] {
      assert Joined(stuffed, LineEnd(crlf)) + after == after;
    } else {
      assert stuffed[1..] == StuffedLines(lines[1..]);
      FitsLines(client, limit, crlf, lines[1..], after);
      JoinedSplit(stuffed, LineEnd(crlf), after);
      FitsLine(client, limit, crlf, stuffed[0], Joined(stuffed[1..], LineEnd(crlf)) + after);
    }
  }

  /** No line is too long for a client. */
  lemma SentFits(client: Client, limit: nat, crlf: bool, echo: Option<seq<byte>>, text: seq<byte>, rest: seq<byte>)
    requires (echo.Some? ==> Command(echo.value)) && limit > CONSOLE_LINE_BYTES + 2
    requires ShortLines(limit, StuffedLines(Lines(text)))
    ensures Fits(client, limit, Sent(crlf, echo, text) + rest)
  {
    var frame, dot := OnWire(crlf, Frame(text)), [DOT] + LineEnd(crlf);
    WireOfFrame(crlf, text);
    FitsDot(client, limit, crlf, rest);
    FitsLines(client, limit, crlf, Lines(text), dot + rest);
    Regroup(Joined(StuffedLines(Lines(text)), LineEnd(crlf)), dot, rest);
    if echo.Some? {
      EchoOnWire(crlf, echo.value);
      FitsLine(client, limit, crlf, echo.value + [CR], frame + rest);
      Regroup(OnWire(crlf, Printout(echo.value)), frame, rest);
    }
  }

  // ---- The echo ----------------------------------------------------------------------

  /** A client that waits for the echo of its command skips it exactly when the LF of the echo
      comes without a CR of the driver's: never on a serial line. */
  lemma EchoSkipped(crlf: bool, command: seq<byte>, lines: seq<seq<byte>>)
    ensures Body(EchoLines(crlf, Some(command)) + lines, Some(command)) == lines <==> !crlf
  {
    var all := [EchoLine(crlf, command)] + lines;
    assert all[1..] == lines && |all| == |lines| + 1;
    assert crlf ==> |EchoLine(crlf, command)| == |command| + 1;
  }

  /** There it stays in front of the response, with the CR too many. */
  lemma SerialEchoStays(command: seq<byte>, lines: seq<seq<byte>>)
    ensures Body(EchoLines(true, Some(command)) + lines, Some(command)) == [command + [CR]] + lines
  {
    assert |command + [CR]| == |command| + 1;
  }

  /** The echo that is left among the lines. */
  function EchoLeft(crlf: bool, echo: Option<seq<byte>>, echoed: Option<seq<byte>>): seq<seq<byte>> {
    if echo.Some? && echoed != Some(EchoLine(crlf, echo.value)) then [EchoLine(crlf, echo.value)] else []
  }

  lemma BodyOfSent(crlf: bool, echo: Option<seq<byte>>, echoed: Option<seq<byte>>, lines: seq<seq<byte>>)
    requires echo.None? && |lines| > 0 ==> echoed != Some(lines[0])
    ensures Body(EchoLines(crlf, echo) + lines, echoed) == EchoLeft(crlf, echo, echoed) + lines
  {
    if echo.Some? {
      var all := [EchoLine(crlf, echo.value)] + lines;
      assert all[1..] == lines;
    } else {
      assert [] + lines == lines;
    }
  }

  /** What is left of the echo is no frame to either client. */
  lemma EchoIsNoFrame(crlf: bool, command: seq<byte>)
    requires Command(command)
    ensures var line := EchoLine(crlf, command);
      && Unstuff(line) == Some(line) && Plain(line) == line
      && SwiftParsed(line).NotFrame? && P4J1.ParseC(line).NotFrame?
  {
    var line := EchoLine(crlf, command);
    assert |command| > 0 ==> [DOT] <= command || command[0] != DOT;
    assert P4J1.PREFIX <= line ==> |command| >= 5 && P4J1.PREFIX <= command by {
      assert P4J1.PREFIX[4] == SPACE;
    }
  }

  /** A line that is no frame to either client. */
  predicate NoFrame(line: seq<byte>) {
    Unstuff(line).Some? && SwiftParsed(line).NotFrame? && P4J1.ParseC(Plain(line)).NotFrame?
  }

  lemma SameAfterOne(a: seq<seq<byte>>, b: seq<seq<byte>>, last: seq<byte>)
    ensures LastFrame(a) == LastFrame(b) ==> LastFrame(a + [last]) == LastFrame(b + [last])
    ensures SwiftPayload(a) == SwiftPayload(b) ==> SwiftPayload(a + [last]) == SwiftPayload(b + [last])
    ensures Printed(Json, a) == Printed(Json, b) ==> Printed(Json, a + [last]) == Printed(Json, b + [last])
  {
    LastFrameSnoc(a, last);
    LastFrameSnoc(b, last);
    SwiftSnoc(a, last);
    SwiftSnoc(b, last);
    PrintedSnoc(Json, a, last);
    PrintedSnoc(Json, b, last);
  }

  lemma LastFrameSnoc(lines: seq<seq<byte>>, last: seq<byte>)
    ensures var parsed := P4J1.ParseC(Plain(last));
      LastFrame(lines + [last]) == if parsed.NotFrame? then LastFrame(lines) else parsed
  {
    var all := lines + [last];
    assert all[..|lines|] == lines && all[|lines|] == last;
  }

  lemma OnlyIgnored(line: seq<byte>)
    requires NoFrame(line)
    ensures LastFrame([line]) == LastFrame([]) && SwiftPayload([line]) == SwiftPayload([])
    ensures Printed(Json, [line]) == Printed(Json, [])
  {
    var none: seq<seq<byte>> := [];
    LastFrameSnoc(none, line);
    SwiftSnoc(none, line);
    PrintedSnoc(Json, none, line);
    assert none + [line] == [line];
  }

  lemma BehindFirst(line: seq<byte>, lines: seq<seq<byte>>)
    requires lines != []
    ensures var front, last := lines[..|lines| - 1], lines[|lines| - 1];
      lines == front + [last] && [line] + lines == [line] + front + [last]
  {
  }

  lemma {:induction false} IgnoredFirst(line: seq<byte>, lines: seq<seq<byte>>)
    requires NoFrame(line)
    ensures LastFrame([line] + lines) == LastFrame(lines) && SwiftPayload([line] + lines) == SwiftPayload(lines)
    ensures Printed(Json, [line] + lines) == Printed(Json, lines)
  {
    if lines == [] {
      OnlyIgnored(line);
      assert [line] + lines == [line];
    } else {
      var front, last := lines[..|lines| - 1], lines[|lines| - 1];
      IgnoredFirst(line, front);
      BehindFirst(line, lines);
      SameAfterOne([line] + front, front, last);
    }
  }

  lemma IgnoredBad(line: seq<byte>, lines: seq<seq<byte>>)
    requires NoFrame(line)
    ensures AnyBad([line] + lines) <==> AnyBad(lines)
  {
    var all := [line] + lines;
    if i :| 0 <= i < |lines| && SwiftParsed(lines[i]).Bad? {
      assert all[i + 1] == lines[i];
    }
    if i :| 0 <= i < |all| && SwiftParsed(all[i]).Bad? {
      assert i > 0 && lines[i - 1] == all[i];
    }
  }

  lemma IgnoredStuffing(line: seq<byte>, lines: seq<seq<byte>>)
    requires NoFrame(line)
    ensures WellStuffed([line] + lines) <==> WellStuffed(lines)
  {
    var all := [line] + lines;
    if i :| 0 <= i < |lines| && Unstuff(lines[i]).None? {
      assert all[i + 1] == lines[i];
    }
    if i :| 0 <= i < |all| && Unstuff(all[i]).None? {
      assert i > 0 && lines[i - 1] == all[i];
    }
  }

  /** Skipped or not, the echo changes nothing about a report. */
  lemma EchoIsIgnored(crlf: bool, echo: Option<seq<byte>>, echoed: Option<seq<byte>>, lines: seq<seq<byte>>)
    requires echo.Some? ==> Command(echo.value)
    ensures var all := EchoLeft(crlf, echo, echoed) + lines;
      && SwiftOutcome(all) == SwiftOutcome(lines)
      && (WellStuffed(all) <==> WellStuffed(lines))
      && Status(Json, all) == Status(Json, lines) && Printed(Json, all) == Printed(Json, lines)
  {
    if EchoLeft(crlf, echo, echoed) == [] {
      assert [] + lines == lines;
    } else {
      EchoIsNoFrame(crlf, echo.value);
      IgnoredFirst(EchoLine(crlf, echo.value), lines);
      IgnoredBad(EchoLine(crlf, echo.value), lines);
      IgnoredStuffing(EchoLine(crlf, echo.value), lines);
    }
  }

  // ---- Passthrough -------------------------------------------------------------------

  lemma PlainArrivals(crlf: bool, lines: seq<seq<byte>>, i: nat)
    requires i < |lines|
    ensures Unstuff(Arrivals(Ctl, crlf, StuffedLines(lines))[i]) == Some(Arrivals(Ctl, crlf, lines)[i])
  {
    UnstuffArrival(Ctl, crlf, lines[i]);
  }

  lemma {:induction false} PrintedPlain(lines: seq<seq<byte>>, plain: seq<seq<byte>>)
    requires |lines| == |plain| && forall i | 0 <= i < |lines| :: Unstuff(lines[i]) == Some(plain[i])
    ensures WellStuffed(lines) && Printed(Passthrough, lines) == plain
  {
    if |lines| > 0 {
      var n := |lines| - 1;
      PrintedPlain(lines[..n], plain[..n]);
      assert plain == plain[..n] + [plain[n]];
    }
  }

  lemma PrintedPassthrough(crlf: bool, echo: Option<seq<byte>>, echoed: Option<seq<byte>>, text: seq<byte>)
    requires echo.Some? ==> Command(echo.value)
    ensures var lines := EchoLeft(crlf, echo, echoed) + Arrivals(Ctl, crlf, StuffedLines(Lines(text)));
      && WellStuffed(lines)
      && Printed(Passthrough, lines) == EchoLeft(crlf, echo, echoed) + Arrivals(Ctl, crlf, Lines(text))
  {
    var left, stuffed, plain :=
      EchoLeft(crlf, echo, echoed), Arrivals(Ctl, crlf, StuffedLines(Lines(text))), Arrivals(Ctl, crlf, Lines(text));
    if echo.Some? {
      EchoIsNoFrame(crlf, echo.value);
    }
    forall i | 0 <= i < |left + stuffed| ensures Unstuff((left + stuffed)[i]) == Some((left + plain)[i]) {
      if i >= |left| {
        PlainArrivals(crlf, Lines(text), i - |left|);
      }
    }
    PrintedPlain(left + stuffed, left + plain);
  }

  /** power4ctl with a command it does not know, over a wire that holds: it prints the lines of
      the output as they arrive (ResponseRoundTrip), and before them, over a serial line, the
      echo of its own command. */
  method CtlPassesThrough(wire: Wire, ghost text: seq<byte>, ghost crlf: bool, ghost echo: Option<seq<byte>>,
                          echoed: Option<seq<byte>>, ghost rest: seq<byte>)
    returns (status: int, printed: seq<seq<byte>>)
    requires echoed != Some([DOT]) && (echo.Some? ==> Command(echo.value)) && (echo.None? ==> echoed.None?)
    requires ShortLines(C_LIMIT, StuffedLines(Lines(text)))
    requires wire.reliable && wire.incoming == Sent(crlf, echo, text) + rest
    modifies wire
    ensures status == 1 && wire.incoming == rest
    ensures printed == EchoLeft(crlf, echo, echoed) + Arrivals(Ctl, crlf, Lines(text))
    ensures crlf && echo.Some? && echoed == echo ==> EchoLeft(crlf, echo, echoed) == [echo.value + [CR]]
  {
    ghost var stream, lines := wire.incoming, Arrivals(Ctl, crlf, StuffedLines(Lines(text)));
    TakesSent(Ctl, crlf, echo, text, rest);
    SentFits(Ctl, C_LIMIT, crlf, echo, text, rest);
    BodyOfSent(crlf, echo, echoed, lines);
    PrintedPassthrough(crlf, echo, echoed, text);
    status, printed := ReadC(wire, Passthrough, echoed);
    if Stopped(Passthrough, stream, wire.incoming, echoed, status, printed) {
      StoppedIsIllStuffed(Passthrough, stream, wire.incoming, echoed, status, printed);
    }
  }
}
