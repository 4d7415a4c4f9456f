/** read_dot_response of power4ctl, for its three kinds of command. */
module CtlResponse {
  import opened Bytes
  import opened DotFrame
  import opened DotReceive
  import opened LineReader
  import opened LogJson
  import opened P4J1
  import opened Responses
  import opened Wrappers

  datatype Kind = Passthrough | Json | Upload

  const UPLOADED: seq<byte> := Ascii("uploaded staged configuration:")
  const FAILED: seq<byte> := Ascii(" failed:")

  predicate Contains(s: seq<byte>, part: seq<byte>) {
    part <= s || (|s| > 0 && Contains(s[1..], part))
  }

  // ---- What a response amounts to ----------------------------------------------------

  predicate WellStuffed(lines: seq<seq<byte>>) {
    forall i | 0 <= i < |lines| :: Unstuff(lines[i]).Some?
  }

  function Plain(line: seq<byte>): seq<byte> {
    if Unstuff(line).None? then line else Unstuff(line).value
  }

  predicate AnyContains(lines: seq<seq<byte>>, part: seq<byte>) {
    exists i | 0 <= i < |lines| :: Contains(Plain(lines[i]), part)
  }

  /** The last line that parses as a frame, good or bad, decides. */
  function LastFrame(lines: seq<seq<byte>>): Parsed {
    if |lines| == 0 then NotFrame
    else
      var last := ParseC(Plain(lines[|lines| - 1]));
      if last.NotFrame? then LastFrame(lines[..|lines| - 1]) else last
  }

  function Status(kind: Kind, lines: seq<seq<byte>>): int {
    match kind
    case Passthrough => 1
    case Json => if LastFrame(lines).NotFrame? then 0 else if LastFrame(lines).Bad? then -1 else 1
    case Upload => if AnyContains(lines, UPLOADED) || !AnyContains(lines, FAILED) then 1 else -1
  }

  /** What one line prints on standard output. */
  function Prints(kind: Kind, line: seq<byte>): seq<seq<byte>> {
    match kind
    case Passthrough => [Plain(line)]
    case Json => if ParseC(Plain(line)).Payload? then [ParseC(Plain(line)).json] else []
    case Upload => if Contains(Plain(line), UPLOADED) then [Plain(line)] else []
  }

  function Printed(kind: Kind, lines: seq<seq<byte>>): seq<seq<byte>> {
    if |lines| == 0 then []
    else Printed(kind, lines[..|lines| - 1]) + Prints(kind, lines[|lines| - 1])
  }

  // ---- The loop ----------------------------------------------------------------------

  /** status while the loop runs: the kinds that do not use it leave it 0. */
  function Running(kind: Kind, lines: seq<seq<byte>>): int {
    match kind
    case Passthrough => 0
    case Json => Status(Json, lines)
    case Upload =>
      if AnyContains(lines, UPLOADED) then 1 else if AnyContains(lines, FAILED) then -1 else 0
  }

  datatype State = State(echoPending: bool, status: int, printed: seq<seq<byte>>)

  ghost predicate Kept(kind: Kind, all: seq<seq<byte>>, echoed: Option<seq<byte>>, st: State) {
    && st.echoPending == (echoed.Some? && all == [])
    && st.status == Running(kind, Body(all, echoed))
    && st.printed == Printed(kind, Body(all, echoed))
    && WellStuffed(Body(all, echoed))
  }

  lemma EndStatus(kind: Kind, lines: seq<seq<byte>>)
    ensures Status(kind, lines) ==
      if kind.Passthrough? || (kind.Upload? && Running(kind, lines) == 0) then 1 else Running(kind, lines)
  {
  }

  lemma ContainsSnoc(lines: seq<seq<byte>>, line: seq<byte>, part: seq<byte>)
    ensures AnyContains(lines + [line], part) <==> AnyContains(lines, part) || Contains(Plain(line), part)
  {
    var all := lines + [line];
    assert all[|lines|] == line;
    if i :| 0 <= i < |lines| && Contains(Plain(lines[i]), part) {
      assert Contains(Plain(all[i]), part);
    }
  }

  function Next(kind: Kind, status: int, line: seq<byte>): int {
    match kind
    case Passthrough => status
    case Json =>
      (match ParseC(Plain(line)) case NotFrame => status case Bad => -1 case Payload(_) => 1)
    case Upload =>
      if Contains(Plain(line), UPLOADED) then 1
      else if status == 0 && Contains(Plain(line), FAILED) then -1
      else status
  }

  lemma RunningSnoc(kind: Kind, lines: seq<seq<byte>>, line: seq<byte>)
    ensures Running(kind, lines + [line]) == Next(kind, Running(kind, lines), line)
  {
    var all := lines + [line];
    assert all[..|lines|] == lines && all[|lines|] == line;
    if kind.Upload? {
      ContainsSnoc(lines, line, UPLOADED);
      ContainsSnoc(lines, line, FAILED);
    }
  }

  lemma PrintedSnoc(kind: Kind, lines: seq<seq<byte>>, line: seq<byte>)
    ensures Printed(kind, lines + [line]) == Printed(kind, lines) + Prints(kind, line)
  {
    var all := lines + [line];
    assert all[..|lines|] == lines && all[|lines|] == line;
  }

  lemma Skips(kind: Kind, all: seq<seq<byte>>, line: seq<byte>, echoed: Option<seq<byte>>, st: State)
    requires Kept(kind, all, echoed, st) && st.echoPending && echoed == Some(line)
    ensures Kept(kind, all + [line], echoed, st.(echoPending := false))
  {
    BodySnoc(all, line, echoed);
  }

  lemma Takes(kind: Kind, all: seq<seq<byte>>, line: seq<byte>, echoed: Option<seq<byte>>, st: State)
    requires Kept(kind, all, echoed, st) && !(st.echoPending && echoed == Some(line))
    requires Unstuff(line).Some?
    ensures Kept(kind, all + [line], echoed,
      State(false, Next(kind, st.status, line), st.printed + Prints(kind, line)))
  {
    BodySnoc(all, line, echoed);
    RunningSnoc(kind, Body(all, echoed), line);
    PrintedSnoc(kind, Body(all, echoed), line);
  }

  const C_LIMIT: nat := LINE_LIMIT - 1

  datatype LineRead = Got(line: seq<byte>) | Lost

  /** One read_line_fd, and what strcmp sees of the line. */
  method NextLineC(wire: Wire, buffer: array<byte>, ghost stream: seq<byte>, ghost taken: seq<seq<byte>>)
    returns (read: LineRead)
    requires buffer.Length == LINE_LIMIT
    requires At(Ctl, C_LIMIT, stream, taken, wire.incoming)
    modifies wire, buffer
    ensures read.Got? ==> |wire.incoming| < |old(wire.incoming)|
    ensures read.Got? && read.line == [DOT] ==> ToTerminator(Ctl, stream) == Some(Raw(taken, wire.incoming))
    ensures read.Got? && read.line != [DOT] ==> At(Ctl, C_LIMIT, stream, taken + [read.line], wire.incoming)
    ensures wire.reliable && Fits(Ctl, C_LIMIT, stream) ==> read.Got?
  {
    ghost var left := wire.incoming;
    var ok, length := ReadLineFd(wire, buffer);
    if !ok {
      return Lost;
    }
    read := Got(CString(buffer[..length]));
    NextOf(Ctl, C_LIMIT, stream, taken, left, read.line, wire.incoming);
  }

  /** The response was taken whole. */
  ghost predicate Whole(kind: Kind, stream: seq<byte>, left: seq<byte>, echoed: Option<seq<byte>>,
                        status: int, printed: seq<seq<byte>>)
  {
    var raw := ToTerminator(Ctl, stream);
    && raw.Some? && left == raw.value.rest
    && WellStuffed(Body(raw.value.lines, echoed))
    && status == Status(kind, Body(raw.value.lines, echoed))
    && printed == Printed(kind, Body(raw.value.lines, echoed))
  }

  /** Reading stopped at a line that starts with a single dot and is not the echo; the lines
      before it have been printed, later lines were not read. */
  ghost predicate Stopped(kind: Kind, stream: seq<byte>, left: seq<byte>, echoed: Option<seq<byte>>,
                          status: int, printed: seq<seq<byte>>)
  {
    status == -1 && exists taken, line :: StoppedAt(kind, stream, taken, line, left, echoed, printed)
  }

  ghost predicate StoppedAt(kind: Kind, stream: seq<byte>, taken: seq<seq<byte>>, line: seq<byte>, left: seq<byte>,
                            echoed: Option<seq<byte>>, printed: seq<seq<byte>>)
  {
    && Taken(Ctl, stream, taken + [line], left)
    && Unstuff(line).None? && !(taken == [] && echoed == Some(line))
    && WellStuffed(Body(taken, echoed)) && printed == Printed(kind, Body(taken, echoed))
  }

  /** A response that ends is either taken whole or stopped at, by its lines alone. */
  lemma StoppedIsIllStuffed(kind: Kind, stream: seq<byte>, left: seq<byte>, echoed: Option<seq<byte>>,
                            status: int, printed: seq<seq<byte>>)
    requires Stopped(kind, stream, left, echoed, status, printed) && ToTerminator(Ctl, stream).Some?
    ensures !WellStuffed(Body(ToTerminator(Ctl, stream).value.lines, echoed))
  {
    var taken, line :| StoppedAt(kind, stream, taken, line, left, echoed, printed);
    TakenFirst(Ctl, stream, taken + [line], left);
    var more := ToTerminator(Ctl, left).value.lines;
    var lines := taken + [line] + more;
    assert lines == ToTerminator(Ctl, stream).value.lines;
    if taken == [] {
      assert lines[0] == line && Body(lines, echoed) == lines;
    } else {
      assert lines[0] == taken[0] && lines[|taken|] == line;
      if echoed == Some(taken[0]) {
        assert Body(lines, echoed)[|taken| - 1] == line;
      }
    }
  }

  /** read_dot_response. Its 0 means no frame, or a wire that failed. */
  method ReadC(wire: Wire, kind: Kind, echoed: Option<seq<byte>>) returns (status: int, printed: seq<seq<byte>>)
    requires echoed != Some([DOT])
    modifies wire
    ensures status != 0 || (wire.reliable && Fits(Ctl, C_LIMIT, old(wire.incoming))) ==>
      || Whole(kind, old(wire.incoming), wire.incoming, echoed, status, printed)
      || Stopped(kind, old(wire.incoming), wire.incoming, echoed, status, printed)
  {
    var buffer := new byte[LINE_LIMIT];
    ghost var s, all := wire.incoming, [];
    var echoPending := echoed.Some?;
    status, printed := 0, [];
    while true
      invariant fresh(buffer)
      invariant At(Ctl, C_LIMIT, s, all, wire.incoming)
      invariant Kept(kind, all, echoed, State(echoPending, status, printed))
      decreases |wire.incoming|
    {
      ghost var st := State(echoPending, status, printed);
      var late :| wire.reliable ==> !late;
      if late {
        return 0, printed;
      }
      var read := NextLineC(wire, buffer, s, all);
      if read.Lost? {
        return 0, printed;
      }
      var line := read.line;
      if echoPending && echoed == Some(line) {
        Skips(kind, all, line, echoed, st);
        echoPending := false;
        all := all + [line];
        continue;
      }
      echoPending := false;
      if line == [DOT] {
        EndStatus(kind, Body(all, echoed));
        return (if kind.Passthrough? || (kind.Upload? && status == 0) then 1 else status), printed;
      }
      if Unstuff(line).None? {
        assert StoppedAt(kind, s, all, line, wire.incoming, echoed, printed);
        return -1, printed;
      }
      Takes(kind, all, line, echoed, st);
      all := all + [line];
      status, printed := TakeLine(kind, status, printed, Plain(line), line);
    }
  }

  /** The body of the loop, for a line of the response. */
  method TakeLine(kind: Kind, status: int, printed: seq<seq<byte>>, text: seq<byte>, ghost line: seq<byte>)
    returns (newStatus: int, newPrinted: seq<seq<byte>>)
    requires text == Plain(line)
    ensures newStatus == Next(kind, status, line) && newPrinted == printed + Prints(kind, line)
  {
    newStatus, newPrinted := status, printed;
    if kind.Passthrough? {
      newPrinted := printed + [text];
    } else if kind.Json? {
      var parsed := ParseC(text);
      if parsed.Payload? {
        newPrinted := printed + [parsed.json];
      }
      if !parsed.NotFrame? {
        newStatus := if parsed.Payload? then 1 else -1;
      }
    } else if Contains(text, UPLOADED) {
      newPrinted := printed + [text];
      newStatus := 1;
    } else if status == 0 && Contains(text, FAILED) {
      newStatus := -1;
    }
  }
}
