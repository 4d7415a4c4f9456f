/** What the two clients make of the lines of a report response: the loops of power4ctl's
    read_dot_response and of power4d's readDotResponse. */
module Responses {
  import opened Bytes
  import opened DotFrame
  import opened DotReceive
  import opened LineReader
  import opened P4J1
  import opened Wrappers

  // ---- The lines one response takes from a stream ------------------------------------

  /** Whether a reader that takes raw lines shorter than limit gets to the lone dot. */
  predicate Fits(client: Client, limit: nat, stream: seq<byte>)
    decreases |stream|
  {
    var i := IndexOf(LF, stream);
    i < |stream| && i < limit && (Seen(client, stream[..i]) == [DOT] || Fits(client, limit, stream[i + 1..]))
  }

  /** The next line of a stream that is no terminator, and what follows it. */
  predicate Next(client: Client, stream: seq<byte>, line: seq<byte>, after: seq<byte>) {
    var i := IndexOf(LF, stream);
    i < |stream| && line == Seen(client, stream[..i]) != [DOT] && after == stream[i + 1..]
  }

  /** The stream starts with these lines, none of them a lone dot; this is left. */
  predicate Taken(client: Client, stream: seq<byte>, taken: seq<seq<byte>>, left: seq<byte>)
    decreases |taken|
  {
    if |taken| == 0 then left == stream
    else
      var i := IndexOf(LF, stream);
      i < |stream| && Next(client, stream, taken[0], stream[i + 1..]) && Taken(client, stream[i + 1..], taken[1..], left)
  }

  /** Where a reader is: it took these lines of the stream, and what is left still fits. */
  predicate At(client: Client, limit: nat, stream: seq<byte>, taken: seq<seq<byte>>, left: seq<byte>) {
    Taken(client, stream, taken, left) && (Fits(client, limit, stream) ==> Fits(client, limit, left))
  }

  lemma {:induction false} TakenLine(client: Client, stream: seq<byte>, taken: seq<seq<byte>>, left: seq<byte>,
                                     line: seq<byte>, after: seq<byte>)
    requires Taken(client, stream, taken, left) && Next(client, left, line, after)
    ensures Taken(client, stream, taken + [line], after)
    decreases |taken|
  {
    if taken == [] {
      TakenBefore(client, stream, line, after, [], after);
      assert [] + [line] == [line] + [];
    } else {
      var second := stream[IndexOf(LF, stream) + 1..];
      TakenLine(client, second, taken[1..], left, line, after);
      TakenBefore(client, stream, taken[0], second, taken[1..] + [line], after);
      assert taken + [line] == [taken[0]] + (taken[1..] + [line]);
    }
  }

  lemma TakenBefore(client: Client, stream: seq<byte>, line: seq<byte>, after: seq<byte>, more: seq<seq<byte>>,
                    left: seq<byte>)
    requires Next(client, stream, line, after) && Taken(client, after, more, left)
    ensures Taken(client, stream, [line] + more, left)
  {
    assert ([line] + more)[1..] == more;
  }

  /** A response with lines put before it. */
  function Behind(taken: seq<seq<byte>>, raw: Option<Raw>): Option<Raw> {
    if raw.None? then None else Some(Raw(taken + raw.value.lines, raw.value.rest))
  }

  lemma BehindNothing(raw: Option<Raw>)
    ensures Behind([], raw) == raw
  {
    assert raw.Some? ==> [] + raw.value.lines == raw.value.lines;
  }

  lemma BehindMore(line: seq<byte>, taken: seq<seq<byte>>, raw: Option<Raw>)
    ensures Behind([line], Behind(taken, raw)) == Behind([line] + taken, raw)
  {
    if raw.Some? {
      Regroup([line], taken, raw.value.lines);
    }
  }

  lemma OneFirst(client: Client, stream: seq<byte>, line: seq<byte>, after: seq<byte>)
    requires Next(client, stream, line, after)
    ensures ToTerminator(client, stream) == Behind([line], ToTerminator(client, after))
  {
  }

  lemma OneMoreFirst(client: Client, stream: seq<byte>, line: seq<byte>, after: seq<byte>, more: seq<seq<byte>>,
                     left: seq<byte>)
    requires Next(client, stream, line, after)
    requires ToTerminator(client, after) == Behind(more, ToTerminator(client, left))
    ensures ToTerminator(client, stream) == Behind([line] + more, ToTerminator(client, left))
  {
    OneFirst(client, stream, line, after);
    BehindMore(line, more, ToTerminator(client, left));
  }

  lemma FirstTaken(client: Client, stream: seq<byte>, taken: seq<seq<byte>>, left: seq<byte>)
    returns (line: seq<byte>, more: seq<seq<byte>>, after: seq<byte>)
    requires Taken(client, stream, taken, left) && taken != []
    ensures taken == [line] + more && |more| < |taken|
    ensures Next(client, stream, line, after) && Taken(client, after, more, left)
  {
    line, more, after := taken[0], taken[1..], stream[IndexOf(LF, stream) + 1..];
  }

  /** What is taken first and what is left make up the response. */
  lemma {:induction false} TakenFirst(client: Client, stream: seq<byte>, taken: seq<seq<byte>>, left: seq<byte>)
    requires Taken(client, stream, taken, left)
    ensures ToTerminator(client, stream) == Behind(taken, ToTerminator(client, left))
    decreases |taken|
  {
    if taken == [] {
      BehindNothing(ToTerminator(client, left));
    } else {
      var line, more, after := FirstTaken(client, stream, taken, left);
      TakenFirst(client, after, more, left);
      OneMoreFirst(client, stream, line, after, more, left);
    }
  }

  lemma TakenAll(client: Client, stream: seq<byte>, taken: seq<seq<byte>>, left: seq<byte>, i: nat)
    requires Taken(client, stream, taken, left) && i == IndexOf(LF, left) < |left|
    requires Seen(client, left[..i]) == [DOT]
    ensures ToTerminator(client, stream) == Some(Raw(taken, left[i + 1..]))
  {
    TakenFirst(client, stream, taken, left);
    assert taken + [] == taken;
  }

  /** The lines that are not the echo of the command. */
  function Body(lines: seq<seq<byte>>, echoed: Option<seq<byte>>): seq<seq<byte>> {
    if |lines| > 0 && echoed == Some(lines[0]) then lines[1..] else lines
  }

  lemma BodySnoc(lines: seq<seq<byte>>, line: seq<byte>, echoed: Option<seq<byte>>)
    ensures lines == [] && echoed == Some(line) ==> Body(lines + [line], echoed) == []
    ensures lines != [] || echoed != Some(line) ==> Body(lines + [line], echoed) == Body(lines, echoed) + [line]
  {
    if lines != [] {
      assert (lines + [line])[0] == lines[0];
      assert (lines + [line])[1..] == lines[1..] + [line];
    }
  }

  datatype Outcome = Success(payload: seq<byte>) | Failure | Missing

  // ---- power4d -----------------------------------------------------------------------

  /** What a line parses as once the stuffing is off; ill stuffing counts as a bad frame. */
  function SwiftParsed(line: seq<byte>): Parsed {
    if Unstuff(line).None? then Bad else ParseSwift(Unstuff(line).value)
  }

  predicate AnyBad(lines: seq<seq<byte>>) {
    exists i | 0 <= i < |lines| :: SwiftParsed(lines[i]).Bad?
  }

  function SwiftPayload(lines: seq<seq<byte>>): Option<seq<byte>> {
    if |lines| == 0 then None
    else
      var last := SwiftParsed(lines[|lines| - 1]);
      if last.Payload? then Some(last.json) else SwiftPayload(lines[..|lines| - 1])
  }

  /** One bad line spoils a response; otherwise the last payload is its result. */
  function SwiftOutcome(lines: seq<seq<byte>>): Outcome {
    if AnyBad(lines) then Failure
    else if SwiftPayload(lines).None? then Missing
    else Success(SwiftPayload(lines).value)
  }

  lemma SwiftSnoc(lines: seq<seq<byte>>, line: seq<byte>)
    ensures AnyBad(lines + [line]) <==> AnyBad(lines) || SwiftParsed(line).Bad?
    ensures SwiftPayload(lines + [line])
         == if SwiftParsed(line).Payload? then Some(SwiftParsed(line).json) else SwiftPayload(lines)
  {
    var all := lines + [line];
    assert all[..|lines|] == lines && all[|lines|] == line;
    if i :| 0 <= i < |lines| && SwiftParsed(lines[i]).Bad? {
      assert SwiftParsed(all[i]).Bad?;
    }
  }

  datatype Response = Done(outcome: Outcome) | Broken

  const LINE_LIMIT: nat := 131072

  /** The response was taken whole, and this is its outcome. */
  ghost predicate SwiftTook(stream: seq<byte>, left: seq<byte>, echoed: Option<seq<byte>>, outcome: Outcome) {
    && ToTerminator(Daemon, stream).Some?
    && left == ToTerminator(Daemon, stream).value.rest
    && outcome == SwiftOutcome(Body(ToTerminator(Daemon, stream).value.lines, echoed))
  }

  datatype SwiftState = SwiftState(echoPending: bool, payload: Option<seq<byte>>, frameError: bool)

  ghost predicate SwiftKept(all: seq<seq<byte>>, echoed: Option<seq<byte>>, st: SwiftState) {
    && st.echoPending == (echoed.Some? && all == [])
    && st.payload == SwiftPayload(Body(all, echoed))
    && st.frameError == AnyBad(Body(all, echoed))
  }

  lemma SwiftSkips(all: seq<seq<byte>>, line: seq<byte>, echoed: Option<seq<byte>>, st: SwiftState)
    requires SwiftKept(all, echoed, st) && st.echoPending && echoed == Some(line)
    ensures SwiftKept(all + [line], echoed, st.(echoPending := false))
  {
    BodySnoc(all, line, echoed);
  }

  lemma SwiftTakes(all: seq<seq<byte>>, line: seq<byte>, echoed: Option<seq<byte>>, st: SwiftState)
    requires SwiftKept(all, echoed, st) && !(st.echoPending && echoed == Some(line))
    ensures SwiftKept(all + [line], echoed, SwiftState(false,
      if SwiftParsed(line).Payload? then Some(SwiftParsed(line).json) else st.payload,
      st.frameError || SwiftParsed(line).Bad?))
  {
    BodySnoc(all, line, echoed);
    SwiftSnoc(Body(all, echoed), line);
  }

  /** One readLine: the next line of the response, or its terminator. */
  method NextLine(connection: Connection, ghost stream: seq<byte>, ghost taken: seq<seq<byte>>)
    returns (read: ReadResult)
    requires At(Daemon, LINE_LIMIT, stream, taken, connection.Stream())
    modifies connection, connection.wire
    ensures read.Line? ==> |connection.Stream()| < |old(connection.Stream())|
    ensures read.Line? && read.text == [DOT] ==> ToTerminator(Daemon, stream) == Some(Raw(taken, connection.Stream()))
    ensures read.Line? && read.text != [DOT] ==>
      At(Daemon, LINE_LIMIT, stream, taken + [read.text], connection.Stream())
    ensures connection.wire.reliable && Fits(Daemon, LINE_LIMIT, stream) ==> read.Line?
  {
    ghost var left := connection.Stream();
    if Fits(Daemon, LINE_LIMIT, stream) {
      FitsHere(Daemon, LINE_LIMIT, stream, taken, left);
    }
    read := connection.ReadLine(LINE_LIMIT);
    if read.Line? {
      NextOf(Daemon, LINE_LIMIT, stream, taken, left, read.text, connection.Stream());
    }
  }

  lemma FitsHere(client: Client, limit: nat, stream: seq<byte>, taken: seq<seq<byte>>, left: seq<byte>)
    requires At(client, limit, stream, taken, left) && Fits(client, limit, stream)
    ensures IndexOf(LF, left) < |left| && IndexOf(LF, left) < limit
  {
  }

  /** The line before the first LF was taken. */
  lemma NextOf(client: Client, limit: nat, stream: seq<byte>, taken: seq<seq<byte>>, left: seq<byte>,
               line: seq<byte>, after: seq<byte>)
    requires At(client, limit, stream, taken, left)
    requires var i := IndexOf(LF, left); i < |left| && line == Seen(client, left[..i]) && after == left[i + 1..]
    ensures |after| < |left|
    ensures line == [DOT] ==> ToTerminator(client, stream) == Some(Raw(taken, after))
    ensures line != [DOT] ==> At(client, limit, stream, taken + [line], after)
  {
    var i := IndexOf(LF, left);
    if line == [DOT] {
      TakenAll(client, stream, taken, left, i);
    } else {
      TakenLine(client, stream, taken, left, line, after);
    }
  }

  /** readDotResponse: it takes the lines up to the terminator and no byte more. It fails only
      if the connection does or a line is too long. */
  method ReadSwift(connection: Connection, echoed: Option<seq<byte>>) returns (r: Response)
    requires echoed != Some([DOT])
    modifies connection, connection.wire
    ensures r.Done? ==> SwiftTook(old(connection.Stream()), connection.Stream(), echoed, r.outcome)
    ensures connection.wire.reliable && Fits(Daemon, LINE_LIMIT, old(connection.Stream())) ==> r.Done?
  {
    ghost var s, all := connection.Stream(), [];
    var echoPending, payload, frameError := echoed.Some?, None, false;
    while true
      invariant At(Daemon, LINE_LIMIT, s, all, connection.Stream())
      invariant SwiftKept(all, echoed, SwiftState(echoPending, payload, frameError))
      decreases |connection.Stream()|
    {
      ghost var st := SwiftState(echoPending, payload, frameError);
      var read := NextLine(connection, s, all);
      if !read.Line? {
        return Broken;
      }
      var line := read.text;
      if line == [DOT] {
        return Done(if frameError then Failure else if payload.None? then Missing else Success(payload.value));
      }
      if echoPending && echoed == Some(line) {
        SwiftSkips(all, line, echoed, st);
        echoPending := false;
      } else {
        SwiftTakes(all, line, echoed, st);
        echoPending := false;
        var parsed := SwiftParsed(line);
        if parsed.Bad? {
          frameError := true;
        } else if parsed.Payload? {
          payload := Some(parsed.json);
        }
      }
      all := all + [line];
    }
  }
}
