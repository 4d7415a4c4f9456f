/** A framed response on the wire, and the lines a client takes from it. The serial drivers
    send CR LF for LF; the TCP console sends LF alone. Both clients drop one CR before LF. */
module DotReceive {
  import opened Bytes
  import opened DotFrame
  import opened LogJson
  import opened Wrappers

  function LineEnd(crlf: bool): seq<byte> {
    if crlf then [CR, LF] else [LF]
  }

  function OnWire(crlf: bool, data: seq<byte>): seq<byte> {
    if |data| == 0 then []
    else (if data[0] == LF then LineEnd(crlf) else [data[0]]) + OnWire(crlf, data[1..])
  }

  function StripCr(line: seq<byte>): seq<byte> {
    if |line| > 0 && line[|line| - 1] == CR then line[..|line| - 1] else line
  }

  /** power4ctl takes a line as a C string, power4d as its bytes. */
  datatype Client = Ctl | Daemon

  /** The line a client has when it took these bytes before an LF. */
  function Seen(client: Client, raw: seq<byte>): seq<byte> {
    if client.Ctl? then CString(StripCr(raw)) else StripCr(raw)
  }

  /** The lines before the first lone dot, and the bytes after it. */
  datatype Raw = Raw(lines: seq<seq<byte>>, rest: seq<byte>)

  function ToTerminator(client: Client, wire: seq<byte>): Option<Raw>
    decreases |wire|
  {
    var i := IndexOf(LF, wire);
    if i == |wire| then None
    else
      var line, after := Seen(client, wire[..i]), wire[i + 1..];
      if line == [DOT] then Some(Raw([], after))
      else
        var more := ToTerminator(client, after);
        if more.None? then None else Some(Raw([line] + more.value.lines, more.value.rest))
  }

  /** What remains of a doubled dot; None when a line starts with a single dot. */
  function Unstuff(line: seq<byte>): Option<seq<byte>> {
    if |line| > 0 && line[0] == DOT then
      if |line| > 1 && line[1] == DOT then Some(line[1..]) else None
    else Some(line)
  }

  function UnstuffAll(lines: seq<seq<byte>>): Option<seq<seq<byte>>> {
    if |lines| == 0 then Some([])
    else
      var first, more := Unstuff(lines[0]), UnstuffAll(lines[1..]);
      if first.None? || more.None? then None else Some([first.value] + more.value)
  }

  // ---- From lines to wire ---------------------------------------------------------

  lemma {:induction false} OnWireSplit(crlf: bool, a: seq<byte>, b: seq<byte>)
    ensures OnWire(crlf, a + b) == OnWire(crlf, a) + OnWire(crlf, b)
  {
    if |a| == 0 {
      assert a + b == b;
    } else {
      assert (a + b)[1..] == a[1..] + b;
      OnWireSplit(crlf, a[1..], b);
    }
  }

  lemma {:induction false} OnWireLine(crlf: bool, line: seq<byte>)
    requires LF !in line
    ensures OnWire(crlf, line) == line
  {
    if |line| > 0 {
      OnWireLine(crlf, line[1..]);
    }
  }

  lemma OnWireLf(crlf: bool)
    ensures OnWire(crlf, [LF]) == LineEnd(crlf)
  {
    assert OnWire(crlf, [LF]) == LineEnd(crlf) + OnWire(crlf, []);
  }

  lemma {:induction false} OnWireJoined(crlf: bool, lines: seq<seq<byte>>)
    requires forall i | 0 <= i < |lines| :: LF !in lines[i]
    ensures OnWire(crlf, Joined(lines, [LF])) == Joined(lines, LineEnd(crlf))
  {
    if |lines| > 0 {
      var more := Joined(lines[1..], [LF]);
      OnWireSplit(crlf, lines[0] + [LF], more);
      OnWireSplit(crlf, lines[0], [LF]);
      OnWireLine(crlf, lines[0]);
      OnWireLf(crlf);
      OnWireJoined(crlf, lines[1..]);
    }
  }

  /** How one sent line arrives. */
  function Arrival(client: Client, crlf: bool, line: seq<byte>): seq<byte> {
    var whole := if crlf then line else StripCr(line);
    if client.Ctl? then CString(whole) else whole
  }

  function Arrivals(client: Client, crlf: bool, lines: seq<seq<byte>>): (r: seq<seq<byte>>)
    ensures |r| == |lines|
  {
    seq(|lines|, i requires 0 <= i < |lines| => Arrival(client, crlf, lines[i]))
  }

  lemma FirstLineOnWire(client: Client, crlf: bool, line: seq<byte>, rest: seq<byte>)
    requires LF !in line
    ensures var wire := line + LineEnd(crlf) + rest;
      var i := IndexOf(LF, wire);
      i < |wire| && Seen(client, wire[..i]) == Arrival(client, crlf, line) && wire[i + 1..] == rest
  {
    var wire := line + LineEnd(crlf) + rest;
    var i := |line| + if crlf then 1 else 0;
    IndexOfIs(LF, wire, i);
    assert wire[..i] == if crlf then line + [CR] else line;
  }

  lemma DotArrives(client: Client, crlf: bool, line: seq<byte>)
    ensures Arrival(client, crlf, [DOT] + line) == [DOT] + Arrival(client, crlf, line)
  {
    var whole := if crlf then line else StripCr(line);
    assert (if crlf then [DOT] + line else StripCr([DOT] + line)) == [DOT] + whole;
    assert ([DOT] + whole)[1..] == whole;
  }

  lemma NoDotArrives(client: Client, crlf: bool, line: seq<byte>)
    requires |line| == 0 || line[0] != DOT
    ensures |Arrival(client, crlf, line)| == 0 || Arrival(client, crlf, line)[0] != DOT
  {
  }

  /** Stuffing keeps every line apart from the terminator, even one that loses a CR. */
  lemma StuffedIsNoTerminator(client: Client, crlf: bool, line: seq<byte>)
    ensures Arrival(client, crlf, StuffLine(line)) != [DOT]
  {
    if |line| > 0 && line[0] == DOT {
      DotArrives(client, crlf, line);
      DotArrives(client, crlf, line[1..]);
    } else {
      NoDotArrives(client, crlf, line);
    }
  }

  lemma TakesTerminator(client: Client, crlf: bool, rest: seq<byte>)
    ensures ToTerminator(client, [DOT] + LineEnd(crlf) + rest) == Some(Raw([], rest))
  {
    FirstLineOnWire(client, crlf, [DOT], rest);
    DotArrives(client, crlf, []);
    assert [DOT] + [] == [DOT];
  }

  lemma TakesLine(client: Client, crlf: bool, line: seq<byte>, after: seq<byte>)
    requires LF !in line && Arrival(client, crlf, line) != [DOT]
    requires ToTerminator(client, after).Some?
    ensures ToTerminator(client, line + LineEnd(crlf) + after)
         == Some(Raw([Arrival(client, crlf, line)] + ToTerminator(client, after).value.lines, ToTerminator(client, after).value.rest))
  {
    FirstLineOnWire(client, crlf, line, after);
  }

  lemma ArrivalsSplit(client: Client, crlf: bool, lines: seq<seq<byte>>)
    requires |lines| > 0
    ensures Arrivals(client, crlf, lines) == [Arrival(client, crlf, lines[0])] + Arrivals(client, crlf, lines[1..])
  {
  }

  lemma JoinedSplit(lines: seq<seq<byte>>, end: seq<byte>, after: seq<byte>)
    requires |lines| > 0
    ensures Joined(lines, end) + after == lines[0] + end + (Joined(lines[1..], end) + after)
  {
  }

  lemma {:induction false} TakesLines(client: Client, crlf: bool, lines: seq<seq<byte>>, after: seq<byte>, raw: Raw)
    requires forall i | 0 <= i < |lines| :: LF !in lines[i] && Arrival(client, crlf, lines[i]) != [DOT]
    requires ToTerminator(client, after) == Some(raw)
    ensures ToTerminator(client, Joined(lines, LineEnd(crlf)) + after)
         == Some(Raw(Arrivals(client, crlf, lines) + raw.lines, raw.rest))
  {
    if |lines| == 0 {
      assert Joined(lines, LineEnd(crlf)) + after == after;
      assert Arrivals(client, crlf, lines) + raw.lines == raw.lines;
    } else {
      TakesLines(client, crlf, lines[1..], after, raw);
      JoinedSplit(lines, LineEnd(crlf), after);
      TakesLine(client, crlf, lines[0], Joined(lines[1..], LineEnd(crlf)) + after);
      ArrivalsSplit(client, crlf, lines);
      Regroup([Arrival(client, crlf, lines[0])], Arrivals(client, crlf, lines[1..]), raw.lines);
    }
  }

  lemma {:induction false} LinesHaveNoLf(text: seq<byte>)
    ensures forall i | 0 <= i < |Lines(text)| :: LF !in Lines(text)[i]
    decreases |text|
  {
    if text != [] {
      var i := SplitLines(text);
      if i < |text| {
        LinesHaveNoLf(text[i + 1..]);
      }
    }
  }

  lemma WireOfFrame(crlf: bool, text: seq<byte>)
    ensures OnWire(crlf, Frame(text))
         == Joined(StuffedLines(Lines(text)), LineEnd(crlf)) + ([DOT] + LineEnd(crlf))
  {
    var lines := StuffedLines(Lines(text));
    FrameIsLines(text);
    LinesHaveNoLf(text);
    OnWireSplit(crlf, Joined(lines, [LF]), [DOT, LF]);
    OnWireJoined(crlf, lines);
    assert [DOT, LF] == [DOT] + [LF];
    OnWireSplit(crlf, [DOT], [LF]);
    OnWireLine(crlf, [DOT]);
    OnWireLf(crlf);
  }

  lemma StuffedLinesAreLines(client: Client, crlf: bool, text: seq<byte>)
    ensures var lines := StuffedLines(Lines(text));
      forall i | 0 <= i < |lines| :: LF !in lines[i] && Arrival(client, crlf, lines[i]) != [DOT]
  {
    LinesHaveNoLf(text);
    forall i | 0 <= i < |Lines(text)| ensures Arrival(client, crlf, StuffedLines(Lines(text))[i]) != [DOT] {
      StuffedIsNoTerminator(client, crlf, Lines(text)[i]);
    }
  }

  /** On either transport, and whatever the text, the first lone dot a client sees is the
      terminator, and it sees one line for each line sent. */
  lemma FrameArrives(client: Client, crlf: bool, text: seq<byte>, rest: seq<byte>)
    ensures ToTerminator(client, OnWire(crlf, Frame(text)) + rest)
         == Some(Raw(Arrivals(client, crlf, StuffedLines(Lines(text))), rest))
  {
    var lines := StuffedLines(Lines(text));
    WireOfFrame(crlf, text);
    StuffedLinesAreLines(client, crlf, text);
    TakesTerminator(client, crlf, rest);
    TakesLines(client, crlf, lines, [DOT] + LineEnd(crlf) + rest, Raw([], rest));
    assert Arrivals(client, crlf, lines) + [] == Arrivals(client, crlf, lines);
    Regroup(Joined(lines, LineEnd(crlf)), [DOT] + LineEnd(crlf), rest);
  }

  predicate EndsInCr(line: seq<byte>) {
    |line| > 0 && line[|line| - 1] == CR
  }

  /** A line that gets to the client as it was: its CR is kept on a serial line only, and
      power4ctl loses what follows a NUL. */
  predicate Intact(client: Client, crlf: bool, line: seq<byte>) {
    (crlf || !EndsInCr(line)) && (client.Ctl? ==> NUL !in line)
  }

  lemma IntactArrives(client: Client, crlf: bool, line: seq<byte>)
    ensures Arrival(client, crlf, line) == line <==> Intact(client, crlf, line)
  {
    var whole := if crlf then line else StripCr(line);
    CStringIsNoLonger(whole);
    CStringIsWhole(line);
  }

  lemma UnstuffArrival(client: Client, crlf: bool, line: seq<byte>)
    ensures Unstuff(Arrival(client, crlf, StuffLine(line))) == Some(Arrival(client, crlf, line))
  {
    if |line| > 0 && line[0] == DOT {
      DotArrives(client, crlf, line);
      DotArrives(client, crlf, line[1..]);
      assert [DOT] + line[1..] == line;
    } else {
      NoDotArrives(client, crlf, line);
    }
  }

  lemma {:induction false} UnstuffArrivals(client: Client, crlf: bool, lines: seq<seq<byte>>)
    ensures UnstuffAll(Arrivals(client, crlf, StuffedLines(lines))) == Some(Arrivals(client, crlf, lines))
  {
    if |lines| > 0 {
      UnstuffArrivals(client, crlf, lines[1..]);
      UnstuffFirstArrival(client, crlf, lines[0], lines[1..]);
      assert lines == [lines[0]] + lines[1..];
    }
  }

  lemma UnstuffFirstArrival(client: Client, crlf: bool, line: seq<byte>, more: seq<seq<byte>>)
    requires UnstuffAll(Arrivals(client, crlf, StuffedLines(more))) == Some(Arrivals(client, crlf, more))
    ensures UnstuffAll(Arrivals(client, crlf, StuffedLines([line] + more)))
         == Some(Arrivals(client, crlf, [line] + more))
  {
    UnstuffArrival(client, crlf, line);
    StuffedLinesSplit(line, more);
    ArrivalsOfFirst(client, crlf, StuffLine(line), StuffedLines(more));
    ArrivalsOfFirst(client, crlf, line, more);
    UnstuffFirst(Arrival(client, crlf, StuffLine(line)), Arrivals(client, crlf, StuffedLines(more)));
  }

  lemma ArrivalsOfFirst(client: Client, crlf: bool, line: seq<byte>, more: seq<seq<byte>>)
    ensures Arrivals(client, crlf, [line] + more) == [Arrival(client, crlf, line)] + Arrivals(client, crlf, more)
  {
  }

  lemma UnstuffFirst(line: seq<byte>, more: seq<seq<byte>>)
    requires Unstuff(line).Some? && UnstuffAll(more).Some?
    ensures UnstuffAll([line] + more) == Some([Unstuff(line).value] + UnstuffAll(more).value)
  {
    assert ([line] + more)[1..] == more;
  }

  lemma IntactLinesArrive(client: Client, crlf: bool, lines: seq<seq<byte>>)
    ensures Arrivals(client, crlf, lines) == lines <==> forall i | 0 <= i < |lines| :: Intact(client, crlf, lines[i])
  {
    forall i | 0 <= i < |lines| ensures Arrivals(client, crlf, lines)[i] == lines[i] <==> Intact(client, crlf, lines[i]) {
      IntactArrives(client, crlf, lines[i]);
    }
    if Arrivals(client, crlf, lines) != lines {
      var i :| 0 <= i < |lines| && Arrivals(client, crlf, lines)[i] != lines[i];
      assert !Intact(client, crlf, lines[i]);
    }
  }

  /** A client that removes the stuffing has the lines of the original text as they arrive, and
      exactly those lines if and only if each of them is intact. */
  lemma ResponseRoundTrip(client: Client, crlf: bool, text: seq<byte>, rest: seq<byte>)
    ensures var raw := ToTerminator(client, OnWire(crlf, Frame(text)) + rest);
      && raw.Some?
      && raw.value.rest == rest
      && UnstuffAll(raw.value.lines) == Some(Arrivals(client, crlf, Lines(text)))
      && (UnstuffAll(raw.value.lines) == Some(Lines(text)) <==>
          forall i | 0 <= i < |Lines(text)| :: Intact(client, crlf, Lines(text)[i]))
  {
    FrameArrives(client, crlf, text, rest);
    UnstuffArrivals(client, crlf, Lines(text));
    IntactLinesArrive(client, crlf, Lines(text));
  }
}
