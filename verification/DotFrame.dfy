/** Dot-stuffed responses: what the console sends and what its clients make of it.
    Section 4.5.2 of RFC 5321 uses the same transparency rule. */
module DotFrame {
  import opened Bytes

  // ---- Sending ------------------------------------------------------------------

  /** A dot at the start of a line is doubled. */
  function Stuff(lineStart: bool, text: seq<byte>): seq<byte>
    decreases |text|
  {
    if |text| == 0 then []
    else (if lineStart && text[0] == DOT then [DOT, DOT] else [text[0]]) + Stuff(text[0] == LF, text[1..])
  }

  function LineStartAfter(lineStart: bool, text: seq<byte>): bool {
    if |text| == 0 then lineStart else text[|text| - 1] == LF
  }

  function Terminator(lineStart: bool): seq<byte> {
    if lineStart then [DOT, LF] else [LF, DOT, LF]
  }

  /** A complete response. */
  function Frame(text: seq<byte>): seq<byte> {
    Stuff(true, text) + Terminator(LineStartAfter(true, text))
  }

  lemma StuffFirst(lineStart: bool, first: byte, tail: seq<byte>)
    ensures Stuff(lineStart, [first] + tail)
         == (if lineStart && first == DOT then [DOT, DOT] else [first]) + Stuff(first == LF, tail)
    ensures LineStartAfter(lineStart, [first] + tail) == LineStartAfter(first == LF, tail)
  {
    assert ([first] + tail)[1..] == tail;
  }

  lemma StuffSplitStep(lineStart: bool, first: byte, tail: seq<byte>, b: seq<byte>)
    requires var next := first == LF; Stuff(next, tail + b) == Stuff(next, tail) + Stuff(LineStartAfter(next, tail), b)
    ensures var a := [first] + tail;
      Stuff(lineStart, a + b) == Stuff(lineStart, a) + Stuff(LineStartAfter(lineStart, a), b)
  {
    var next := first == LF;
    StuffFirst(lineStart, first, tail);
    StuffFirst(lineStart, first, tail + b);
    Regroup([first], tail, b);
    Regroup(if lineStart && first == DOT then [DOT, DOT] else [first],
            Stuff(next, tail), Stuff(LineStartAfter(next, tail), b));
  }

  lemma {:induction false} StuffSplit(lineStart: bool, a: seq<byte>, b: seq<byte>)
    ensures Stuff(lineStart, a + b) == Stuff(lineStart, a) + Stuff(LineStartAfter(lineStart, a), b)
    decreases |a|
  {
    if |a| == 0 {
      assert a + b == b;
    } else {
      StuffSplit(a[0] == LF, a[1..], b);
      StuffSplitStep(lineStart, a[0], a[1..], b);
      assert a == [a[0]] + a[1..];
    }
  }

  // ---- Lines --------------------------------------------------------------------

  /** Where a byte first occurs, or the length. */
  function IndexOf(b: byte, data: seq<byte>): (i: nat)
    ensures i <= |data|
    ensures forall j | 0 <= j < i :: data[j] != b
    ensures i < |data| ==> data[i] == b
  {
    if |data| == 0 || data[0] == b then 0 else 1 + IndexOf(b, data[1..])
  }

  lemma IndexOfIs(b: byte, data: seq<byte>, i: nat)
    requires i <= |data| && (forall j | 0 <= j < i :: data[j] != b) && (i < |data| ==> data[i] == b)
    ensures IndexOf(b, data) == i
  {
  }

  /** The lines of a text; what follows the last LF is a line when it is not empty. */
  function Lines(text: seq<byte>): seq<seq<byte>>
    decreases |text|
  {
    if |text| == 0 then []
    else
      var i := IndexOf(LF, text);
      if i == |text| then [text] else [text[..i]] + Lines(text[i + 1..])
  }

  function StuffLine(line: seq<byte>): seq<byte> {
    if |line| > 0 && line[0] == DOT then [DOT] + line else line
  }

  lemma {:induction false} StuffWithinLine(line: seq<byte>)
    requires LF !in line
    ensures Stuff(false, line) == line
  {
    if |line| > 0 {
      StuffWithinLine(line[1..]);
    }
  }

  lemma StuffOneLine(line: seq<byte>)
    requires LF !in line
    ensures Stuff(true, line) == StuffLine(line)
    ensures LineStartAfter(true, line) == (line == [])
  {
    if |line| > 0 {
      var tail := line[1..];
      StuffWithinLine(tail);
      assert line == [line[0]] + tail;
      assert [DOT, DOT] + tail == [DOT] + ([DOT] + tail);
    }
  }

  /** Each line with its line end. */
  function Joined(lines: seq<seq<byte>>, end: seq<byte>): seq<byte> {
    if |lines| == 0 then [] else lines[0] + end + Joined(lines[1..], end)
  }

  function StuffedLines(lines: seq<seq<byte>>): (r: seq<seq<byte>>)
    ensures |r| == |lines|
  {
    seq(|lines|, i requires 0 <= i < |lines| => StuffLine(lines[i]))
  }

  lemma LastLine(line: seq<byte>, end: seq<byte>)
    ensures Joined([line], end) == line + end
  {
    assert [line][1..] == [];
    assert Joined([], end) == [];
  }

  lemma FirstOfJoined(line: seq<byte>, more: seq<seq<byte>>, end: seq<byte>)
    ensures Joined([line] + more, end) == line + end + Joined(more, end)
  {
    assert ([line] + more)[1..] == more;
  }

  lemma FirstLineFrame(line: seq<byte>, rest: seq<byte>)
    requires LF !in line
    ensures Frame(line + [LF] + rest) == StuffLine(line) + [LF] + Frame(rest)
  {
    var head := line + [LF];
    StuffOneLine(line);
    StuffSplit(true, line, [LF]);
    StuffSplit(true, head, rest);
    assert Stuff(LineStartAfter(true, line), [LF]) == [LF];
    assert LineStartAfter(true, head);
    assert LineStartAfter(true, head + rest) == LineStartAfter(true, rest);
  }

  lemma UnterminatedFrame(line: seq<byte>)
    requires LF !in line && line != []
    ensures Frame(line) == StuffLine(line) + [LF] + [DOT, LF]
  {
    StuffOneLine(line);
    assert [LF] + [DOT, LF] == [LF, DOT, LF];
  }

  lemma SplitLines(text: seq<byte>) returns (i: nat)
    requires text != []
    ensures i == IndexOf(LF, text) && LF !in text[..i]
    ensures i == |text| ==> Lines(text) == [text]
    ensures i < |text| ==> text == text[..i] + [LF] + text[i + 1..]
    ensures i < |text| ==> Lines(text) == [text[..i]] + Lines(text[i + 1..])
  {
    i := IndexOf(LF, text);
  }

  lemma StuffedLinesSplit(line: seq<byte>, more: seq<seq<byte>>)
    ensures StuffedLines([line] + more) == [StuffLine(line)] + StuffedLines(more)
  {
  }

  /** A response is its stuffed lines, then a line that is a single dot. */
  lemma {:induction false} FrameIsLines(text: seq<byte>)
    ensures Frame(text) == Joined(StuffedLines(Lines(text)), [LF]) + [DOT, LF]
    decreases |text|
  {
    if text != [] {
      var i := SplitLines(text);
      var line := text[..i];
      if i == |text| {
        assert line == text;
        UnterminatedFrame(text);
        LastLine(StuffLine(text), [LF]);
        assert StuffedLines([text]) == [StuffLine(text)];
      } else {
        var rest := text[i + 1..];
        FrameIsLines(rest);
        FrameOfMore(line, rest);
      }
    }
  }

  lemma FrameOfMore(line: seq<byte>, rest: seq<byte>)
    requires LF !in line && Frame(rest) == Joined(StuffedLines(Lines(rest)), [LF]) + [DOT, LF]
    ensures Frame(line + [LF] + rest) == Joined(StuffedLines([line] + Lines(rest)), [LF]) + [DOT, LF]
  {
    FirstLineFrame(line, rest);
    StuffedLinesSplit(line, Lines(rest));
    FirstOfJoined(StuffLine(line), StuffedLines(Lines(rest)), [LF]);
  }
}
