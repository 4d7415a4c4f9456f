/** Policy upload, the sending side: power4ctl's base64 lines, each ended by CR, and a blank one. */
module PolicySend {
  import opened Base64
  import opened Bytes
  import opened DotFrame

  const LINE_WIDTH: nat := 76

  /** A descriptor that takes a write whole or fails; a reliable one does not fail. */
  class Descriptor {
    var sent: seq<byte>
    const reliable: bool

    constructor (reliable: bool)
      ensures sent == [] && this.reliable == reliable
    {
      sent, this.reliable := [], reliable;
    }

    method Write(data: seq<byte>) returns (ok: bool)
      modifies this
      ensures sent == old(sent) + if ok then data else []
      ensures reliable ==> ok
    {
      ok :| reliable ==> ok;
      if ok {
        sent := sent + data;
      } else {
        sent := sent + [];
      }
    }
  }

  /** What is still to be sent of an encoding when lpos characters of a line are waiting. */
  function Remaining(lpos: nat, code: seq<byte>): seq<byte>
    decreases |code|
  {
    if |code| < 4 then []
    else if lpos + 4 >= LINE_WIDTH || |code| == 4 then code[..4] + ([CR] + Remaining(0, code[4..]))
    else code[..4] + Remaining(lpos + 4, code[4..])
  }

  /** What is out, what waits in the line, and what is still to be put there make up the whole. */
  ghost predicate Sending(whole: seq<byte>, sent: seq<byte>, waiting: seq<byte>, code: seq<byte>) {
    whole == sent + (waiting + Remaining(|waiting|, code))
  }

  lemma SendStep(whole: seq<byte>, sent: seq<byte>, waiting: seq<byte>, code: seq<byte>)
    requires Sending(whole, sent, waiting, code)
    ensures |code| >= 4 ==> var line := waiting + code[..4];
      if |line| >= LINE_WIDTH || |code| == 4 then Sending(whole, sent + (line + [CR]), [], code[4..])
      else Sending(whole, sent, line, code[4..])
  {
    if |code| < 4 {
    } else if |waiting| + 4 >= LINE_WIDTH || |code| == 4 {
      Flushes(sent, waiting, code[..4], Remaining(0, code[4..]));
    } else {
      Regroup(waiting, code[..4], Remaining(|waiting| + 4, code[4..]));
    }
  }

  lemma Flushes(sent: seq<byte>, waiting: seq<byte>, quad: seq<byte>, more: seq<byte>)
    ensures sent + (waiting + (quad + ([CR] + more))) == sent + (waiting + quad + [CR]) + ([] + more)
  {
    assert [] + more == more;
    assert waiting + (quad + ([CR] + more)) == waiting + quad + [CR] + more;
  }

  lemma EncodeStep(data: seq<byte>, i: nat, n: nat)
    requires i < |data| && n == if |data| - i < 3 then |data| - i else 3
    ensures var code := Encode(data[i..]);
      && |code| >= 4 && code[..4] == Quad(data[i..i + n]) && code[4..] == Encode(data[i + n..])
      && (|code| == 4 <==> i + n == |data|)
  {
    var rest := data[i..];
    assert rest[..n] == data[i..i + n] && rest[n..] == data[i + n..];
    if |rest| > 3 {
      assert Encode(rest) == Quad(rest[..3]) + Encode(rest[3..]);
    } else {
      assert rest[..n] == rest;
    }
  }

  ghost predicate CodeLeft(code: seq<byte>, data: seq<byte>, i: nat) {
    i <= |data| && code == Encode(data[i..])
  }

  /** Encodes the next one to three octets into the line. */
  method PutQuad(line: array<byte>, lpos: nat, data: seq<byte>, i: nat,
                 ghost waiting: seq<byte>, ghost code: seq<byte>)
    returns (next: nat, ghost filled: seq<byte>, ghost more: seq<byte>)
    requires lpos + 4 <= line.Length && i < |data| && line[..lpos] == waiting && CodeLeft(code, data, i)
    modifies line
    ensures |code| >= 4 && (|code| == 4 <==> next == |data|) && i < next <= |data|
    ensures line[..lpos + 4] == filled && filled == waiting + code[..4] && |filled| == lpos + 4
    ensures more == code[4..] && CodeLeft(more, data, next)
  {
    var consumed := if |data| - i < 3 then |data| - i else 3;
    EncodeStep(data, i, consumed);
    var quad := Quad(data[i..i + consumed]);
    line[lpos], line[lpos + 1], line[lpos + 2], line[lpos + 3] := quad[0], quad[1], quad[2], quad[3];
    next := i + consumed;
    filled, more := waiting + code[..4], code[4..];
  }

  method Flush(fd: Descriptor, line: array<byte>, lpos: nat, ghost waiting: seq<byte>) returns (ok: bool)
    requires lpos < line.Length && line[..lpos] == waiting
    modifies fd, line
    ensures ok ==> fd.sent == old(fd.sent) + (waiting + [CR])
    ensures fd.reliable ==> ok
  {
    line[lpos] := CR;
    assert line[..lpos + 1] == waiting + [CR];
    ok := fd.Write(line[..lpos + 1]);
  }

  lemma SendStarts(sent: seq<byte>, code: seq<byte>)
    ensures Sending(sent + Remaining(0, code), sent, [], code)
  {
    assert [] + Remaining(0, code) == Remaining(0, code);
  }

  lemma SendEnds(whole: seq<byte>, sent: seq<byte>, code: seq<byte>, data: seq<byte>)
    requires CodeLeft(code, data, |data|) && Sending(whole, sent, [], code)
    ensures whole == sent
  {
  }

  /** send_base64. */
  method SendBase64(fd: Descriptor, data: seq<byte>) returns (ok: bool)
    modifies fd
    ensures ok ==> fd.sent == old(fd.sent) + Remaining(0, Encode(data)) + [CR]
    ensures fd.reliable ==> ok
  {
    ghost var code, waiting: seq<byte> := Encode(data), [];
    ghost var whole := fd.sent + Remaining(0, code);
    var line := new byte[LINE_WIDTH + 2];
    var lpos, i := 0, 0;
    SendStarts(fd.sent, code);
    assert data[0..] == data;
    ghost var quads := 0;
    while i < |data|
      invariant fresh(line) && line.Length == LINE_WIDTH + 2
      invariant lpos == |waiting| == 4 * quads < LINE_WIDTH && line[..lpos] == waiting
      invariant CodeLeft(code, data, i) && (i == |data| ==> waiting == [])
      invariant Sending(whole, fd.sent, waiting, code)
    {
      SendStep(whole, fd.sent, waiting, code);
      i, waiting, code := PutQuad(line, lpos, data, i, waiting, code);
      lpos, quads := lpos + 4, quads + 1;
      if lpos >= LINE_WIDTH || i >= |data| {
        ok := Flush(fd, line, lpos, waiting);
        if !ok {
          return;
        }
        lpos, waiting, quads := 0, [], 0;
      }
    }
    SendEnds(whole, fd.sent, code, data);
    ok := fd.Write([CR]);
  }

  // ---- The lines ---------------------------------------------------------------------

  /** A text cut into lines of LINE_WIDTH, the last one shorter. */
  function Chunked(text: seq<byte>): (lines: seq<seq<byte>>)
    ensures forall i | 0 <= i < |lines| :: 1 <= |lines[i]| <= LINE_WIDTH
    ensures Flatten(lines) == text
  {
    if |text| == 0 then []
    else if |text| <= LINE_WIDTH then
      OneChunk(text);
      [text]
    else
      ManyChunks(text);
      [text[..LINE_WIDTH]] + Chunked(text[LINE_WIDTH..])
  }

  lemma OneChunk(text: seq<byte>)
    ensures Flatten([text]) == text
  {
    assert [text][1..] == [];
    assert Flatten<byte>([]) == [];
  }

  lemma ManyChunks(text: seq<byte>)
    requires |text| > LINE_WIDTH
    ensures forall more: seq<seq<byte>> :: Flatten(more) == text[LINE_WIDTH..] ==>
      Flatten([text[..LINE_WIDTH]] + more) == text
  {
    forall more: seq<seq<byte>> | Flatten(more) == text[LINE_WIDTH..]
      ensures Flatten([text[..LINE_WIDTH]] + more) == text
    {
      assert ([text[..LINE_WIDTH]] + more)[1..] == more;
    }
  }

  lemma ChunkedOne(text: seq<byte>)
    requires 0 < |text| <= LINE_WIDTH
    ensures Joined(Chunked(text), [CR]) == text + [CR]
  {
    LastLine(text, [CR]);
  }

  lemma ChunkedMore(line: seq<byte>, more: seq<byte>)
    requires |line| == LINE_WIDTH && |more| > 0
    ensures Joined(Chunked(line + more), [CR]) == line + ([CR] + Joined(Chunked(more), [CR]))
  {
    var text := line + more;
    assert text[..LINE_WIDTH] == line && text[LINE_WIDTH..] == more;
    assert Chunked(text) == [line] + Chunked(more);
    FirstOfJoined(line, Chunked(more), [CR]);
  }

  lemma FullLine(waiting: seq<byte>, quad: seq<byte>, more: seq<byte>, lines: seq<byte>)
    requires |waiting + quad| == LINE_WIDTH && |more| > 0 && lines == Joined(Chunked(more), [CR])
    ensures waiting + (quad + ([CR] + lines)) == Joined(Chunked(waiting + (quad + more)), [CR])
  {
    Regroup(waiting, quad, [CR] + lines);
    Regroup(waiting, quad, more);
    ChunkedMore(waiting + quad, more);
  }

  lemma LastQuad(waiting: seq<byte>, code: seq<byte>)
    requires |waiting| < LINE_WIDTH && |waiting| % 4 == 0 && |code| == 4
    ensures waiting + Remaining(|waiting|, code) == Joined(Chunked(waiting + code), [CR])
  {
    assert code[..4] == code && code[4..] == [];
    assert Remaining(0, code[4..]) == [];
    ChunkedOne(waiting + code);
    assert [CR] + [] == [CR];
    Regroup(waiting, code, [CR]);
  }

  lemma NextQuad(waiting: seq<byte>, quad: seq<byte>, code: seq<byte>, lines: seq<byte>)
    requires (waiting + quad) + lines == Joined(Chunked((waiting + quad) + code), [CR])
    ensures waiting + (quad + lines) == Joined(Chunked(waiting + (quad + code)), [CR])
  {
    Regroup(waiting, quad, code);
    Regroup(waiting, quad, lines);
  }

  /** The bytes sent are the encoding cut into lines. */
  lemma {:induction false} RemainingIsLines(waiting: seq<byte>, code: seq<byte>)
    requires |waiting| < LINE_WIDTH && |waiting| % 4 == 0 && |code| > 0 && |code| % 4 == 0
    ensures waiting + Remaining(|waiting|, code) == Joined(Chunked(waiting + code), [CR])
    decreases |code|, 0
  {
    if |code| == 4 {
      LastQuad(waiting, code);
    } else {
      var quad, more := code[..4], code[4..];
      assert code == quad + more;
      if |waiting| + 4 >= LINE_WIDTH {
        LinesFromStart(more);
        FullLine(waiting, quad, more, Remaining(0, more));
      } else {
        RemainingIsLines(waiting + quad, more);
        NextQuad(waiting, quad, more, Remaining(|waiting| + 4, more));
      }
    }
  }

  lemma {:induction false} LinesFromStart(code: seq<byte>)
    requires |code| % 4 == 0
    ensures Remaining(0, code) == Joined(Chunked(code), [CR])
    decreases |code|, 1
  {
    if |code| > 0 {
      RemainingIsLines([], code);
      assert [] + Remaining(0, code) == Remaining(0, code);
      assert [] + code == code;
    }
  }
}
