/** The streaming encoder of console.cpp: it copies runs of bytes and inserts a dot between
    runs, keeping one flag from call to call. */
module DotStream {
  import opened Bytes
  import opened DotFrame

  /** A FILE that may take fewer bytes than it is given, unless it is reliable. */
  class Sink {
    var sent: seq<byte>
    const reliable: bool

    constructor (reliable: bool)
      ensures sent == [] && this.reliable == reliable
    {
      sent, this.reliable := [], reliable;
    }

    method Fwrite(data: seq<byte>) returns (n: nat)
      modifies this
      ensures n <= |data| && sent == old(sent) + data[..n]
      ensures reliable ==> n == |data|
    {
      n :| 0 <= n <= |data| && (reliable ==> n == |data|);
      sent := sent + data[..n];
    }
  }

  lemma StuffSnoc(lineStart: bool, text: seq<byte>, i: nat)
    requires i < |text|
    ensures Stuff(lineStart, text[..i + 1]) == Stuff(lineStart, text[..i])
      + if LineStartAfter(lineStart, text[..i]) && text[i] == DOT then [DOT, DOT] else [text[i]]
  {
    assert text[..i + 1] == text[..i] + [text[i]];
    StuffSplit(lineStart, text[..i], [text[i]]);
    var at := LineStartAfter(lineStart, text[..i]);
    assert Stuff(at, [text[i]]) == (if at && text[i] == DOT then [DOT, DOT] else [text[i]]) + Stuff(text[i] == LF, []);
  }

  lemma StuffPrefix(lineStart: bool, text: seq<byte>, i: nat)
    requires i <= |text|
    ensures Stuff(lineStart, text[..i]) <= Stuff(lineStart, text)
  {
    assert text == text[..i] + text[i..];
    StuffSplit(lineStart, text[..i], text[i..]);
  }

  /** What is out plus the run in hand stays equal to the stuffed text, with or without a dot. */
  lemma RunGrows(lineStart: bool, text: seq<byte>, i: nat, before: seq<byte>, out: seq<byte>, run: seq<byte>)
    requires i < |text| && out + run == before + Stuff(lineStart, text[..i])
    ensures before + Stuff(lineStart, text[..i + 1]) <= before + Stuff(lineStart, text)
    ensures LineStartAfter(lineStart, text[..i + 1]) == (text[i] == LF)
    ensures var dotted := LineStartAfter(lineStart, text[..i]) && text[i] == DOT;
      (if dotted then out + run + [DOT] + [DOT] else out + (run + [text[i]])) == before + Stuff(lineStart, text[..i + 1])
  {
    StuffSnoc(lineStart, text, i);
    StuffPrefix(lineStart, text, i + 1);
    Joins(out, run, before, Stuff(lineStart, text[..i]), text[i]);
  }

  lemma Joins(out: seq<byte>, run: seq<byte>, before: seq<byte>, stuffed: seq<byte>, c: byte)
    requires out + run == before + stuffed
    ensures out + (run + [c]) == before + (stuffed + [c])
    ensures out + run + [DOT] + [DOT] == before + (stuffed + [DOT, DOT])
  {
    assert out + (run + [c]) == (out + run) + [c];
    assert before + (stuffed + [c]) == (before + stuffed) + [c];
  }

  class DotStuffStream {
    const destination: Sink
    var lineStart: bool

    constructor (destination: Sink)
      ensures this.destination == destination && lineStart
    {
      this.destination := destination;
      lineStart := true;
    }

    /** Writes a run that may be empty; a short write fails. */
    method Emit(run: seq<byte>) returns (ok: bool)
      modifies destination
      ensures ok ==> destination.sent == old(destination.sent) + run
      ensures destination.reliable ==> ok
      ensures old(destination.sent) <= destination.sent <= old(destination.sent) + run
    {
      if |run| > 0 {
        var n := destination.Fwrite(run);
        return n == |run|;
      }
      ok := true;
    }

    /** A run and the dot behind it. */
    method EmitDotted(run: seq<byte>) returns (ok: bool)
      modifies destination
      ensures ok ==> destination.sent == old(destination.sent) + run + [DOT]
      ensures destination.reliable ==> ok
      ensures old(destination.sent) <= destination.sent <= old(destination.sent) + run + [DOT]
    {
      ok := Emit(run);
      if ok {
        ok := Emit([DOT]);
      }
    }

    /** One turn of the loop below: the byte joins the run, or begins a new one behind a dot.
        With it, what is out and the run in hand make up what there is to be. */
    method TakeByte(buffer: seq<byte>, runStart: nat, i: nat, ghost after: seq<byte>) returns (ok: bool, newStart: nat)
      requires runStart <= i < |buffer|
      requires var sent, run := destination.sent, buffer[runStart..i];
        after == if lineStart && buffer[i] == DOT then sent + run + [DOT] + [DOT] else sent + (run + [buffer[i]])
      modifies this, destination
      ensures old(destination.sent) <= destination.sent <= after && lineStart == (buffer[i] == LF)
      ensures destination.reliable ==> ok
      ensures ok ==> newStart <= i && destination.sent + buffer[newStart..i + 1] == after
    {
      ok, newStart := true, runStart;
      if lineStart && buffer[i] == DOT {
        ok := EmitDotted(buffer[runStart..i]);
        newStart := i;
        assert buffer[i..i + 1] == [DOT];
      } else {
        assert buffer[runStart..i + 1] == buffer[runStart..i] + [buffer[i]];
      }
      lineStart := buffer[i] == LF;
    }

    /** dot_stuff_write. On success the stuffed bytes are out and the flag is right for the
        next call; on a short write what is out is a prefix of them. */
    method Write(buffer: seq<byte>) returns (written: int)
      modifies this, destination
      ensures written == |buffer| || written == -1
      ensures destination.reliable ==> written == |buffer|
      ensures written >= 0 ==>
        && destination.sent == old(destination.sent) + Stuff(old(lineStart), buffer)
        && lineStart == LineStartAfter(old(lineStart), buffer)
      ensures old(destination.sent) <= destination.sent
           <= old(destination.sent) + Stuff(old(lineStart), buffer)
    {
      ghost var first, before := lineStart, destination.sent;
      var runStart := 0;
      for i := 0 to |buffer|
        invariant 0 <= runStart <= i && before <= destination.sent
        invariant lineStart == LineStartAfter(first, buffer[..i])
        invariant destination.sent + buffer[runStart..i] == before + Stuff(first, buffer[..i])
      {
        RunGrows(first, buffer, i, before, destination.sent, buffer[runStart..i]);
        var taken;
        taken, runStart := TakeByte(buffer, runStart, i, before + Stuff(first, buffer[..i + 1]));
        if !taken {
          return -1;
        }
      }
      assert buffer[..|buffer|] == buffer;
      var ok := Emit(buffer[runStart..]);
      written := if ok then |buffer| else -1;
    }

    /** finish_dot_stuffed_response. */
    method Finish() returns (ok: bool)
      modifies destination
      ensures ok ==> destination.sent == old(destination.sent) + Terminator(lineStart)
      ensures old(destination.sent) <= destination.sent <= old(destination.sent) + Terminator(lineStart)
      ensures destination.reliable ==> ok
    {
      ok := true;
      if !lineStart {
        ok := Emit([LF]);
      }
      if ok {
        ok := Emit([DOT, LF]);
      }
    }
  }

  lemma StuffPieces(pieces: seq<seq<byte>>, i: nat)
    requires i < |pieces|
    ensures var done, more := Flatten(pieces[..i]), Flatten(pieces[..i + 1]);
      && Stuff(true, more) == Stuff(true, done) + Stuff(LineStartAfter(true, done), pieces[i])
      && LineStartAfter(true, more) == LineStartAfter(LineStartAfter(true, done), pieces[i])
  {
    FlattenTake(pieces, i);
    StuffSplit(true, Flatten(pieces[..i]), pieces[i]);
  }

  /** What went out: the whole output stuffed, or after a short write something else. */
  ghost predicate Sent(before: seq<byte>, after: seq<byte>, text: seq<byte>, whole: bool) {
    before <= after && (whole ==> after == before + Stuff(true, text))
  }

  predicate EndsWithDot(sent: seq<byte>) {
    |sent| >= 2 && sent[|sent| - 2..] == [DOT, LF]
  }

  lemma TerminatorEndsWithDot(out: seq<byte>, lineStart: bool)
    ensures EndsWithDot(out + Terminator(lineStart))
  {
  }

  /** A command's output, printed in any pieces; after a short write it goes on. */
  method PrintAll(stream: DotStuffStream, pieces: seq<seq<byte>>) returns (whole: bool)
    requires stream.lineStart
    modifies stream, stream.destination
    ensures whole ==> stream.lineStart == LineStartAfter(true, Flatten(pieces))
    ensures Sent(old(stream.destination.sent), stream.destination.sent, Flatten(pieces), whole)
    ensures stream.destination.reliable ==> whole
  {
    ghost var before := stream.destination.sent;
    whole := true;
    for i := 0 to |pieces|
      invariant stream.destination.reliable ==> whole
      invariant whole ==> stream.lineStart == LineStartAfter(true, Flatten(pieces[..i]))
      invariant Sent(before, stream.destination.sent, Flatten(pieces[..i]), whole)
    {
      StuffPieces(pieces, i);
      var written := stream.Write(pieces[i]);
      whole := whole && written >= 0;
    }
    assert pieces[..|pieces|] == pieces;
  }

  /** The whole of it leaves as one frame. After a short write the terminator is sent all the
      same. */
  method Respond(destination: Sink, pieces: seq<seq<byte>>) returns (whole: bool, ended: bool)
    modifies destination
    ensures whole && ended ==> destination.sent == old(destination.sent) + Frame(Flatten(pieces))
    ensures ended ==> EndsWithDot(destination.sent)
    ensures old(destination.sent) <= destination.sent
    ensures destination.reliable ==> whole && ended
  {
    var stream := new DotStuffStream(destination);
    whole := PrintAll(stream, pieces);
    TerminatorEndsWithDot(destination.sent, stream.lineStart);
    ended := stream.Finish();
  }
}
