/** Console input: the line ends a host sends become LF, and fgets takes a line at a time. */
module LineInput {
  import opened Bytes
  import opened DotFrame

  /** CR and CR LF become LF; skip says that the last byte was a CR. */
  function Normal(skip: bool, data: seq<byte>): seq<byte>
    decreases |data|
  {
    if |data| == 0 then []
    else if skip && data[0] == LF then Normal(false, data[1..])
    else if data[0] == CR then [LF] + Normal(true, data[1..])
    else [data[0]] + Normal(false, data[1..])
  }

  function SkipAfter(skip: bool, data: seq<byte>): bool {
    if |data| == 0 then skip else data[|data| - 1] == CR
  }

  /** What the serial drivers do instead. */
  function CrToLf(data: seq<byte>): (r: seq<byte>)
    ensures |r| == |data|
  {
    seq(|data|, i requires 0 <= i < |data| => if data[i] == CR then LF else data[i])
  }

  /** A TCP console stream: what the socket still holds, and the CR flag. */
  class SocketStream {
    var incoming: seq<byte>
    var skipLf: bool
    const reliable: bool

    constructor (incoming: seq<byte>, reliable: bool)
      ensures this.incoming == incoming && !skipLf && this.reliable == reliable
    {
      this.incoming, skipLf, this.reliable := incoming, false, reliable;
    }

    /** One byte, unless the connection fails or the command's time is up. A reliable
        connection fails only when it has nothing more to give. */
    method Recv() returns (data: seq<byte>)
      modifies this
      ensures |data| <= 1 && old(incoming) == data + incoming && skipLf == old(skipLf)
      ensures data == [] ==> incoming == old(incoming) && (reliable ==> incoming == [])
    {
      var ready :| (ready ==> incoming != []) && (reliable && incoming != [] ==> ready);
      if ready {
        data := incoming[..1];
        incoming := incoming[1..];
      } else {
        data := [];
      }
    }

    /** socket_stream_read: it stops after a line end, and gives what it has when the
        connection fails; nothing stands for its -1. However the reads are sized, and wherever
        they break off, what they give and what is still to come is one text. */
    method Read(length: nat) returns (buffer: seq<byte>)
      modifies this
      ensures |buffer| <= length
      ensures reliable ==>
        incoming == [] || |buffer| == length || (buffer != [] && buffer[|buffer| - 1] == LF)
      ensures Normal(old(skipLf), old(incoming)) == buffer + Normal(skipLf, incoming)
      ensures forall i | 0 <= i < |buffer| - 1 :: buffer[i] != LF
    {
      ghost var whole := Normal(skipLf, incoming);
      buffer := [];
      while |buffer| < length
        invariant |buffer| <= length && whole == buffer + Normal(skipLf, incoming)
        invariant forall i | 0 <= i < |buffer| :: buffer[i] != LF
        decreases |incoming|
      {
        ghost var skip, before := skipLf, incoming;
        var data := Recv();
        if data == [] {
          return;
        }
        NormalStep(skip, data[0], incoming);
        assert before == [data[0]] + incoming;
        var ch := data[0];
        if skipLf && ch == LF {
          skipLf := false;
          continue;
        }
        skipLf := ch == CR;
        ghost var given := if ch == CR then LF else ch;
        Regroup(buffer, [given], Normal(skipLf, incoming));
        buffer := buffer + [if ch == CR then LF else ch];
        if ch == CR || ch == LF {
          break;
        }
      }
    }
  }

  lemma NormalStep(skip: bool, ch: byte, rest: seq<byte>)
    ensures Normal(skip, [ch] + rest) ==
      if skip && ch == LF then Normal(false, rest)
      else [if ch == CR then LF else ch] + Normal(ch == CR, rest)
  {
    assert ([ch] + rest)[1..] == rest;
  }

  // ---- Lines, whatever ends them -----------------------------------------------------

  lemma {:induction false} NormalSplit(skip: bool, a: seq<byte>, b: seq<byte>)
    ensures Normal(skip, a + b) == Normal(skip, a) + Normal(SkipAfter(skip, a), b)
    decreases |a|
  {
    if |a| == 0 {
      assert a + b == b;
    } else {
      assert (a + b)[1..] == a[1..] + b;
      NormalSplit(if skip && a[0] == LF then false else a[0] == CR, a[1..], b);
    }
  }

  predicate NoLineEnd(line: seq<byte>) {
    CR !in line && LF !in line
  }

  lemma {:induction false} NormalInLine(skip: bool, line: seq<byte>)
    requires NoLineEnd(line)
    ensures Normal(skip, line) == line
    decreases |line|
  {
    if |line| > 0 {
      NormalInLine(false, line[1..]);
    }
  }

  predicate LineEnding(end: seq<byte>) {
    end == [CR] || end == [LF] || end == [CR, LF]
  }

  lemma NormalEnding(skip: bool, end: seq<byte>)
    requires LineEnding(end) && (skip ==> end == [CR])
    ensures Normal(skip, end) == [LF] && SkipAfter(skip, end) == (end == [CR])
  {
    if end == [CR, LF] {
      NormalStep(skip, CR, [LF]);
      NormalStep(true, LF, []);
      assert end == [CR] + [LF] && [LF] + [] == [LF];
    } else {
      NormalStep(skip, end[0], []);
      assert end == [end[0]] + [];
    }
  }

  lemma NormalLine(skip: bool, line: seq<byte>, end: seq<byte>)
    requires NoLineEnd(line) && LineEnding(end) && (skip ==> end == [CR])
    ensures Normal(skip, line + end) == line + [LF]
    ensures SkipAfter(skip, line + end) == (end == [CR])
  {
    NormalSplit(skip, line, end);
    NormalInLine(skip, line);
    var first := SkipAfter(skip, line);
    assert CR !in line;
    NormalEnding(first, end);
  }

  /** CR, LF or CR LF: the console reads the same lines. */
  lemma {:induction false} AnyLineEnding(skip: bool, lines: seq<seq<byte>>, end: seq<byte>)
    requires LineEnding(end) && (skip ==> end == [CR])
    requires forall i | 0 <= i < |lines| :: NoLineEnd(lines[i])
    ensures Normal(skip, Joined(lines, end)) == Joined(lines, [LF])
    ensures SkipAfter(skip, Joined(lines, end)) == if lines == [] then skip else end == [CR]
    decreases |lines|
  {
    if |lines| > 0 {
      NormalLine(skip, lines[0], end);
      AnyLineEnding(end == [CR], lines[1..], end);
      NormalSplit(skip, lines[0] + end, Joined(lines[1..], end));
    }
  }

  /** Without an LF from the host, TCP and serial input read the same. */
  lemma {:induction false} SerialReadsTheSame(skip: bool, data: seq<byte>)
    requires LF !in data
    ensures Normal(skip, data) == CrToLf(data)
    decreases |data|
  {
    if |data| > 0 {
      SerialReadsTheSame(data[0] == CR, data[1..]);
    }
  }
}
