/** How the two clients take lines from a descriptor: power4ctl one byte at a time into a fixed
    buffer, power4d in chunks into a growing one. */
module LineReader {
  import opened Bytes
  import opened DotFrame
  import opened DotReceive

  /** What the other end will still send. A read hands over as much as it likes of it, or fails:
      at a deadline, on an error, at the end. A reliable wire fails only when it is empty. */
  class Wire {
    var incoming: seq<byte>
    const reliable: bool

    constructor (incoming: seq<byte>, reliable: bool)
      ensures this.incoming == incoming && this.reliable == reliable
    {
      this.incoming, this.reliable := incoming, reliable;
    }

    method Read(capacity: nat) returns (data: seq<byte>)
      requires capacity > 0
      modifies this
      ensures old(incoming) == data + incoming && |data| <= capacity
      ensures reliable && old(incoming) != [] ==> data != []
    {
      var n: nat :| n <= capacity && n <= |incoming| && (reliable && incoming != [] ==> n > 0);
      data := incoming[..n];
      incoming := incoming[n..];
    }
  }

  lemma ReadMoves(s: seq<byte>, k: nat, one: byte, rest: seq<byte>)
    requires k <= |s| && s[k..] == [one] + rest
    ensures k < |s| && s[k] == one && s[k + 1..] == rest
    ensures one == LF && LF !in s[..k] ==> IndexOf(LF, s) == k
  {
    assert s[k..][1..] == s[k + 1..];
    assert s[k..][0] == s[k];
    if one == LF && LF !in s[..k] {
      forall j | 0 <= j < k ensures s[j] != LF {
        assert s[..k][j] == s[j];
      }
      IndexOfIs(LF, s, k);
    }
  }

  /** read_line_fd: the line is in the buffer with a NUL after it. It fails for want of bytes,
      or when a line and its CR leave no room for the NUL. */
  method ReadLineFd(wire: Wire, line: array<byte>) returns (ok: bool, length: nat)
    requires line.Length > 0
    modifies wire, line
    ensures var s := old(wire.incoming); var i := IndexOf(LF, s);
      && (ok ==> i < |s| && i + 2 <= line.Length && wire.incoming == s[i + 1..])
      && (ok ==> length < line.Length && line[..length] == StripCr(s[..i]) && line[length] == NUL)
      && (wire.reliable && i < |s| && i + 2 <= line.Length ==> ok)
  {
    ghost var s := wire.incoming;
    length := 0;
    while length + 1 < line.Length
      invariant length < line.Length && length <= |s|
      invariant wire.incoming == s[length..] && line[..length] == s[..length]
      invariant LF !in s[..length]
    {
      var data := wire.Read(1);
      if |data| == 0 {
        return false, length;
      }
      var ch := data[0];
      ReadMoves(s, length, ch, wire.incoming);
      if ch == LF {
        ghost var raw := length;
        if length > 0 && line[length - 1] == CR {
          length := length - 1;
        }
        assert line[..length] == StripCr(s[..raw]);
        line[length] := NUL;
        return true, length;
      }
      line[length] := ch;
      length := length + 1;
      assert s[..length] == s[..length - 1] + [ch];
    }
    line[line.Length - 1] := NUL;
    NoLineYet(s, length);
    return false, length;
  }

  lemma NoLineYet(s: seq<byte>, k: nat)
    requires k <= |s| && LF !in s[..k]
    ensures IndexOf(LF, s) >= k
  {
    forall j | 0 <= j < k ensures s[j] != LF {
      assert s[..k][j] == s[j];
    }
  }

  datatype ReadResult = Line(text: seq<byte>) | TooLong | Failed

  const CHUNK_BYTES: nat := 4096

  /** POSIXConnection: the buffer holds what was read and not yet used. */
  class Connection {
    const wire: Wire
    var buffered: seq<byte>

    constructor (wire: Wire)
      ensures this.wire == wire && buffered == []
    {
      this.wire, buffered := wire, [];
    }

    /** Everything still to be used, wherever it is: no result below depends on how it was
        divided between the buffer and the wire, nor on the sizes of the chunks. */
    ghost function Stream(): seq<byte>
      reads this, wire
    {
      buffered + wire.incoming
    }

    method ReadMore() returns (ok: bool)
      modifies this, wire
      ensures Stream() == old(Stream()) && |buffered| + |wire.incoming| == |old(Stream())|
      ensures ok ==> |wire.incoming| < |old(wire.incoming)|
      ensures wire.reliable && old(wire.incoming) != [] ==> ok
    {
      var data := wire.Read(CHUNK_BYTES);
      buffered := buffered + data;
      ok := data != [];
    }

    /** readLine. */
    method ReadLine(maximumBytes: nat) returns (r: ReadResult)
      modifies this, wire
      ensures var s := old(Stream()); var i := IndexOf(LF, s);
        && (r.Line? ==> i < |s| && r.text == StripCr(s[..i]) && Stream() == s[i + 1..])
        && (!r.Line? ==> Stream() == s)
        && (r.TooLong? ==> i >= maximumBytes)
        && (wire.reliable && i < |s| && i < maximumBytes ==> r.Line?)
    {
      ghost var s := Stream();
      while true
        invariant Stream() == s
        decreases |wire.incoming|
      {
        var newline := IndexOf(LF, buffered);
        if newline < |buffered| {
          FoundInBuffer(buffered, wire.incoming, newline);
          var line := StripCr(buffered[..newline]);
          buffered := buffered[newline + 1..];
          return Line(line);
        }
        NotInBuffer(buffered, wire.incoming);
        if |buffered| >= maximumBytes {
          return TooLong;
        }
        var ok := ReadMore();
        if !ok {
          return Failed;
        }
      }
    }
  }

  lemma FoundInBuffer(buffered: seq<byte>, more: seq<byte>, i: nat)
    requires i == IndexOf(LF, buffered) < |buffered|
    ensures IndexOf(LF, buffered + more) == i
    ensures (buffered + more)[..i] == buffered[..i]
    ensures (buffered + more)[i + 1..] == buffered[i + 1..] + more
  {
    IndexOfIs(LF, buffered + more, i);
  }

  lemma NotInBuffer(buffered: seq<byte>, more: seq<byte>)
    requires IndexOf(LF, buffered) == |buffered|
    ensures IndexOf(LF, buffered + more) >= |buffered|
    ensures more == [] ==> IndexOf(LF, buffered + more) == |buffered + more|
  {
    var s := buffered + more;
    assert forall j | 0 <= j < |buffered| :: s[j] != LF;
    if more == [] {
      assert s == buffered;
    }
  }
}
