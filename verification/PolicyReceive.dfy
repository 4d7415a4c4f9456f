/** Policy upload, the receiving side: the console gathers base64 lines until a blank or invalid
    one, decodes them and compares the digest. */
module PolicyReceive {
  import opened Base64
  import opened Bytes
  import opened DotFrame
  import opened LineInput
  import opened ShaSpec
  import LogJson

  const MAX_DECODED: nat := 16384
  const MAX_ENCODED: nat := (MAX_DECODED + 2) / 3 * 4
  const LINE_BYTES: nat := 160

  // ---- Lines -------------------------------------------------------------------------

  /** How much fgets takes into a buffer: a line with its LF, or as much of it as fits. */
  function LineLength(input: seq<byte>, size: nat): (n: nat)
    requires |input| > 0 && size > 1
    ensures 1 <= n <= |input| && n < size
  {
    var i := IndexOf(LF, input);
    var line := if i < |input| then i + 1 else i;
    if line < size then line else size - 1
  }

  function Taken(input: seq<byte>): (n: nat)
    requires |input| > 0
    ensures 1 <= n <= |input| && n < LINE_BYTES
  {
    LineLength(input, LINE_BYTES)
  }

  /** The line ends here: at its LF, at the end of the input, or where the buffer is full. */
  predicate LineTaken(line: seq<byte>, rest: seq<byte>, size: nat) {
    && 0 < |line| < size && LF !in line[..|line| - 1]
    && (line[|line| - 1] == LF || rest == [] || |line| == size - 1)
  }

  lemma LineLengthIs(line: seq<byte>, rest: seq<byte>, size: nat)
    requires LineTaken(line, rest, size)
    ensures size > 1 && LineLength(line + rest, size) == |line|
    ensures (line + rest)[..|line|] == line && (line + rest)[|line|..] == rest
  {
    var input, n := line + rest, |line|;
    assert forall k | 0 <= k < n - 1 :: input[k] == line[..n - 1][k];
    if line[n - 1] == LF {
      IndexOfIs(LF, input, n - 1);
    }
  }

  /** The standard input of a command on the TCP console. */
  class Stdin {
    const socket: SocketStream

    constructor (socket: SocketStream)
      ensures this.socket == socket
    {
      this.socket := socket;
    }

    /** What it can still give. */
    ghost function Input(): seq<byte>
      reads socket
    {
      Normal(socket.skipLf, socket.incoming)
    }

    /** The next byte; the stream is not buffered. */
    method Getc() returns (data: seq<byte>)
      modifies socket
      ensures |data| <= 1 && old(Input()) == data + Input()
      ensures socket.reliable && data == [] ==> old(Input()) == []
    {
      data := socket.Read(1);
    }

    /** The loop of fgets. */
    method Fill(size: nat) returns (line: seq<byte>)
      requires size > 1
      modifies socket
      ensures |line| < size && old(Input()) == line + Input()
      ensures socket.reliable && line == [] ==> old(Input()) == []
      ensures socket.reliable && line != [] ==> LineTaken(line, Input(), size)
    {
      ghost var whole := Input();
      line := [];
      while |line| < size - 1
        invariant |line| < size && whole == line + Input() && LF !in line
      {
        var data := Getc();
        if data == [] {
          return;
        }
        Extend(line, data[0], Input());
        line := line + [data[0]];
        if data[0] == LF {
          return;
        }
      }
    }

    /** fgets; nothing at the end of the input, or when the connection fails at once. */
    method Fgets(size: nat) returns (line: seq<byte>)
      requires size > 1
      modifies socket
      ensures |line| < size && old(Input()) == line + Input()
      ensures socket.reliable && old(Input()) != [] ==>
        var n := LineLength(old(Input()), size);
        line == old(Input())[..n] && Input() == old(Input())[n..]
    {
      line := Fill(size);
      if socket.reliable && line != [] {
        LineLengthIs(line, Input(), size);
      }
    }
  }

  lemma Extend(line: seq<byte>, ch: byte, rest: seq<byte>)
    ensures line + ([ch] + rest) == line + [ch] + rest
    ensures (line + [ch])[..|line|] == line
  {
  }

  /** strip_line_end. */
  function Strip(line: seq<byte>): seq<byte> {
    if |line| > 0 && (line[|line| - 1] == LF || line[|line| - 1] == CR) then Strip(line[..|line| - 1])
    else line
  }

  /** The text of the next line. */
  function NextText(input: seq<byte>): seq<byte>
    requires |input| > 0
  {
    Strip(LogJson.CString(input[..Taken(input)]))
  }

  predicate Ends(text: seq<byte>) {
    text == [] || !Coded(text)
  }

  /** All the base64 text before the line that ends the upload. */
  function Gathered(input: seq<byte>): seq<byte>
    decreases |input|
  {
    if |input| == 0 || Ends(NextText(input)) then []
    else NextText(input) + Gathered(input[Taken(input)..])
  }

  /** What the upload leaves unread. */
  function Left(input: seq<byte>): seq<byte>
    decreases |input|
  {
    if |input| == 0 then []
    else if Ends(NextText(input)) then input[Taken(input)..]
    else Left(input[Taken(input)..])
  }

  // ---- The upload --------------------------------------------------------------------

  datatype Upload = TooLarge | InvalidBase64 | Mismatch | Staged(policy: seq<byte>)

  /** What the gathered text is worth. */
  function Judged(encoded: seq<byte>, expected: seq<byte>): Upload {
    if |encoded| > MAX_ENCODED then TooLarge
    else
      var decoded := Decode(encoded);
      if decoded.None? || |decoded.value| > MAX_DECODED then InvalidBase64
      else if HashSha1(decoded.value) != expected then Mismatch
      else Staged(decoded.value)
  }

  /** append_base64_line: the text goes behind what is there, with a NUL, or nothing changes. */
  method AppendBase64Line(encoded: array<byte>, used: nat, line: seq<byte>) returns (ok: bool, newUsed: nat)
    requires encoded.Length == MAX_ENCODED + 1 && used <= MAX_ENCODED
    modifies encoded
    ensures ok <==> used + |line| <= MAX_ENCODED
    ensures !ok ==> encoded[..] == old(encoded[..])
    ensures ok ==>
      && newUsed == used + |line|
      && encoded[..newUsed] == old(encoded[..used]) + line && encoded[newUsed] == NUL
  {
    ok, newUsed := used + |line| <= MAX_ENCODED, used;
    if ok {
      for i := 0 to |line|
        invariant encoded[..used] == old(encoded[..used]) && encoded[used..used + i] == line[..i]
      {
        encoded[used + i] := line[i];
      }
      newUsed := used + |line|;
      encoded[newUsed] := NUL;
    }
  }

  /** policy_upload_staged, up to handing the policy to storage: it never writes outside its
      buffer, and stages a policy only if it has the expected digest. While the connection
      holds it gathers exactly the lines before the first blank or invalid one. */
  method ReceivePolicy(stdin: Stdin, expected: seq<byte>) returns (r: Upload)
    modifies stdin.socket
    ensures r.Staged? ==> HashSha1(r.policy) == expected && |r.policy| <= MAX_DECODED
    ensures stdin.socket.reliable ==> r == Judged(Gathered(old(stdin.Input())), expected)
    ensures stdin.socket.reliable && !r.TooLarge? ==> stdin.Input() == Left(old(stdin.Input()))
  {
    ghost var whole, left := Gathered(stdin.Input()), Left(stdin.Input());
    var encoded := new byte[MAX_ENCODED + 1];
    encoded[0] := NUL;
    var length := 0;
    ghost var done: seq<byte> := [];
    while true
      invariant encoded.Length == MAX_ENCODED + 1 && fresh(encoded)
      invariant length == |done| <= MAX_ENCODED && encoded[..length] == done
      invariant stdin.socket.reliable ==> whole == done + Gathered(stdin.Input()) && left == Left(stdin.Input())
      decreases |stdin.Input()|
    {
      var line := stdin.Fgets(LINE_BYTES);
      if line == [] {
        break;
      }
      var text := Strip(LogJson.CString(line));
      if Ends(text) {
        break;
      }
      Regroup(done, text, Gathered(stdin.Input()));
      var ok;
      ok, length := AppendBase64Line(encoded, length, text);
      if !ok {
        return TooLarge;
      }
      done := done + text;
    }
    assert done + [] == done;
    r := Decide(encoded[..length], expected);
  }

  /** What follows the loop. */
  method Decide(encoded: seq<byte>, expected: seq<byte>) returns (r: Upload)
    requires |encoded| <= MAX_ENCODED
    ensures r == Judged(encoded, expected)
  {
    var decoded := Decode(encoded);
    if decoded.None? || |decoded.value| > MAX_DECODED {
      return InvalidBase64;
    }
    if HashSha1(decoded.value) != expected {
      return Mismatch;
    }
    r := Staged(decoded.value);
  }
}
