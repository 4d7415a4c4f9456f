/** What the clients make of a response, told from the text of its lines. */
module ClientLaws {
  import opened Bytes
  import opened CtlResponse
  import opened DotReceive
  import opened LogJson
  import opened P4J1
  import opened Responses
  import opened Wrappers

  /** strstr: the part stands somewhere in the text. */
  lemma {:induction false} ContainsMeans(s: seq<byte>, part: seq<byte>)
    ensures Contains(s, part) <==> exists i | 0 <= i <= |s| :: part <= s[i..]
  {
    assert s[0..] == s;
    if |s| > 0 {
      ContainsMeans(s[1..], part);
      assert forall i | 0 <= i < |s| :: s[1..][i..] == s[i + 1..];
      if i :| 0 <= i <= |s| && part <= s[i..] && i > 0 {
        assert part <= s[1..][i - 1..];
      }
    }
  }

  predicate Says(lines: seq<seq<byte>>, text: seq<byte>) {
    exists i | 0 <= i < |lines| :: Contains(Plain(lines[i]), text)
  }

  /** An upload has failed when some line says so and none says that it was stored. */
  lemma UploadStatus(lines: seq<seq<byte>>)
    ensures Status(Upload, lines) == -1 <==>
      Says(lines, Ascii(" failed:")) && !Says(lines, Ascii("uploaded staged configuration:"))
    ensures Status(Upload, lines) == 1 || Status(Upload, lines) == -1
  {
  }

  /** What the lines parse as. */
  function Frames(lines: seq<seq<byte>>): (r: seq<Parsed>)
    ensures |r| == |lines|
  {
    seq(|lines|, i requires 0 <= i < |lines| => ParseC(Plain(lines[i])))
  }

  function LastOf(frames: seq<Parsed>): Parsed {
    if |frames| == 0 then NotFrame
    else if frames[|frames| - 1].NotFrame? then LastOf(frames[..|frames| - 1])
    else frames[|frames| - 1]
  }

  lemma {:induction false} LastFrameIsLast(lines: seq<seq<byte>>)
    ensures LastFrame(lines) == LastOf(Frames(lines))
  {
    if |lines| > 0 {
      LastFrameIsLast(lines[..|lines| - 1]);
      assert Frames(lines)[..|lines| - 1] == Frames(lines[..|lines| - 1]);
    }
  }

  predicate IsLastFrame(frames: seq<Parsed>, i: nat) {
    i < |frames| && !frames[i].NotFrame? && forall k | i < k < |frames| :: frames[k].NotFrame?
  }

  lemma {:induction false} LastOfIs(frames: seq<Parsed>, i: nat)
    requires IsLastFrame(frames, i)
    ensures LastOf(frames) == frames[i]
  {
    if i < |frames| - 1 {
      LastOfIs(frames[..|frames| - 1], i);
    }
  }

  lemma {:induction false} NoFrameIs(frames: seq<Parsed>)
    requires forall i | 0 <= i < |frames| :: frames[i].NotFrame?
    ensures LastOf(frames).NotFrame?
  {
    if |frames| > 0 {
      NoFrameIs(frames[..|frames| - 1]);
    }
  }

  /** A JSON command ends with 1 when the last frame among its lines is good, -1 when it is damaged, and 0
      without any. */
  lemma JsonStatus(lines: seq<seq<byte>>, i: nat)
    ensures var frames := Frames(lines);
      && (IsLastFrame(frames, i) ==> Status(Json, lines) == if frames[i].Payload? then 1 else -1)
      && ((forall k | 0 <= k < |frames| :: frames[k].NotFrame?) ==> Status(Json, lines) == 0)
  {
    var frames := Frames(lines);
    LastFrameIsLast(lines);
    if IsLastFrame(frames, i) {
      LastOfIs(frames, i);
    }
    if forall k | 0 <= k < |frames| :: frames[k].NotFrame? {
      NoFrameIs(frames);
    }
  }

  /** A passthrough command prints every line as it was before it was stuffed. */
  lemma {:induction false} PassesAll(lines: seq<seq<byte>>)
    ensures |Printed(Passthrough, lines)| == |lines| && Status(Passthrough, lines) == 1
    ensures forall i | 0 <= i < |lines| :: Printed(Passthrough, lines)[i] == Plain(lines[i])
  {
    if |lines| > 0 {
      PassesAll(lines[..|lines| - 1]);
    }
  }

  predicate Stored(line: seq<byte>, text: seq<byte>) {
    Plain(line) == text && Contains(text, Ascii("uploaded staged configuration:"))
  }

  predicate Carries(line: seq<byte>, json: seq<byte>) {
    ParseC(Plain(line)) == Payload(json)
  }

  lemma PrintsOne(line: seq<byte>, text: seq<byte>)
    ensures text in Prints(Upload, line) <==> Stored(line, text)
    ensures text in Prints(Json, line) <==> Carries(line, text)
  {
  }

  ghost predicate PrintedBySome(lines: seq<seq<byte>>, kind: Kind, text: seq<byte>) {
    exists i | 0 <= i < |lines| :: text in Prints(kind, lines[i])
  }

  lemma SomeSnoc(front: seq<seq<byte>>, last: seq<byte>, kind: Kind, text: seq<byte>)
    ensures PrintedBySome(front + [last], kind, text) <==> PrintedBySome(front, kind, text) || text in Prints(kind, last)
  {
    var all := front + [last];
    assert all[|front|] == last;
    if i :| 0 <= i < |front| && text in Prints(kind, front[i]) {
      assert text in Prints(kind, all[i]);
    }
  }

  lemma {:induction false} PrintsSome(kind: Kind, lines: seq<seq<byte>>, text: seq<byte>)
    ensures text in Printed(kind, lines) <==> PrintedBySome(lines, kind, text)
  {
    if |lines| > 0 {
      var front, last := lines[..|lines| - 1], lines[|lines| - 1];
      PrintsSome(kind, front, text);
      PrintedSnoc(kind, front, last);
      SomeSnoc(front, last, kind, text);
      assert front + [last] == lines;
    }
  }

  /** An upload prints the lines that say that it was stored, */
  lemma UploadPrints(lines: seq<seq<byte>>, text: seq<byte>)
    ensures text in Printed(Upload, lines) <==> exists i | 0 <= i < |lines| :: Stored(lines[i], text)
  {
    PrintsSome(Upload, lines, text);
    forall i | 0 <= i < |lines| ensures text in Prints(Upload, lines[i]) <==> Stored(lines[i], text) {
      PrintsOne(lines[i], text);
    }
  }

  /** and a JSON command the texts of good frames. */
  lemma JsonPrints(lines: seq<seq<byte>>, json: seq<byte>)
    ensures json in Printed(Json, lines) <==> exists i | 0 <= i < |lines| :: Carries(lines[i], json)
  {
    PrintsSome(Json, lines, json);
    forall i | 0 <= i < |lines| ensures json in Prints(Json, lines[i]) <==> Carries(lines[i], json) {
      PrintsOne(lines[i], json);
    }
  }

  predicate IsLastPayload(lines: seq<seq<byte>>, i: nat) {
    && i < |lines| && SwiftParsed(lines[i]).Payload?
    && forall k | i < k < |lines| :: !SwiftParsed(lines[k]).Payload?
  }

  lemma {:induction false} LastPayloadIs(lines: seq<seq<byte>>, i: nat)
    requires IsLastPayload(lines, i)
    ensures SwiftPayload(lines) == Some(SwiftParsed(lines[i]).json)
  {
    if i < |lines| - 1 {
      LastPayloadIs(lines[..|lines| - 1], i);
    }
  }

  lemma {:induction false} NoPayloadIs(lines: seq<seq<byte>>)
    requires forall i | 0 <= i < |lines| :: !SwiftParsed(lines[i]).Payload?
    ensures SwiftPayload(lines) == None
  {
    if |lines| > 0 {
      NoPayloadIs(lines[..|lines| - 1]);
    }
  }

  /** power4d: a bad line spoils a response; otherwise its last payload is taken, if it has any. */
  lemma SwiftVerdict(lines: seq<seq<byte>>, i: nat)
    ensures SwiftOutcome(lines).Failure? <==> exists k | 0 <= k < |lines| :: SwiftParsed(lines[k]).Bad?
    ensures !SwiftOutcome(lines).Failure? && IsLastPayload(lines, i) ==>
      SwiftOutcome(lines) == Success(SwiftParsed(lines[i]).json)
    ensures !SwiftOutcome(lines).Failure? && (forall k | 0 <= k < |lines| :: !SwiftParsed(lines[k]).Payload?) ==>
      SwiftOutcome(lines).Missing?
  {
    if IsLastPayload(lines, i) {
      LastPayloadIs(lines, i);
    }
    if forall k | 0 <= k < |lines| :: !SwiftParsed(lines[k]).Payload? {
      NoPayloadIs(lines);
    }
  }

  /** The first line, and only the first, may be the echo of the command. */
  lemma BodyDropsEcho(lines: seq<seq<byte>>, line: seq<byte>, echo: seq<byte>)
    ensures Body([line] + lines, Some(echo)) == (if line == echo then lines else [line] + lines)
    ensures Body(lines, None) == lines && Body([], Some(echo)) == []
  {
  }

  /** The lengths the clients' buffers give a line. */
  lemma Limits()
    ensures LINE_LIMIT == 128 * 1024 && C_LIMIT == 128 * 1024 - 1
  {
  }
}
