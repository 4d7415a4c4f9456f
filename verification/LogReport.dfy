/** report logs: measuring, building and printing the log report. */
module LogReport {
  import opened Bytes
  import opened LogJson
  import JsonBuffer
  import P4J1

  lemma {:induction false} EndedByNul(text: seq<byte>)
    ensures CString(text + [NUL]) == CString(text)
  {
    if |text| > 0 && text[0] != NUL {
      EndedByNul(text[1..]);
      assert (text + [NUL])[1..] == text[1..] + [NUL];
    }
  }

  lemma {:induction false} EscapeGrows(text: seq<byte>, i: nat)
    requires i < |text|
    ensures |Escape(text[..i + 1])| == |Escape(text[..i])| + |EscapeByte(text[i])|
  {
    if i == 0 {
      assert text[..1] == [text[0]];
      assert |Escape([])| == 0;
    } else {
      EscapeGrows(text[1..], i - 1);
      assert text[..i + 1][1..] == text[1..][..i];
      assert text[..i][1..] == text[1..][..i - 1];
    }
  }

  method MeasureEscaped(text: seq<byte>) returns (escaped: nat)
    ensures escaped == |Escape(text)|
  {
    escaped := 0;
    for i := 0 to |text|
      invariant escaped == |Escape(text[..i])|
    {
      EscapeGrows(text, i);
      var ch := text[i];
      if ch == QUOTE || ch == BACKSLASH {
        escaped := escaped + 2;
      } else if SPACE <= ch <= 126 {
        escaped := escaped + 1;
      } else {
        escaped := escaped + 6;
      }
    }
    assert text[..|text|] == text;
  }

  function Head(length: nat): seq<byte> {
    LOG_HEAD + Decimal(length) + LOG_TEXT
  }

  lemma ReportParts(text: seq<byte>)
    ensures Report(text) == Head(|text|) + Quoted(CString(text)) + LOG_END
  {
  }

  /** The three appends: together they fit when there is room for all and a NUL. */
  method AppendReport(json: JsonBuffer.Buffer, head: seq<byte>, text: seq<byte>, end: seq<byte>)
    returns (ok: bool)
    requires json.Valid() && json.contents == []
    requires |head + Quoted(CString(text)) + end| < json.bytes.Length
    modifies json, json.bytes
    ensures ok && json.Valid() && json.contents == head + Quoted(CString(text)) + end
  {
    ghost var quoted := Quoted(CString(text));
    assert |head| + |quoted| + |end| < json.bytes.Length;
    ok := json.Append(head);
    assert ok && json.contents == head;
    ok := json.AppendString(text);
    assert ok && json.contents == head + quoted;
    ok := json.Append(end);
  }

  /** report_logs_command, once memory is there: the buffer it measured is never too small, and
      the line it prints carries the whole report. */
  method ReportLogs(snapshot: seq<byte>) returns (printed: seq<byte>)
    requires |snapshot| <= LOG_BUFFER_BYTES
    ensures printed == P4J1.Line(Report(snapshot)) + [LF]
  {
    var escaped := MeasureEscaped(snapshot);
    var json := new JsonBuffer.Buffer(BASE_BYTES + escaped);
    MeasuredCapacitySuffices(snapshot);
    ReportParts(snapshot);
    EndedByNul(snapshot);
    var ok := AppendReport(json, Head(|snapshot|), snapshot + [NUL], LOG_END);
    printed := P4J1.Line(json.bytes[..json.used]) + [LF];
  }
}
