/** The bounded JSON buffer of console.cpp, and the log report built in it. */
module JsonBuffer {
  import opened Bytes
  import opened LogJson

  class Buffer {
    const bytes: array<byte>
    var used: nat
    ghost var contents: seq<byte>   // what has been appended

    constructor (capacity: nat)
      ensures Valid() && contents == [] && fresh(bytes) && bytes.Length == capacity
    {
      bytes := new byte[capacity];
      used := 0;
      contents := [];
    }

    ghost predicate Valid()
      reads this, bytes
    {
      used == |contents| <= bytes.Length && bytes[..used] == contents
    }

    /** append_json with its text already formatted: vsnprintf stores what fits before a NUL,
        and the append counts only when all of it fitted. */
    method Append(text: seq<byte>) returns (ok: bool)
      requires Valid()
      modifies this, bytes
      ensures Valid()
      ensures ok <==> |text| < bytes.Length - |old(contents)|
      ensures contents == if ok then old(contents) + text else old(contents)
      ensures ok ==> used < bytes.Length && bytes[used] == NUL
    {
      if used >= bytes.Length {
        return false;
      }
      var room := bytes.Length - used - 1;
      var stored := if |text| <= room then |text| else room;
      for i := 0 to stored
        invariant used == old(used) && contents == old(contents) && bytes[..used] == old(bytes[..used])
        invariant bytes[used..used + i] == text[..i]
      {
        bytes[used + i] := text[i];
      }
      bytes[used + stored] := NUL;
      ok := |text| <= room;
      if ok {
        used := used + |text|;
        contents := contents + text;
      }
    }

    /** append_json_string. */
    method AppendString(text: seq<byte>) returns (ok: bool)
      requires Valid()
      modifies this, bytes
      ensures Valid()
      ensures ok <==> |Quoted(CString(text))| < bytes.Length - |old(contents)|
      ensures ok ==> contents == old(contents) + Quoted(CString(text))
    {
      ghost var before, whole, done := contents, Quoted(CString(text)), [QUOTE];
      ok := Append([QUOTE]);
      StringStarts(text);
      if !ok {
        return;
      }
      var cursor := 0;
      while cursor < |text| && text[cursor] != NUL
        invariant Valid() && cursor <= |text|
        invariant Appending(whole, done, text, cursor) && contents == before + done
      {
        var code := EscapeByte(text[cursor]);
        StringStep(whole, done, text, cursor, code);
        Regroup(before, done, code);
        ok := Append(code);
        if !ok {
          return;
        }
        done := done + code;
        cursor := cursor + 1;
      }
      StringEnds(whole, done, text, cursor);
      Regroup(before, done, [QUOTE]);
      ok := Append([QUOTE]);
    }
  }

  /** What was appended so far, and what the rest of the string still gives. */
  ghost predicate Appending(whole: seq<byte>, done: seq<byte>, text: seq<byte>, cursor: nat) {
    cursor <= |text| && whole == done + (Escape(CString(text[cursor..])) + [QUOTE])
  }

  lemma StringStarts(text: seq<byte>)
    ensures Appending(Quoted(CString(text)), [QUOTE], text, 0) && |Quoted(CString(text))| > 1
  {
    assert text[0..] == text;
    Regroup([QUOTE], Escape(CString(text)), [QUOTE]);
  }

  lemma EscapeFirst(text: seq<byte>, cursor: nat)
    requires cursor < |text| && text[cursor] != NUL
    ensures Escape(CString(text[cursor..])) == EscapeByte(text[cursor]) + Escape(CString(text[cursor + 1..]))
  {
    var more := CString(text[cursor + 1..]);
    assert text[cursor..][1..] == text[cursor + 1..];
    assert CString(text[cursor..])[1..] == more;
  }

  lemma StringStep(whole: seq<byte>, done: seq<byte>, text: seq<byte>, cursor: nat, code: seq<byte>)
    requires Appending(whole, done, text, cursor)
    requires cursor < |text| && text[cursor] != NUL && code == EscapeByte(text[cursor])
    ensures Appending(whole, done + code, text, cursor + 1) && |whole| > |done| + |code|
  {
    EscapeFirst(text, cursor);
    var more := Escape(CString(text[cursor + 1..]));
    Regroup(done, code, more + [QUOTE]);
    Regroup(code, more, [QUOTE]);
  }

  lemma StringEnds(whole: seq<byte>, done: seq<byte>, text: seq<byte>, cursor: nat)
    requires Appending(whole, done, text, cursor) && (cursor == |text| || text[cursor] == NUL)
    ensures whole == done + [QUOTE]
  {
    assert CString(text[cursor..]) == [];
    assert Escape([]) + [QUOTE] == [QUOTE];
  }
}
