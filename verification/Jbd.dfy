/** JBD battery frames: checksum, frame validity, the search for a frame in received bytes, and
    the cell voltages. */
module Jbd {
  import opened Bytes
  import opened Wrappers

  const START: byte := 0xdd
  const STOP: byte := 0x77
  const CELL_COMMAND: byte := 0x04
  const MAX_CELLS: nat := 32
  const MOD: int := 0x1_0000

  // ---- Checksum ----------------------------------------------------------------------

  function Sum(data: seq<byte>): nat {
    if |data| == 0 then 0 else Sum(data[..|data| - 1]) + data[|data| - 1] as int
  }

  /** The two's complement of the sum, in 16 bits. */
  function Checksum(data: seq<byte>): (c: nat)
    ensures c < MOD
  {
    Negated(Sum(data))
  }

  function Negated(sum: nat): (c: nat)
    ensures c < MOD
    ensures (sum + c) % MOD == 0
  {
    if sum % MOD == 0 then 0 else MOD - sum % MOD
  }

  lemma AddMod(sum: nat, b: byte)
    ensures (sum % MOD + b as int) % MOD == (sum + b as int) % MOD
  {
  }

  /** jbd_checksum. */
  method ComputeChecksum(data: seq<byte>) returns (c: nat)
    ensures c == Checksum(data)
  {
    var sum: nat := 0;
    for i := 0 to |data|
      invariant sum == Sum(data[..i]) % MOD
    {
      assert data[..i + 1][..i] == data[..i];
      AddMod(Sum(data[..i]), data[i]);
      sum := (sum + data[i] as int) % MOD;
    }
    assert data[..|data|] == data;
    c := (MOD - sum) % MOD;
  }

  // ---- Frames ------------------------------------------------------------------------

  function ReadBe16(data: seq<byte>, i: nat): (v: nat)
    requires i + 2 <= |data|
    ensures v < MOD
  {
    data[i] as int * 256 + data[i + 1] as int
  }

  /** The standard form covers status, length and payload; the other form the command as well. */
  predicate ChecksumMatches(frame: seq<byte>, dataLen: nat)
    requires dataLen + 7 <= |frame|
  {
    var received := ReadBe16(frame, 4 + dataLen);
    received == Checksum(frame[2..4 + dataLen]) || received == Checksum(frame[1..4 + dataLen])
  }

  predicate ValidFrame(frame: seq<byte>, command: byte) {
    && |frame| >= 7 && frame[0] == START && frame[1] == command
    && |frame| == frame[3] as int + 7 && frame[|frame| - 1] == STOP
    && ChecksumMatches(frame, frame[3] as int)
  }

  // ---- Search ------------------------------------------------------------------------

  /** The bytes at i look like the start of a frame for the command, all of it is there. */
  predicate Complete(data: seq<byte>, i: nat, command: byte) {
    && i + 7 <= |data| && data[i] == START && data[i + 1] == command
    && i + data[i + 3] as int + 7 <= |data|
  }

  function FrameAt(data: seq<byte>, i: nat, command: byte): seq<byte>
    requires Complete(data, i, command)
  {
    data[i..i + data[i + 3] as int + 7]
  }

  /** Nothing starts at i, whatever follows. */
  predicate RuledOut(data: seq<byte>, i: nat, command: byte) {
    && i < |data|
    && (|| data[i] != START
        || (i + 7 <= |data| && data[i + 1] != command)
        || (Complete(data, i, command) && !ValidFrame(FrameAt(data, i, command), command)))
  }

  /** The first frame: a valid one at offset, and everything before it ruled out. */
  predicate IsPacket(data: seq<byte>, command: byte, offset: nat, length: nat) {
    && Complete(data, offset, command) && length == data[offset + 3] as int + 7
    && ValidFrame(FrameAt(data, offset, command), command)
    && forall i | 0 <= i < offset :: RuledOut(data, i, command)
  }

  /** jbd_find_packet. */
  method FindPacket(data: seq<byte>, command: byte) returns (found: bool, offset: nat, length: nat)
    ensures found ==> IsPacket(data, command, offset, length)
    ensures !found ==> forall o: nat, n: nat :: !IsPacket(data, command, o, n)
  {
    found, offset, length := false, 0, 0;
    var i := 0;
    while i < |data|
      invariant i <= |data| && forall k | 0 <= k < i :: RuledOut(data, k, command)
    {
      if data[i] == START {
        if |data| - i < 7 {
          NotBeyond(data, command, i);
          return;
        }
        if data[i + 1] == command {
          var total := data[i + 3] as int + 7;
          if |data| - i < total {
            NotBeyond(data, command, i);
            return;
          }
          if ValidFrame(data[i..i + total], command) {
            return true, i, total;
          }
        }
      }
      i := i + 1;
    }
    NotBeyond(data, command, i);
  }

  /** Past a position that is neither ruled out nor a frame there is no packet. */
  lemma NotBeyond(data: seq<byte>, command: byte, i: nat)
    requires forall k | 0 <= k < i :: RuledOut(data, k, command)
    requires i < |data| ==> !RuledOut(data, i, command) && !Complete(data, i, command)
    ensures forall o: nat, n: nat :: !IsPacket(data, command, o, n)
  {
    forall o: nat, n: nat ensures !IsPacket(data, command, o, n) {
      if o < i {
        assert RuledOut(data, o, command);
      }
    }
  }

  lemma PacketIsNotRuledOut(data: seq<byte>, command: byte, o: nat, n: nat)
    requires IsPacket(data, command, o, n)
    ensures !RuledOut(data, o, command)
  {
  }

  /** There is at most one first frame. */
  lemma OnePacket(data: seq<byte>, command: byte, o: nat, n: nat, p: nat, m: nat)
    requires IsPacket(data, command, o, n) && IsPacket(data, command, p, m)
    ensures o == p && n == m
  {
    PacketIsNotRuledOut(data, command, o, n);
    PacketIsNotRuledOut(data, command, p, m);
  }

  // ---- More bytes --------------------------------------------------------------------

  lemma RuledOutStays(data: seq<byte>, more: seq<byte>, i: nat, command: byte)
    requires RuledOut(data, i, command)
    ensures RuledOut(data + more, i, command)
  {
    if Complete(data, i, command) {
      assert FrameAt(data + more, i, command) == FrameAt(data, i, command);
    }
  }

  /** A frame found stays found, at the same place, however many bytes follow. */
  lemma PacketStays(data: seq<byte>, more: seq<byte>, command: byte, offset: nat, length: nat)
    requires IsPacket(data, command, offset, length)
    ensures IsPacket(data + more, command, offset, length)
  {
    assert FrameAt(data + more, offset, command) == FrameAt(data, offset, command);
    forall i | 0 <= i < offset ensures RuledOut(data + more, i, command) {
      RuledOutStays(data, more, i, command);
    }
  }

  // ---- Cell voltages -----------------------------------------------------------------

  function Be16(v: int): (r: seq<byte>)
    requires 0 <= v < MOD
    ensures |r| == 2
  {
    [v / 256, v % 256]
  }

  function Payload(cells: seq<int>): (r: seq<byte>)
    requires forall i | 0 <= i < |cells| :: 0 <= cells[i] < MOD
    ensures |r| == 2 * |cells|
  {
    if |cells| == 0 then [] else Payload(cells[..|cells| - 1]) + Be16(cells[|cells| - 1])
  }

  /** An answer to a command: status 0, the payload with its length, a checksum, the stop byte. */
  function Framed(command: byte, payload: seq<byte>, check: seq<byte>): (f: seq<byte>)
    requires |payload| < 256 && |check| == 2
    ensures |f| == |payload| + 7
  {
    [START, command] + ([0, |payload|] + payload) + check + [STOP]
  }

  /** A battery's answer, with the standard checksum. */
  function CellFrame(cells: seq<int>): (f: seq<byte>)
    requires |cells| <= 127 && forall i | 0 <= i < |cells| :: 0 <= cells[i] < MOD
    ensures |f| == 2 * |cells| + 7
  {
    Framed(CELL_COMMAND, Payload(cells), Be16(CellSum(cells)))
  }

  function CellSum(cells: seq<int>): (sum: nat)
    requires |cells| <= 127 && forall i | 0 <= i < |cells| :: 0 <= cells[i] < MOD
    ensures sum < MOD
  {
    Checksum([0, |Payload(cells)|] + Payload(cells))
  }

  datatype CellInfo = CellInfo(cells: seq<int>)

  /** jbd_parse_cell_info. */
  method ParseCells(frame: seq<byte>, expectedCount: nat) returns (info: Option<CellInfo>)
    ensures info == CellsOf(frame, expectedCount)
    ensures info.Some? <==>
      ValidFrame(frame, 4) && frame[2] == 0 && 1 <= expectedCount <= 32 && frame[3] as int == 2 * expectedCount
  {
    info := None;
    if !ValidFrame(frame, CELL_COMMAND) || frame[2] != 0 {
      return;
    }
    var dataLen := frame[3] as int;
    if dataLen < 2 || dataLen > MAX_CELLS * 2 || dataLen % 2 != 0 {
      return;
    }
    var count := dataLen / 2;
    if expectedCount == 0 || count != expectedCount {
      return;
    }
    var cells: seq<int> := [];
    for i := 0 to count
      invariant cells == Voltages(frame, i)
    {
      cells := cells + [ReadBe16(frame, 4 + i * 2)];
    }
    info := Some(CellInfo(cells));
  }

  function Voltages(frame: seq<byte>, count: nat): (cells: seq<int>)
    requires 4 + 2 * count <= |frame|
    ensures |cells| == count
    ensures forall i | 0 <= i < count :: cells[i] == ReadBe16(frame, 4 + 2 * i)
  {
    seq(count, i requires 0 <= i < count => ReadBe16(frame, 4 + 2 * i))
  }

  function CellsOf(frame: seq<byte>, expectedCount: nat): Option<CellInfo> {
    if ValidFrame(frame, CELL_COMMAND) && frame[2] == 0 && 1 <= expectedCount <= MAX_CELLS
      && frame[3] as int == 2 * expectedCount
    then Some(CellInfo(Voltages(frame, expectedCount)))
    else None
  }

  lemma Be16RoundTrip(v: int)
    requires 0 <= v < MOD
    ensures ReadBe16(Be16(v), 0) == v
  {
  }

  lemma {:induction false} PayloadAt(cells: seq<int>, i: nat)
    requires i < |cells| && forall k | 0 <= k < |cells| :: 0 <= cells[k] < MOD
    ensures ReadBe16(Payload(cells), 2 * i) == cells[i]
  {
    var n := |cells| - 1;
    if i < n {
      PayloadAt(cells[..n], i);
    } else {
      Be16RoundTrip(cells[n]);
    }
  }

  lemma Parts(head: seq<byte>, checked: seq<byte>, check: seq<byte>, end: seq<byte>)
    requires |head| == 2 && |check| == 2 && |end| == 1
    ensures var f, n := head + checked + check + end, |checked|;
      && |f| == n + 5 && f[..2] == head && f[2..2 + n] == checked && f[2 + n..4 + n] == check && f[4 + n] == end[0]
  {
  }

  lemma Behind(data: seq<byte>, i: nat, j: nat, head: seq<byte>, tail: seq<byte>)
    requires i + 2 <= j <= |data| && |head| == 2 && data[i..j] == head + tail
    ensures data[i] == head[0] && data[i + 1] == head[1] && data[i + 2..j] == tail
  {
    assert data[i] == data[i..j][0] && data[i + 1] == data[i..j][1];
    assert data[i + 2..j] == data[i..j][2..];
  }

  lemma FramedParts(command: byte, payload: seq<byte>, check: seq<byte>)
    requires |payload| < 256 && |check| == 2
    ensures var f, n := Framed(command, payload, check), |payload|;
      && f[0] == START && f[1] == command && f[2] == 0 && f[3] as int == n && f[n + 6] == STOP
      && f[2..4 + n] == [0, n] + payload && f[4..4 + n] == payload && f[4 + n..6 + n] == check
  {
    var f, n, checked := Framed(command, payload, check), |payload|, [0, |payload|] + payload;
    Parts([START, command], checked, check, [STOP]);
    Behind(f, 2, 4 + n, [0, n], payload);
    assert f[..2][0] == f[0] && f[..2][1] == f[1];
  }

  lemma SliceRead(data: seq<byte>, i: nat, j: nat, k: nat)
    requires i + k + 2 <= j <= |data|
    ensures ReadBe16(data[i..j], k) == ReadBe16(data, i + k)
  {
  }

  lemma ReadsCheck(command: byte, payload: seq<byte>, sum: nat)
    requires |payload| < 256 && sum < MOD
    ensures ReadBe16(Framed(command, payload, Be16(sum)), 4 + |payload|) == sum
  {
    var f, n := Framed(command, payload, Be16(sum)), |payload|;
    FramedParts(command, payload, Be16(sum));
    SliceRead(f, 4 + n, 6 + n, 0);
    Be16RoundTrip(sum);
  }

  lemma Widened(s: seq<byte>, i: nat, j: nat)
    requires i < j <= |s|
    ensures s[i..j] == [s[i]] + s[i + 1..j]
  {
  }

  /** A well-formed frame is valid exactly when its checksum has one of the two forms. */
  lemma FramedIsValid(command: byte, payload: seq<byte>, sum: nat)
    requires |payload| < 256 && sum < MOD
    ensures var checked := [0, |payload|] + payload;
      ValidFrame(Framed(command, payload, Be16(sum)), command) <==>
        sum == Checksum(checked) || sum == Checksum([command] + checked)
  {
    FramedParts(command, payload, Be16(sum));
    ReadsCheck(command, payload, sum);
    Widened(Framed(command, payload, Be16(sum)), 1, 4 + |payload|);
  }

  lemma CellFrameIsValid(cells: seq<int>)
    requires |cells| <= 127 && forall i | 0 <= i < |cells| :: 0 <= cells[i] < MOD
    ensures ValidFrame(CellFrame(cells), CELL_COMMAND)
  {
    FramedIsValid(CELL_COMMAND, Payload(cells), CellSum(cells));
  }

  lemma VoltagesOfFrame(cells: seq<int>, f: seq<byte>)
    requires |cells| <= MAX_CELLS && forall i | 0 <= i < |cells| :: 0 <= cells[i] < MOD
    requires |f| == 2 * |cells| + 7 && f[4..4 + 2 * |cells|] == Payload(cells)
    ensures Voltages(f, |cells|) == cells
  {
    forall i | 0 <= i < |cells| ensures Voltages(f, |cells|)[i] == cells[i] {
      PayloadAt(cells, i);
      SliceRead(f, 4, 4 + 2 * |cells|, 2 * i);
    }
  }

  /** An answer is parsed back to its voltages. */
  lemma CellsRoundTrip(cells: seq<int>)
    requires 1 <= |cells| <= MAX_CELLS && forall i | 0 <= i < |cells| :: 0 <= cells[i] < MOD
    ensures CellsOf(CellFrame(cells), |cells|) == Some(CellInfo(cells))
  {
    CellFrameIsValid(cells);
    FramedParts(CELL_COMMAND, Payload(cells), Be16(CellSum(cells)));
    VoltagesOfFrame(cells, CellFrame(cells));
  }

  lemma FoundAfter(prefix: seq<byte>, f: seq<byte>, rest: seq<byte>)
    requires START !in prefix && ValidFrame(f, CELL_COMMAND)
    ensures var data := prefix + f + rest;
      && IsPacket(data, CELL_COMMAND, |prefix|, |f|)
      && data[|prefix|..|prefix| + |f|] == f
  {
    var data := prefix + f + rest;
    assert forall i | 0 <= i < |f| :: data[|prefix| + i] == f[i];
    assert data[|prefix|..|prefix| + |f|] == f;
    forall i | 0 <= i < |prefix| ensures RuledOut(data, i, CELL_COMMAND) {
      assert data[i] == prefix[i];
    }
  }

  /** After bytes that hold no start byte, and before any others, an answer is found. */
  lemma CellFrameIsFound(prefix: seq<byte>, cells: seq<int>, rest: seq<byte>)
    requires START !in prefix
    requires 1 <= |cells| <= MAX_CELLS && forall i | 0 <= i < |cells| :: 0 <= cells[i] < MOD
    ensures var data := prefix + CellFrame(cells) + rest;
      && IsPacket(data, CELL_COMMAND, |prefix|, |CellFrame(cells)|)
      && data[|prefix|..|prefix| + |CellFrame(cells)|] == CellFrame(cells)
  {
    CellFrameIsValid(cells);
    FoundAfter(prefix, CellFrame(cells), rest);
  }

  // ---- A damaged byte ----------------------------------------------------------------

  lemma {:induction false} SumChanges(data: seq<byte>, k: nat, b: byte)
    requires k < |data|
    ensures Sum(data[k := b]) == Sum(data) - data[k] as int + b as int
  {
    var n := |data| - 1;
    if k < n {
      SumChanges(data[..n], k, b);
      assert data[k := b][..n] == data[..n][k := b];
    } else {
      assert data[k := b][..n] == data[..n];
    }
  }

  lemma {:induction false} SumFront(b: byte, data: seq<byte>)
    ensures Sum([b] + data) == b as int + Sum(data)
  {
    var all, n := [b] + data, |data|;
    if n == 0 {
      assert all[..0] == [];
      assert Sum([]) == 0;
    } else {
      SumFront(b, data[..n - 1]);
      assert all[..n] == [b] + data[..n - 1];
    }
  }

  /** Sums less than 65536 apart have the same checksum only when they are equal. */
  lemma SameChecksum(a: nat, b: nat)
    requires a - MOD < b < a + MOD
    ensures Negated(a) == Negated(b) <==> a == b
  {
  }

  /** One payload byte of an answer to any command changed: the damaged frame is accepted exactly when the new
      byte is the old one less the command, so that the form that covers the command fits. */
  lemma DamagedByte(command: byte, payload: seq<byte>, k: nat, b: byte)
    requires |payload| < 256 && k < |payload| && b != payload[k]
    ensures var good := Framed(command, payload, Be16(Checksum([0, |payload|] + payload)));
      && ValidFrame(good, command)
      && (ValidFrame(good[4 + k := b], command) <==> b as int == payload[k] as int - command as int)
  {
    var sum := Checksum([0, |payload|] + payload);
    FramedIsValid(command, payload, sum);
    FramedUpdate(command, payload, Be16(sum), k, b);
    FramedIsValid(command, payload[k := b], sum);
    DamagedSums(command, payload, k, b);
  }

  lemma FramedUpdate(command: byte, payload: seq<byte>, check: seq<byte>, k: nat, b: byte)
    requires |payload| < 256 && |check| == 2 && k < |payload|
    ensures Framed(command, payload, check)[4 + k := b] == Framed(command, payload[k := b], check)
  {
  }

  /** The two sums the damaged frame is compared with. */
  lemma DamagedSums(command: byte, payload: seq<byte>, k: nat, b: byte)
    requires |payload| < 256 && k < |payload| && b != payload[k]
    ensures var checked, damaged := [0, |payload|] + payload, [0, |payload|] + payload[k := b];
      && Checksum(damaged) != Checksum(checked)
      && (Checksum([command] + damaged) == Checksum(checked) <==>
          b as int == payload[k] as int - command as int)
  {
    var checked, damaged := [0, |payload|] + payload, [0, |payload|] + payload[k := b];
    assert damaged == checked[k + 2 := b];
    SumChanges(checked, k + 2, b);
    SumFront(command, damaged);
    SameChecksum(Sum(checked), Sum(damaged));
    SameChecksum(Sum(checked), Sum([command] + damaged));
  }
}
