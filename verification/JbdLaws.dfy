/** Which frames of a battery are valid, said without the checksum function, and answers whose
    bytes are known. */
module JbdLaws {
  import opened Bytes
  import opened Jbd
  import opened Wrappers

  // ---- Which checksums are valid ---------------------------------------------------------

  lemma {:induction false} SumOfZeros(n: nat)
    ensures Sum(Zeros(n)) == 0
  {
    if n > 0 {
      assert Zeros(n)[..n - 1] == Zeros(n - 1);
      SumOfZeros(n - 1);
    }
  }

  lemma NegatedIs(sum: nat, w: nat)
    requires w < MOD
    ensures Negated(sum) == w <==> (sum + w) % MOD == 0
  {
  }

  lemma NegatedShifts(sum: nat, d: int, w: nat)
    requires w < MOD && sum + d >= 0
    ensures Negated(sum + d) == (w - d) % MOD <==> Negated(sum) == w
  {
    NegatedIs(sum, w);
    NegatedIs(sum + d, (w - d) % MOD);
    ShiftCancels(sum, d, w);
  }

  lemma ShiftCancels(sum: int, d: int, w: int)
    ensures (sum + d + (w - d) % MOD) % MOD == (sum + w) % MOD
  {
    var q := (w - d) / MOD;
    assert sum + d + (w - d) % MOD == sum + w - q * MOD;
    Whole(sum + w, q);
  }

  lemma Whole(n: int, q: int)
    ensures (n - q * 0x1_0000) % 0x1_0000 == n % 0x1_0000
  {
  }

  /** The checksum fits the bytes it covers, with the command byte or without. */
  predicate Checked(command: byte, payload: seq<byte>, w: nat)
    requires |payload| < 256
  {
    var checked := [0, |payload|] + payload;
    w == Negated(Sum(checked)) || w == Negated(Sum([command] + checked))
  }

  lemma FramedIsChecked(command: byte, payload: seq<byte>, w: nat)
    requires |payload| < 256 && w < MOD
    ensures ValidFrame(Framed(command, payload, Be16(w)), command) <==> Checked(command, payload, w)
  {
    FramedIsValid(command, payload, w);
  }

  lemma ZerosSum(command: byte, n: nat)
    requires n < 256
    ensures Sum([0, n] + Zeros(n)) == n && Sum([command] + ([0, n] + Zeros(n))) == n + command as int
  {
    SumOfZeros(n);
    assert [0, n] + Zeros(n) == [0] + ([n] + Zeros(n));
    SumFront(n, Zeros(n));
    SumFront(0, [n] + Zeros(n));
    SumFront(command, [0, n] + Zeros(n));
  }

  /** A payload of zeros: the checksum and the bytes it covers, here length and perhaps command,
      add up to a multiple of 65536. */
  lemma ZerosAreChecked(command: byte, n: nat, w: nat)
    requires n < 256 && w < 0x1_0000
    ensures ValidFrame(Framed(command, Zeros(n), Be16(w)), command) <==>
      (w + n) % 0x1_0000 == 0 || (w + n + command as int) % 0x1_0000 == 0
  {
    FramedIsChecked(command, Zeros(n), w);
    ZerosSum(command, n);
    NegatedIs(n, w);
    NegatedIs(n + command as int, w);
  }

  lemma CheckedShifts(command: byte, payload: seq<byte>, k: nat, b: byte, w: nat)
    requires |payload| < 256 && k < |payload| && w < MOD
    ensures Checked(command, payload[k := b], (w + payload[k] as int - b as int) % MOD) <==> Checked(command, payload, w)
  {
    var d := b as int - payload[k] as int;
    var checked := [0, |payload|] + payload;
    SumsChange(command, payload, k, b);
    NegatedShifts(Sum(checked), d, w);
    NegatedShifts(Sum([command] + checked), d, w);
  }

  /** Each byte of a payload counts for itself: by as much as it grows the checksum shrinks. With
      ZerosAreChecked this settles every payload. */
  lemma EachByteCounts(command: byte, payload: seq<byte>, k: nat, b: byte, w: nat)
    requires |payload| < 256 && k < |payload| && w < 0x1_0000
    ensures var shifted := (w + payload[k] as int - b as int) % 0x1_0000;
      ValidFrame(Framed(command, payload[k := b], Be16(shifted)), command) <==>
      ValidFrame(Framed(command, payload, Be16(w)), command)
  {
    FramedIsChecked(command, payload, w);
    FramedIsChecked(command, payload[k := b], (w + payload[k] as int - b as int) % MOD);
    CheckedShifts(command, payload, k, b, w);
  }

  lemma SumsChange(command: byte, payload: seq<byte>, k: nat, b: byte)
    requires |payload| < 256 && k < |payload|
    ensures var checked, changed := [0, |payload|] + payload, [0, |payload|] + payload[k := b];
      var d := b as int - payload[k] as int;
      Sum(changed) == Sum(checked) + d && Sum([command] + changed) == Sum([command] + checked) + d
  {
    var checked, changed := [0, |payload|] + payload, [0, |payload|] + payload[k := b];
    assert changed == checked[k + 2 := b];
    SumChanges(checked, k + 2, b);
    SumFront(command, checked);
    SumFront(command, changed);
  }

  // ---- Known answers ---------------------------------------------------------------------

  const ONE_CELL: seq<byte> := [0xdd, 0x04, 0x00, 0x02, 0x0c, 0xe4, 0xff, 0x0e, 0x77]

  const FOUR_CELLS: seq<byte> :=
    [0xdd, 0x04, 0x00, 0x08, 0x0f, 0x23, 0x0f, 0x1c, 0x0f, 0x12, 0x0f, 0x1d, 0xff, 0x4e, 0x77]

  lemma {:induction false} SumOf(data: seq<byte>, last: byte)
    ensures Sum(data + [last]) == Sum(data) + last as int
  {
    assert (data + [last])[..|data|] == data;
  }

  lemma SumOfTwo(a: byte, b: byte)
    ensures Sum([a, b]) == a as int + b as int
  {
    SumOf([], a);
    SumOf([a], b);
    assert [] + [a] == [a] && [a] + [b] == [a, b];
  }

  lemma SumOfFour(a: byte, b: byte, c: byte, d: byte)
    ensures Sum([a, b, c, d]) == a as int + b as int + c as int + d as int
  {
    SumOfTwo(a, b);
    SumOf([a, b], c);
    SumOf([a, b, c], d);
    assert [a, b] + [c] == [a, b, c] && [a, b, c] + [d] == [a, b, c, d];
  }

  lemma {:induction false} SumOfBoth(a: seq<byte>, b: seq<byte>)
    ensures Sum(a + b) == Sum(a) + Sum(b)
  {
    if b == [] {
      assert a + b == a;
    } else {
      var front, last := b[..|b| - 1], b[|b| - 1];
      SumOfBoth(a, front);
      SumOf(a + front, last);
      assert a + b == a + front + [last];
    }
  }

  /** One cell of 3.300 V. */
  lemma OneCell()
    ensures ValidFrame(ONE_CELL, 0x04) && !ValidFrame(ONE_CELL, 0x03)
    ensures CellsOf(ONE_CELL, 1) == Some(CellInfo([3300])) && CellsOf(ONE_CELL, 2) == None
  {
    SumOfFour(0, 2, 0x0c, 0xe4);
    assert ONE_CELL[2..6] == [0, 2, 0x0c, 0xe4];
    assert ReadBe16(ONE_CELL, 6) == 0xff0e;
    assert Voltages(ONE_CELL, 1) == [3300];
  }

  lemma FourCellsSum()
    ensures Sum(FOUR_CELLS[2..12]) == 178
  {
    var first, second, third: seq<byte> := [0, 8, 0x0f, 0x23], [0x0f, 0x1c, 0x0f, 0x12], [0x0f, 0x1d];
    SumOfFour(0, 8, 0x0f, 0x23);
    SumOfFour(0x0f, 0x1c, 0x0f, 0x12);
    SumOfTwo(0x0f, 0x1d);
    SumOfBoth(first, second);
    SumOfBoth(first + second, third);
    assert FOUR_CELLS[2..12] == first + second + third;
  }

  lemma FourVoltages()
    ensures Voltages(FOUR_CELLS, 4) == [3875, 3868, 3858, 3869]
  {
    assert ReadBe16(FOUR_CELLS, 4) == 3875 && ReadBe16(FOUR_CELLS, 6) == 3868;
    assert ReadBe16(FOUR_CELLS, 8) == 3858 && ReadBe16(FOUR_CELLS, 10) == 3869;
  }

  lemma FourCellsValid()
    ensures ValidFrame(FOUR_CELLS, 0x04) && FOUR_CELLS[2] == 0 && FOUR_CELLS[3] as int == 2 * 4
  {
    FourCellsSum();
    assert FOUR_CELLS[0] == 0xdd && FOUR_CELLS[1] == 0x04 && FOUR_CELLS[2] == 0 && FOUR_CELLS[3] == 8;
    assert FOUR_CELLS[14] == 0x77 && |FOUR_CELLS| == 15;
    assert ReadBe16(FOUR_CELLS, 12) == 0xff4e;
  }

  /** Four cells, found behind three other bytes; not found with the last byte missing, nor with
      a bit of the checksum wrong. */
  lemma FourCells()
    ensures CellsOf(FOUR_CELLS, 4) == Some(CellInfo([3875, 3868, 3858, 3869])) && CellsOf(FOUR_CELLS, 3) == None
    ensures IsPacket([1, 2, 3] + FOUR_CELLS, 0x04, 3, 15)
    ensures !ValidFrame(FOUR_CELLS[..14], 0x04)
  {
    FourCellsValid();
    FourVoltages();
    assert ([1, 2, 3] + FOUR_CELLS)[3..18] == FOUR_CELLS;
  }

  lemma FourCellsDamaged()
    ensures !ValidFrame(FOUR_CELLS[13 := 0x4f], 0x04)
  {
    var damaged := FOUR_CELLS[13 := 0x4f];
    FourCellsSum();
    assert damaged[2..12] == FOUR_CELLS[2..12];
    assert damaged[1..12] == [0x04] + damaged[2..12];
    SumFront(0x04, damaged[2..12]);
    assert ReadBe16(damaged, 12) == 0xff4f;
  }
}
