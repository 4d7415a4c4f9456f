/** The clock's range in seconds, and its registers bit by bit. */
module RtcLaws {
  import opened Bytes
  import opened Calendar
  import opened RtcClock
  import opened Wrappers

  // ---- Range -----------------------------------------------------------------------------

  lemma Ends()
    ensures DaysFromCivil(Date(2000, 1, 1)) == 10957 && DaysFromCivil(Date(2099, 12, 31)) == 47481
  {
  }

  lemma InRange(d: Date)
    requires ValidDate(d)
    ensures 2000 <= d.year <= 2099 <==> 10957 <= DaysFromCivil(d) <= 47481
  {
    var first, last := Date(2000, 1, 1), Date(2099, 12, 31);
    Ends();
    if Before(d, first) {
      StrictlyIncreasing(d, first);
    } else if d != first {
      StrictlyIncreasing(first, d);
    }
    if Before(last, d) {
      StrictlyIncreasing(last, d);
    } else if d != last {
      StrictlyIncreasing(d, last);
    }
  }

  /** The clock can be set from 1 January 2000, 00:00:00, to 31 December 2099, 23:59:59, and from no
      second outside. */
  lemma EpochRange(t: int)
    ensures EpochToRtc(t).Some? <==> 946684800 <= t <= 4102444799
  {
    InRange(DateOf(t / 86400));
    ClockDigits(t % 86400);
    assert 946684800 == 10957 * 86400 && 4102444799 == 47481 * 86400 + 86399;
  }

  // ---- Registers -------------------------------------------------------------------------

  /** The registers of a leap day: seconds, minutes, hours, day, weekday, month, year. */
  lemma LeapDay()
    ensures var v := RtcDateTime(Date(2024, 2, 29), 21, 43, 58);
      DateTimeValid(v) && EncodeRegisters(v) == [0x58, 0x43, 0x21, 0x29, 4, 2, 0x24]
  {
    var v := RtcDateTime(Date(2024, 2, 29), 21, 43, 58);
    var f := Fields(v);
    assert f == [58, 43, 21, 29, 4, 2, 24];
    FieldsFit(v);
    assert ToBcdAll(f) == [ToBcd(58), ToBcd(43), ToBcd(21), ToBcd(29), ToBcd(4), ToBcd(2), ToBcd(24)];
  }

  /** What the chip keeps above the mask of a register makes no difference: the masks are 0x07 for the
      weekday, 0x1f for the month, 0x3f for the day and 0x7f for seconds. */
  lemma MaskedWeekday(low: byte, high: nat, register: byte)
    requires low < 8 && register as int == low as int + 8 * high
    ensures FromBcd(register, WIDTHS[4]) == Digits(low as int)
  {
    UnderMask(register, low, 8);
  }

  lemma MaskedMonth(low: byte, high: nat, register: byte)
    requires low < 32 && register as int == low as int + 32 * high
    ensures FromBcd(register, WIDTHS[5]) == Digits(low as int)
  {
    UnderMask(register, low, 32);
  }

  lemma MaskedDay(low: byte, high: nat, register: byte)
    requires low < 64 && register as int == low as int + 64 * high
    ensures FromBcd(register, WIDTHS[3]) == Digits(low as int)
  {
    UnderMask(register, low, 64);
  }

  lemma MaskedSeconds(low: byte, high: nat, register: byte)
    requires low < 128 && register as int == low as int + 128 * high
    ensures FromBcd(register, WIDTHS[0]) == Digits(low as int)
  {
    UnderMask(register, low, 128);
  }

  lemma UnderMask(register: byte, low: byte, width: nat)
    requires width > 0 && register as int % width == low as int
    ensures FromBcd(register, width) == Digits(low as int)
  {
  }

  /** The masks of minutes, hours and years. */
  lemma OtherMasks()
    ensures WIDTHS[1] == WIDTHS[0] && WIDTHS[2] == WIDTHS[3] && WIDTHS[6] == 256
  {
  }

  /** A register reads as its two hexadecimal digits, and a digit above nine as nothing. */
  lemma HexDigitsRead(tens: nat, units: nat)
    requires tens < 16 && units < 16
    ensures Digits(16 * tens + units) == if tens < 10 && units < 10 then Some(10 * tens + units) else None
  {
    TwoDigits(tens, units);
  }

  lemma TwoDigits(tens: nat, units: nat)
    requires units < 16
    ensures (16 * tens + units) / 16 == tens && (16 * tens + units) % 16 == units
  {
  }

  /** Each field is read from its own register. */
  lemma {:induction false} EachFromItsOwn(r: seq<byte>, widths: seq<int>, i: nat)
    requires |r| == |widths| && (forall k | 0 <= k < |widths| :: widths[k] > 0) && i < |r|
    requires FromBcdAll(r, widths).Some?
    ensures FromBcd(r[i], widths[i]) == Some(FromBcdAll(r, widths).value[i])
  {
    if i > 0 {
      EachFromItsOwn(r[1..], widths[1..], i - 1);
    }
  }

  /** A valid time and a weekday. */
  predicate Sensible(reading: Reading, stopped: bool) {
    DateTimeValid(reading.value) && reading.weekday <= 6 && reading.oscillatorStopped == stopped
  }

  lemma AssembledIsSensible(f: seq<int>, stopped: bool)
    requires |f| == 7 && Assemble(f, stopped).Some?
    ensures Sensible(Assemble(f, stopped).value, stopped) && Assemble(f, stopped).value.weekday == f[4]
  {
  }

  lemma StopBit(seconds: byte)
    ensures seconds as int / 128 % 2 == 1 <==> seconds >= 128
  {
  }

  /** Whatever the chip holds, what is read is sensible, and bit 7 of the seconds says that the oscillator
      has stopped. */
  lemma ReadingIsSensible(r: seq<byte>)
    requires |r| == 7 && DecodeRegisters(r).Some?
    ensures Sensible(DecodeRegisters(r).value, r[0] >= 128)
  {
    StopBit(r[0]);
    AssembledIsSensible(FromBcdAll(r, WIDTHS).value, r[0] >= 128);
  }

  // ---- Dates -----------------------------------------------------------------------------

  /** Of two clock values one is earlier. */
  lemma EarlierIsTotal(a: RtcDateTime, b: RtcDateTime)
    requires DateTimeValid(a) && DateTimeValid(b) && a != b
    ensures Earlier(a, b) || Earlier(b, a)
  {
    ClockDigitsUnique(a.hour, a.minute, a.second);
    ClockDigitsUnique(b.hour, b.minute, b.second);
  }

  lemma NoSuchMonth(year: int)
    ensures DaysInMonth(year, 0) == 0 && DaysInMonth(year, 13) == 0
  {
  }
}
