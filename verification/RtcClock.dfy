/** Clock values of the real-time clock chip: conversion to and from seconds since the epoch
    (time_manager.cpp) and the chip's binary-coded decimal registers (rtc_manager.cpp). */
module RtcClock {
  import opened Bytes
  import opened Calendar
  import opened Wrappers

  datatype RtcDateTime = RtcDateTime(date: Date, hour: int, minute: int, second: int)

  predicate DateTimeValid(v: RtcDateTime) {
    && 2000 <= v.date.year <= 2099
    && ValidDate(v.date)
    && 0 <= v.hour <= 23
    && 0 <= v.minute <= 59
    && 0 <= v.second <= 59
  }

  function SecondOfDay(v: RtcDateTime): int {
    v.hour * 3600 + v.minute * 60 + v.second
  }

  function RtcToEpoch(v: RtcDateTime): Option<int> {
    if DateTimeValid(v) then Some(DaysFromCivil(v.date) * 86400 + SecondOfDay(v)) else None
  }

  predicate Earlier(a: RtcDateTime, b: RtcDateTime) {
    Before(a.date, b.date) || (a.date == b.date && SecondOfDay(a) < SecondOfDay(b))
  }

  lemma SecondOfDayInRange(v: RtcDateTime)
    requires DateTimeValid(v)
    ensures 0 <= SecondOfDay(v) < 86400
  {
  }

  /** Later clock values are later epochs, whatever month, leap or century edge lies between. */
  lemma EpochIncreases(a: RtcDateTime, b: RtcDateTime)
    requires DateTimeValid(a) && DateTimeValid(b) && Earlier(a, b)
    ensures RtcToEpoch(a).value < RtcToEpoch(b).value
  {
    SecondOfDayInRange(a);
    SecondOfDayInRange(b);
    if Before(a.date, b.date) {
      StrictlyIncreasing(a.date, b.date);
      var da, db := DaysFromCivil(a.date), DaysFromCivil(b.date);
      assert da * 86400 + 86400 <= db * 86400;
    }
  }

  /** UTC broken-down time, which epoch_to_rtc takes from gmtime_r, and the range check on it. */
  ghost function EpochToRtc(t: int): Option<RtcDateTime> {
    var v := ClockAt(DateOf(t / 86400), t % 86400);
    if DateTimeValid(v) then Some(v) else None
  }

  function ClockAt(date: Date, s: int): RtcDateTime {
    RtcDateTime(date, s / 3600, s / 60 % 60, s % 60)
  }

  lemma ClockDigits(s: int)
    requires 0 <= s < 86400
    ensures s / 3600 * 3600 + s / 60 % 60 * 60 + s % 60 == s
    ensures 0 <= s / 3600 <= 23
  {
    assert s / 3600 == s / 60 / 60;
  }

  lemma ClockDigitsUnique(h: int, m: int, x: int)
    requires 0 <= m <= 59 && 0 <= x <= 59
    ensures var s := h * 3600 + m * 60 + x; s / 3600 == h && s / 60 % 60 == m && s % 60 == x
  {
    var s := h * 3600 + m * 60 + x;
    assert s == (h * 60 + m) * 60 + x;
    assert s / 60 == h * 60 + m;
  }

  lemma EncodedEpochDecodes(v: RtcDateTime)
    requires DateTimeValid(v)
    ensures EpochToRtc(RtcToEpoch(v).value) == Some(v)
  {
    SecondOfDayInRange(v);
    EpochParts(v, DaysFromCivil(v.date), SecondOfDay(v));
    DatesAreDayNumbers(v.date, DaysFromCivil(v.date));
    ClockDigitsUnique(v.hour, v.minute, v.second);
  }

  lemma EpochParts(v: RtcDateTime, day: int, second: int)
    requires DateTimeValid(v) && day == DaysFromCivil(v.date) && second == SecondOfDay(v) && 0 <= second < 86400
    ensures RtcToEpoch(v).value / 86400 == day && RtcToEpoch(v).value % 86400 == second
  {
    DayAndSecond(day, second);
  }

  lemma DecodedEpochEncodes(v: RtcDateTime, t: int)
    requires EpochToRtc(t) == Some(v)
    ensures RtcToEpoch(v) == Some(t)
  {
    EncodesParts(v, t / 86400, t % 86400);
  }

  lemma EncodesParts(v: RtcDateTime, day: int, s: int)
    requires v == ClockAt(DateOf(day), s) && DateTimeValid(v) && 0 <= s < 86400
    ensures RtcToEpoch(v) == Some(day * 86400 + s)
  {
    ClockDigits(s);
    DateOfIsDay(day);
  }

  lemma DateOfIsDay(day: int)
    ensures DaysFromCivil(DateOf(day)) == day
  {
  }

  /** The two conversions are inverse to each other: an epoch decodes to a clock value
      exactly when that value encodes to the epoch. */
  lemma EpochRoundTrip(v: RtcDateTime, t: int)
    ensures RtcToEpoch(v) == Some(t) <==> EpochToRtc(t) == Some(v)
  {
    if DateTimeValid(v) {
      EncodedEpochDecodes(v);
    }
    if EpochToRtc(t) == Some(v) {
      DecodedEpochEncodes(v, t);
    }
  }

  lemma DayAndSecond(day: int, second: int)
    requires 0 <= second < 86400
    ensures (day * 86400 + second) / 86400 == day && (day * 86400 + second) % 86400 == second
  {
  }

  // ---- Registers ------------------------------------------------------------------

  function ToBcd(value: int): byte
    requires 0 <= value <= 99
  {
    value / 10 * 16 + value % 10
  }

  /** The value of two decimal digits, if they are two. */
  function Digits(masked: int): Option<int> {
    if masked / 16 > 9 || masked % 16 > 9 then None else Some(masked / 16 * 10 + masked % 16)
  }

  /** width is 128, 64, 32, 8 or 256: the mask 0x7f, 0x3f, 0x1f, 0x07 or 0xff plus one. */
  function FromBcd(register: byte, width: int): Option<int>
    requires width > 0
  {
    Digits(register as int % width)
  }

  /** The masks, in register order: seconds, minutes, hours, day, weekday, month, year. */
  const WIDTHS: seq<int> := [128, 128, 64, 64, 8, 32, 256]

  function ToBcdAll(values: seq<int>): (r: seq<byte>)
    requires forall i | 0 <= i < |values| :: 0 <= values[i] <= 99
    ensures |r| == |values|
  {
    seq(|values|, i requires 0 <= i < |values| => ToBcd(values[i]))
  }

  function FromBcdAll(r: seq<byte>, widths: seq<int>): (values: Option<seq<int>>)
    requires |r| == |widths| && forall i | 0 <= i < |widths| :: widths[i] > 0
    ensures values.Some? ==> |values.value| == |r|
  {
    if |r| == 0 then Some([])
    else
      var first, rest := FromBcd(r[0], widths[0]), FromBcdAll(r[1..], widths[1..]);
      if first.None? || rest.None? then None else Some([first.value] + rest.value)
  }

  /** The tens digit must fit under the mask. */
  predicate Fits(value: int, width: int) {
    && 0 <= value <= 99
    && width in [8, 32, 64, 128, 256]
    && value < if width == 8 then 8 else 10 * (width / 16)
  }

  lemma BcdRoundTrip(value: int, width: int)
    requires Fits(value, width)
    ensures FromBcd(ToBcd(value), width) == Some(value)
  {
    var b := ToBcd(value) as int;
    assert b % width == b;
    assert b / 16 == value / 10 && b % 16 == value % 10;
  }

  lemma {:induction false} BcdAllRoundTrip(values: seq<int>, widths: seq<int>)
    requires |values| == |widths| && forall i | 0 <= i < |widths| :: widths[i] > 0
    requires forall i | 0 <= i < |values| :: 0 <= values[i] <= 99
    requires forall i | 0 <= i < |values| :: Fits(values[i], widths[i])
    ensures FromBcdAll(ToBcdAll(values), widths) == Some(values)
  {
    if |values| > 0 {
      BcdRoundTrip(values[0], widths[0]);
      assert ToBcdAll(values)[1..] == ToBcdAll(values[1..]);
      BcdAllRoundTrip(values[1..], widths[1..]);
      assert values == [values[0]] + values[1..];
    }
  }

  datatype Reading = Reading(value: RtcDateTime, weekday: int, oscillatorStopped: bool)

  function Fields(v: RtcDateTime): (f: seq<int>)
    requires DateTimeValid(v)
    ensures |f| == 7
  {
    [v.second, v.minute, v.hour, v.date.day, RtcWeekday(v.date), v.date.month, v.date.year - 2000]
  }

  lemma DateFieldsAreSmall(d: Date)
    requires 0 <= d.year < 0x1_0000 && ValidDate(d)
    ensures 1 <= d.day <= 31 && 0 <= RtcWeekday(d) <= 6
  {
  }

  lemma FieldsFit(v: RtcDateTime)
    requires DateTimeValid(v)
    ensures forall i | 0 <= i < 7 :: Fits(Fields(v)[i], WIDTHS[i])
  {
    DateFieldsAreSmall(v.date);
    var f := Fields(v);
    assert Fits(f[0], 128) && Fits(f[1], 128) && Fits(f[2], 64) && Fits(f[3], 64);
    assert Fits(f[4], 8) && Fits(f[5], 32) && Fits(f[6], 256);
  }

  /** The seven time registers as set_datetime writes them. */
  function EncodeRegisters(v: RtcDateTime): (r: seq<byte>)
    requires DateTimeValid(v)
    ensures |r| == 7
  {
    FieldsFit(v);
    ToBcdAll(Fields(v))
  }

  function Assemble(f: seq<int>, stopped: bool): Option<Reading>
    requires |f| == 7
  {
    var v := RtcDateTime(Date(2000 + f[6], f[5], f[3]), f[2], f[1], f[0]);
    if !DateTimeValid(v) || f[4] > 6 then None else Some(Reading(v, f[4], stopped))
  }

  /** read_datetime: masks, decimal digits, then the validity of the date and the weekday. */
  function DecodeRegisters(r: seq<byte>): Option<Reading>
    requires |r| == 7
  {
    var fields := FromBcdAll(r, WIDTHS);
    if fields.None? then None else Assemble(fields.value, r[0] as int / 128 % 2 == 1)
  }

  lemma AssembleFields(v: RtcDateTime)
    requires DateTimeValid(v)
    ensures Assemble(Fields(v), false) == Some(Reading(v, RtcWeekday(v.date), false))
  {
    DateFieldsAreSmall(v.date);
    assert v == RtcDateTime(Date(2000 + (v.date.year - 2000), v.date.month, v.date.day), v.hour, v.minute, v.second);
  }

  lemma SecondsRegister(v: RtcDateTime)
    requires DateTimeValid(v)
    ensures EncodeRegisters(v)[0] == ToBcd(v.second)
  {
  }

  lemma StopBitClear(second: int)
    requires 0 <= second <= 59
    ensures ToBcd(second) as int / 128 % 2 == 0
  {
    assert ToBcd(second) as int < 128;
  }

  /** What the firmware writes to the chip it reads back, with a running oscillator. */
  lemma RegistersRoundTrip(v: RtcDateTime)
    requires DateTimeValid(v)
    ensures DecodeRegisters(EncodeRegisters(v)) == Some(Reading(v, RtcWeekday(v.date), false))
  {
    FieldsFit(v);
    BcdAllRoundTrip(Fields(v), WIDTHS);
    SecondsRegister(v);
    StopBitClear(v.second);
    AssembleFields(v);
  }

  /** The weekday register holds the weekday of the day count. */
  lemma WeekdayRegister(v: RtcDateTime)
    requires DateTimeValid(v)
    ensures DecodeRegisters(EncodeRegisters(v)).Some?
    ensures DecodeRegisters(EncodeRegisters(v)).value.weekday == (DaysFromCivil(v.date) + 4) % 7
  {
    RegistersRoundTrip(v);
    WeekdayAgrees(v.date);
  }
}
