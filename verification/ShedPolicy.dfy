/** The transfer part of examples/shed.lua: when the 48 V bank may charge the 24 V banks. Real
    numbers stand for Lua's. */
module ShedPolicy {
  import opened Wrappers

  // ---- What a cycle sees -------------------------------------------------------------

  /** battery_bank_state: lowest cell voltage and its age when they are known. */
  datatype Bank = NotReady | Ready(amps: real, soc: real, cell: Option<(real, int)>, undervoltage: bool)

  datatype Config = Config(
    dcdcStart: real, dcdcStop: real, sourceMin: real, externalAmps: real,
    solarStart: real, solarStop: real, solar24Max: real,
    cellLow: real, cellRecover: real, cellMaxAge: real)

  datatype Inputs = Inputs(
    config: Config, bank48: Bank, bank24a: Bank, bank24b: Bank, dcdcOn: bool, forced: bool)

  /** The settings the policy does not reject. */
  predicate ConfigOk(c: Config) {
    && c.externalAmps >= 0.0
    && 0.0 <= c.solarStop < c.solarStart <= 100.0
    && 0.0 < c.solar24Max <= 100.0
    && 0.0 < c.cellLow < c.cellRecover && c.cellMaxAge >= 0.0
  }

  // ---- Conditions --------------------------------------------------------------------

  predicate Fresh(c: Config, b: Bank) {
    b.Ready? && b.cell.Some? && b.cell.value.1 as real <= c.cellMaxAge
  }

  predicate CellLow(c: Config, b: Bank) {
    b.Ready? && (b.undervoltage || (Fresh(c, b) && b.cell.value.0 <= c.cellLow))
  }

  predicate CellRecovering(c: Config, b: Bank) {
    b.Ready? && (b.undervoltage || (Fresh(c, b) && b.cell.value.0 < c.cellRecover))
  }

  /** All three banks are known. */
  predicate Informed(x: Inputs) {
    x.bank48.Ready? && x.bank24a.Ready? && x.bank24b.Ready?
  }

  function Soc24(x: Inputs): real
    requires Informed(x)
  {
    (x.bank24a.soc + x.bank24b.soc) / 2.0
  }

  /** Something else charges the 24 V banks. */
  predicate External(x: Inputs)
    requires Informed(x)
  {
    x.bank24a.amps > x.config.externalAmps || x.bank24b.amps > x.config.externalAmps
  }

  /** The 48 V bank has nothing to give. */
  predicate Starved(x: Inputs) {
    x.bank48.Ready? && (x.bank48.soc <= x.config.sourceMin || CellLow(x.config, x.bank48))
  }

  datatype Latch = Charge | Solar

  /** The condition that begins a demand. */
  predicate Starts(latch: Latch, x: Inputs)
    requires Informed(x)
  {
    match latch
    case Charge =>
      Soc24(x) < x.config.dcdcStart || CellLow(x.config, x.bank24a) || CellLow(x.config, x.bank24b)
    case Solar => x.bank48.soc > x.config.solarStart && Soc24(x) < x.config.solar24Max
  }

  /** The condition under which a demand that has begun goes on. */
  predicate Holds(latch: Latch, x: Inputs)
    requires Informed(x)
  {
    match latch
    case Charge =>
      || Soc24(x) < x.config.dcdcStop
      || CellRecovering(x.config, x.bank24a) || CellRecovering(x.config, x.bank24b)
    case Solar => x.bank48.soc > x.config.solarStop && Soc24(x) <= x.config.solar24Max
  }

  /** A demand after a cycle, from the demand remembered before it. */
  predicate Demand(latch: Latch, x: Inputs, latched: bool) {
    && !Starved(x)
    && if Informed(x) then !External(x) && (Starts(latch, x) || (x.dcdcOn && latched && Holds(latch, x)))
       else x.dcdcOn && latched
  }

  // ---- The program -------------------------------------------------------------------

  /** What the cycle does to the converter's relay. */
  datatype Command = On | Off | Untouched

  /** The relay goes on for a force or a known demand, and off when a known bank forbids the
      transfer or nothing asks for it; without enough knowledge it is left alone. */
  function CommandFor(x: Inputs, charge: bool, solar: bool): Command {
    if x.forced || (Informed(x) && !Starved(x) && (charge || solar)) then On
    else if x.dcdcOn && (Informed(x) || Starved(x)) then Off
    else Untouched
  }

  /** The decision about the DC/DC converter: from the remembered demands and what the cycle
      sees to the new demands and the command. */
  method Transfer(x: Inputs, chargeLatch: bool, solarLatch: bool)
    returns (wantCharge: bool, wantSolar: bool, command: Command)
    ensures wantCharge == Demand(Charge, x, chargeLatch)
    ensures wantSolar == Demand(Solar, x, solarLatch)
    ensures command == CommandFor(x, wantCharge, wantSolar)
  {
    var c := x.config;
    var chargeActive, solarActive := x.dcdcOn && chargeLatch, x.dcdcOn && solarLatch;
    wantCharge, wantSolar := chargeActive, solarActive;
    var want: Option<bool> := None;
    if x.bank24a.Ready? && x.bank24b.Ready? && x.bank48.Ready? {
      var soc24 := (x.bank24a.soc + x.bank24b.soc) / 2.0;
      var external := x.bank24a.amps > c.externalAmps || x.bank24b.amps > c.externalAmps;
      var low := CellLow(c, x.bank24a) || CellLow(c, x.bank24b);
      var recovering := CellRecovering(c, x.bank24a) || CellRecovering(c, x.bank24b);
      wantCharge := false;
      if soc24 < c.dcdcStart || low {
        wantCharge := true;
      } else if chargeActive && (soc24 < c.dcdcStop || recovering) {
        wantCharge := true;
      }
      wantSolar := (x.bank48.soc > c.solarStart && soc24 < c.solar24Max)
        || (solarActive && x.bank48.soc > c.solarStop && soc24 <= c.solar24Max);
      want := Some(wantCharge || wantSolar);
      if external {
        wantCharge, wantSolar, want := false, false, Some(false);
      }
    }
    if x.bank48.Ready? {
      if x.bank48.soc <= c.sourceMin || CellLow(c, x.bank48) {
        wantCharge, wantSolar, want := false, false, Some(false);
      }
    }
    if x.forced {
      want := Some(true);
    }
    command := if want == Some(true) then On
               else if want == Some(false) && x.dcdcOn then Off
               else Untouched;
  }
}
