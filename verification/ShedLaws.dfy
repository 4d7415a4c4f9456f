/** What the transfer policy promises in terms of voltages, charges and currents: which way each
    reading pulls, for all readings, and where the default settings draw the lines. */
module ShedLaws {
  import opened ShedPolicy
  import opened Wrappers

  // ---- Which way each reading pulls ------------------------------------------------------

  /** A cell that counts as low has not recovered: between the two voltages a hold lasts. */
  lemma LowIsRecovering(c: Config, b: Bank)
    requires ConfigOk(c) && CellLow(c, b)
    ensures CellRecovering(c, b)
  {
  }

  /** What begins a demand also keeps it, when the charge settings are in order. */
  lemma StartsHolds(latch: Latch, x: Inputs)
    requires ConfigOk(x.config) && Informed(x) && Starts(latch, x) && x.config.dcdcStart <= x.config.dcdcStop
    ensures Holds(latch, x)
  {
  }

  /** The same bank, perhaps with a higher lowest cell and a higher charge. */
  predicate Fuller(b: Bank, c: Bank) {
    && b.Ready? && c.Ready? && b.amps == c.amps && b.undervoltage == c.undervoltage && b.soc <= c.soc
    && (b.cell.Some? <==> c.cell.Some?)
    && (b.cell.Some? ==> b.cell.value.0 <= c.cell.value.0 && b.cell.value.1 == c.cell.value.1)
  }

  lemma FullerIsNotLower(c: Config, a: Bank, b: Bank)
    requires Fuller(a, b)
    ensures CellLow(c, b) ==> CellLow(c, a)
    ensures CellRecovering(c, b) ==> CellRecovering(c, a)
  {
  }

  /** The more the 48 V bank holds, the more it may give: what switches the converter on with
      less switches it on with more. */
  lemma FullerSourceGives(x: Inputs, y: Inputs, chargeLatch: bool, solarLatch: bool)
    requires y == x.(bank48 := y.bank48) && Fuller(x.bank48, y.bank48)
    ensures Starved(y) ==> Starved(x)
    ensures Demand(Charge, x, chargeLatch) ==> Demand(Charge, y, chargeLatch)
    ensures Demand(Solar, x, solarLatch) ==> Demand(Solar, y, solarLatch)
    ensures CommandFor(x, Demand(Charge, x, chargeLatch), Demand(Solar, x, solarLatch)).On? ==>
      CommandFor(y, Demand(Charge, y, chargeLatch), Demand(Solar, y, solarLatch)).On?
  {
    FullerIsNotLower(x.config, x.bank48, y.bank48);
  }

  /** The more the 24 V banks hold, the less they ask for. */
  lemma FullerBanksAskLess(x: Inputs, y: Inputs, latch: Latch, latched: bool)
    requires y == x.(bank24a := y.bank24a, bank24b := y.bank24b)
    requires Fuller(x.bank24a, y.bank24a) && Fuller(x.bank24b, y.bank24b)
    ensures Demand(latch, y, latched) ==> Demand(latch, x, latched)
  {
    FullerIsNotLower(x.config, x.bank24a, y.bank24a);
    FullerIsNotLower(x.config, x.bank24b, y.bank24b);
  }

  /** Only the average of the two charges counts, and it makes no difference which bank is which. */
  lemma BanksCountEqually(x: Inputs, latch: Latch, latched: bool)
    requires x.bank24a.Ready? && x.bank24b.Ready?
    ensures Demand(latch, x.(bank24a := x.bank24b, bank24b := x.bank24a), latched) == Demand(latch, x, latched)
  {
  }

  lemma OnlyTheAverageCounts(x: Inputs, shift: real, latch: Latch, latched: bool)
    requires x.bank24a.Ready? && x.bank24b.Ready?
    ensures var y := x.(bank24a := x.bank24a.(soc := x.bank24a.soc + shift),
                        bank24b := x.bank24b.(soc := x.bank24b.soc - shift));
      Demand(latch, y, latched) == Demand(latch, x, latched)
  {
  }

  /** More current into either 24 V bank never makes a demand, and above the limit there is none. */
  lemma ExternalChargeStops(x: Inputs, a: real, b: real, latch: Latch, latched: bool)
    requires Informed(x) && x.bank24a.amps <= a && x.bank24b.amps <= b
    ensures var y := x.(bank24a := x.bank24a.(amps := a), bank24b := x.bank24b.(amps := b));
      && (Demand(latch, y, latched) ==> Demand(latch, x, latched))
      && (a > x.config.externalAmps || b > x.config.externalAmps ==> !Demand(latch, y, latched))
  {
  }

  /** A reading that is too old is no reading. */
  lemma StaleIsIgnored(c: Config, b: Bank)
    requires b.Ready? && b.cell.Some? && b.cell.value.1 as real > c.cellMaxAge
    ensures CellLow(c, b) == CellLow(c, b.(cell := None)) && CellRecovering(c, b) == CellRecovering(c, b.(cell := None))
  {
  }

  // ---- Where the lines are ---------------------------------------------------------------

  const DEFAULTS: Config := Config(50.0, 70.0, 20.0, 10.0, 95.0, 90.0, 90.0, 3.10, 3.25, 900.0)

  function Bank(soc: real): Bank {
    Ready(1.0, soc, None, false)
  }

  function Cell(soc: real, volts: real, age: int): Bank {
    Ready(1.0, soc, Some((volts, age)), false)
  }

  function Alarmed(soc: real): Bank {
    Ready(1.0, soc, None, true)
  }

  function Fed(soc: real, amps: real): Bank {
    Ready(amps, soc, None, false)
  }

  /** With the default settings, nothing forced: the command and the demands that are left. */
  predicate Does(source: Bank, a: Bank, b: Bank, on: bool, charge: bool, solar: bool,
                 command: Command, chargeAfter: bool, solarAfter: bool)
  {
    DoesWith(DEFAULTS, source, a, b, on, charge, solar, command, chargeAfter, solarAfter)
  }

  predicate DoesWith(c: Config, source: Bank, a: Bank, b: Bank, on: bool, charge: bool, solar: bool,
                     command: Command, chargeAfter: bool, solarAfter: bool)
  {
    var x := Inputs(c, source, a, b, on, false);
    && Demand(Charge, x, charge) == chargeAfter && Demand(Solar, x, solar) == solarAfter
    && CommandFor(x, chargeAfter, solarAfter) == command
  }

  /** The settings of the program are among those it accepts. */
  lemma DefaultsAreOk()
    ensures ConfigOk(DEFAULTS)
  {
  }

  /** Which settings it does not accept. */
  lemma BadSettings(c: Config)
    ensures c.solarStop == c.solarStart ==> !ConfigOk(c)
    ensures c.solarStart == 101.0 || c.solarStop == -1.0 ==> !ConfigOk(c)
    ensures c.solar24Max == 0.0 || c.solar24Max == 101.0 ==> !ConfigOk(c)
    ensures c.externalAmps == -1.0 || c.cellLow == 0.0 || c.cellRecover == c.cellLow || c.cellMaxAge == -1.0 ==>
      !ConfigOk(c)
    ensures ConfigOk(DEFAULTS.(externalAmps := 0.0, solarStop := 0.0, solarStart := 100.0, solar24Max := 100.0,
                               cellMaxAge := 0.0))
    ensures ConfigOk(DEFAULTS.(cellLow := 0.001, cellRecover := 0.002, solar24Max := 0.001, solarStart := 0.001,
                               solarStop := 0.0))
  {
  }

  /** By charge: it begins below 50 on average and, once begun, ends at 70. */
  lemma ChargeLines()
    ensures Does(Bank(80.0), Bank(90.0), Bank(90.0), false, false, false, Untouched, false, false)
    ensures Does(Bank(80.0), Bank(44.0), Bank(46.0), false, false, false, On, true, false)
    ensures Does(Bank(80.0), Bank(30.0), Bank(65.0), false, false, false, On, true, false)
    ensures Does(Bank(80.0), Bank(50.0), Bank(50.0), false, false, false, Untouched, false, false)
    ensures Does(Bank(80.0), Bank(60.0), Bank(60.0), false, true, false, Untouched, false, false)
    ensures Does(Bank(80.0), Bank(60.0), Bank(60.0), true, true, false, On, true, false)
    ensures Does(Bank(80.0), Bank(60.0), Bank(60.0), true, false, false, Off, false, false)
    ensures Does(Bank(80.0), Bank(70.0), Bank(70.0), true, true, false, Off, false, false)
  {
  }

  /** By the 48 V bank: at 20 or below it gives nothing, whatever is known of the others. */
  lemma SourceLines()
    ensures Does(Bank(20.0), Bank(40.0), Bank(40.0), false, false, false, Untouched, false, false)
    ensures Does(Bank(20.1), Bank(40.0), Bank(40.0), false, false, false, On, true, false)
    ensures Does(Bank(20.0), Bank(60.0), Bank(60.0), true, true, true, Off, false, false)
    ensures Does(Bank(19.0), Bank(40.0), NotReady, true, true, false, Off, false, false)
    ensures Does(Bank(20.0), NotReady, NotReady, true, true, false, Off, false, false)
  {
  }

  lemma SourceCellLines()
    ensures Does(Alarmed(80.0), Bank(40.0), Bank(40.0), false, false, false, Untouched, false, false)
    ensures Does(Alarmed(80.0), NotReady, NotReady, true, true, false, Off, false, false)
    ensures Does(Cell(80.0, 3.10, 0), Bank(40.0), Bank(40.0), true, true, false, Off, false, false)
    ensures Does(Cell(80.0, 3.11, 0), Bank(40.0), Bank(40.0), true, true, false, On, true, false)
  {
  }

  /** By cell voltage: low at 3.10 V, recovered at 3.25 V, and no older than 900 s. */
  lemma CellLines()
    ensures Does(Cell(80.0, 3.30, 0), Cell(90.0, 3.09, 0), Cell(90.0, 3.30, 0), false, false, false, On, true, false)
    ensures Does(Bank(80.0), Cell(90.0, 3.10, 900), Bank(90.0), false, false, false, On, true, false)
    ensures Does(Bank(80.0), Bank(90.0), Cell(90.0, 3.10, 900), false, false, false, On, true, false)
    ensures Does(Bank(80.0), Cell(90.0, 3.10, 901), Bank(90.0), false, false, false, Untouched, false, false)
    ensures Does(Bank(80.0), Cell(90.0, 3.11, 0), Bank(90.0), false, false, false, Untouched, false, false)
  {
  }

  lemma CellHoldLines()
    ensures Does(Bank(80.0), Cell(90.0, 3.20, 0), Cell(90.0, 3.30, 0), true, true, false, On, true, false)
    ensures Does(Bank(80.0), Cell(90.0, 3.30, 0), Cell(90.0, 3.20, 0), true, true, false, On, true, false)
    ensures Does(Bank(80.0), Cell(90.0, 3.25, 0), Cell(90.0, 3.30, 0), true, true, false, Off, false, false)
    ensures Does(Bank(80.0), Cell(30.0, 3.30, 10), Cell(30.0, 3.30, 10), true, true, false, On, true, false)
  {
  }

  lemma AlarmLines()
    ensures Does(Bank(80.0), Alarmed(90.0), Bank(90.0), false, false, false, On, true, false)
    ensures Does(Bank(80.0), Bank(90.0), Alarmed(90.0), true, true, false, On, true, false)
    ensures Does(Bank(92.0), Alarmed(91.0), Bank(91.0), true, false, true, On, true, false)
  {
  }

  /** By current from elsewhere: up to 10 A into each bank is the converter's own. */
  lemma CurrentLines()
    ensures Does(Bank(80.0), Fed(60.0, 10.0), Fed(60.0, 10.0), true, true, false, On, true, false)
    ensures Does(Bank(80.0), Fed(60.0, 10.1), Fed(60.0, 8.0), true, true, false, Off, false, false)
    ensures Does(Bank(80.0), Fed(60.0, 8.0), Fed(60.0, 10.1), true, true, false, Off, false, false)
    ensures Does(Bank(80.0), Fed(40.0, 12.0), Fed(40.0, 8.0), false, false, false,
                 Untouched, false, false)
    ensures Does(Bank(96.0), Fed(80.0, 10.1), Bank(80.0), true, false, true, Off, false, false)
  {
  }

  /** Surplus: it begins above 95 with the 24 V banks below 90, and ends at 90 or above theirs. */
  lemma SurplusLines()
    ensures Does(Bank(95.1), Bank(89.9), Bank(89.9), false, false, false, On, false, true)
    ensures Does(Bank(95.0), Bank(80.0), Bank(80.0), false, false, false, Untouched, false, false)
    ensures Does(Bank(96.0), Bank(90.0), Bank(90.0), false, false, false, Untouched, false, false)
    ensures Does(Bank(96.0), Bank(95.0), Bank(75.0), false, false, false, On, false, true)
  {
  }

  lemma SurplusHoldLines()
    ensures Does(Bank(92.0), Bank(80.0), Bank(80.0), true, false, true, On, false, true)
    ensures Does(Bank(90.0), Bank(80.0), Bank(80.0), true, false, true, Off, false, false)
    ensures Does(Bank(96.0), Bank(90.0), Bank(90.0), true, false, true, On, false, true)
    ensures Does(Bank(96.0), Bank(90.1), Bank(90.1), true, false, true, Off, false, false)
  {
  }

  /** The two demands live apart: one may end while the other goes on, and neither latches the
      other. */
  lemma DemandsLiveApart()
    ensures Does(Bank(96.0), Bank(40.0), Bank(40.0), false, false, false, On, true, true)
    ensures Does(Bank(90.0), Bank(60.0), Bank(60.0), true, true, true, On, true, false)
    ensures Does(Bank(92.0), Bank(75.0), Bank(75.0), true, true, true, On, false, true)
    ensures Does(Bank(94.0), Bank(75.0), Bank(75.0), true, true, false, Off, false, false)
    ensures Does(Bank(92.0), Bank(80.0), Bank(80.0), true, false, false, Off, false, false)
    ensures Does(Bank(92.0), Bank(80.0), Bank(80.0), false, false, true, Untouched, false, false)
  {
  }

  /** What is not known: nothing begins, nothing is switched off, and what runs is remembered. */
  lemma UnknownLines()
    ensures Does(Bank(80.0), Bank(40.0), NotReady, true, true, false, Untouched, true, false)
    ensures Does(Bank(92.0), NotReady, Bank(80.0), true, false, true, Untouched, false, true)
    ensures Does(NotReady, Bank(40.0), Bank(40.0), true, false, false, Untouched, false, false)
    ensures Does(NotReady, Bank(40.0), Bank(40.0), false, true, true, Untouched, false, false)
  {
  }

  /** A force switches on whatever else is known, and leaves the demands to themselves. */
  lemma ForceSwitchesOn(x: Inputs, charge: bool, solar: bool, latch: Latch, latched: bool)
    requires x.forced
    ensures CommandFor(x, charge, solar) == On
    ensures Demand(latch, x, latched) == Demand(latch, x.(forced := false), latched)
  {
  }

  /** Each setting moves its own line. */
  lemma SettingsMoveLines()
    ensures DoesWith(DEFAULTS.(dcdcStart := 65.0), Bank(80.0), Bank(60.0), Bank(60.0), false, false, false, On, true, false)
    ensures DoesWith(DEFAULTS.(dcdcStop := 60.0), Bank(80.0), Bank(60.0), Bank(60.0), true, true, false, Off, false, false)
    ensures DoesWith(DEFAULTS.(sourceMin := 30.0), Bank(30.0), Bank(60.0), Bank(60.0), true, true, false, Off, false, false)
    ensures DoesWith(DEFAULTS.(externalAmps := 12.0), Bank(80.0), Fed(60.0, 11.0), Fed(60.0, 8.0),
                     true, true, false, On, true, false)
    ensures DoesWith(DEFAULTS.(solarStart := 98.0), Bank(96.0), Bank(80.0), Bank(80.0), false, false, false,
                     Untouched, false, false)
    ensures DoesWith(DEFAULTS.(solarStop := 93.0), Bank(93.0), Bank(80.0), Bank(80.0), true, false, true, Off, false, false)
    ensures DoesWith(DEFAULTS.(solar24Max := 85.0), Bank(99.0), Bank(86.0), Bank(86.0), true, false, true, Off, false, false)
  {
  }
}
