/** Policy cycles over time: what the shed program remembers goes back to a cycle that asked
    for it, without a gap. */
module PolicyRuns {
  import opened Names
  import opened PolicyState
  import opened ShedPolicy
  import opened Wrappers

  type Digest = seq<int>

  /** Where a run of the Lua program breaks off: a Lua error or the deadline. */
  datatype Stop = Never | BeforeStores | BetweenStores | BeforeSwitch | AfterSwitch

  datatype Body =
    | Shed(inputs: Inputs, stop: Stop)
    | Other(writes: seq<(string, bool)>, ok: bool)   // any other program

  /** One minute: the active program could not be read or identified, or it ran. */
  datatype Cycle = Unreadable | Run(digest: Digest, body: Body)

  const CHARGE_NAME := "dcdc_charge"
  const SOLAR_NAME := "dcdc_solar"

  function Name(latch: Latch): string {
    match latch
    case Charge => CHARGE_NAME
    case Solar => SOLAR_NAME
  }

  // ---- The state after a cycle -------------------------------------------------------

  /** What the store holds, and for which program. */
  datatype Memory = Memory(program: Option<Digest>, values: map<string, bool>)

  const FORGOTTEN := Memory(None, map[])

  function Value(values: map<string, bool>, name: string): bool {
    name in values && values[name]
  }

  /** What policy_state_set leaves. */
  function Stored(values: map<string, bool>, name: string, value: bool): map<string, bool> {
    if ValidName(name) && (name in values || |values| < CAPACITY) then values[name := value] else values
  }

  function AllStored(values: map<string, bool>, writes: seq<(string, bool)>): map<string, bool>
    decreases |writes|
  {
    if |writes| == 0 then values else AllStored(Stored(values, writes[0].0, writes[0].1), writes[1..])
  }

  function AfterShed(values: map<string, bool>, x: Inputs): map<string, bool> {
    values[CHARGE_NAME := Demand(Charge, x, Value(values, CHARGE_NAME))]
          [SOLAR_NAME := Demand(Solar, x, Value(values, SOLAR_NAME))]
  }

  /** What a program finds when it starts. */
  function Found(m: Memory, digest: Digest): map<string, bool> {
    if m.program == Some(digest) then m.values else map[]
  }

  function After(m: Memory, c: Cycle): Memory {
    match c
    case Unreadable => FORGOTTEN
    case Run(digest, body) =>
      var values := Found(m, digest);
      match body
      case Shed(x, stop) =>
        if ConfigOk(x.config) && stop.Never? then Memory(Some(digest), AfterShed(values, x)) else FORGOTTEN
      case Other(writes, ok) =>
        if ok then Memory(Some(digest), AllStored(values, writes)) else FORGOTTEN
  }

  /** A run of the shed program that gets to the converter's relay. It may still fail behind it. */
  predicate Switches(c: Cycle) {
    c.Run? && c.body.Shed? && ConfigOk(c.body.inputs.config) && (c.body.stop.Never? || c.body.stop.AfterSwitch?)
  }

  function Wanted(values: map<string, bool>, x: Inputs): Command {
    CommandFor(x, Demand(Charge, x, Value(values, CHARGE_NAME)), Demand(Solar, x, Value(values, SOLAR_NAME)))
  }

  /** What a cycle does to the relay, from the memory before it. */
  function CommandIn(m: Memory, c: Cycle): Command {
    if Switches(c) then Wanted(Found(m, c.digest), c.body.inputs) else Untouched
  }

  // ---- run_policy_cycle --------------------------------------------------------------

  /** The shed program keeps two names. */
  ghost predicate TwoNames(store: Store, digest: Digest)
    reads store
  {
    store.digest == Some(digest) ==> store.contents.Keys <= {CHARGE_NAME, SOLAR_NAME}
  }

  ghost function Held(store: Store): Memory
    reads store
  {
    Memory(store.digest, store.contents)
  }

  /** A run of shed.lua, with what it does to the converter's relay; false when it stops early.
      Its two stores never fail. */
  method RunShed(store: Store, x: Inputs, stop: Stop) returns (ok: bool, command: Command)
    requires store.Valid() && store.contents.Keys <= {CHARGE_NAME, SOLAR_NAME}
    modifies store, store.entries
    ensures store.Valid() && store.digest == old(store.digest)
    ensures ok == (ConfigOk(x.config) && stop.Never?)
    ensures ok ==> store.contents == AfterShed(old(store.contents), x)
    ensures ok ==> store.contents.Keys == {"dcdc_charge", "dcdc_solar"}
    ensures command == if ConfigOk(x.config) && (stop.Never? || stop.AfterSwitch?) then Wanted(old(store.contents), x)
                       else Untouched
  {
    command := Untouched;
    if !ConfigOk(x.config) || stop.BeforeStores? {
      return false, command;
    }
    TwoNamesFit(store.contents);
    var chargeLatch := store.Get(CHARGE_NAME, false);
    var solarLatch := store.Get(SOLAR_NAME, false);
    var wantCharge, wantSolar, wanted := Transfer(x, chargeLatch, solarLatch);
    var stored := store.Set(CHARGE_NAME, wantCharge);
    if stop.BetweenStores? {
      return false, command;
    }
    TwoNamesFit(store.contents);
    stored := store.Set(SOLAR_NAME, wantSolar);
    if stop.BeforeSwitch? {
      return false, command;
    }
    command := wanted;
    ok := stop.Never?;
  }

  lemma TwoNamesFit(values: map<string, bool>)
    requires values.Keys <= {CHARGE_NAME, SOLAR_NAME}
    ensures |values| < CAPACITY && ValidName(CHARGE_NAME) && ValidName(SOLAR_NAME)
  {
    SmallSet(values.Keys);
  }

  lemma SmallSet(s: set<string>)
    requires s <= {CHARGE_NAME, SOLAR_NAME}
    ensures |s| <= 2
  {
    var all := {CHARGE_NAME, SOLAR_NAME};
    assert all == s + (all - s);
  }

  method RunOther(store: Store, writes: seq<(string, bool)>)
    requires store.Valid()
    modifies store, store.entries
    ensures store.Valid() && store.digest == old(store.digest)
    ensures store.contents == AllStored(old(store.contents), writes)
  {
    assert writes[0..] == writes;
    for i := 0 to |writes|
      invariant store.Valid() && store.digest == old(store.digest)
      invariant AllStored(store.contents, writes[i..]) == AllStored(old(store.contents), writes)
    {
      assert writes[i..][0] == writes[i] && writes[i..][1..] == writes[i + 1..];
      var stored := store.Set(writes[i].0, writes[i].1);
    }
  }

  /** Only the shed program runs under its digest. */
  predicate Identified(shed: Digest, c: Cycle) {
    c.Run? ==> (c.body.Shed? <==> c.digest == shed)
  }

  /** run_policy_cycle. */
  method RunPolicyCycle(store: Store, shed: Digest, c: Cycle) returns (command: Command)
    requires store.Valid() && TwoNames(store, shed) && Identified(shed, c)
    modifies store, store.entries
    ensures store.Valid() && TwoNames(store, shed)
    ensures Held(store) == After(old(Held(store)), c)
    ensures command == CommandIn(old(Held(store)), c)
  {
    command := Untouched;
    if c.Unreadable? {
      store.Clear();
      return;
    }
    store.BeginCycle(c.digest);
    var ok;
    if c.body.Shed? {
      ok, command := RunShed(store, c.body.inputs, c.body.stop);
    } else {
      RunOther(store, c.body.writes);
      ok := c.body.ok;
    }
    store.FinishCycle(ok);
  }

  // ---- Runs --------------------------------------------------------------------------

  /** The memory after some cycles, from a reboot. */
  function AfterAll(cycles: seq<Cycle>): Memory {
    if |cycles| == 0 then FORGOTTEN else After(AfterAll(cycles[..|cycles| - 1]), cycles[|cycles| - 1])
  }

  predicate Latched(m: Memory, shed: Digest, latch: Latch) {
    m.program == Some(shed) && Value(m.values, Name(latch))
  }

  /** A cycle that ran the shed program to its end. */
  predicate Completed(c: Cycle) {
    c.Run? && c.body.Shed? && ConfigOk(c.body.inputs.config) && c.body.stop.Never?
  }

  /** A cycle that begins a demand: all banks known, its own start condition met, no other
      source charging and the 48 V bank not low. */
  predicate Begins(latch: Latch, c: Cycle) {
    && Completed(c)
    && var x := c.body.inputs; Informed(x) && Starts(latch, x) && !External(x) && !Starved(x)
  }

  /** A cycle that carries a demand on: relay 2 is on, the 48 V bank is not known to be low,
      and if all banks are known the demand still holds and no other source charges. */
  predicate Carries(latch: Latch, c: Cycle) {
    && Completed(c)
    && var x := c.body.inputs;
      && x.dcdcOn && !Starved(x)
      && (Informed(x) ==> !External(x) && (Starts(latch, x) || Holds(latch, x)))
  }

  /** An unbroken chain from a cycle that began the demand. */
  ghost predicate Chain(latch: Latch, cycles: seq<Cycle>) {
    exists j | 0 <= j < |cycles| :: Begins(latch, cycles[j]) && CarriedFrom(latch, cycles, j + 1)
  }

  predicate CarriedFrom(latch: Latch, cycles: seq<Cycle>, from: nat) {
    forall k | from <= k < |cycles| :: Carries(latch, cycles[k])
  }

  lemma LatchedNext(latch: Latch, shed: Digest, m: Memory, c: Cycle)
    requires Identified(shed, c)
    ensures Latched(After(m, c), shed, latch) <==>
      Begins(latch, c) || (Latched(m, shed, latch) && Carries(latch, c))
  {
  }

  lemma ChainNext(latch: Latch, cycles: seq<Cycle>, c: Cycle)
    ensures Chain(latch, cycles + [c]) <==> Begins(latch, c) || (Chain(latch, cycles) && Carries(latch, c))
  {
    var all := cycles + [c];
    if Begins(latch, c) {
      assert Begins(latch, all[|cycles|]) && CarriedFrom(latch, all, |cycles| + 1);
    }
    if Chain(latch, cycles) && Carries(latch, c) {
      var j :| 0 <= j < |cycles| && Begins(latch, cycles[j]) && CarriedFrom(latch, cycles, j + 1);
      assert Begins(latch, all[j]) && CarriedFrom(latch, all, j + 1);
    }
    if Chain(latch, all) && !Begins(latch, c) {
      var j :| 0 <= j < |all| && Begins(latch, all[j]) && CarriedFrom(latch, all, j + 1);
      assert j < |cycles| && all[|cycles|] == c;
      assert forall k | 0 <= k < |cycles| :: all[k] == cycles[k];
      assert Begins(latch, cycles[j]) && CarriedFrom(latch, cycles, j + 1);
    }
  }

  /** Over any run since start-up, with other programs and failed cycles in between:
      a demand is remembered exactly when an unbroken chain leads back to its own beginning.
      The other demand is not part of the condition. */
  lemma {:induction false} LatchedMeansChain(latch: Latch, shed: Digest, cycles: seq<Cycle>)
    requires forall i | 0 <= i < |cycles| :: Identified(shed, cycles[i])
    ensures Latched(AfterAll(cycles), shed, latch) <==> Chain(latch, cycles)
  {
    if |cycles| > 0 {
      var before, c := cycles[..|cycles| - 1], cycles[|cycles| - 1];
      LatchedMeansChain(latch, shed, before);
      LatchedNext(latch, shed, AfterAll(before), c);
      ChainNext(latch, before, c);
      assert cycles == before + [c];
    }
  }

  /** The cycle as it would have been without its failure. */
  function Finished(c: Cycle): Cycle
    requires Switches(c)
  {
    Run(c.digest, Shed(c.body.inputs, Never))
  }

  /** The converter is switched on, by a cycle that may fail behind the switch, exactly when it
      is forced, or all banks are known, the 48 V bank is not low, and the cycle is the end of
      such a chain. */
  lemma SwitchedOnMeansChain(shed: Digest, cycles: seq<Cycle>, now: Cycle)
    requires forall i | 0 <= i < |cycles| :: Identified(shed, cycles[i])
    requires Identified(shed, now)
    ensures CommandIn(AfterAll(cycles), now).On? <==>
      && Switches(now)
      && var x, all := now.body.inputs, cycles + [Finished(now)];
        x.forced || (Informed(x) && !Starved(x) && (Chain(Charge, all) || Chain(Solar, all)))
  {
    if Switches(now) {
      AskedMeansChain(Charge, shed, cycles, now);
      AskedMeansChain(Solar, shed, cycles, now);
    }
  }

  lemma AskedMeansChain(latch: Latch, shed: Digest, cycles: seq<Cycle>, now: Cycle)
    requires forall i | 0 <= i < |cycles| :: Identified(shed, cycles[i])
    requires Identified(shed, now) && Switches(now)
    ensures var values := Found(AfterAll(cycles), now.digest);
      Demand(latch, now.body.inputs, Value(values, Name(latch))) <==> Chain(latch, cycles + [Finished(now)])
  {
    LatchedMeansChain(latch, shed, cycles);
    LatchedNext(latch, shed, AfterAll(cycles), Finished(now));
    ChainNext(latch, cycles, Finished(now));
  }
}
