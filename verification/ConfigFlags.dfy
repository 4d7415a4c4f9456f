/** The parameter store of config_flags.cpp: NVS writes that may fail or be cut short by a crash,
    and the countdowns of parameters with a lifetime. Calls do not overlap. */
module ConfigFlags {
  import opened ConfigLife
  import opened ConfigNvs
  import opened ConfigView
  import opened DeadlineTable
  import opened Names

  class Flags {
    var config: map<string, Value>
    var ttl: map<string, Lifetime>
    var clock: int                   // esp_timer_get_time
    const table: Table
    const flawless: bool             // no NVS call ever fails and nothing crashes
    var reliable: bool               // none does in the present call
    ghost const start: Nvs           // what NVS held at first
    ghost var events: seq<Event>     // how far each call since has come in NVS
    ghost var history: seq<Call>     // the calls since

    constructor (nvs: Nvs, flawless: bool)
      requires TtlOk(nvs.ttl)
      ensures Valid() && Stored() == start == nvs && table.deadlines == map[] && this.flawless == flawless
      ensures events == [] && history == []
      ensures fresh(table) && fresh(table.slots)
    {
      this.flawless, reliable, config, ttl, clock := flawless, flawless, nvs.config, nvs.ttl, 0;
      start, events, history := nvs, [], [];
      table := new Table();
    }

    /** What holds between any two steps. */
    ghost predicate Sound()
      reads this, table, table.slots
    {
      table.Valid() && TtlOk(ttl) && (flawless ==> reliable && table.deadlines.Keys <= ttl.Keys)
    }

    /** NVS holds what the events so far have left: even after a crash. */
    ghost predicate Logged()
      reads this
    {
      Stored() == AfterAll(start, events)
    }

    /** The state is what the history says of each name. */
    ghost predicate Lived()
      reads this, table
    {
      AllLive(Seen(), start, history)
    }

    /** Every name with a lifetime has its countdown, and no other name has one. */
    ghost predicate Tracked()
      reads this, table
    {
      table.deadlines.Keys == ttl.Keys
    }

    lemma TrackedFits()
      requires Sound() && Tracked()
      ensures |ttl| == |Known(Seen())| <= SLOTS
    {
      assert |table.deadlines.Keys| == |table.deadlines| && Known(Seen()) == ttl.Keys;
    }

    ghost predicate KeptInStep()
      reads this, table
    {
      flawless && InStep(start, history) ==> Tracked()
    }

    ghost predicate AllCovered()
      reads this
    {
      Covered(config, ttl, history)
    }

    ghost predicate Valid()
      reads this, table, table.slots
    {
      Sound() && Logged() && Lived() && KeptInStep() && AllCovered()
    }

    ghost function Stored(): Nvs
      reads this
    {
      Nvs(config, ttl)
    }

    ghost function Seen(): Snapshot
      reads this, table
    {
      Snapshot(config, ttl, table.deadlines)
    }

    // ---- Time and NVS ----------------------------------------------------------------

    /** At the start of a call: whether anything may fail in it. */
    method Weather()
      requires Valid()
      modifies this`reliable
      ensures Valid()
    {
      var fair :| flawless ==> fair;
      reliable := fair;
    }

    method Now() returns (t: int)
      modifies this`clock
      ensures t == clock >= old(clock)
    {
      t :| t >= clock;
      clock := t;
    }

    /** Whether an NVS write takes effect, and how it ends; a write that is seen to end well has
        taken effect. */
    method Fate() returns (taken: bool, r: Outcome)
      ensures r.Done? || r.Failed? || r.Crashed?
      ensures r.Done? ==> taken
      ensures reliable ==> r.Done?
    {
      taken, r := true, Done;
      if !reliable {
        taken := *;
        var n: nat := *;
        r := if n == 0 then Crashed else if n == 1 || !taken then Failed else Done;
      }
    }

    method WriteTtl(name: string, lifetime: Lifetime) returns (r: Outcome)
      modifies this`ttl
      ensures r.Done? || r.Failed? || r.Crashed?
      ensures ttl == old(ttl) || ttl == old(ttl)[name := lifetime]
      ensures r.Done? ==> ttl == old(ttl)[name := lifetime]
      ensures reliable ==> r.Done?
    {
      var taken;
      taken, r := Fate();
      if taken {
        ttl := ttl[name := lifetime];
      }
    }

    /** ttl_erase: an entry that is not there counts as erased. */
    method EraseTtl(name: string) returns (r: Outcome)
      modifies this`ttl
      ensures r.Done? || r.Failed? || r.Crashed?
      ensures ttl == old(ttl) || ttl == old(ttl) - {name}
      ensures r.Done? ==> ttl == old(ttl) - {name}
      ensures reliable ==> r.Done?
    {
      var taken;
      taken, r := Fate();
      if taken {
        ttl := ttl - {name};
      }
    }

    method WriteValue(name: string, value: Value) returns (r: Outcome)
      modifies this`config
      ensures r.Done? || r.Failed? || r.Crashed?
      ensures config == old(config) || config == old(config)[name := value]
      ensures r.Done? ==> config == old(config)[name := value]
      ensures reliable ==> r.Done?
    {
      var taken;
      taken, r := Fate();
      if taken {
        config := config[name := value];
      }
    }

    method EraseValue(name: string) returns (r: Outcome)
      modifies this`config
      ensures r.Done? || r.Failed? || r.Crashed?
      ensures config == old(config) || config == old(config) - {name}
      ensures r.Done? ==> config == old(config) - {name}
      ensures reliable ==> r.Done?
    {
      var taken;
      taken, r := Fate();
      if taken {
        config := config - {name};
      }
    }

    // ---- Setting and unsetting ---------------------------------------------------------

    /** record_lifetime with a lifetime: the countdown, then the lifetime entry. */
    method Lease(name: string, lifetime: Lifetime) returns (r: Outcome)
      requires Sound() && lifetime > 0 && ValidName(name)
      modifies this`ttl, this`clock, table, table.slots
      ensures Sound() && clock >= old(clock) && !r.InvalidArgument?
      ensures ttl == old(ttl) || ttl == old(ttl)[name := lifetime]
      ensures r.Done? ==> ttl == old(ttl)[name := lifetime]
      ensures r.Done? ==>
        table.deadlines == old(table.deadlines)[name := Deadline(lifetime, clock + lifetime * SECOND)]
      ensures r.NoMemory? ==> ttl == old(ttl) && table.deadlines == old(table.deadlines)
      ensures SameElsewhere(old(table.deadlines), table.deadlines, name)
      ensures reliable ==> r.Done? || r.NoMemory?
      ensures reliable ==> (r.Done? <==> name in old(table.deadlines) || |old(table.deadlines)| < SLOTS)
    {
      var now := Now();
      var stored := table.Refresh(name, lifetime, now);
      if !stored {
        return NoMemory;
      }
      r := WriteTtl(name, lifetime);
      if r.Failed? {
        table.Drop(name);
      }
    }

    /** record_lifetime without one: the lifetime entry goes, then the countdown. */
    method EndLease(name: string) returns (r: Outcome)
      requires Sound()
      modifies this`ttl, table, table.slots
      ensures Sound() && !r.InvalidArgument? && !r.NoMemory?
      ensures ttl == old(ttl) || ttl == old(ttl) - {name}
      ensures r.Done? ==> ttl == old(ttl) - {name} && table.deadlines == old(table.deadlines) - {name}
      ensures SameElsewhere(old(table.deadlines), table.deadlines, name)
      ensures reliable ==> r.Done?
    {
      r := EraseTtl(name);
      if r.Done? {
        table.Drop(name);
      }
    }

    /** The body of config_flags_set and config_flags_set_number behind their checks: wherever
        it ends, NVS holds one of the three states of a set. */
    method Write(name: string, value: Value, lifetime: Lifetime) returns (r: Outcome, ghost done: Progress)
      requires Sound() && ValidName(name)
      modifies this`config, this`ttl, this`clock, table, table.slots
      ensures Sound() && clock >= old(clock) && !r.InvalidArgument?
      ensures Stored() == SetSteps(old(Stored()), name, value, lifetime)[done] && (r.Done? ==> done == 2)
      ensures r.Done? && lifetime == 0 ==> table.deadlines == old(table.deadlines) - {name}
      ensures r.Done? && lifetime > 0 ==>
        table.deadlines == old(table.deadlines)[name := Deadline(lifetime, clock + lifetime * SECOND)]
      ensures r.NoMemory? ==> Seen() == old(Seen())
      ensures SameElsewhere(old(table.deadlines), table.deadlines, name)
      ensures reliable ==> r.Done? || r.NoMemory?
      ensures reliable ==>
        (r.Done? <==> lifetime == 0 || name in old(table.deadlines) || |old(table.deadlines)| < SLOTS)
    {
      ghost var steps := SetSteps(Stored(), name, value, lifetime);
      assert steps[0] == Stored();
      if lifetime > 0 {
        r := Lease(name, lifetime);
      } else {
        r := EndLease(name);
      }
      done := if Stored() == steps[1] then 1 else 0;
      if r.Done? {
        r := WriteValue(name, value);
        done := if Stored() == steps[2] then 2 else 1;
      }
    }

    /** The body of config_flags_unset: the value goes before its lifetime. */
    method Erase(name: string) returns (r: Outcome, ghost done: Progress)
      requires Sound()
      modifies this`config, this`ttl, table, table.slots
      ensures Sound() && !r.InvalidArgument?
      ensures Stored() == UnsetSteps(old(Stored()), name)[done] && (r.Done? ==> done == 2)
      ensures r.Done? ==> table.deadlines == old(table.deadlines) - {name}
      ensures name in config ==> Seen() == old(Seen())
      ensures SameElsewhere(old(table.deadlines), table.deadlines, name)
      ensures reliable ==> r.Done?
    {
      ghost var steps := UnsetSteps(Stored(), name);
      assert steps[0] == Stored();
      r := EraseValue(name);
      done := if Stored() == steps[1] then 1 else 0;
      if r.Done? {
        r := EraseTtl(name);
        done := if Stored() == steps[2] then 2 else 1;
        if !r.Crashed? {
          table.Drop(name);
        }
      }
    }

    ghost method Log(e: Event)
      requires Stored() == Next(AfterAll(start, events), e)
      modifies this`events
      ensures Logged() && events == old(events) + [e]
    {
      AfterOneMore(start, events, e);
      events := events + [e];
    }

    /** Write, logged with how far it came in NVS. */
    method WriteLogged(name: string, value: Value, lifetime: Lifetime) returns (r: Outcome, ghost done: Progress)
      requires Sound() && Logged() && ValidName(name)
      modifies this`config, this`ttl, this`clock, this`events, table, table.slots
      ensures Sound() && Logged() && clock >= old(clock) && !r.InvalidArgument?
      ensures Stored() == SetSteps(old(Stored()), name, value, lifetime)[done] && (r.Done? ==> done == 2)
      ensures SetDid(old(Seen()), Seen(), SetCall(name, value, lifetime, r, clock))
      ensures reliable ==> r.Done? || r.NoMemory?
      ensures reliable ==>
        (r.Done? <==> lifetime == 0 || name in old(table.deadlines) || |old(table.deadlines)| < SLOTS)
    {
      ghost var before := Seen();
      r, done := Write(name, value, lifetime);
      Log(Event.Set(name, value, lifetime, done));
      SetDidSo(before, Seen(), SetCall(name, value, lifetime, r, clock), done);
    }

    /** A set with its checks. */
    method Change(name: string, value: Value, parses: bool, lifetime: Lifetime) returns (r: Outcome, ghost done: Progress)
      requires Sound() && Logged()
      modifies this`config, this`ttl, this`clock, this`events, table, table.slots
      ensures Sound() && Logged() && clock >= old(clock)
      ensures r.InvalidArgument? <==> !ValidName(name) || (value.Number? && !parses)
      ensures Stored() == SetSteps(old(Stored()), name, value, lifetime)[done] && (r.Done? ==> done == 2)
      ensures SetDid(old(Seen()), Seen(), SetCall(name, value, lifetime, r, clock))
      ensures reliable ==> r.Done? || r.NoMemory? || r.InvalidArgument?
      ensures reliable && !r.InvalidArgument? ==>
        (r.Done? <==> lifetime == 0 || name in old(table.deadlines) || |old(table.deadlines)| < SLOTS)
    {
      if !ValidName(name) || (value.Number? && !parses) {
        return InvalidArgument, 0;
      }
      r, done := WriteLogged(name, value, lifetime);
    }

    /** config_flags_set and config_flags_set_number, whose text parses when it is a number. */
    method Set(name: string, value: Value, parses: bool, lifetime: Lifetime) returns (r: Outcome)
      requires Valid()
      modifies this, table, table.slots
      ensures Valid() && clock >= old(clock)
      ensures history == old(history) + [SetCall(name, value, lifetime, r, clock)]
      ensures r.InvalidArgument? <==> !ValidName(name) || (value.Number? && !parses)
      ensures Stored() in SetSteps(old(Stored()), name, value, lifetime)
      ensures SetDid(old(Seen()), Seen(), SetCall(name, value, lifetime, r, clock))
      ensures reliable && !r.InvalidArgument? ==>
        (r.Done? <==> lifetime == 0 || name in old(table.deadlines) || |old(table.deadlines)| < SLOTS)
      ensures reliable && old(Tracked()) ==> Tracked()
      ensures reliable ==> |ttl| <= |old(ttl)| + 1
      ensures flawless && !r.InvalidArgument? ==>
        (|ttl| > |old(ttl)| <==> lifetime > 0 && name !in old(ttl) && |old(table.deadlines)| < SLOTS)
    {
      Weather();
      ghost var before, done := Seen(), 0;
      r, done := Change(name, value, parses, lifetime);
      ghost var c := SetCall(name, value, lifetime, r, clock);
      InStepNext(start, history, c);
      AllLiveAfterSet(before, Seen(), start, history, c);
      CoveredAfterSet(Nvs(before.config, before.ttl), Stored(), history, c, done);
      if reliable {
        SetEntries(before, Seen(), c);
      }
      history := history + [c];
    }

    /** An unset with its check, logged. */
    method Remove(name: string) returns (r: Outcome)
      requires Sound() && Logged()
      modifies this`config, this`ttl, this`events, table, table.slots
      ensures Sound() && Logged() && OthersKept(name, old(Seen()), Seen())
      ensures r.InvalidArgument? <==> !ValidName(name)
      ensures r.InvalidArgument? || name in config ==> Seen() == old(Seen())
      ensures Stored() in UnsetSteps(old(Stored()), name)
      ensures r.Done? ==> Gone(name, Seen())
      ensures reliable && ValidName(name) ==> r.Done?
    {
      ghost var before, steps := Seen(), UnsetSteps(Stored(), name);
      assert steps[0] == Stored();
      if !ValidName(name) {
        return InvalidArgument;
      }
      ghost var done;
      r, done := Erase(name);
      Log(Event.Unset(name, done));
      UnsetKeepsOthers(name, before, Seen());
    }

    /** config_flags_unset. */
    method Unset(name: string) returns (r: Outcome)
      requires Valid()
      modifies this, table, table.slots
      ensures Valid() && clock == old(clock)
      ensures history == old(history) + [UnsetCall(name, r)]
      ensures r.InvalidArgument? <==> !ValidName(name)
      ensures Stored() in UnsetSteps(old(Stored()), name)
      ensures r.Done? ==> Gone(name, Seen())
      ensures OthersKept(name, old(Seen()), Seen())
      ensures reliable && ValidName(name) ==> r.Done?
      ensures reliable && old(Tracked()) ==> Tracked()
      ensures ttl.Keys <= old(ttl).Keys
    {
      Weather();
      ghost var before := Seen();
      r := Remove(name);
      UnsetKeepsEntries(name, Nvs(before.config, before.ttl), Stored());
      CoveredAfter(Nvs(before.config, before.ttl), Stored(), history, UnsetCall(name, r));
      InStepNext(start, history, UnsetCall(name, r));
      AllLiveAfterUnset(before, Seen(), start, history, UnsetCall(name, r));
      history := history + [UnsetCall(name, r)];
      if reliable && before.deadlines.Keys == before.ttl.Keys {
        StaysTracked(name, before, Seen());
      }
    }

    /** A restart, after a crash or not: NVS keeps what it has, the countdowns and the clock are
        gone. */
    method Restart()
      requires Valid()
      modifies this, table, table.slots
      ensures Valid() && clock == 0 && table.deadlines == map[] && Stored() == old(Stored())
      ensures history == old(history) + [RestartCall] && events == old(events)
    {
      ghost var before := Seen();
      clock := 0;
      table.Clear();
      InStepNext(start, history, RestartCall);
      CoveredAfter(Nvs(before.config, before.ttl), Stored(), history, RestartCall);
      AllLiveAfterRestart(before, Seen(), start, history);
      history := history + [RestartCall];
    }

    // ---- Expiry ------------------------------------------------------------------------

    method EraseOrphan(name: string) returns (r: Outcome)
      requires Logged() && name !in config
      modifies this`ttl, this`events
      ensures Logged() && (r.Done? || r.Failed? || r.Crashed?)
      ensures ttl == old(ttl) || ttl == old(ttl) - {name}
      ensures r.Done? ==> ttl == old(ttl) - {name}
      ensures reliable ==> r.Done?
    {
      ghost var steps := OrphanSteps(Stored(), name);
      r := EraseTtl(name);
      ghost var done := if Stored() == steps[1] then 1 else 0;
      Log(Orphan(name, done));
    }

    /** A lifetime entry without a value. */
    method ExpireOrphan(name: string) returns (r: Outcome)
      requires Sound() && Logged() && name !in config
      modifies this`ttl, this`events, table, table.slots
      ensures Sound() && Logged() && OthersKept(name, old(Seen()), Seen())
      ensures name in table.deadlines ==> name in old(table.deadlines)
      ensures reliable ==> r.Done? && Gone(name, Seen())
    {
      ghost var before := Seen();
      r := EraseOrphan(name);
      if !r.Crashed? {
        table.Drop(name);
      }
      OrphanKeepsOthers(name, before, Seen());
    }

    /** A lifetime entry with a value: the countdown is looked up, or started. */
    method ExpireDue(name: string, lifetime: Lifetime) returns (r: Outcome)
      requires Sound() && Logged() && name in ttl && ttl[name] == lifetime && name in config
      modifies this`config, this`ttl, this`clock, this`events, table, table.slots
      ensures Sound() && Logged() && clock >= old(clock)
      ensures OthersKept(name, old(Seen()), Seen()) && Safe(name, old(Seen()), Seen(), old(clock), clock)
      ensures reliable ==> !r.Crashed?
      ensures reliable && (name in old(table.deadlines) || |old(table.deadlines)| < SLOTS) ==>
        r.Done? && Expired(name, lifetime, old(Seen()), Seen(), old(clock), clock)
    {
      ghost var before, steps := Seen(), UnsetSteps(Stored(), name);
      assert steps[0] == Stored();
      var now := Now();
      var later := Now();
      var found, remaining := table.Query(name, lifetime, now, later);
      r := if found then Done else Failed;
      if found && remaining == 0 {
        assert DueBy(name, before, now);
        r := Remove(name);
        UnsetIsSafe(name, before, Seen(), now);
      } else {
        UnsetKeepsOthers(name, before, Seen());
      }
    }

    /** One entry of the list that expire goes through; a failed read leaves it for later. */
    method ExpireOne(name: string, lifetime: Lifetime) returns (r: Outcome)
      requires Sound() && Logged() && name in ttl && ttl[name] == lifetime
      modifies this`config, this`ttl, this`clock, this`events, table, table.slots
      ensures Sound() && Logged() && clock >= old(clock)
      ensures OthersKept(name, old(Seen()), Seen()) && Safe(name, old(Seen()), Seen(), old(clock), clock)
      ensures reliable ==> !r.Crashed?
      ensures reliable && (NeedsNoSlot(name, old(Seen())) || |old(table.deadlines)| < SLOTS) ==>
        r.Done? && Expired(name, lifetime, old(Seen()), Seen(), old(clock), clock)
    {
      var readable :| reliable ==> readable;
      if !readable {
        r := Failed;
      } else if name !in config {
        r := ExpireOrphan(name);
      } else {
        r := ExpireDue(name, lifetime);
      }
    }

    /** The lifetime entries, in the order NVS gives them, as many as fit; one that cannot be
        read is passed over. */
    method ListTtl() returns (r: Outcome, entries: seq<Entry>)
      requires Sound()
      ensures r.Done? || r.Failed?
      ensures |entries| <= SLOTS && ListsOnce(entries, ttl)
      ensures reliable ==> r.Done? && |entries| == if |ttl| <= 32 then |ttl| else 32
      ensures reliable && |ttl| <= SLOTS ==> ListsAll(entries, ttl)
    {
      entries := [];
      var left := ttl.Keys;
      while left != {} && |entries| < SLOTS
        invariant left <= ttl.Keys && |entries| <= SLOTS && ListsOnce(entries, ttl)
        invariant forall n: string | Listed(n, entries) :: n !in left
        invariant reliable ==> |entries| + |left| == |ttl|
        invariant reliable ==> forall n | n in ttl && n !in left :: Listed(n, entries)
        decreases left
      {
        var ok :| reliable ==> ok;
        if !ok {
          return Failed, entries;
        }
        var n :| n in left;
        var readable :| reliable ==> readable;
        if readable {
          ListOne(entries, ttl, n);
          entries := entries + [Entry(n, ttl[n])];
        }
        left := left - {n};
      }
      r := Done;
    }

    /** The second loop of config_flags_expire, over the listed entries. */
    method ExpireListed(entries: seq<Entry>) returns (r: Outcome)
      requires Sound() && Logged() && ListsOnce(entries, ttl)
      modifies this`config, this`ttl, this`clock, this`events, table, table.slots
      ensures Sound() && Logged() && clock >= old(clock) && (reliable ==> r.Done?)
      ensures Unlisted(entries, old(Seen()), Seen()) && AllSafe(old(Seen()), Seen(), old(clock), clock)
      ensures reliable ==>
        Handled(entries, |entries|, old(Seen()), Seen(), |Known(old(Seen()))| <= SLOTS, old(clock), clock)
    {
      r := Done;
      ghost var before, begin := Seen(), clock;
      for i := 0 to |entries|
        invariant Sound() && Logged() && clock >= begin && r.Done?
        invariant Known(Seen()) <= Known(before)
        invariant Untouched(entries, i, before, Seen()) && AllSafe(before, Seen(), begin, clock)
        invariant reliable ==> Handled(entries, i, before, Seen(), |Known(before)| <= SLOTS, begin, clock)
      {
        r := ExpireNext(entries, i, before, begin);
        if r.Crashed? {
          UntouchedIsUnlisted(entries, i + 1, before, Seen());
          return;
        }
        r := Done;
      }
      UntouchedIsUnlisted(entries, |entries|, before, Seen());
    }

    /** One turn of that loop. */
    method ExpireNext(entries: seq<Entry>, i: nat, ghost before: Snapshot, ghost begin: int) returns (r: Outcome)
      requires Sound() && Logged() && clock >= begin && i < |entries| && ListsOnce(entries, before.ttl)
      requires Known(Seen()) <= Known(before)
      requires Untouched(entries, i, before, Seen()) && AllSafe(before, Seen(), begin, clock)
      requires reliable ==> Handled(entries, i, before, Seen(), |Known(before)| <= SLOTS, begin, clock)
      modifies this`config, this`ttl, this`clock, this`events, table, table.slots
      ensures Sound() && Logged() && clock >= begin && (reliable ==> !r.Crashed?)
      ensures Known(Seen()) <= Known(before)
      ensures Untouched(entries, i + 1, before, Seen()) && AllSafe(before, Seen(), begin, clock)
      ensures reliable ==> Handled(entries, i + 1, before, Seen(), |Known(before)| <= SLOTS, begin, clock)
    {
      var name, lifetime := entries[i].name, entries[i].lifetime;
      ghost var mid, midClock := Seen(), clock;
      assert Kept(name, before, mid) by {
        assert !ListedBefore(name, entries, i);
      }
      if reliable && |Known(before)| <= SLOTS {
        RoomFor(name, Seen(), Known(before));
      }
      r := ExpireOne(name, lifetime);
      StillUntouched(entries, i, before, mid, Seen());
      StillSafe(name, before, mid, Seen(), begin, midClock, clock);
      NamesShrink(name, Known(before), mid, Seen());
      if reliable {
        StillHandled(entries, i, before, mid, Seen(), |Known(before)| <= SLOTS, begin, midClock, clock);
      }
    }

    /** That loop, with what the whole call has done. */
    method ExpireEach(entries: seq<Entry>) returns (r: Outcome, ghost c: Call)
      requires Sound() && Logged() && ListsOnce(entries, ttl)
      requires reliable && |Known(Seen())| <= SLOTS ==> ListsAll(entries, ttl)
      modifies this`config, this`ttl, this`clock, this`events, table, table.slots
      ensures Sound() && Logged() && clock >= old(clock) && (reliable ==> r.Done?)
      ensures c == ExpireCall(old(clock), clock - old(clock), entries, |Known(old(Seen()))|, reliable)
      ensures ExpireDidAll(old(Seen()), Seen(), c)
    {
      ghost var before, begin := Seen(), clock;
      r := ExpireListed(entries);
      c := ExpireCall(begin, clock - begin, entries, |Known(before)|, reliable);
      AllDid(before, Seen(), c, entries, begin, clock, reliable);
    }

    /** Both loops. */
    method ExpireAll() returns (r: Outcome, ghost c: Call)
      requires Sound() && Logged()
      modifies this`config, this`ttl, this`clock, this`events, table, table.slots
      ensures Sound() && Logged() && clock >= old(clock) && (reliable ==> r.Done?)
      ensures c.ExpireCall? && c.begin == old(clock) && c.End() == clock
      ensures c.names == |Known(old(Seen()))| && c.sound == reliable
      ensures ListsOnce(c.listed, old(ttl)) && |c.listed| <= SLOTS
      ensures reliable ==> |c.listed| == if |old(ttl)| <= SLOTS then |old(ttl)| else SLOTS
      ensures ExpireDidAll(old(Seen()), Seen(), c)
    {
      var entries;
      r, entries := ListTtl();
      FewerEntries(Seen());
      if r.Done? {
        r, c := ExpireEach(entries);
      } else {
        c := ExpireCall(clock, 0, [], |Known(Seen())|, reliable);
        NothingDid(Seen(), c);
      }
    }

    /** config_flags_expire. Whatever fails, a value goes only when its countdown has ended, one
        that stays keeps its lifetime entry, and a name that was not listed is not touched. When
        nothing fails, the listed names are as many as fit, and all of them if there are at
        most 32 entries. */
    method Expire() returns (r: Outcome, ghost c: Call)
      requires Valid()
      modifies this, table, table.slots
      ensures Valid() && clock >= old(clock) && history == old(history) + [c]
      ensures c.ExpireCall? && c.begin == old(clock) && c.End() == clock
      ensures c.names == |Known(old(Seen()))| && c.sound == reliable
      ensures ListsOnce(c.listed, old(ttl)) && |c.listed| <= SLOTS
      ensures reliable ==> r.Done? && |c.listed| == if |old(ttl)| <= SLOTS then |old(ttl)| else SLOTS
      ensures ExpireDidAll(old(Seen()), Seen(), c)
      ensures forall n | n in config :: n in old(config) && SameEntry(n, old(ttl), ttl)
      ensures forall n | n in old(config) && n !in config :: DueBy(n, old(Seen()), clock)
      ensures ttl.Keys <= old(ttl).Keys
      ensures flawless && Roomy(c) ==> Tracked()
      ensures reliable && Roomy(c) ==>
        forall n | n in old(ttl) :: Expired(n, old(ttl)[n], old(Seen()), Seen(), old(clock), clock)
    {
      Weather();
      ghost var before := Seen();
      if flawless && InStep(start, history) {
        TrackedFits();
      }
      r, c := ExpireAll();
      EntriesKept(before, Seen(), c);
      NoNewEntries(before, Seen(), c);
      if reliable && Roomy(c) {
        AllExpired(before, Seen(), c);
      }
      if flawless && Roomy(c) {
        TrackedAfter(before, Seen(), c);
      }
      CoveredAfter(Nvs(before.config, before.ttl), Stored(), history, c);
      LogExpire(before, c);
    }

    ghost method LogExpire(before: Snapshot, c: Call)
      requires c.ExpireCall? && ExpireDidAll(before, Seen(), c)
      requires AllLive(before, start, history)
      requires flawless && (Roomy(c) || InStep(start, history)) ==> Tracked()
      modifies this`history
      ensures history == old(history) + [c] && Lived() && KeptInStep()
    {
      InStepNext(start, history, c);
      AllLiveAfterExpire(before, Seen(), start, history, c);
      history := history + [c];
    }
  }

  /** What sets put there. */
  predicate TtlOk(ttl: map<string, Lifetime>) {
    forall n | n in ttl :: ttl[n] > 0 && ValidName(n)
  }
}
