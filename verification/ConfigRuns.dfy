/** What the parameter store promises over every run: theorems about its state and the calls it
    has had, in any order, with any failures and crashes. */
module ConfigRuns {
  import opened ConfigFlags
  import opened ConfigLife
  import opened ConfigNvs
  import opened ConfigView
  import opened DeadlineTable
  import opened Names

  /** A set with a lifetime that has succeeded. */
  predicate Leases(c: Call, name: string, value: Value, lifetime: Lifetime, at: int) {
    c == SetCall(name, value, lifetime, Done, at) && lifetime > 0
  }

  lemma LifeAfterSet(name: string, start: Nvs, history: seq<Call>, i: nat, value: Value, lifetime: Lifetime, at: int)
    requires i < |history| && Leases(history[i], name, value, lifetime, at)
    ensures var due := at + lifetime * SECOND;
      LifeOf(name, start, history[..i + 1]) == Counting(value, lifetime, due, due)
  {
    LifeNext(name, start, history, i);
  }

  lemma StateNow(f: Flags, name: string)
    requires f.Valid()
    ensures Lives(name, f.Seen(), LifeOf(name, f.start, f.history[..|f.history|]))
  {
    assert f.history[..|f.history|] == f.history;
    assert Lives(name, f.Seen(), LifeOf(name, f.start, f.history));
  }

  /** A value set with a lifetime is there, counting down to the same moment, as long as no
      other call about the name succeeds, nothing restarts, and every expire ends before that
      moment or, with more than 32 entries, does not list the name. */
  lemma StaysUntilDue(f: Flags, name: string, value: Value, lifetime: Lifetime, at: int, i: nat)
    requires f.Valid() && i < |f.history| && Leases(f.history[i], name, value, lifetime, at)
    requires forall k | i < k < |f.history| :: Spares(f.history[k], name, at + lifetime * SECOND)
    ensures var due := at + lifetime * SECOND; CountsDown(name, f.Seen(), value, lifetime, due, due)
  {
    LifeAfterSet(name, f.start, f.history, i, value, lifetime, at);
    StaysUntil(name, f.start, f.history, i + 1, |f.history|);
    StateNow(f, name);
  }

  /** The first expire that begins at that moment or later, reaches the name and does not fail
      removes the value, and it stays away. All other calls may fail or crash, expires too; if
      none was late, nothing of the name is left. */
  lemma RemovedWhenDue(f: Flags, name: string, value: Value, lifetime: Lifetime, at: int, i: nat, e: nat)
    requires f.Valid() && i < e < |f.history| && Leases(f.history[i], name, value, lifetime, at)
    requires forall k | i < k < |f.history| :: Ignores(f.history[k], name)
    requires Reaches(f.history[e], name) && f.history[e].begin >= at + lifetime * SECOND
    ensures name !in f.config
    ensures (forall k | i < k < e :: Spares(f.history[k], name, at + lifetime * SECOND)) ==> Gone(name, f.Seen())
  {
    LifeAfterSet(name, f.start, f.history, i, value, lifetime, at);
    RemovedBy(name, f.start, f.history, i + 1, e, |f.history|);
    StateNow(f, name);
    if forall k | i < k < e :: Spares(f.history[k], name, at + lifetime * SECOND) {
      StaysUntil(name, f.start, f.history, i + 1, e);
    }
  }

  /** If it is an expire, nothing failed in it and it was not under way at that moment. */
  predicate OnOneSide(c: Call, due: int) {
    c.ExpireCall? ==> c.sound && (c.End() < due || c.begin >= due)
  }

  ghost predicate ReachedSince(history: seq<Call>, i: nat, name: string, due: int) {
    exists e | i < e < |history| :: Reaches(history[e], name) && history[e].begin >= due
  }

  /** So, when no expire fails, a value set with a lifetime is gone exactly when one has reached
      it since it was due. */
  lemma GoneExactlyWhenReached(f: Flags, name: string, value: Value, lifetime: Lifetime, at: int, i: nat)
    requires f.Valid() && i < |f.history| && Leases(f.history[i], name, value, lifetime, at)
    requires forall k | i < k < |f.history| :: Ignores(f.history[k], name)
    requires forall k | i < k < |f.history| :: OnOneSide(f.history[k], at + lifetime * SECOND)
    ensures name !in f.config <==> ReachedSince(f.history, i, name, at + lifetime * SECOND)
  {
    var due := at + lifetime * SECOND;
    if ReachedSince(f.history, i, name, due) {
      var e :| i < e < |f.history| && Reaches(f.history[e], name) && f.history[e].begin >= due;
      RemovedWhenDue(f, name, value, lifetime, at, i, e);
    } else {
      forall k | i < k < |f.history| ensures Spares(f.history[k], name, due) {
        assert Ignores(f.history[k], name) && OnOneSide(f.history[k], due);
      }
      StaysUntilDue(f, name, value, lifetime, at, i);
    }
  }

  // ---- Restarts --------------------------------------------------------------------------

  /** The value is in NVS with its lifetime and without a countdown: it was there at first, or a
      set put it there and the call before this point is the first restart since. */
  ghost predicate Rooted(start: Nvs, history: seq<Call>, name: string, value: Value, lifetime: Lifetime, i: nat) {
    || (i == 0 && name in start.config && start.config[name] == value && name in start.ttl && start.ttl[name] == lifetime)
    || (i > 0 && SetBeforeRestart(history, name, value, lifetime, i - 1))
  }

  ghost predicate SetBeforeRestart(history: seq<Call>, name: string, value: Value, lifetime: Lifetime, r: nat) {
    exists s: nat :: SetThenRestart(history, name, value, lifetime, s, r)
  }

  ghost predicate SetThenRestart(history: seq<Call>, name: string, value: Value, lifetime: Lifetime, s: nat, r: nat) {
    && s < r < |history| && history[r].RestartCall?
    && history[s].SetCall? && Leases(history[s], name, value, lifetime, history[s].at)
    && forall k | s < k < r :: Spares(history[k], name, history[s].at + lifetime * SECOND)
  }

  lemma RootedWaits(start: Nvs, history: seq<Call>, name: string, value: Value, lifetime: Lifetime, i: nat)
    requires Rooted(start, history, name, value, lifetime, i) && i <= |history|
    ensures LifeOf(name, start, history[..i]) == Waiting(value, lifetime)
  {
    if i > 0 {
      var s: nat :| SetThenRestart(history, name, value, lifetime, s, i - 1);
      LifeAfterSet(name, start, history, s, value, lifetime, history[s].at);
      StaysUntil(name, start, history, s + 1, i - 1);
      LifeNext(name, start, history, i - 1);
    }
  }

  /** From there any number of restarts, the last before call b; after it a while from first to
      last in which expires may fail or have no room, up to expire e, which does not. */
  ghost predicate Restarted(start: Nvs, history: seq<Call>, name: string, value: Value, lifetime: Lifetime,
                            i: nat, b: nat, e: nat, first: int, last: int)
  {
    && i <= b <= e < |history| && Rooted(start, history, name, value, lifetime, i)
    && ShortBoots(history, name, lifetime, i, b) && (b == i || history[b - 1].RestartCall?)
    && (forall k | b <= k <= e :: Delays(history[k], name, first, last)) && last < first + lifetime * SECOND
    && Roomy(history[e]) && history[e].sound
  }

  /** The value lives through any number of restarts. */
  lemma SurvivesRestarts(f: Flags, name: string, value: Value, lifetime: Lifetime, i: nat)
    requires f.Valid() && Rooted(f.start, f.history, name, value, lifetime, i)
    requires i <= |f.history| && ShortBoots(f.history, name, lifetime, i, |f.history|)
    ensures name in f.config && f.config[name] == value && name in f.ttl && f.ttl[name] == lifetime
  {
    RootedWaits(f.start, f.history, name, value, lifetime, i);
    HeldThrough(name, f.start, f.history, i, |f.history|, value, lifetime);
    StateNow(f, name);
  }

  /** After the last of them, the first expire that does not fail and has room finds the value
      with its full lifetime counting down, if the expires up to then took less time than that.
      It ends a full lifetime after some moment between the first of them and the last. */
  lemma CountsAnewAfterRestart(f: Flags, name: string, value: Value, lifetime: Lifetime,
                               i: nat, b: nat, e: nat, first: int, last: int)
    requires f.Valid() && Restarted(f.start, f.history, name, value, lifetime, i, b, e, first, last)
    requires forall k | e < k < |f.history| :: Spares(f.history[k], name, first + lifetime * SECOND)
    ensures CountsDown(name, f.Seen(), value, lifetime, first + lifetime * SECOND, last + lifetime * SECOND)
  {
    CountsAfterRestart(f.start, f.history, name, value, lifetime, i, b, e, first, last);
    StaysUntil(name, f.start, f.history, e + 1, |f.history|);
    StateNow(f, name);
  }

  lemma CountsAfterRestart(start: Nvs, history: seq<Call>, name: string, value: Value, lifetime: Lifetime,
                           i: nat, b: nat, e: nat, first: int, last: int)
    requires Restarted(start, history, name, value, lifetime, i, b, e, first, last)
    ensures Counts(LifeOf(name, start, history[..e + 1]), value, lifetime, first, last)
  {
    RootedWaits(start, history, name, value, lifetime, i);
    WaitsAgain(name, start, history, i, b, value, lifetime);
    RestartsInFull(name, start, history, b, e, value, lifetime, first, last);
  }

  /** And it goes with the first expire that begins a full lifetime later or more, reaches it and
      does not fail. */
  lemma RemovedAfterRestart(f: Flags, name: string, value: Value, lifetime: Lifetime,
                            i: nat, b: nat, e: nat, first: int, last: int, g: nat)
    requires f.Valid() && Restarted(f.start, f.history, name, value, lifetime, i, b, e, first, last)
    requires forall k | e < k < |f.history| :: Ignores(f.history[k], name)
    requires e < g < |f.history| && Reaches(f.history[g], name) && f.history[g].begin >= last + lifetime * SECOND
    ensures name !in f.config
  {
    CountsAfterRestart(f.start, f.history, name, value, lifetime, i, b, e, first, last);
    RemovedBy(name, f.start, f.history, e + 1, g, |f.history|);
    StateNow(f, name);
  }

  // ---- Failures and crashes --------------------------------------------------------------

  /** However the calls since have failed or crashed: a value whose last set gave a lifetime has
      a lifetime entry in NVS or is gone, unless a permanent set of the name has begun. */
  lemma NeverPermanent(f: Flags, name: string)
    requires f.Valid() && MustEnd(name, f.history)
    ensures name in f.config ==> name in f.ttl && f.ttl[name] > 0
  {
    assert Covered(f.config, f.ttl, f.history);
  }

  /** The same from what has been committed to NVS, also in the middle of a call. */
  lemma NeverPermanentInNvs(f: Flags, name: string)
    requires f.Logged() && Leased(name, f.events)
    ensures name in f.config ==> name in f.ttl && f.ttl[name] > 0
  {
    LifetimeSurvives(f.start, name, f.events);
  }

  // ---- The 32 slots ----------------------------------------------------------------------

  /** In step, the entries never outgrow the list of an expire. */
  lemma InStepFits(f: Flags)
    requires f.Valid() && f.flawless && InStep(f.start, f.history)
    ensures f.Tracked() && |f.ttl| == |Known(f.Seen())| <= SLOTS
  {
    f.TrackedFits();
  }

  /** After a restart they can: with 32 entries in NVS and an empty table of countdowns, a set of
      a new name succeeds. Then there is for every name a listing of 32 entries without it. */
  method SetAfterRestart(f: Flags, name: string, value: Value, lifetime: Lifetime) returns (r: Outcome)
    requires f.Valid() && f.flawless && |f.ttl| == SLOTS
    requires ValidName(name) && value.Boolean? && lifetime > 0 && name !in f.ttl
    modifies f, f.table, f.table.slots
    ensures f.Valid() && r.Done? && |f.ttl| == SLOTS + 1
    ensures forall n | n in f.ttl ::
      exists entries: seq<Entry> :: |entries| == SLOTS && ListsOnce(entries, f.ttl) && !Listed(n, entries)
  {
    f.Restart();
    r := f.Set(name, value, true, lifetime);
    forall n | n in f.ttl
      ensures exists entries: seq<Entry> :: |entries| == SLOTS && ListsOnce(entries, f.ttl) && !Listed(n, entries)
    {
      var entries := AnyoneLeftOut(f.ttl, n);
    }
  }
}
