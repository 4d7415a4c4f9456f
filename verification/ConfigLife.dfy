/** The life of one parameter, as the history of calls tells it: set for a time, counting down,
    waiting for its countdown after a restart, gone. */
module ConfigLife {
  import opened ConfigNvs
  import opened ConfigView
  import opened DeadlineTable

  /** How a call ends. After a crash nothing of it happens any more; a restart follows. */
  datatype Outcome = Done | Failed | NoMemory | InvalidArgument | Crashed

  /** A finished call with what it saw: a set with the time its countdown starts from, an expire
      with the time it began and how long it took, the entries it listed, how many names had an
      entry or a countdown, and whether nothing failed in it. */
  datatype Call =
    | SetCall(name: string, value: Value, lifetime: Lifetime, r: Outcome, at: int)
    | UnsetCall(name: string, r: Outcome)
    | ExpireCall(begin: int, took: nat, listed: seq<Entry>, names: nat, sound: bool)
    | RestartCall
  {
    function End(): int
      requires ExpireCall?
    {
      begin + took
    }
  }

  /** What the calls so far leave no doubt about. */
  datatype Life =
    | Unknown
    | Absent
    | Permanent(value: Value)
    | Counting(value: Value, lifetime: Lifetime, earliest: int, latest: int)  // it ends between these times
    | Ending(value: Value, lifetime: Lifetime, earliest: int, latest: int)    // the same, or the value is gone
    | Removed                                                                 // the value is gone
    | Waiting(value: Value, lifetime: Lifetime)                               // its countdown has not begun
    | Starting(value: Value, lifetime: Lifetime, earliest: int, latest: int)  // it has not, or ends between these

  /** The entries all fit the list of an expire, and their countdowns the table. */
  predicate Roomy(c: Call) {
    c.ExpireCall? && c.names <= SLOTS
  }

  /** An expire that deals with the name if it has a lifetime entry. */
  predicate Reaches(c: Call, name: string) {
    c.ExpireCall? && c.sound && (Roomy(c) || Listed(name, c.listed))
  }

  /** An expire that does nothing to the name. */
  predicate PassesOver(c: Call, name: string) {
    c.ExpireCall? && !Reaches(c, name) && !Listed(name, c.listed)
  }

  function Min(a: int, b: int): int {
    if a <= b then a else b
  }

  function Max(a: int, b: int): int {
    if a >= b then a else b
  }

  function AfterExpire(life: Life, name: string, c: Call): Life
    requires c.ExpireCall?
  {
    match life
    case Counting(value, lifetime, earliest, latest) =>
      if c.End() < earliest || PassesOver(c, name) then life
      else if Reaches(c, name) && c.begin >= latest then Absent
      else Ending(value, lifetime, earliest, latest)
    case Ending(_, _, _, latest) => if Reaches(c, name) && c.begin >= latest then Removed else life
    case Waiting(value, lifetime) =>
      if PassesOver(c, name) then life
      else if c.sound && Roomy(c) then Counting(value, lifetime, c.begin + lifetime * SECOND, c.End() + lifetime * SECOND)
      else Starting(value, lifetime, c.begin + lifetime * SECOND, c.End() + lifetime * SECOND)
    case Starting(value, lifetime, earliest, latest) =>
      var first, last := Min(earliest, c.begin + lifetime * SECOND), Max(latest, c.End() + lifetime * SECOND);
      if PassesOver(c, name) then life
      else if c.End() >= earliest then Unknown
      else if c.sound && Roomy(c) then Counting(value, lifetime, first, last)
      else Starting(value, lifetime, first, last)
    case _ => life
  }

  function After(life: Life, name: string, c: Call): Life {
    match c
    case SetCall(n, value, lifetime, r, at) =>
      if n != name || r.InvalidArgument? || r.NoMemory? then life
      else if !r.Done? then Unknown
      else if lifetime == 0 then Permanent(value)
      else Counting(value, lifetime, at + lifetime * SECOND, at + lifetime * SECOND)
    case UnsetCall(n, r) =>
      if n != name || r.InvalidArgument? then life else if r.Done? then Absent else Unknown
    case ExpireCall(_, _, _, _, _) => AfterExpire(life, name, c)
    case RestartCall =>
      match life
      case Counting(value, lifetime, _, _) => Waiting(value, lifetime)
      case Starting(value, lifetime, _, _) => Waiting(value, lifetime)
      case Ending(_, _, _, _) => Unknown
      case _ => life
  }

  function AtStart(name: string, start: Nvs): Life {
    if name !in start.config then if name in start.ttl then Unknown else Absent
    else if name in start.ttl then Waiting(start.config[name], start.ttl[name])
    else Permanent(start.config[name])
  }

  function LifeOf(name: string, start: Nvs, history: seq<Call>): Life {
    if |history| == 0 then AtStart(name, start)
    else After(LifeOf(name, start, history[..|history| - 1]), name, history[|history| - 1])
  }

  // ---- What a life says of the state -----------------------------------------------------

  predicate CountsDown(name: string, s: Snapshot, value: Value, lifetime: Lifetime, earliest: int, latest: int) {
    && name in s.config && s.config[name] == value && name in s.ttl && s.ttl[name] == lifetime
    && name in s.deadlines && earliest <= s.deadlines[name].at <= latest
  }

  predicate Lives(name: string, s: Snapshot, life: Life) {
    match life
    case Unknown => true
    case Absent => Gone(name, s)
    case Permanent(value) =>
      name in s.config && s.config[name] == value && name !in s.ttl && name !in s.deadlines
    case Counting(value, lifetime, earliest, latest) => CountsDown(name, s, value, lifetime, earliest, latest)
    case Ending(value, lifetime, earliest, latest) =>
      CountsDown(name, s, value, lifetime, earliest, latest) || name !in s.config
    case Removed => name !in s.config
    case Waiting(value, lifetime) =>
      && name in s.config && s.config[name] == value && name in s.ttl && s.ttl[name] == lifetime
      && name !in s.deadlines
    case Starting(value, lifetime, earliest, latest) =>
      && name in s.config && s.config[name] == value && name in s.ttl && s.ttl[name] == lifetime
      && (name in s.deadlines ==> earliest <= s.deadlines[name].at <= latest)
  }

  lemma LivesKept(name: string, before: Snapshot, after: Snapshot, life: Life)
    requires Lives(name, before, life) && Kept(name, before, after)
    ensures Lives(name, after, life)
  {
  }

  lemma LifeOfOneMore(name: string, start: Nvs, history: seq<Call>, c: Call)
    ensures LifeOf(name, start, history + [c]) == After(LifeOf(name, start, history), name, c)
  {
    assert (history + [c])[..|history|] == history;
  }

  ghost predicate AllLive(s: Snapshot, start: Nvs, history: seq<Call>) {
    forall n: string {:trigger LifeOf(n, start, history)} :: Lives(n, s, LifeOf(n, start, history))
  }

  /** What a set does, as its contract says. */
  ghost predicate SetDid(before: Snapshot, after: Snapshot, c: Call)
    requires c.SetCall?
  {
    && OthersKept(c.name, before, after)
    && (c.r.InvalidArgument? || c.r.NoMemory? ==> after == before)
    && (c.r.Done? && c.lifetime == 0 ==>
          after == Snapshot(before.config[c.name := c.value], before.ttl - {c.name}, before.deadlines - {c.name}))
    && (c.r.Done? && c.lifetime > 0 ==>
          after == Snapshot(before.config[c.name := c.value], before.ttl[c.name := c.lifetime],
                            before.deadlines[c.name := Deadline(c.lifetime, c.at + c.lifetime * SECOND)]))
  }

  lemma SetDidSo(before: Snapshot, after: Snapshot, c: Call, done: Progress)
    requires c.SetCall? && !c.r.InvalidArgument? && (c.r.Done? ==> done == 2)
    requires Nvs(after.config, after.ttl)
          == SetSteps(Nvs(before.config, before.ttl), c.name, c.value, c.lifetime)[done]
    requires SameElsewhere(before.deadlines, after.deadlines, c.name) && (c.r.NoMemory? ==> after == before)
    requires c.r.Done? && c.lifetime == 0 ==> after.deadlines == before.deadlines - {c.name}
    requires c.r.Done? && c.lifetime > 0 ==>
      after.deadlines == before.deadlines[c.name := Deadline(c.lifetime, c.at + c.lifetime * SECOND)]
    ensures SetDid(before, after, c)
  {
    SetKeepsOthers(c.name, c.value, c.lifetime, before, after);
  }

  /** A set that ran to its end or was refused: a new entry is counted, and the countdowns stay
      those of the entries. */
  lemma SetEntries(before: Snapshot, after: Snapshot, c: Call)
    requires c.SetCall? && SetDid(before, after, c) && (c.r.Done? || c.r.NoMemory? || c.r.InvalidArgument?)
    ensures |after.ttl| > |before.ttl| <==> c.r.Done? && c.lifetime > 0 && c.name !in before.ttl
    ensures |after.ttl| <= |before.ttl| + 1
    ensures before.deadlines.Keys == before.ttl.Keys ==> after.deadlines.Keys == after.ttl.Keys
  {
    if c.r.Done? {
      OneEntry(before.ttl, c.name, c.lifetime);
    }
  }

  lemma OneEntry(ttl: map<string, Lifetime>, name: string, lifetime: Lifetime)
    ensures |ttl[name := lifetime]| == if name in ttl then |ttl| else |ttl| + 1
    ensures |ttl - {name}| <= |ttl|
  {
    assert name in ttl ==> ttl[name := lifetime].Keys == ttl.Keys;
    assert (ttl - {name}).Keys == ttl.Keys - {name};
  }

  lemma AllLiveAfterSet(before: Snapshot, after: Snapshot, start: Nvs, history: seq<Call>, c: Call)
    requires AllLive(before, start, history) && c.SetCall? && SetDid(before, after, c)
    ensures AllLive(after, start, history + [c])
  {
    forall n: string ensures Lives(n, after, LifeOf(n, start, history + [c])) {
      LifeOfOneMore(n, start, history, c);
      assert Lives(n, before, LifeOf(n, start, history));
      if n != c.name {
        LivesKept(n, before, after, LifeOf(n, start, history));
      }
    }
  }

  lemma AllLiveAfterUnset(before: Snapshot, after: Snapshot, start: Nvs, history: seq<Call>, c: Call)
    requires AllLive(before, start, history) && c.UnsetCall? && OthersKept(c.name, before, after)
    requires c.r.InvalidArgument? ==> after == before
    requires c.r.Done? ==> Gone(c.name, after)
    ensures AllLive(after, start, history + [c])
  {
    forall n: string ensures Lives(n, after, LifeOf(n, start, history + [c])) {
      LifeOfOneMore(n, start, history, c);
      assert Lives(n, before, LifeOf(n, start, history));
      if n != c.name {
        LivesKept(n, before, after, LifeOf(n, start, history));
      }
    }
  }

  lemma AllLiveAfterRestart(before: Snapshot, after: Snapshot, start: Nvs, history: seq<Call>)
    requires AllLive(before, start, history) && after == before.(deadlines := map[])
    ensures AllLive(after, start, history + [RestartCall])
  {
    forall n: string ensures Lives(n, after, LifeOf(n, start, history + [RestartCall])) {
      LifeOfOneMore(n, start, history, RestartCall);
      assert Lives(n, before, LifeOf(n, start, history));
    }
  }

  /** What an expire does to a name, as its contract says. */
  ghost predicate ExpireDid(name: string, before: Snapshot, after: Snapshot, c: Call)
    requires c.ExpireCall?
  {
    && Safe(name, before, after, c.begin, c.End())
    && (!Listed(name, c.listed) ==> Kept(name, before, after))
    && (Listed(name, c.listed) ==> name in before.ttl)
    && (c.sound && Roomy(c) && name in before.ttl ==> Listed(name, c.listed))
    && (c.sound && Listed(name, c.listed) && (Roomy(c) || NeedsNoSlot(name, before)) ==>
          Expired(name, before.ttl[name], before, after, c.begin, c.End()))
  }

  ghost predicate ExpireDidAll(before: Snapshot, after: Snapshot, c: Call)
    requires c.ExpireCall?
  {
    forall n: string {:trigger ExpireDid(n, before, after, c)} :: ExpireDid(n, before, after, c)
  }

  lemma NothingDid(now: Snapshot, c: Call)
    requires c.ExpireCall? && c.listed == [] && !c.sound
    ensures ExpireDidAll(now, now, c)
  {
    forall n: string ensures ExpireDid(n, now, now, c) {
      assert Safe(n, now, now, c.begin, c.End());
    }
  }

  /** The contract of the loop says it of every name. */
  lemma AllDid(before: Snapshot, after: Snapshot, c: Call, entries: seq<Entry>, begin: int, end: int, sound: bool)
    requires begin <= end && c == ExpireCall(begin, end - begin, entries, |Known(before)|, sound)
    requires Unlisted(entries, before, after) && AllSafe(before, after, begin, end)
    requires ListsOnce(entries, before.ttl)
    requires sound && |Known(before)| <= SLOTS ==> ListsAll(entries, before.ttl)
    requires sound ==> Handled(entries, |entries|, before, after, |Known(before)| <= SLOTS, begin, end)
    ensures ExpireDidAll(before, after, c)
  {
    forall n: string ensures ExpireDid(n, before, after, c) {
      assert Safe(n, before, after, begin, end);
      assert !Listed(n, entries) ==> Kept(n, before, after);
      if Listed(n, entries) {
        ListedDid(n, before, after, entries, begin, end, sound);
      }
    }
  }

  lemma ListedDid(n: string, before: Snapshot, after: Snapshot, entries: seq<Entry>, begin: int, end: int, sound: bool)
    requires Listed(n, entries) && ListsOnce(entries, before.ttl)
    requires sound ==> Handled(entries, |entries|, before, after, |Known(before)| <= SLOTS, begin, end)
    ensures n in before.ttl
    ensures sound && (|Known(before)| <= SLOTS || NeedsNoSlot(n, before)) ==>
      Expired(n, before.ttl[n], before, after, begin, end)
  {
    var k :| 0 <= k < |entries| && entries[k].name == n;
  }

  /** Even when it fails or crashes, an expire removes only what was due, and what it leaves
      keeps its lifetime entry. */
  lemma EntriesKept(before: Snapshot, after: Snapshot, c: Call)
    requires c.ExpireCall? && ExpireDidAll(before, after, c)
    ensures forall n | n in after.config :: n in before.config && SameEntry(n, before.ttl, after.ttl)
    ensures forall n | n in before.config && n !in after.config :: DueBy(n, before, c.End())
  {
    forall n | n in after.config ensures n in before.config && SameEntry(n, before.ttl, after.ttl) {
      assert ExpireDid(n, before, after, c);
    }
    forall n | n in before.config && n !in after.config ensures DueBy(n, before, c.End()) {
      assert ExpireDid(n, before, after, c);
    }
  }

  lemma NoNewEntries(before: Snapshot, after: Snapshot, c: Call)
    requires c.ExpireCall? && ExpireDidAll(before, after, c)
    ensures after.ttl.Keys <= before.ttl.Keys
  {
    forall n | n in after.ttl ensures n in before.ttl {
      assert ExpireDid(n, before, after, c);
    }
  }

  lemma TrackedAfter(before: Snapshot, after: Snapshot, c: Call)
    requires c.ExpireCall? && c.sound && Roomy(c) && before.deadlines.Keys <= before.ttl.Keys
    requires ExpireDidAll(before, after, c)
    ensures after.deadlines.Keys == after.ttl.Keys
  {
    forall n: string ensures n in after.deadlines <==> n in after.ttl {
      assert ExpireDid(n, before, after, c);
    }
  }

  lemma AllExpired(before: Snapshot, after: Snapshot, c: Call)
    requires c.ExpireCall? && c.sound && Roomy(c) && ExpireDidAll(before, after, c)
    ensures forall n | n in before.ttl :: Expired(n, before.ttl[n], before, after, c.begin, c.End())
  {
    forall n | n in before.ttl ensures Expired(n, before.ttl[n], before, after, c.begin, c.End()) {
      assert ExpireDid(n, before, after, c);
    }
  }

  lemma LivesAfterExpire(name: string, before: Snapshot, after: Snapshot, life: Life, c: Call)
    requires Lives(name, before, life) && c.ExpireCall? && ExpireDid(name, before, after, c)
    ensures Lives(name, after, AfterExpire(life, name, c))
  {
  }

  lemma AllLiveAfterExpire(before: Snapshot, after: Snapshot, start: Nvs, history: seq<Call>, c: Call)
    requires AllLive(before, start, history) && c.ExpireCall?
    requires ExpireDidAll(before, after, c)
    ensures AllLive(after, start, history + [c])
  {
    forall n: string ensures Lives(n, after, LifeOf(n, start, history + [c])) {
      LifeOfOneMore(n, start, history, c);
      assert Lives(n, before, LifeOf(n, start, history));
      LivesAfterExpire(n, before, after, LifeOf(n, start, history), c);
    }
  }

  // ---- Values that must not become permanent ---------------------------------------------

  /** The last set of the name that wrote its value gave a lifetime, and no permanent set of
      the name has begun to write since. */
  predicate MustEnd(name: string, history: seq<Call>) {
    |history| > 0 &&
    var c := history[|history| - 1];
    if c.SetCall? && c.name == name && c.lifetime > 0 && c.r.Done? then true
    else if c.SetCall? && c.name == name && c.lifetime == 0 && !c.r.InvalidArgument? then false
    else MustEnd(name, history[..|history| - 1])
  }

  /** Every such value still has its lifetime entry, or is gone. */
  ghost predicate Covered(config: map<string, Value>, ttl: map<string, Lifetime>, history: seq<Call>) {
    forall n: string {:trigger MustEnd(n, history)} :: MustEnd(n, history) && n in config ==> n in ttl
  }

  lemma CoveredAfterSet(before: Nvs, after: Nvs, history: seq<Call>, c: Call, done: Progress)
    requires Covered(before.config, before.ttl, history) && c.SetCall?
    requires after == SetSteps(before, c.name, c.value, c.lifetime)[done]
    requires c.r.Done? ==> done == 2
    requires c.r.InvalidArgument? ==> after == before
    ensures Covered(after.config, after.ttl, history + [c])
  {
    assert (history + [c])[..|history|] == history;
  }

  /** Any other call leaves its values with their entries. */
  lemma CoveredAfter(before: Nvs, after: Nvs, history: seq<Call>, c: Call)
    requires Covered(before.config, before.ttl, history) && !c.SetCall?
    requires forall n | n in after.config :: n in before.config && SameEntry(n, before.ttl, after.ttl)
    ensures Covered(after.config, after.ttl, history + [c])
  {
    assert (history + [c])[..|history|] == history;
  }

  // ---- Countdowns and entries in step ----------------------------------------------------

  /** Seen from the calls alone: the store began without entries or an expire has listed them
      all, and there was no restart since. */
  predicate InStep(start: Nvs, history: seq<Call>) {
    if |history| == 0 then start.ttl == map[]
    else
      var c := history[|history| - 1];
      !c.RestartCall? && (Roomy(c) || InStep(start, history[..|history| - 1]))
  }

  lemma InStepNext(start: Nvs, history: seq<Call>, c: Call)
    ensures InStep(start, history + [c]) <==> !c.RestartCall? && (Roomy(c) || InStep(start, history))
  {
    assert (history + [c])[..|history|] == history;
  }

  // ---- Theorems over histories -----------------------------------------------------------

  /** Calls after which a parameter that counts down still does: calls about other names, calls
      that were refused, expires that end before its time, and expires that do not list it. */
  predicate Spares(c: Call, name: string, until: int) {
    match c
    case SetCall(n, _, _, r, _) => n != name || r.InvalidArgument? || r.NoMemory?
    case UnsetCall(n, r) => n != name || r.InvalidArgument?
    case ExpireCall(_, _, _, _, _) => c.End() < until || PassesOver(c, name)
    case RestartCall => false
  }

  /** The same with any expires, also such as fail or crash. */
  predicate Ignores(c: Call, name: string) {
    match c
    case SetCall(n, _, _, r, _) => n != name || r.InvalidArgument? || r.NoMemory?
    case UnsetCall(n, r) => n != name || r.InvalidArgument?
    case ExpireCall(_, _, _, _, _) => true
    case RestartCall => false
  }

  lemma LifeNext(name: string, start: Nvs, history: seq<Call>, i: nat)
    requires i < |history|
    ensures LifeOf(name, start, history[..i + 1]) == After(LifeOf(name, start, history[..i]), name, history[i])
  {
    assert history[..i + 1][..i] == history[..i];
  }

  lemma {:induction false} InOrder(name: string, start: Nvs, history: seq<Call>)
    ensures var life := LifeOf(name, start, history);
      life.Counting? || life.Ending? || life.Starting? ==> life.earliest <= life.latest
  {
    if |history| > 0 {
      InOrder(name, start, history[..|history| - 1]);
    }
  }

  /** A parameter that counts down at one point of a history stays, with its value, through
      every expire that ends before its time, even those that fail; and through those that do
      not list it, however late. */
  lemma {:induction false} StaysUntil(name: string, start: Nvs, history: seq<Call>, i: nat, j: nat)
    requires i <= j <= |history| && LifeOf(name, start, history[..i]).Counting?
    requires forall k | i <= k < j :: Spares(history[k], name, LifeOf(name, start, history[..i]).earliest)
    ensures LifeOf(name, start, history[..j]) == LifeOf(name, start, history[..i])
    decreases j - i
  {
    if i < j {
      StaysUntil(name, start, history, i, j - 1);
      LifeNext(name, start, history, j - 1);
    }
  }

  /** The life of a name through calls that ignore it. */
  predicate Runs(life: Life, from: Life)
    requires from.Counting?
  {
    || life == from || life.Absent? || life.Removed?
    || life == Ending(from.value, from.lifetime, from.earliest, from.latest)
  }

  lemma {:induction false} RunsOut(name: string, start: Nvs, history: seq<Call>, i: nat, j: nat)
    requires i <= j <= |history| && LifeOf(name, start, history[..i]).Counting?
    requires forall k | i <= k < j :: Ignores(history[k], name)
    ensures Runs(LifeOf(name, start, history[..j]), LifeOf(name, start, history[..i]))
    decreases j - i
  {
    if i < j {
      RunsOut(name, start, history, i, j - 1);
      LifeNext(name, start, history, j - 1);
    }
  }

  lemma {:induction false} StaysGone(name: string, start: Nvs, history: seq<Call>, i: nat, j: nat)
    requires i <= j <= |history| && IsGone(LifeOf(name, start, history[..i]))
    requires forall k | i <= k < j :: Ignores(history[k], name)
    ensures LifeOf(name, start, history[..j]) == LifeOf(name, start, history[..i])
    decreases j - i
  {
    if i < j {
      StaysGone(name, start, history, i, j - 1);
      LifeNext(name, start, history, j - 1);
    }
  }

  predicate IsGone(life: Life) {
    life.Absent? || life.Removed?
  }

  /** The first expire that begins at its time or later, reaches it and does not fail removes
      it, whatever the expires before have left undone. */
  lemma RemovedBy(name: string, start: Nvs, history: seq<Call>, i: nat, e: nat, j: nat)
    requires i <= e < j <= |history| && LifeOf(name, start, history[..i]).Counting?
    requires forall k | i <= k < j :: Ignores(history[k], name)
    requires Reaches(history[e], name) && history[e].begin >= LifeOf(name, start, history[..i]).latest
    ensures IsGone(LifeOf(name, start, history[..j]))
    ensures LifeOf(name, start, history[..e]).Counting? ==> LifeOf(name, start, history[..j]).Absent?
  {
    InOrder(name, start, history[..i]);
    RunsOut(name, start, history, i, e);
    LifeNext(name, start, history, e);
    StaysGone(name, start, history, e + 1, j);
  }

  /** After a restart: calls about other names, and expires between the two times, which may
      fail, crash, or have no room. */
  predicate Delays(c: Call, name: string, first: int, last: int) {
    match c
    case ExpireCall(begin, _, _, _, _) => first <= begin && c.End() <= last
    case _ => Spares(c, name, 0)
  }

  predicate Awaits(life: Life, value: Value, lifetime: Lifetime, first: int, last: int) {
    || life == Waiting(value, lifetime)
    || Counts(life, value, lifetime, first, last)
    || Starts(life, value, lifetime, first, last)
  }

  predicate Counts(life: Life, value: Value, lifetime: Lifetime, first: int, last: int) {
    && life.Counting? && life.value == value && life.lifetime == lifetime
    && first + lifetime * SECOND <= life.earliest && life.latest <= last + lifetime * SECOND
  }

  predicate Starts(life: Life, value: Value, lifetime: Lifetime, first: int, last: int) {
    && life.Starting? && life.value == value && life.lifetime == lifetime
    && first + lifetime * SECOND <= life.earliest && life.latest <= last + lifetime * SECOND
  }

  lemma DelaysOnce(life: Life, name: string, c: Call, value: Value, lifetime: Lifetime, first: int, last: int)
    requires Awaits(life, value, lifetime, first, last) && last < first + lifetime * SECOND
    requires Delays(c, name, first, last)
    ensures Awaits(After(life, name, c), value, lifetime, first, last)
    ensures c.ExpireCall? && c.sound && Roomy(c) ==> Counts(After(life, name, c), value, lifetime, first, last)
  {
  }

  lemma {:induction false} AwaitsThrough(name: string, start: Nvs, history: seq<Call>, b: nat, e: nat,
                                         value: Value, lifetime: Lifetime, first: int, last: int)
    requires b <= e <= |history| && LifeOf(name, start, history[..b]) == Waiting(value, lifetime)
    requires last < first + lifetime * SECOND
    requires forall k | b <= k < e :: Delays(history[k], name, first, last)
    ensures Awaits(LifeOf(name, start, history[..e]), value, lifetime, first, last)
    decreases e - b
  {
    if b < e {
      LifeNext(name, start, history, e - 1);
      AwaitsThrough(name, start, history, b, e - 1, value, lifetime, first, last);
      DelaysOnce(LifeOf(name, start, history[..e - 1]), name, history[e - 1], value, lifetime, first, last);
    }
  }

  /** The first expire since the countdown was lost that does not fail and has room has the full
      lifetime counting down, from a time between the first and the last of the expires since. */
  lemma RestartsInFull(name: string, start: Nvs, history: seq<Call>, b: nat, e: nat,
                       value: Value, lifetime: Lifetime, first: int, last: int)
    requires b <= e < |history| && LifeOf(name, start, history[..b]) == Waiting(value, lifetime)
    requires last < first + lifetime * SECOND
    requires forall k | b <= k <= e :: Delays(history[k], name, first, last)
    requires history[e].ExpireCall? && history[e].sound && Roomy(history[e])
    ensures Counts(LifeOf(name, start, history[..e + 1]), value, lifetime, first, last)
  {
    AwaitsThrough(name, start, history, b, e, value, lifetime, first, last);
    DelaysOnce(LifeOf(name, start, history[..e]), name, history[e], value, lifetime, first, last);
    LifeNext(name, start, history, e);
  }

  // ---- Many restarts ---------------------------------------------------------------------

  predicate NoRestart(history: seq<Call>, a: nat, b: nat) {
    forall k | a <= k < b && k < |history| :: !history[k].RestartCall?
  }

  /** From one call to another, restarts and calls that leave the name alone, and expires, which
      may fail; those between two restarts take less than the lifetime, from the beginning of
      the first to the end of the last. */
  ghost predicate ShortBoots(history: seq<Call>, name: string, lifetime: Lifetime, from: nat, to: nat) {
    && to <= |history|
    && (forall k | from <= k < to :: history[k].ExpireCall? || history[k].RestartCall? || Spares(history[k], name, 0))
    && forall a, b | from <= a <= b < to && history[a].ExpireCall? && history[b].ExpireCall? && NoRestart(history, a, b) ::
         history[b].End() < history[a].begin + lifetime * SECOND
  }

  /** The value has its lifetime entry, and a countdown that begins again at a restart. */
  predicate Held(life: Life, value: Value, lifetime: Lifetime) {
    (life.Waiting? || life.Starting? || life.Counting?) && life.value == value && life.lifetime == lifetime
  }

  /** As Held, with a countdown that ends no earlier than a full lifetime after some expire since
      the last restart began. */
  ghost predicate HeldSince(life: Life, value: Value, lifetime: Lifetime, history: seq<Call>, from: nat, j: nat) {
    && j <= |history| && Held(life, value, lifetime)
    && (life.Waiting? ||
        exists a | from <= a < j ::
          history[a].ExpireCall? && NoRestart(history, a, j) && history[a].begin + lifetime * SECOND <= life.earliest)
  }

  lemma HeldThroughExpire(name: string, life: Life, value: Value, lifetime: Lifetime, history: seq<Call>, from: nat, j: nat)
    requires from <= j < |history| && HeldSince(life, value, lifetime, history, from, j)
    requires history[j].ExpireCall? && ShortBoots(history, name, lifetime, from, j + 1)
    ensures HeldSince(After(life, name, history[j]), value, lifetime, history, from, j + 1)
  {
    var c := history[j];
    assert NoRestart(history, j, j) && NoRestart(history, j, j + 1);
    if !life.Waiting? {
      var a :| from <= a < j && history[a].ExpireCall? && NoRestart(history, a, j)
        && history[a].begin + lifetime * SECOND <= life.earliest;
      assert NoRestart(history, a, j + 1);
      assert c.End() < life.earliest;
    }
  }

  lemma HeldThroughOther(name: string, life: Life, value: Value, lifetime: Lifetime, history: seq<Call>, from: nat, j: nat)
    requires from <= j < |history| && HeldSince(life, value, lifetime, history, from, j)
    requires !history[j].ExpireCall? && (history[j].RestartCall? || Spares(history[j], name, 0))
    ensures HeldSince(After(life, name, history[j]), value, lifetime, history, from, j + 1)
  {
    if !history[j].RestartCall? && !life.Waiting? {
      var a :| from <= a < j && history[a].ExpireCall? && NoRestart(history, a, j)
        && history[a].begin + lifetime * SECOND <= life.earliest;
      assert NoRestart(history, a, j + 1);
    }
  }

  /** A value that waits for its countdown lives through any number of restarts. */
  lemma {:induction false} HeldThrough(name: string, start: Nvs, history: seq<Call>, from: nat, j: nat,
                                       value: Value, lifetime: Lifetime)
    requires from <= j && ShortBoots(history, name, lifetime, from, j)
    requires LifeOf(name, start, history[..from]) == Waiting(value, lifetime)
    ensures HeldSince(LifeOf(name, start, history[..j]), value, lifetime, history, from, j)
    decreases j - from
  {
    if from < j {
      HeldThrough(name, start, history, from, j - 1, value, lifetime);
      LifeNext(name, start, history, j - 1);
      if history[j - 1].ExpireCall? {
        HeldThroughExpire(name, LifeOf(name, start, history[..j - 1]), value, lifetime, history, from, j - 1);
      } else {
        HeldThroughOther(name, LifeOf(name, start, history[..j - 1]), value, lifetime, history, from, j - 1);
      }
    }
  }

  /** And at each of them it waits again. */
  lemma WaitsAgain(name: string, start: Nvs, history: seq<Call>, from: nat, b: nat, value: Value, lifetime: Lifetime)
    requires from <= b && ShortBoots(history, name, lifetime, from, b)
    requires LifeOf(name, start, history[..from]) == Waiting(value, lifetime)
    requires b == from || history[b - 1].RestartCall?
    ensures LifeOf(name, start, history[..b]) == Waiting(value, lifetime)
  {
    if from < b {
      HeldThrough(name, start, history, from, b - 1, value, lifetime);
      LifeNext(name, start, history, b - 1);
    }
  }
}
