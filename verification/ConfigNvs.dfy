/** What the parameter store keeps across restarts: values in one NVS namespace, lifetimes in
    another, and the order in which a call commits to them. */
module ConfigNvs {
  import opened DeadlineTable

  datatype Value = Boolean(b: bool) | Number(text: string)

  datatype Nvs = Nvs(config: map<string, Value>, ttl: map<string, Lifetime>)

  /** The states a set goes through: the lifetime entry first, then the value. */
  function SetSteps(s: Nvs, name: string, value: Value, lifetime: Lifetime): (steps: seq<Nvs>)
    ensures |steps| == 3
  {
    var recorded := if lifetime > 0 then s.(ttl := s.ttl[name := lifetime]) else s.(ttl := s.ttl - {name});
    [s, recorded, recorded.(config := recorded.config[name := value])]
  }

  /** The states an unset goes through: the value first, then the lifetime entry. */
  function UnsetSteps(s: Nvs, name: string): (steps: seq<Nvs>)
    ensures |steps| == 3
  {
    var erased := s.(config := s.config - {name});
    [s, erased, erased.(ttl := erased.ttl - {name})]
  }

  /** The states of the removal of a lifetime entry that has no value. */
  function OrphanSteps(s: Nvs, name: string): (steps: seq<Nvs>)
    ensures |steps| == 2
  {
    [s, s.(ttl := s.ttl - {name})]
  }

  type Progress = n: nat | n <= 2

  /** A call that got so far: to the end, to a failed write, or to a crash. */
  datatype Event =
    | Set(name: string, value: Value, lifetime: Lifetime, done: Progress)
    | Unset(name: string, done: Progress)
    | Orphan(name: string, done: Progress)      // the clean-up of expire, for a name without a value

  function Next(s: Nvs, e: Event): Nvs {
    match e
    case Set(name, value, lifetime, done) => SetSteps(s, name, value, lifetime)[done]
    case Unset(name, done) => UnsetSteps(s, name)[done]
    case Orphan(name, done) => if name in s.config || done == 0 then s else OrphanSteps(s, name)[1]
  }

  const BLANK := Nvs(map[], map[])

  /** What a start and the calls since have left. */
  function AfterAll(start: Nvs, events: seq<Event>): Nvs {
    if |events| == 0 then start else Next(AfterAll(start, events[..|events| - 1]), events[|events| - 1])
  }

  lemma AfterOneMore(start: Nvs, events: seq<Event>, e: Event)
    ensures AfterAll(start, events + [e]) == Next(AfterAll(start, events), e)
  {
    assert (events + [e])[..|events|] == events;
  }

  /** The value of a name was last written with a lifetime, and no permanent set of the name
      has committed anything since. */
  predicate Leased(name: string, events: seq<Event>) {
    |events| > 0 &&
    var e := events[|events| - 1];
    if e.Set? && e.name == name && e.lifetime > 0 && e.done == 2 then true
    else if e.Set? && e.name == name && e.lifetime == 0 && e.done > 0 then false
    else Leased(name, events[..|events| - 1])
  }

  lemma LeasedNext(name: string, s: Nvs, e: Event, leased: bool)
    requires (leased && name in s.config ==> name in s.ttl && s.ttl[name] > 0)
    requires leased || (e.Set? && e.name == name && e.lifetime > 0 && e.done == 2)
    requires !(e.Set? && e.name == name && e.lifetime == 0 && e.done > 0)
    ensures name in Next(s, e).config ==> name in Next(s, e).ttl && Next(s, e).ttl[name] > 0
  {
  }

  /** A crash or failure between any two commits never makes a value with a lifetime permanent,
      unless a permanent set of the name had begun to commit. */
  lemma {:induction false} LifetimeSurvives(start: Nvs, name: string, events: seq<Event>)
    requires Leased(name, events)
    ensures var s := AfterAll(start, events); name in s.config ==> name in s.ttl && s.ttl[name] > 0
    decreases |events|
  {
    var before, e := events[..|events| - 1], events[|events| - 1];
    var leased := Leased(name, before);
    if leased {
      LifetimeSurvives(start, name, before);
    }
    LeasedNext(name, AfterAll(start, before), e, leased);
  }

  /** The exception is real: a permanent set over a value with a lifetime that stops after its
      first commit leaves the old value without a lifetime, and only then. */
  lemma PermanentSetTrap(s: Nvs, name: string, value: Value, done: Progress)
    requires name in s.config && name in s.ttl && value != s.config[name]
    ensures var after := Next(s, Set(name, value, 0, done));
      name in after.config && after.config[name] == s.config[name] && name !in after.ttl <==> done == 1
  {
  }

  /** From a blank store two sets lead there: one with a lifetime, and a permanent one that is
      cut short. The first value is then permanent. */
  lemma TrapIsReached(name: string, leased: Value, permanent: Value, lifetime: Lifetime)
    requires lifetime > 0
    ensures AfterAll(BLANK, [Set(name, leased, lifetime, 2), Set(name, permanent, 0, 1)]) == Nvs(map[name := leased], map[])
  {
    var none: seq<Event> := [];
    var first, second := Set(name, leased, lifetime, 2), Set(name, permanent, 0, 1);
    AfterOneMore(BLANK, none, first);
    AfterOneMore(BLANK, [first], second);
    assert none + [first] == [first] && [first] + [second] == [first, second];
    assert map[name := lifetime] - {name} == map[];
  }

  /** The other way round, a set with a lifetime that stops after its first commit puts the
      lifetime on the value that was there, permanent or not. */
  lemma LifetimeOnOldValue(s: Nvs, name: string, value: Value, lifetime: Lifetime, done: Progress)
    requires name in s.config && name !in s.ttl && value != s.config[name] && lifetime > 0
    ensures var after := Next(s, Set(name, value, lifetime, done));
      name in after.config && after.config[name] == s.config[name] && name in after.ttl <==> done == 1
  {
  }
}
