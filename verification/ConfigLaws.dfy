/** What the calls of the parameter store leave in NVS once they are through, when a value counts as leased,
    and which names and times there are. */
module ConfigLaws {
  import opened ConfigNvs
  import opened DeadlineTable
  import opened Names

  // ---- Calls that are through --------------------------------------------------------------

  /** A set that is through: the value is there, with the lifetime it was given or none. */
  lemma SetThrough(s: Nvs, name: string, value: Value, lifetime: Lifetime)
    ensures var after := Next(s, Set(name, value, lifetime, 2));
      && name in after.config && after.config[name] == value
      && if lifetime == 0 then name !in after.ttl else name in after.ttl && after.ttl[name] == lifetime
  {
  }

  /** An unset takes the value first and the lifetime after it. */
  lemma UnsetThrough(s: Nvs, name: string)
    ensures Next(s, Event.Unset(name, 1)).ttl == s.ttl
    ensures forall done: Progress | done > 0 :: name !in Next(s, Event.Unset(name, done)).config
    ensures name !in Next(s, Event.Unset(name, 2)).ttl
  {
  }

  /** A lifetime without a value is removed, and one with a value never is. */
  lemma OrphanThrough(s: Nvs, name: string, done: Progress)
    ensures Next(s, Orphan(name, done)).config == s.config
    ensures name in Next(s, Orphan(name, done)).ttl <==> name in s.ttl && (name in s.config || done == 0)
  {
  }

  /** A call that has committed nothing changes nothing, and no call touches another name. */
  lemma OnlyTheName(s: Nvs, e: Event, other: string)
    ensures e.done == 0 ==> Next(s, e) == s
    ensures other != e.name ==>
      && (other in Next(s, e).config <==> other in s.config)
      && (other in Next(s, e).ttl <==> other in s.ttl)
      && (other in s.config ==> Next(s, e).config[other] == s.config[other])
      && (other in s.ttl ==> Next(s, e).ttl[other] == s.ttl[other])
  {
  }

  // ---- Leases ------------------------------------------------------------------------------

  predicate LeasedSince(name: string, events: seq<Event>, k: nat) {
    && k < |events| && events[k].Set? && events[k].name == name && events[k].lifetime > 0 && events[k].done == 2
    && forall j | k < j < |events| ::
      !(events[j].Set? && events[j].name == name && events[j].lifetime == 0 && events[j].done > 0)
  }

  /** A value is leased exactly when a set with a lifetime went through and no permanent set of the name
      has committed anything after it. */
  lemma {:induction false} LeasedMeans(name: string, events: seq<Event>)
    ensures Leased(name, events) <==> exists k: nat :: LeasedSince(name, events, k)
  {
    if |events| > 0 {
      var before, e := events[..|events| - 1], events[|events| - 1];
      LeasedMeans(name, before);
      if k: nat :| LeasedSince(name, before, k) && !(e.Set? && e.name == name && e.lifetime == 0 && e.done > 0) {
        assert LeasedSince(name, events, k);
      }
      if k: nat :| LeasedSince(name, events, k) && k < |before| {
        assert LeasedSince(name, before, k);
      }
      if e.Set? && e.name == name && e.lifetime > 0 && e.done == 2 {
        assert LeasedSince(name, events, |before|);
      }
    }
  }

  // ---- Names and times -----------------------------------------------------------------------

  /** The ASCII codes of digits, letters, the dash and the underscore. */
  predicate NameCode(code: int) {
    48 <= code <= 57 || 65 <= code <= 90 || 97 <= code <= 122 || code == 45 || code == 95
  }

  /** Names are what fits an NVS key: 1 to 15 of these characters. */
  lemma NamesAreKeys(name: string)
    ensures ValidName(name) <==> name != "" && |name| < 16 && forall i | 0 <= i < |name| :: NameCode(name[i] as int)
  {
    assert forall i | 0 <= i < |name| :: NameChar(name[i]) <==> NameCode(name[i] as int);
  }

  /** The seconds left are the least whole number of seconds that reaches the deadline. */
  lemma RemainingReaches(at: int, now: int)
    requires at > now
    ensures now + (Remaining(at, now) - 1) * 1000000 < at <= now + Remaining(at, now) * 1000000
  {
  }

  /** A lifetime is any 32-bit number of seconds, and its deadline fits the microseconds of a 64-bit clock. */
  lemma LifetimesFit(lifetime: Lifetime, now: int)
    requires 0 <= now < 0x4000_0000_0000_0000
    ensures lifetime <= 0xffff_ffff && now + lifetime * 1000000 < 0x8000_0000_0000_0000
  {
  }
}
