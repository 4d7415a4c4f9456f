/** The whole state of the parameter store at one moment, and what one pass of expire may do to
    it, name by name. */
module ConfigView {
  import opened ConfigNvs
  import opened DeadlineTable

  datatype Snapshot = Snapshot(config: map<string, Value>, ttl: map<string, Lifetime>, deadlines: map<string, Deadline>)

  /** The names that need a slot, or have one. */
  function Known(s: Snapshot): set<string> {
    s.ttl.Keys + s.deadlines.Keys
  }

  predicate SameEntry<T(==)>(name: string, before: map<string, T>, after: map<string, T>) {
    if name in before then name in after && after[name] == before[name] else name !in after
  }

  ghost predicate SameElsewhere<T>(before: map<string, T>, after: map<string, T>, name: string) {
    forall n: string :: n != name ==> (n in before <==> n in after) && (n in before ==> before[n] == after[n])
  }

  /** Nothing about the name changed. */
  predicate Kept(name: string, before: Snapshot, after: Snapshot) {
    && SameEntry(name, before.config, after.config)
    && SameEntry(name, before.ttl, after.ttl)
    && SameEntry(name, before.deadlines, after.deadlines)
  }

  /** The name is gone everywhere. */
  predicate Gone(name: string, after: Snapshot) {
    name !in after.config && name !in after.ttl && name !in after.deadlines
  }

  ghost predicate OthersKept(name: string, before: Snapshot, after: Snapshot) {
    forall n: string :: n != name ==> Kept(n, before, after)
  }

  // ---- One name under expire -----------------------------------------------------------

  predicate DueBy(name: string, v: Snapshot, now: int) {
    name in v.deadlines && v.deadlines[name].at <= now
  }

  predicate UndueAt(name: string, v: Snapshot, now: int) {
    name in v.config && name in v.deadlines && v.deadlines[name].at > now
  }

  /** Whatever fails: a value goes only when it is due, one that stays keeps its lifetime entry
      and its countdown, a name whose countdown has not ended keeps everything, and a countdown
      that begins between the two times is one of the full lifetime. */
  predicate Safe(name: string, before: Snapshot, after: Snapshot, begin: int, now: int) {
    && (name in after.config ==>
        SameEntry(name, before.config, after.config) && SameEntry(name, before.ttl, after.ttl))
    && (name in after.config && name in before.deadlines ==> SameEntry(name, before.deadlines, after.deadlines))
    && (name in before.config && name !in after.config ==> DueBy(name, before, now))
    && (UndueAt(name, before, now) ==> Kept(name, before, after))
    && (name !in before.deadlines && name in after.deadlines ==>
        name in before.ttl && BeginsBetween(after.deadlines[name], before.ttl[name], begin, now))
  }

  predicate BeginsBetween(d: Deadline, lifetime: Lifetime, begin: int, now: int) {
    d.lifetime == lifetime && begin + lifetime * SECOND <= d.at <= now + lifetime * SECOND
  }

  /** When nothing fails, between two times: a name without a value goes; with a countdown it
      goes if that ended before, and stays if it ends after; without a countdown it stays and
      gets one of its full lifetime. */
  predicate Expired(name: string, lifetime: Lifetime, before: Snapshot, after: Snapshot, begin: int, end: int) {
    if name !in before.config then Gone(name, after)
    else if name in before.deadlines then
      var at := before.deadlines[name].at;
      && (at <= begin ==> Gone(name, after))
      && (at > end ==> Kept(name, before, after))
      && (Gone(name, after) || Kept(name, before, after))
    else
      && SameEntry(name, before.config, after.config) && SameEntry(name, before.ttl, after.ttl)
      && name in after.deadlines && BeginsBetween(after.deadlines[name], lifetime, begin, end)
  }

  /** A name that expire can always deal with: no new countdown is needed for it. */
  predicate NeedsNoSlot(name: string, v: Snapshot) {
    name !in v.config || name in v.deadlines
  }

  lemma SetKeepsOthers(name: string, value: Value, lifetime: Lifetime, before: Snapshot, after: Snapshot)
    requires Nvs(after.config, after.ttl) in SetSteps(Nvs(before.config, before.ttl), name, value, lifetime)
    requires SameElsewhere(before.deadlines, after.deadlines, name)
    ensures OthersKept(name, before, after)
  {
  }

  lemma UnsetKeepsOthers(name: string, before: Snapshot, after: Snapshot)
    requires Nvs(after.config, after.ttl) in UnsetSteps(Nvs(before.config, before.ttl), name)
    requires SameElsewhere(before.deadlines, after.deadlines, name)
    ensures OthersKept(name, before, after)
  {
  }

  lemma UnsetKeepsEntries(name: string, before: Nvs, after: Nvs)
    requires after in UnsetSteps(before, name)
    ensures forall n | n in after.config :: n in before.config && SameEntry(n, before.ttl, after.ttl)
    ensures after.ttl.Keys <= before.ttl.Keys
  {
  }

  lemma UnsetIsSafe(name: string, before: Snapshot, after: Snapshot, now: int)
    requires Nvs(after.config, after.ttl) in UnsetSteps(Nvs(before.config, before.ttl), name)
    requires DueBy(name, before, now) && (name in after.config ==> after == before)
    ensures forall begin, later | later >= now :: Safe(name, before, after, begin, later)
  {
  }

  lemma OrphanKeepsOthers(name: string, before: Snapshot, after: Snapshot)
    requires after.config == before.config && (after.ttl == before.ttl || after.ttl == before.ttl - {name})
    requires SameElsewhere(before.deadlines, after.deadlines, name)
    ensures OthersKept(name, before, after)
  {
  }

  /** A name that went, or did not change, leaves countdowns and entries of the same names. */
  lemma StaysTracked(name: string, before: Snapshot, after: Snapshot)
    requires before.deadlines.Keys == before.ttl.Keys && OthersKept(name, before, after)
    requires Gone(name, after) || after == before
    ensures after.deadlines.Keys == after.ttl.Keys
  {
    forall n: string ensures n in after.deadlines <==> n in after.ttl {
      assert n != name ==> Kept(n, before, after);
    }
  }

  // ---- The listed entries --------------------------------------------------------------

  datatype Entry = Entry(name: string, lifetime: Lifetime)

  predicate Listed(name: string, entries: seq<Entry>) {
    exists i | 0 <= i < |entries| :: entries[i].name == name
  }

  predicate ListsOnce(entries: seq<Entry>, ttl: map<string, Lifetime>) {
    && (forall i | 0 <= i < |entries| :: entries[i].name in ttl && ttl[entries[i].name] == entries[i].lifetime)
    && (forall i, j | 0 <= i < j < |entries| :: entries[i].name != entries[j].name)
  }

  ghost predicate ListsAll(entries: seq<Entry>, ttl: map<string, Lifetime>) {
    forall n | n in ttl :: Listed(n, entries)
  }

  lemma ListOne(entries: seq<Entry>, ttl: map<string, Lifetime>, name: string)
    requires ListsOnce(entries, ttl) && name in ttl && !Listed(name, entries)
    ensures var more := entries + [Entry(name, ttl[name])];
      ListsOnce(more, ttl) && forall n: string :: Listed(n, more) <==> n == name || Listed(n, entries)
  {
    var more := entries + [Entry(name, ttl[name])];
    assert forall i | 0 <= i < |entries| :: more[i] == entries[i];
    forall n: string ensures Listed(n, more) <==> n == name || Listed(n, entries) {
      assert more[|entries|].name == name;
      if Listed(n, entries) {
        var i :| 0 <= i < |entries| && entries[i].name == n;
        assert more[i].name == n;
      }
    }
  }

  /** With more entries than the list holds, any one of them can be left out, as long as it is
      not among the first that NVS gives; and NVS may give the same ones every time. */
  lemma AnyoneLeftOut(ttl: map<string, Lifetime>, name: string) returns (entries: seq<Entry>)
    requires |ttl| > SLOTS && name in ttl
    ensures |entries| == SLOTS && ListsOnce(entries, ttl) && !Listed(name, entries)
  {
    entries := ListOthers(ttl, name, SLOTS);
  }

  lemma {:induction false} ListOthers(ttl: map<string, Lifetime>, name: string, n: nat) returns (entries: seq<Entry>)
    requires |ttl| > n && name in ttl
    ensures |entries| == n && ListsOnce(entries, ttl) && !Listed(name, entries)
  {
    entries := [];
    if n > 0 {
      entries := ListOthers(ttl, name, n - 1);
      var other := FindOther(ttl, entries, name);
      ListOne(entries, ttl, other);
      entries := entries + [Entry(other, ttl[other])];
    }
  }

  function NamesOf(entries: seq<Entry>): (names: set<string>)
    ensures forall n: string :: n in names <==> Listed(n, entries)
  {
    set i | 0 <= i < |entries| :: entries[i].name
  }

  lemma {:induction false} FewNames(entries: seq<Entry>)
    ensures |NamesOf(entries)| <= |entries|
  {
    if |entries| > 0 {
      var front, last := entries[..|entries| - 1], entries[|entries| - 1].name;
      FewNames(front);
      assert NamesOf(entries) == NamesOf(front) + {last};
    }
  }

  lemma FindOther(ttl: map<string, Lifetime>, entries: seq<Entry>, name: string) returns (other: string)
    requires |ttl| > |entries| + 1 && name in ttl
    ensures other in ttl && other != name && !Listed(other, entries)
  {
    var taken := NamesOf(entries) + {name};
    FewNames(entries);
    if ttl.Keys <= taken {
      Smaller(ttl.Keys, taken);
    }
    other :| other in ttl && other !in taken;
  }

  lemma FewerEntries(s: Snapshot)
    ensures |s.ttl| <= |Known(s)|
  {
    Smaller(s.ttl.Keys, Known(s));
  }

  lemma Smaller(a: set<string>, b: set<string>)
    requires a <= b
    ensures |a| <= |b|
  {
    assert b == a + (b - a);
  }

  // ---- The loop of expire --------------------------------------------------------------

  predicate ListedBefore(name: string, entries: seq<Entry>, i: nat)
    requires i <= |entries|
  {
    exists k | 0 <= k < i :: entries[k].name == name
  }

  /** Names not yet dealt with. */
  ghost predicate Untouched(entries: seq<Entry>, i: nat, before: Snapshot, now: Snapshot)
    requires i <= |entries|
  {
    forall n: string {:trigger Kept(n, before, now)} :: !ListedBefore(n, entries, i) ==> Kept(n, before, now)
  }

  ghost predicate AllSafe(before: Snapshot, now: Snapshot, begin: int, clock: int) {
    forall n: string {:trigger Safe(n, before, now, begin, clock)} :: Safe(n, before, now, begin, clock)
  }

  /** The names dealt with, as far as they need no slot or there is one for all. */
  ghost predicate Handled(entries: seq<Entry>, i: nat, before: Snapshot, now: Snapshot, roomy: bool, begin: int, end: int)
    requires i <= |entries|
  {
    forall k | 0 <= k < i && (roomy || NeedsNoSlot(entries[k].name, before)) ::
      Expired(entries[k].name, entries[k].lifetime, before, now, begin, end)
  }

  ghost predicate Unlisted(entries: seq<Entry>, before: Snapshot, now: Snapshot) {
    forall n: string {:trigger Kept(n, before, now)} :: !Listed(n, entries) ==> Kept(n, before, now)
  }

  lemma UntouchedIsUnlisted(entries: seq<Entry>, i: nat, before: Snapshot, now: Snapshot)
    requires i <= |entries| && Untouched(entries, i, before, now)
    ensures Unlisted(entries, before, now)
  {
    forall n: string | !Listed(n, entries) ensures Kept(n, before, now) {
      assert !ListedBefore(n, entries, i);
    }
  }

  lemma NamesShrink(name: string, names: set<string>, mid: Snapshot, now: Snapshot)
    requires Known(mid) <= names && OthersKept(name, mid, now) && name in names
    ensures Known(now) <= names
  {
    forall n | n in Known(now) ensures n in names {
      assert n != name ==> Kept(n, mid, now);
    }
  }

  lemma RoomFor(name: string, s: Snapshot, names: set<string>)
    requires name in s.ttl && Known(s) <= names && |names| <= SLOTS
    ensures name in s.deadlines || |s.deadlines| < SLOTS
  {
    if name !in s.deadlines {
      assert name in names;
      Smaller(s.deadlines.Keys, names - {name});
    }
  }

  lemma StillUntouched(entries: seq<Entry>, i: nat, before: Snapshot, mid: Snapshot, now: Snapshot)
    requires i < |entries| && Untouched(entries, i, before, mid) && OthersKept(entries[i].name, mid, now)
    ensures Untouched(entries, i + 1, before, now)
  {
    forall n: string | !ListedBefore(n, entries, i + 1) ensures Kept(n, before, now) {
      assert entries[i].name != n && !ListedBefore(n, entries, i);
      assert Kept(n, before, mid) && Kept(n, mid, now);
    }
  }

  lemma StillSafe(name: string, before: Snapshot, mid: Snapshot, now: Snapshot, begin: int, midClock: int, clock: int)
    requires AllSafe(before, mid, begin, midClock) && begin <= midClock <= clock && OthersKept(name, mid, now)
    requires Kept(name, before, mid) && Safe(name, mid, now, midClock, clock)
    ensures AllSafe(before, now, begin, clock)
  {
    forall n: string ensures Safe(n, before, now, begin, clock) {
      assert Safe(n, before, mid, begin, midClock);
      if n != name {
        assert Kept(n, mid, now);
      }
    }
  }

  lemma ExpiredStays(n: string, lifetime: Lifetime, before: Snapshot, mid: Snapshot, now: Snapshot,
                     begin: int, midClock: int, clock: int)
    requires Expired(n, lifetime, before, mid, begin, midClock) && midClock <= clock && Kept(n, mid, now)
    ensures Expired(n, lifetime, before, now, begin, clock)
  {
  }

  lemma ExpiredNow(n: string, lifetime: Lifetime, before: Snapshot, mid: Snapshot, now: Snapshot,
                   begin: int, midClock: int, clock: int)
    requires Kept(n, before, mid) && begin <= midClock && Expired(n, lifetime, mid, now, midClock, clock)
    ensures Expired(n, lifetime, before, now, begin, clock)
  {
  }

  lemma StillHandled(entries: seq<Entry>, i: nat, before: Snapshot, mid: Snapshot, now: Snapshot, roomy: bool,
                     begin: int, midClock: int, clock: int)
    requires i < |entries| && Handled(entries, i, before, mid, roomy, begin, midClock) && begin <= midClock <= clock
    requires forall k | 0 <= k < i :: entries[k].name != entries[i].name
    requires OthersKept(entries[i].name, mid, now) && Kept(entries[i].name, before, mid)
    requires roomy || NeedsNoSlot(entries[i].name, mid) ==>
      Expired(entries[i].name, entries[i].lifetime, mid, now, midClock, clock)
    ensures Handled(entries, i + 1, before, now, roomy, begin, clock)
  {
    forall k | 0 <= k <= i && (roomy || NeedsNoSlot(entries[k].name, before))
      ensures Expired(entries[k].name, entries[k].lifetime, before, now, begin, clock)
    {
      if k == i {
        ExpiredNow(entries[k].name, entries[k].lifetime, before, mid, now, begin, midClock, clock);
      } else {
        assert Kept(entries[k].name, mid, now);
        ExpiredStays(entries[k].name, entries[k].lifetime, before, mid, now, begin, midClock, clock);
      }
    }
  }
}
