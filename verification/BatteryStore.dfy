/** The battery store: a fixed number of slots, overwritten in place. */
module BatteryStore {
  import opened BatteryTable
  import opened Wrappers

  class Store {
    const slots: array<Slot>
    ghost var events: seq<Event>     // the observations recorded so far

    constructor (capacity: nat)
      requires capacity >= 1
      ensures Valid() && events == [] && slots.Length == capacity && fresh(slots)
    {
      slots := new Slot[capacity](_ => Empty);
      events := [];
    }

    /** The table is the most recent part of what was recorded (TableIsMostRecent), each record
        with the scalar fields of its battery's latest observation. */
    ghost predicate Valid()
      reads this, slots
    {
      slots.Length >= 1 && Table(slots[..], Latest(events))
    }

    method FindByName(name: string) returns (found: bool, i: nat)
      ensures found <==> HasName(slots[..], name)
      ensures found ==> i < slots.Length && slots[i].Occupied? && slots[i].record.name == name
    {
      found, i := false, 0;
      while i < slots.Length
        invariant i <= slots.Length
        invariant forall k | 0 <= k < i :: !(slots[k].Occupied? && slots[k].record.name == name)
      {
        if slots[i].Occupied? && slots[i].record.name == name {
          assert slots[..][i] == slots[i];
          return true, i;
        }
        i := i + 1;
      }
    }

    method FindEmpty() returns (found: bool, i: nat)
      ensures found ==> i < slots.Length && slots[i].Empty?
      ensures !found ==> forall k | 0 <= k < slots.Length :: slots[k].Occupied?
    {
      found, i := false, 0;
      while i < slots.Length
        invariant i <= slots.Length && forall k | 0 <= k < i :: slots[k].Occupied?
      {
        if slots[i].Empty? {
          return true, i;
        }
        i := i + 1;
      }
    }

    method FindLeastRecentlySeen() returns (oldest: nat)
      requires slots.Length >= 1 && forall k | 0 <= k < slots.Length :: slots[k].Occupied?
      ensures oldest < slots.Length
      ensures forall k | 0 <= k < slots.Length :: slots[oldest].record.lastSeen <= slots[k].record.lastSeen
    {
      oldest := 0;
      for i := 1 to slots.Length
        invariant oldest < slots.Length
        invariant forall k | 0 <= k < i :: slots[oldest].record.lastSeen <= slots[k].record.lastSeen
      {
        if slots[i].record.lastSeen < slots[oldest].record.lastSeen {
          oldest := i;
        }
      }
    }

    method ChooseSlot(name: string) returns (i: nat)
      requires slots.Length >= 1
      ensures Fit(slots[..], i, name)
    {
      var found;
      found, i := FindByName(name);
      if !found {
        found, i := FindEmpty();
        if !found {
          i := FindLeastRecentlySeen();
        }
      }
    }

    /** battery_store_record_observation, no earlier than any before it. */
    method RecordObservation(name: string, o: Observation, now: int) returns (ok: bool)
      requires Valid() && NotAfter(Latest(events), now)
      modifies this, slots
      ensures Valid()
      ensures ok <==>
        && 0 < |name| < 32 && (forall i | 0 <= i < |name| :: 0x21 <= name[i] as int <= 0x7e)
        && (o.cells.Some? ==> 0 < |o.cells.value| < 33 && o.scalars.reportedCells == |o.cells.value|)
      ensures events == if ok then old(events) + [Event(name, o, now)] else old(events)
      ensures !ok ==> slots[..] == old(slots[..])
      ensures ok ==> Recorded(old(slots[..]), slots[..], name, o, now) && NotAfter(Latest(events), now)
      ensures HoldsMostRecent(slots[..], Latest(events))
    {
      ok := ValidName(name) && ValidObservation(o);
      if !ok {
        MostRecent(slots[..], Latest(events));
        return;
      }
      var i := ChooseSlot(name);
      ghost var before := slots[..];
      var record := Written(slots[i], name, o, now);
      PutKeepsTable(before, Latest(events), i, record, Sighting(o, now));
      slots[i] := Occupied(record);
      assert slots[..] == before[i := Occupied(record)];
      events := events + [Event(name, o, now)];
      assert events[..|events| - 1] == old(events);
      MostRecent(slots[..], Latest(events));
    }
  }

  /** How StaleCells comes about: in a store with one slot, a battery seen with cells, then another
      without, of the same reported number. The second has the cells of the first. */
  method InheritCells(first: string, second: string, withCells: Observation, without: Observation, at: int, later: int)
    returns (store: Store)
    requires ValidName(first) && ValidName(second) && first != second && at <= later
    requires ValidObservation(withCells) && withCells.cells.Some? && without.cells.None?
    requires without.scalars.reportedCells == withCells.scalars.reportedCells
    ensures store.Valid() && store.slots.Length == 1
    ensures store.slots[0]
         == Occupied(Record(second, without.scalars, Some(Cells(withCells.cells.value, at)), later))
  {
    store := new Store(1);
    var ok := store.RecordObservation(first, withCells, at);
    assert store.slots[0] == Occupied(Record(first, withCells.scalars, Some(Cells(withCells.cells.value, at)), at));
    ok := store.RecordObservation(second, without, later);
  }

  /** One slot was overwritten by the observation. */
  ghost predicate Recorded(before: seq<Slot>, after: seq<Slot>, name: string, o: Observation, now: int) {
    exists i: nat | Fit(before, i, name) :: after == before[i := Occupied(Written(before[i], name, o, now))]
  }

  /** Who is in the table, in terms of when the batteries were last seen. */
  ghost predicate HoldsMostRecent(slots: seq<Slot>, latest: map<string, Sighting>) {
    && (forall n: string :: HasName(slots, n) ==> n in latest && |LaterThan(latest, n)| < |slots|)
    && (forall n | n in latest && |NotBefore(latest, n)| < |slots| :: HasName(slots, n))
    && (TimesDiffer(latest) ==> forall n | n in latest && |LaterThan(latest, n)| < |slots| :: HasName(slots, n))
  }

  lemma MostRecent(slots: seq<Slot>, latest: map<string, Sighting>)
    requires Table(slots, latest)
    ensures HoldsMostRecent(slots, latest)
  {
    forall n: string
      ensures HasName(slots, n) ==> n in latest && |LaterThan(latest, n)| < |slots|
      ensures n in latest && |NotBefore(latest, n)| < |slots| ==> HasName(slots, n)
      ensures TimesDiffer(latest) && n in latest && |LaterThan(latest, n)| < |slots| ==> HasName(slots, n)
    {
      TableIsMostRecent(slots, latest, n);
    }
  }
}
