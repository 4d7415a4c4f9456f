/** The battery table as values: slots, what an observation writes, and which batteries the
    table keeps. */
module BatteryTable {
  import opened Wrappers

  const CELL_MAX: nat := 32
  const NAME_MAX: nat := 31

  datatype Scalars = Scalars(
    voltage: real, current: real, soc: real, cycles: nat, protection: nat,
    reportedCells: nat, temperature: Option<real>)

  datatype Observation = Observation(scalars: Scalars, cells: Option<seq<nat>>)

  /** Cell voltages and when they were seen. */
  datatype Cells = Cells(millivolts: seq<nat>, seenAt: int)

  datatype Record = Record(name: string, scalars: Scalars, cells: Option<Cells>, lastSeen: int)

  datatype Slot = Empty | Occupied(record: Record)

  predicate ValidName(name: string) {
    1 <= |name| <= NAME_MAX && forall i | 0 <= i < |name| :: '!' <= name[i] <= '~'
  }

  predicate ValidObservation(o: Observation) {
    o.cells.Some? ==> 1 <= |o.cells.value| <= CELL_MAX && |o.cells.value| == o.scalars.reportedCells
  }

  // ---- What an observation writes ----------------------------------------------------

  /** write_record: cells that are not observed stay when the slot had some and the reported
      number is the same. */
  function Written(slot: Slot, name: string, o: Observation, now: int): Record {
    var preserved := slot.Occupied? && slot.record.cells.Some?
      && slot.record.scalars.reportedCells == o.scalars.reportedCells;
    Record(name, o.scalars,
           if o.cells.Some? then Some(Cells(o.cells.value, now))
           else if preserved then slot.record.cells
           else None,
           now)
  }

  /** The cells of a new record are another battery's exactly when its slot is taken from a
      battery with cells, the reported numbers agree and no cells were observed. */
  lemma StaleCells(slot: Slot, name: string, o: Observation, now: int)
    requires slot.Occupied? && slot.record.name != name
    requires slot.record.cells.Some? ==> slot.record.cells.value.seenAt < now
    ensures Written(slot, name, o, now).cells.Some? && Written(slot, name, o, now).cells.value.seenAt < now
      <==> o.cells.None? && slot.record.cells.Some? && slot.record.scalars.reportedCells == o.scalars.reportedCells
  {
  }

  // ---- Which batteries are kept ------------------------------------------------------

  /** The latest observation of each battery ever seen. */
  datatype Sighting = Sighting(observation: Observation, at: int)

  datatype Event = Event(name: string, observation: Observation, at: int)

  function Latest(events: seq<Event>): map<string, Sighting> {
    if |events| == 0 then map[]
    else
      var e := events[|events| - 1];
      Latest(events[..|events| - 1])[e.name := Sighting(e.observation, e.at)]
  }

  ghost predicate HasName(slots: seq<Slot>, name: string) {
    exists i | 0 <= i < |slots| :: slots[i].Occupied? && slots[i].record.name == name
  }

  ghost predicate Distinct(slots: seq<Slot>) {
    forall i, j | 0 <= i < j < |slots| :: slots[i].Occupied? && slots[j].Occupied? ==>
      slots[i].record.name != slots[j].record.name
  }

  /** The scalar fields of a record are those of its battery's latest observation. */
  predicate Current(record: Record, latest: map<string, Sighting>) {
    && record.name in latest
    && record.scalars == latest[record.name].observation.scalars && record.lastSeen == latest[record.name].at
  }

  ghost predicate AllCurrent(slots: seq<Slot>, latest: map<string, Sighting>) {
    forall i | 0 <= i < |slots| && slots[i].Occupied? :: Current(slots[i].record, latest)
  }

  /** No battery was turned away while there was room. */
  ghost predicate RoomUsed(slots: seq<Slot>, latest: map<string, Sighting>) {
    forall i, n: string | 0 <= i < |slots| && slots[i].Empty? && n in latest :: HasName(slots, n)
  }

  /** Nobody who is kept was seen before somebody who is not. */
  ghost predicate LatestKept(slots: seq<Slot>, latest: map<string, Sighting>) {
    forall i, n: string | 0 <= i < |slots| && slots[i].Occupied? && n in latest && !HasName(slots, n) ::
      latest[n].at <= slots[i].record.lastSeen
  }

  ghost predicate Table(slots: seq<Slot>, latest: map<string, Sighting>) {
    Distinct(slots) && AllCurrent(slots, latest) && RoomUsed(slots, latest) && LatestKept(slots, latest)
  }

  ghost predicate NotAfter(latest: map<string, Sighting>, now: int) {
    forall n | n in latest :: latest[n].at <= now
  }

  // ---- One observation ---------------------------------------------------------------

  lemma NamesPut(slots: seq<Slot>, i: nat, r: Record, n: string)
    requires i < |slots| && Distinct(slots)
    ensures HasName(slots[i := Occupied(r)], n) <==>
      n == r.name || (HasName(slots, n) && !(slots[i].Occupied? && slots[i].record.name == n))
  {
    var after := slots[i := Occupied(r)];
    assert after[i].record.name == r.name;
    if HasName(slots, n) && !(slots[i].Occupied? && slots[i].record.name == n) {
      var k :| 0 <= k < |slots| && slots[k].Occupied? && slots[k].record.name == n;
      assert after[k] == slots[k];
    }
    if HasName(after, n) && n != r.name {
      var k :| 0 <= k < |after| && after[k].Occupied? && after[k].record.name == n;
      assert after[k] == slots[k];
    }
  }

  /** Slot i may take the battery: it is its own; or the battery has none and the slot is
      empty, or no slot is and this one was seen least recently. */
  ghost predicate Fit(slots: seq<Slot>, i: nat, name: string) {
    && i < |slots|
    && if HasName(slots, name) then slots[i].Occupied? && slots[i].record.name == name
       else slots[i].Empty? || forall k | 0 <= k < |slots| :: slots[k].Occupied? && slots[i].record.lastSeen <= slots[k].record.lastSeen
  }

  lemma PutDistinct(slots: seq<Slot>, i: nat, r: Record)
    requires Distinct(slots) && Fit(slots, i, r.name)
    ensures Distinct(slots[i := Occupied(r)])
  {
    var after := slots[i := Occupied(r)];
    forall j, k | 0 <= j < k < |after| && after[j].Occupied? && after[k].Occupied?
      ensures after[j].record.name != after[k].record.name
    {
      assert after[j] == slots[j] || after[k] == slots[k];
    }
  }

  lemma PutCurrent(slots: seq<Slot>, latest: map<string, Sighting>, i: nat, r: Record, s: Sighting)
    requires Distinct(slots) && Fit(slots, i, r.name) && AllCurrent(slots, latest)
    requires r.scalars == s.observation.scalars && r.lastSeen == s.at
    ensures AllCurrent(slots[i := Occupied(r)], latest[r.name := s])
  {
    PutDistinct(slots, i, r);
    var after := slots[i := Occupied(r)];
    forall k | 0 <= k < |after| && after[k].Occupied? ensures Current(after[k].record, latest[r.name := s]) {
      if k != i {
        assert after[k] == slots[k] && after[k].record.name != after[i].record.name;
      }
    }
  }

  lemma PutUsesRoom(slots: seq<Slot>, latest: map<string, Sighting>, i: nat, r: Record, s: Sighting)
    requires Table(slots, latest) && Fit(slots, i, r.name)
    ensures RoomUsed(slots[i := Occupied(r)], latest[r.name := s])
  {
    var after := slots[i := Occupied(r)];
    forall k, n: string | 0 <= k < |after| && after[k].Empty? && n in latest[r.name := s]
      ensures HasName(after, n)
    {
      NamesPut(slots, i, r, n);
      assert slots[k].Empty?;
    }
  }

  lemma PutKeepsLatest(slots: seq<Slot>, latest: map<string, Sighting>, i: nat, r: Record, s: Sighting)
    requires Table(slots, latest) && Fit(slots, i, r.name) && NotAfter(latest, s.at) && r.lastSeen == s.at
    ensures LatestKept(slots[i := Occupied(r)], latest[r.name := s])
  {
    var after := slots[i := Occupied(r)];
    forall k, n: string | 0 <= k < |after| && after[k].Occupied? && n in latest[r.name := s] && !HasName(after, n)
      ensures latest[r.name := s][n].at <= after[k].record.lastSeen
    {
      NamesPut(slots, i, r, n);
      if k != i {
        assert after[k] == slots[k] && Current(slots[k].record, latest);
        if HasName(slots, n) {
          assert Current(slots[i].record, latest);
        }
      }
    }
  }

  /** An observation written to a fitting slot keeps the table what it is. */
  lemma PutKeepsTable(slots: seq<Slot>, latest: map<string, Sighting>, i: nat, r: Record, s: Sighting)
    requires Table(slots, latest) && Fit(slots, i, r.name) && NotAfter(latest, s.at)
    requires r.scalars == s.observation.scalars && r.lastSeen == s.at
    ensures Table(slots[i := Occupied(r)], latest[r.name := s])
  {
    PutDistinct(slots, i, r);
    PutCurrent(slots, latest, i, r, s);
    PutUsesRoom(slots, latest, i, r, s);
    PutKeepsLatest(slots, latest, i, r, s);
  }

  // ---- What the table holds ----------------------------------------------------------

  /** The batteries whose latest sighting is later than that of n. */
  function LaterThan(latest: map<string, Sighting>, n: string): set<string>
    requires n in latest
  {
    set m | m in latest && latest[m].at > latest[n].at
  }

  /** The others that were not seen before n. */
  function NotBefore(latest: map<string, Sighting>, n: string): set<string>
    requires n in latest
  {
    set m | m in latest && m != n && latest[m].at >= latest[n].at
  }

  ghost predicate TimesDiffer(latest: map<string, Sighting>) {
    forall n, m | n in latest && m in latest && n != m :: latest[n].at != latest[m].at
  }

  function NamesOf(slots: seq<Slot>): set<string> {
    set i | 0 <= i < |slots| && slots[i].Occupied? :: slots[i].record.name
  }

  lemma NamesOfIs(slots: seq<Slot>, n: string)
    ensures n in NamesOf(slots) <==> HasName(slots, n)
  {
  }

  lemma {:induction false} NamesCount(slots: seq<Slot>)
    requires Distinct(slots)
    ensures |NamesOf(slots)| <= |slots|
    ensures (forall i | 0 <= i < |slots| :: slots[i].Occupied?) ==> |NamesOf(slots)| == |slots|
  {
    if |slots| > 0 {
      var rest, last := slots[..|slots| - 1], slots[|slots| - 1];
      NamesCount(rest);
      if last.Occupied? {
        assert NamesOf(slots) == NamesOf(rest) + {last.record.name};
        NamesOfIs(rest, last.record.name);
        assert last.record.name !in NamesOf(rest);
      } else {
        assert NamesOf(slots) == NamesOf(rest);
      }
    }
  }

  lemma SubsetSize(a: set<string>, b: set<string>)
    requires a <= b
    ensures |a| <= |b|
  {
    assert b == a + (b - a);
  }

  lemma KeptIsRecent(slots: seq<Slot>, latest: map<string, Sighting>, n: string)
    requires Table(slots, latest) && HasName(slots, n)
    ensures n in latest && |LaterThan(latest, n)| < |slots|
  {
    var k :| 0 <= k < |slots| && slots[k].Occupied? && slots[k].record.name == n;
    assert Current(slots[k].record, latest);
    forall m | m in LaterThan(latest, n) ensures m in NamesOf(slots) - {n} {
      NamesOfIs(slots, m);
    }
    NamesOfIs(slots, n);
    NamesCount(slots);
    SubsetSize(LaterThan(latest, n), NamesOf(slots) - {n});
  }

  lemma DroppedIsNotRecent(slots: seq<Slot>, latest: map<string, Sighting>, n: string)
    requires Table(slots, latest) && n in latest && !HasName(slots, n)
    ensures |NotBefore(latest, n)| >= |slots|
  {
    forall i | 0 <= i < |slots| ensures slots[i].Occupied? {
      assert slots[i].Empty? ==> HasName(slots, n);
    }
    forall m | m in NamesOf(slots) ensures m in NotBefore(latest, n) {
      var i :| 0 <= i < |slots| && slots[i].Occupied? && slots[i].record.name == m;
      assert Current(slots[i].record, latest);
    }
    NamesCount(slots);
    SubsetSize(NamesOf(slots), NotBefore(latest, n));
  }

  /** The table holds the most recently seen batteries, as many as it has slots: everyone with
      fewer others seen at the same time or later, and nobody with as many seen later. When no
      two were seen at the same time, that is exactly who. */
  lemma TableIsMostRecent(slots: seq<Slot>, latest: map<string, Sighting>, n: string)
    requires Table(slots, latest)
    ensures HasName(slots, n) ==> n in latest && |LaterThan(latest, n)| < |slots|
    ensures n in latest && |NotBefore(latest, n)| < |slots| ==> HasName(slots, n)
    ensures TimesDiffer(latest) ==> (HasName(slots, n) <==> n in latest && |LaterThan(latest, n)| < |slots|)
  {
    if HasName(slots, n) {
      KeptIsRecent(slots, latest, n);
    } else if n in latest {
      DroppedIsNotRecent(slots, latest, n);
      assert TimesDiffer(latest) ==> NotBefore(latest, n) == LaterThan(latest, n);
    }
  }

  // ---- Runs --------------------------------------------------------------------------

  /** Event i is the last one of the battery. */
  predicate IsLast(events: seq<Event>, i: nat, n: string) {
    i < |events| && events[i].name == n && forall k | i < k < |events| :: events[k].name != n
  }

  lemma IsLastNext(events: seq<Event>, e: Event, i: nat, n: string)
    ensures IsLast(events + [e], i, n) <==> if i == |events| then e.name == n else e.name != n && IsLast(events, i, n)
  {
    var all := events + [e];
    assert all[|events|] == e;
    assert forall k | 0 <= k < |events| :: all[k] == events[k];
  }

  /** Latest is what the name says: the last event of the battery. */
  lemma {:induction false} LatestIsLast(events: seq<Event>, i: nat, n: string)
    requires IsLast(events, i, n)
    ensures n in Latest(events) && Latest(events)[n] == Sighting(events[i].observation, events[i].at)
  {
    var before, e := events[..|events| - 1], events[|events| - 1];
    assert events == before + [e];
    IsLastNext(before, e, i, n);
    if i < |before| {
      LatestIsLast(before, i, n);
    }
  }
}
