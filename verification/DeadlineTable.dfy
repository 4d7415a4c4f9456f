/** The table of parameter deadlines of config_flags.cpp: 32 slots that stand for a map. Times
    are microseconds since start-up. */
module DeadlineTable {
  const SLOTS: nat := 32
  const SECOND: int := 1000000
  const UINT32_LIMIT: int := 0x1_0000_0000

  type Lifetime = n: int | 0 <= n < UINT32_LIMIT

  datatype Deadline = Deadline(lifetime: Lifetime, at: int)

  datatype Slot = Free | Used(name: string, deadline: Deadline)

  // ---- Slots as a map ----------------------------------------------------------------

  ghost predicate Distinct(slots: seq<Slot>) {
    forall i, j | 0 <= i < j < |slots| :: slots[i].Used? && slots[j].Used? ==> slots[i].name != slots[j].name
  }

  ghost predicate HasSlot(slots: seq<Slot>, name: string) {
    exists i | 0 <= i < |slots| :: slots[i].Used? && slots[i].name == name
  }

  function CountUsed(slots: seq<Slot>): (n: nat)
    ensures n <= |slots|
  {
    if |slots| == 0 then 0 else CountUsed(slots[1..]) + if slots[0].Used? then 1 else 0
  }

  /** The used slots hold exactly the pairs of the map, each once. */
  ghost predicate Represents(slots: seq<Slot>, m: map<string, Deadline>) {
    CountUsed(slots) == |m| && Distinct(slots) && Pairs(slots, m) && AllHaveSlots(slots, m)
  }

  ghost predicate AllHaveSlots(slots: seq<Slot>, m: map<string, Deadline>) {
    forall n {:trigger HasSlot(slots, n)} :: n in m ==> HasSlot(slots, n)
  }

  ghost predicate Pairs(slots: seq<Slot>, m: map<string, Deadline>) {
    forall i | 0 <= i < |slots| && slots[i].Used? :: slots[i].name in m && m[slots[i].name] == slots[i].deadline
  }

  lemma {:induction false} CountUpdate(slots: seq<Slot>, i: nat, s: Slot)
    requires i < |slots|
    ensures CountUsed(slots[i := s]) + (if slots[i].Used? then 1 else 0)
         == CountUsed(slots) + if s.Used? then 1 else 0
  {
    if i == 0 {
      assert slots[i := s][1..] == slots[1..];
    } else {
      CountUpdate(slots[1..], i - 1, s);
      assert slots[i := s][1..] == slots[1..][i - 1 := s];
    }
  }

  lemma {:induction false} CountFull(slots: seq<Slot>)
    ensures CountUsed(slots) == |slots| <==> forall i | 0 <= i < |slots| :: slots[i].Used?
  {
    if |slots| > 0 {
      CountFull(slots[1..]);
      assert forall i | 1 <= i < |slots| :: slots[i] == slots[1..][i - 1];
    }
  }

  lemma {:induction false} CountNone(slots: seq<Slot>)
    requires forall i | 0 <= i < |slots| :: slots[i].Free?
    ensures CountUsed(slots) == 0
  {
    if |slots| > 0 {
      CountNone(slots[1..]);
    }
  }

  lemma ClearedNames(slots: seq<Slot>, m: map<string, Deadline>, i: nat)
    requires Represents(slots, m) && i < |slots| && slots[i].Used?
    ensures AllHaveSlots(slots[i := Free], m - {slots[i].name})
  {
    var after := slots[i := Free];
    forall n | n in m - {slots[i].name} ensures HasSlot(after, n) {
      assert HasSlot(slots, n);
      var k :| 0 <= k < |slots| && slots[k].Used? && slots[k].name == n;
      assert after[k] == slots[k];
    }
  }

  lemma ClearedPairs(slots: seq<Slot>, m: map<string, Deadline>, i: nat)
    requires Distinct(slots) && Pairs(slots, m) && i < |slots| && slots[i].Used?
    ensures Distinct(slots[i := Free]) && Pairs(slots[i := Free], m - {slots[i].name})
  {
    var after := slots[i := Free];
    forall k | 0 <= k < |slots| && after[k].Used? ensures after[k] == slots[k] && after[k].name != slots[i].name {
    }
  }

  /** Clearing a slot removes its name. */
  lemma ClearSlot(slots: seq<Slot>, m: map<string, Deadline>, i: nat)
    requires Represents(slots, m) && i < |slots| && slots[i].Used?
    ensures Represents(slots[i := Free], m - {slots[i].name})
  {
    CountUpdate(slots, i, Free);
    RemovedOne(m, slots[i].name);
    ClearedNames(slots, m, i);
    ClearedPairs(slots, m, i);
  }

  lemma RemovedOne(m: map<string, Deadline>, name: string)
    requires name in m
    ensures |m - {name}| == |m| - 1
  {
    assert (m - {name}).Keys == m.Keys - {name};
    assert |(m - {name}).Keys| == |m.Keys| - 1;
  }

  /** Writing a slot that is the name's own, or free when the name has none. */
  lemma WriteSlot(slots: seq<Slot>, m: map<string, Deadline>, i: nat, name: string, d: Deadline)
    requires Represents(slots, m) && i < |slots|
    requires if slots[i].Used? then slots[i].name == name else name !in m
    ensures Represents(slots[i := Used(name, d)], m[name := d])
  {
    var after := slots[i := Used(name, d)];
    CountUpdate(slots, i, Used(name, d));
    assert after[i].Used? && after[i].name == name;
    forall n | n in m[name := d] ensures HasSlot(after, n) {
      if n != name {
        assert HasSlot(slots, n);
        var k :| 0 <= k < |slots| && slots[k].Used? && slots[k].name == n;
        assert after[k] == slots[k];
      }
    }
  }

  // ---- The table ---------------------------------------------------------------------

  /** Whole seconds left, rounded up. */
  function Remaining(at: int, now: int): (r: int)
    ensures r >= 0
    ensures r == 0 <==> at <= now
  {
    if at > now then (at - now + 999999) / SECOND else 0
  }

  class Table {
    const slots: array<Slot>
    ghost var deadlines: map<string, Deadline>

    constructor ()
      ensures Valid() && deadlines == map[] && fresh(slots)
    {
      slots := new Slot[SLOTS](_ => Free);
      deadlines := map[];
      new;
      CountNone(slots[..]);
    }

    ghost predicate Valid()
      reads this, slots
    {
      slots.Length == SLOTS && Represents(slots[..], deadlines)
    }

    /** The table as it is after a restart. */
    method Clear()
      requires Valid()
      modifies this, slots
      ensures Valid() && deadlines == map[]
    {
      for i := 0 to SLOTS
        invariant forall k | 0 <= k < i :: slots[k].Free?
      {
        slots[i] := Free;
      }
      deadlines := map[];
      CountNone(slots[..]);
    }

    /** The search of deadline_drop and deadline_query; SLOTS when the name has no slot. */
    method Find(name: string) returns (i: nat)
      requires Valid()
      ensures i <= SLOTS && (i < SLOTS <==> name in deadlines)
      ensures i < SLOTS ==>
        slots[i].Used? && slots[i].name == name && deadlines[name] == slots[i].deadline
    {
      i := 0;
      while i < SLOTS
        invariant i <= SLOTS
        invariant forall k | 0 <= k < i :: !(slots[k].Used? && slots[k].name == name)
      {
        if slots[i].Used? && slots[i].name == name {
          assert slots[..][i].name in deadlines;
          return;
        }
        i := i + 1;
      }
      assert !HasSlot(slots[..], name);
    }

    /** deadline_drop. */
    method Drop(name: string)
      requires Valid()
      modifies this, slots
      ensures Valid() && deadlines == old(deadlines) - {name}
    {
      var i := Find(name);
      if i < SLOTS {
        ghost var before := slots[..];
        ClearSlot(before, deadlines, i);
        slots[i] := Free;
        deadlines := deadlines - {name};
        assert slots[..] == before[i := Free];
      } else {
        assert deadlines - {name} == deadlines;
      }
    }

    /** The search of deadline_refresh: the name's slot, or the first free one. */
    method FindSlot(name: string) returns (found: bool, i: nat)
      requires Valid()
      ensures found <==> name in deadlines || |deadlines| < SLOTS
      ensures found ==> i < SLOTS && if slots[i].Used? then slots[i].name == name else name !in deadlines
    {
      found, i := false, 0;
      for k := 0 to SLOTS
        invariant forall j | 0 <= j < k :: !(slots[j].Used? && slots[j].name == name)
        invariant found ==> i < k && slots[i].Free?
        invariant !found ==> forall j | 0 <= j < k :: slots[j].Used?
      {
        if slots[k].Used? && slots[k].name == name {
          assert slots[..][k].name in deadlines;
          return true, k;
        }
        if !found && slots[k].Free? {
          found, i := true, k;
        }
      }
      CountFull(slots[..]);
      assert !HasSlot(slots[..], name);
    }

    /** deadline_refresh: it fails only for a new name when all slots are used. */
    method Refresh(name: string, lifetime: Lifetime, now: int) returns (stored: bool)
      requires Valid()
      modifies this, slots
      ensures Valid()
      ensures stored <==> name in old(deadlines) || |old(deadlines)| < 32
      ensures deadlines == if stored then old(deadlines)[name := Deadline(lifetime, now + lifetime * 1000000)]
                           else old(deadlines)
    {
      var i;
      stored, i := FindSlot(name);
      if stored {
        var d := Deadline(lifetime, now + lifetime * SECOND);
        WriteSlot(slots[..], deadlines, i, name, d);
        ghost var before := slots[..];
        slots[i] := Used(name, d);
        assert slots[..] == before[i := Used(name, d)];
        deadlines := deadlines[name := d];
      }
    }

    /** deadline_query: the time left, or a new countdown of the full lifetime. */
    method Query(name: string, lifetime: Lifetime, now: int, later: int) returns (found: bool, remaining: int)
      requires Valid() && now <= later
      modifies this, slots
      ensures Valid()
      ensures found <==> name in old(deadlines) || |old(deadlines)| < SLOTS
      ensures name in old(deadlines) ==>
        deadlines == old(deadlines) && remaining == Remaining(deadlines[name].at, now)
      ensures name !in old(deadlines) && found ==>
        deadlines == old(deadlines)[name := Deadline(lifetime, later + lifetime * 1000000)] && remaining == lifetime
      ensures !found ==> deadlines == old(deadlines)
    {
      var i := Find(name);
      if i < SLOTS {
        return true, Remaining(slots[i].deadline.at, now);
      }
      found := Refresh(name, lifetime, later);
      remaining := if found then lifetime else 0;
    }
  }
}
