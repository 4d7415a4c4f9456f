/** The volatile booleans a policy program keeps between its cycles: a small table of names that
    belongs to one program, known by its digest. */
module PolicyState {
  import opened Names
  import opened Wrappers

  const CAPACITY: nat := 8

  datatype Entry = Entry(name: string, value: bool)

  ghost predicate Distinct(entries: seq<Entry>) {
    forall i, j | 0 <= i < j < |entries| :: entries[i].name != entries[j].name
  }

  ghost predicate HasName(entries: seq<Entry>, name: string) {
    exists i | 0 <= i < |entries| :: entries[i].name == name
  }

  /** The table holds exactly the pairs of the map, each once. */
  ghost predicate Represents(entries: seq<Entry>, m: map<string, bool>) {
    && |entries| == |m| && Distinct(entries)
    && (forall i | 0 <= i < |entries| :: entries[i].name in m && m[entries[i].name] == entries[i].value)
    && (forall n | n in m :: HasName(entries, n))
  }

  lemma Replace(entries: seq<Entry>, m: map<string, bool>, i: nat, value: bool)
    requires Represents(entries, m) && i < |entries|
    ensures Represents(entries[i := Entry(entries[i].name, value)], m[entries[i].name := value])
  {
    var name := entries[i].name;
    var after := entries[i := Entry(name, value)];
    assert forall k | 0 <= k < |entries| :: after[k].name == entries[k].name;
    forall n | n in m[name := value] ensures HasName(after, n) {
      var k :| 0 <= k < |entries| && entries[k].name == n;
      assert after[k].name == n;
    }
  }

  lemma Append(entries: seq<Entry>, m: map<string, bool>, e: Entry)
    requires Represents(entries, m) && e.name !in m
    ensures Represents(entries + [e], m[e.name := e.value])
  {
    var after := entries + [e];
    assert forall k | 0 <= k < |entries| :: after[k] == entries[k];
    forall n | n in m[e.name := e.value] ensures HasName(after, n) {
      if n == e.name {
        assert after[|entries|].name == n;
      } else {
        var k :| 0 <= k < |entries| && entries[k].name == n;
        assert after[k].name == n;
      }
    }
  }

  class Store {
    const entries: array<Entry>
    var count: nat
    var digest: Option<seq<int>>          // digest_ and have_digest_
    ghost var contents: map<string, bool>

    constructor ()
      ensures Valid() && contents == map[] && digest == None && fresh(entries)
    {
      entries := new Entry[CAPACITY](_ => Entry("", false));
      count, digest, contents := 0, None, map[];
    }

    ghost predicate Valid()
      reads this, entries
    {
      && entries.Length == CAPACITY && count <= CAPACITY
      && Represents(entries[..count], contents)
      && forall i | 0 <= i < count :: ValidName(entries[i].name)
    }

    method Clear()
      requires Valid()
      modifies this
      ensures Valid() && contents == map[] && digest == None
    {
      count, digest, contents := 0, None, map[];
    }

    method BeginCycle(program: seq<int>)
      requires Valid()
      modifies this
      ensures Valid() && digest == Some(program)
      ensures contents == if old(digest) == Some(program) then old(contents) else map[]
    {
      if digest != Some(program) {
        Clear();
        digest := Some(program);
      }
    }

    method FinishCycle(success: bool)
      requires Valid()
      modifies this
      ensures Valid()
      ensures success ==> contents == old(contents) && digest == old(digest)
      ensures !success ==> contents == map[] && digest == None
    {
      if !success {
        Clear();
      }
    }

    /** The search of get and set. */
    method Find(name: string) returns (i: nat)
      requires Valid()
      ensures i <= count
      ensures i < count ==> entries[i].name == name && name in contents
      ensures i == count ==> name !in contents
    {
      i := 0;
      while i < count && entries[i].name != name
        invariant i <= count && forall j | 0 <= j < i :: entries[j].name != name
      {
        i := i + 1;
      }
      if i < count {
        assert entries[..count][i].name == name;
      } else {
        assert !HasName(entries[..count], name);
      }
    }

    /** get. */
    method Get(name: string, defaultValue: bool) returns (value: bool)
      requires Valid()
      ensures value == if ValidName(name) && name in contents then contents[name] else defaultValue
    {
      if !ValidName(name) {
        return defaultValue;
      }
      var i := Find(name);
      if i < count {
        assert entries[..count][i] == entries[i];
        return entries[i].value;
      }
      value := defaultValue;
    }

    /** set: it fails on a bad name, and on a new one when the table is full. */
    method Set(name: string, value: bool) returns (ok: bool)
      requires Valid()
      modifies this`count, this`contents, entries
      ensures Valid()
      ensures ok <==> ValidName(name) && (name in old(contents) || |old(contents)| < 8)
      ensures contents == if ok then old(contents)[name := value] else old(contents)
    {
      if !ValidName(name) {
        return false;
      }
      var i := Find(name);
      ghost var before := entries[..count];
      if i < count {
        Replace(before, contents, i, value);
        entries[i] := Entry(name, value);
        contents := contents[name := value];
        assert entries[..count] == before[i := Entry(name, value)];
        return true;
      }
      if count == CAPACITY {
        return false;
      }
      Append(before, contents, Entry(name, value));
      entries[count] := Entry(name, value);
      count := count + 1;
      contents := contents[name := value];
      assert entries[..count] == before + [Entry(name, value)];
      ok := true;
    }
  }
}
