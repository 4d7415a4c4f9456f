/** The Bluetooth stack as the battery scanner sees it: an adversary that answers every call
    as it likes. What was called, and what was answered, is kept in a log. */
module Radio {
  import opened Wrappers

  type Address = nat

  const ENOTCONN: int := 7
  const EALREADY: int := 2

  datatype Call =
    | Find(peer: Address, rc: int, handle: int)     // ble_gap_conn_find_by_addr
    | Terminate(handle: int, rc: int)               // ble_gap_terminate
    | Delay                                         // vTaskDelay of a quarter second
    | Sleep                                         // vTaskDelay of the scan period
    | Ticks                                         // xTaskGetTickCount
    | ConnActive(active: bool)                      // ble_gap_conn_active
    | ConnCancel(rc: int)                           // ble_gap_conn_cancel
    | AwaitBits                                     // xEventGroupWaitBits
    | ManagerReset(ok: bool)                        // ble_manager_reset
    | ReplaceProbe(peer: Address)                   // g_probe overwritten
    | Connect(peer: Address, rc: int)               // ble_gap_connect
    | Interrogate(ok: bool)                         // a discovery, subscription or request exchange
    | Gate(open: bool)                              // ble_manager_wait_until_synced
    | Scan(rc: int, found: seq<Address>)            // ble_gap_disc and the reports that came of it

  const TICK_MODULUS: nat := 0x1_0000_0000
  const DELAY_TICKS: nat := 25      // 250 ms at 100 ticks a second
  /** No single call takes this many ticks, some four months. */
  const STALL: nat := 0x4000_0000

  /** What a log adds up to. outstanding is the peer of the last connection attempt that
      was accepted and has not been cleaned up since; it is cleaned up by a lookup that
      finds the peer absent while no connection attempt is in progress, or by a completed
      reset of the stack. safe says that no probe was replaced and no connection attempted
      while one was outstanding; attempts are the peers of the connection attempts, scans what each
      scan begun has found. */
  datatype Ledger = Ledger(
    delays: nat, terminations: nat, attempts: seq<Address>, scans: seq<seq<Address>>,
    outstanding: Option<Address>, idle: bool, safe: bool)

  function Enter(l: Ledger, c: Call): Ledger {
    match c
    case Delay => l.(delays := l.delays + 1)
    case Terminate(_, _) => l.(terminations := l.terminations + 1)
    case Find(peer, rc, _) =>
      if rc == ENOTCONN && l.idle && l.outstanding == Some(peer) then l.(outstanding := None) else l
    case ConnActive(active) => l.(idle := !active)
    case Scan(rc, found) => l.(scans := l.scans + [if rc == 0 then found else []])
    case ManagerReset(ok) => if ok then l.(outstanding := None) else l
    case ReplaceProbe(_) => l.(safe := l.safe && l.outstanding.None?)
    case Connect(peer, rc) =>
      var checked := l.(attempts := l.attempts + [peer], safe := l.safe && l.outstanding.None?);
      if rc == 0 then checked.(outstanding := Some(peer), idle := false) else checked
    case _ => l
  }

  function Book(log: seq<Call>): Ledger {
    if |log| == 0 then Ledger(0, 0, [], [], None, true, true) else Enter(Book(log[..|log| - 1]), log[|log| - 1])
  }

  predicate StartsProbe(c: Call) {
    c.ReplaceProbe? || c.Connect?
  }

  /** The safe flag of the book is a statement about every call in the log. */
  lemma {:induction false} SafeMeansEveryProbe(log: seq<Call>)
    ensures Book(log).safe <==>
      forall i | 0 <= i < |log| && StartsProbe(log[i]) :: Book(log[..i]).outstanding.None?
  {
    if |log| > 0 {
      var front := log[..|log| - 1];
      SafeMeansEveryProbe(front);
      forall i | 0 <= i < |front| ensures log[..i] == front[..i] && log[i] == front[i] {
      }
    }
  }

  class Stack {
    var now: nat  // ticks since boot, never wrapped
    ghost var log: seq<Call>

    constructor (start: nat)
      ensures log == [] && now == start
    {
      now := start;
      log := [];
    }

    /** Time passes and the call is recorded. */
    method Record(ghost call: Call, least: nat)
      requires least < STALL
      modifies this
      ensures log == old(log) + [call] && Book(log) == Enter(Book(old(log)), call)
      ensures old(now) + least <= now < old(now) + STALL
    {
      var spent :| least <= spent < STALL;
      now := now + spent;
      assert (log + [call])[..|log|] == log;
      log := log + [call];
    }

    method FindByAddr(peer: Address) returns (rc: int, handle: int)
      modifies this
      ensures log == old(log) + [Find(peer, rc, handle)] && Book(log) == Enter(Book(old(log)), Find(peer, rc, handle))
      ensures old(now) <= now < old(now) + STALL
    {
      rc, handle := *, *;
      Record(Find(peer, rc, handle), 0);
    }

    method TerminateLink(handle: int) returns (rc: int)
      modifies this
      ensures log == old(log) + [Terminate(handle, rc)] && Book(log) == Enter(Book(old(log)), Terminate(handle, rc))
      ensures old(now) <= now < old(now) + STALL
    {
      rc := *;
      Record(Terminate(handle, rc), 0);
    }

    method Wait()
      modifies this
      ensures log == old(log) + [Delay] && Book(log) == Enter(Book(old(log)), Delay)
      ensures old(now) + 25 <= now < old(now) + STALL
    {
      Record(Delay, DELAY_TICKS);
    }

    method Pause()
      modifies this
      ensures log == old(log) + [Sleep] && Book(log) == Enter(Book(old(log)), Sleep)
    {
      Record(Sleep, 0);
    }

    /** The tick counter is 32 bits wide. */
    method TickCount() returns (ticks: nat)
      modifies this
      ensures log == old(log) + [Ticks] && Book(log) == Enter(Book(old(log)), Ticks)
      ensures ticks == now % 0x1_0000_0000
      ensures old(now) <= now < old(now) + STALL
    {
      Record(Ticks, 0);
      ticks := now % TICK_MODULUS;
    }

    method GapConnActive() returns (active: bool)
      modifies this
      ensures log == old(log) + [ConnActive(active)] && Book(log) == Enter(Book(old(log)), ConnActive(active))
    {
      active := *;
      Record(ConnActive(active), 0);
    }

    method GapConnCancel() returns (rc: int)
      modifies this
      ensures log == old(log) + [ConnCancel(rc)] && Book(log) == Enter(Book(old(log)), ConnCancel(rc))
    {
      rc := *;
      Record(ConnCancel(rc), 0);
    }

    method WaitBits()
      modifies this
      ensures log == old(log) + [AwaitBits] && Book(log) == Enter(Book(old(log)), AwaitBits)
    {
      Record(AwaitBits, 0);
    }

    method ResetManager() returns (ok: bool)
      modifies this
      ensures log == old(log) + [ManagerReset(ok)] && Book(log) == Enter(Book(old(log)), ManagerReset(ok))
    {
      ok := *;
      Record(ManagerReset(ok), 0);
    }

    method GapConnect(peer: Address) returns (rc: int)
      modifies this
      ensures log == old(log) + [Connect(peer, rc)] && Book(log) == Enter(Book(old(log)), Connect(peer, rc))
    {
      rc := *;
      Record(Connect(peer, rc), 0);
    }

    method Exchange() returns (ok: bool)
      modifies this
      ensures log == old(log) + [Interrogate(ok)] && Book(log) == Enter(Book(old(log)), Interrogate(ok))
    {
      ok := *;
      Record(Interrogate(ok), 0);
    }

    method WaitUntilSynced() returns (open: bool)
      modifies this
      ensures log == old(log) + [Gate(open)] && Book(log) == Enter(Book(old(log)), Gate(open))
    {
      open := *;
      Record(Gate(open), 0);
    }

    method Discover() returns (rc: int, found: seq<Address>)
      modifies this
      ensures log == old(log) + [Scan(rc, found)] && Book(log) == Enter(Book(old(log)), Scan(rc, found))
    {
      rc, found := *, *;
      Record(Scan(rc, found), 0);
    }
  }
}
