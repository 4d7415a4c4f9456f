/** ble_disconnect_peer: up to three termination attempts, each confirmed by polling the
    connection table for at most five seconds of a wrapping tick counter. */
module Disconnect {
  import opened Radio

  const ATTEMPTS: nat := 3
  const TIMEOUT_TICKS: nat := 500   // 5000 ms at 100 ticks a second
  const POLLS: nat := 20            // TIMEOUT_TICKS / DELAY_TICKS

  /** Unsigned 32-bit subtraction. */
  function TicksBetween(later: nat, earlier: nat): nat {
    (later - earlier) % TICK_MODULUS
  }

  /** Short spans are measured right across a wrap; a span of exactly one wrap reads as none. */
  lemma TicksBetweenIsElapsed(start: nat, elapsed: nat)
    ensures TicksBetween((start + elapsed) % TICK_MODULUS, start % TICK_MODULUS) == elapsed % TICK_MODULUS
  {
    var a, b := (start + elapsed) / TICK_MODULUS, start / TICK_MODULUS;
    assert (start + elapsed) % TICK_MODULUS - start % TICK_MODULUS == elapsed - TICK_MODULUS * (a - b);
    ModShift(elapsed, a - b);
  }

  lemma ModShift(n: int, q: int)
    ensures (n - 0x1_0000_0000 * q) % 0x1_0000_0000 == n % 0x1_0000_0000
  {
  }

  ghost predicate EndsInLookup(log: seq<Call>, peer: Address) {
    |log| > 0 && exists rc, handle :: log[|log| - 1] == Find(peer, rc, handle)
  }

  /** The last thing the log tells is that the peer is not connected. */
  ghost predicate AbsentLast(log: seq<Call>, peer: Address) {
    |log| > 0 && exists handle :: log[|log| - 1] == Find(peer, ENOTCONN, handle)
  }

  /** The last thing the log tells is that the connection table could not be read. */
  ghost predicate LookupFailedLast(log: seq<Call>, peer: Address) {
    |log| > 0 && exists rc, handle ::
      rc != 0 && rc != ENOTCONN && log[|log| - 1] == Find(peer, rc, handle)
  }

  /** The book after more delays and terminations, and a lookup that found the peer absent
      or none that did. */
  predicate Tried(was: Ledger, b: Ledger, peer: Address, gone: bool, delays: nat, terminations: nat) {
    && was.delays <= b.delays <= was.delays + delays
    && was.terminations <= b.terminations <= was.terminations + terminations
    && b == (if gone then Enter(was, Find(peer, ENOTCONN, 0)) else was)
            .(delays := b.delays, terminations := b.terminations)
  }

  /** From here on, every lookup that failed found the peer absent, and every termination was accepted, is
      under way already or came too late. */
  predicate Answered(log: seq<Call>, from: nat) {
    forall i | from <= i < |log| ::
      && (log[i].Find? ==> log[i].rc == 0 || log[i].rc == 7)
      && (log[i].Terminate? ==> log[i].rc == 0 || log[i].rc == 2 || log[i].rc == 7)
  }

  /** From here on, every termination is for the connection that a lookup has just found. */
  predicate OfFound(log: seq<Call>, from: nat, peer: Address) {
    forall i | from <= i < |log| && log[i].Terminate? :: i > from && log[i - 1] == Find(peer, 0, log[i].handle)
  }

  lemma OfFoundNext(log: seq<Call>, c: Call, from: nat, peer: Address)
    requires OfFound(log, from, peer) && !c.Terminate?
    ensures OfFound(log + [c], from, peer)
  {
  }

  lemma AnsweredSoFar(log: seq<Call>, more: seq<Call>, from: nat)
    requires log <= more && Answered(more, from)
    ensures Answered(log, from)
  {
    forall i | from <= i < |log| ensures log[i] == more[i] {
    }
  }

  lemma OfFoundJoin(log: seq<Call>, more: seq<Call>, from: nat, peer: Address)
    requires from <= |log| && log <= more && OfFound(log, from, peer) && OfFound(more, |log|, peer)
    ensures OfFound(more, from, peer)
  {
    forall i | from <= i < |more| && more[i].Terminate? ensures i > from && more[i - 1] == Find(peer, 0, more[i].handle) {
      if i < |log| {
        assert more[i] == log[i] && more[i - 1] == log[i - 1];
      }
    }
  }

  /** The comparison of tick counts says whether the time passed since the start, less whole
      wraps, is five seconds or more. */
  method TimedOut(stack: Stack, started: nat, ghost start: nat) returns (late: bool)
    requires started == start % TICK_MODULUS && start <= stack.now
    modifies stack
    ensures Book(stack.log) == Book(old(stack.log)) && old(stack.now) <= stack.now < old(stack.now) + STALL
    ensures stack.log == old(stack.log) + [Ticks]
    ensures late <==> (stack.now - start) % 0x1_0000_0000 >= 500
  {
    var ticks := stack.TickCount();
    TicksBetweenIsElapsed(start, stack.now - start);
    late := TicksBetween(ticks, started) >= TIMEOUT_TICKS;
  }

  lemma WithinOneWrap(n: nat)
    requires n < TICK_MODULUS
    ensures n % TICK_MODULUS == n
  {
  }

  /** One look at the connection table, and the time when the peer is still in it. */
  method Look(stack: Stack, peer: Address, started: nat, ghost start: nat, ghost from: nat) returns (rc: int, late: bool)
    requires started == start % TICK_MODULUS && start <= stack.now < start + TIMEOUT_TICKS + STALL
    requires OfFound(stack.log, from, peer)
    modifies stack
    ensures old(stack.log) < stack.log && OfFound(stack.log, from, peer) && stack.now >= old(stack.now)
    ensures rc == ENOTCONN ==> AbsentLast(stack.log, peer) && Book(stack.log) == Enter(Book(old(stack.log)), Find(peer, rc, 0))
    ensures rc != ENOTCONN ==> Book(stack.log) == Book(old(stack.log))
    ensures rc != ENOTCONN && rc != 0 ==> LookupFailedLast(stack.log, peer)
    ensures rc == 0 ==> (late <==> stack.now >= start + 500)
  {
    ghost var was := stack.log;
    var handle;
    late := false;
    rc, handle := stack.FindByAddr(peer);
    OfFoundNext(was, Find(peer, rc, handle), from, peer);
    if rc == 0 {
      OfFoundNext(stack.log, Ticks, from, peer);
      late := TimedOut(stack, started, start);
      WithinOneWrap(stack.now - start);
    }
  }

  /** Looks the peer up until it is gone, a lookup fails, or five seconds have passed. */
  method Poll(stack: Stack, peer: Address) returns (gone: bool)
    modifies stack
    ensures gone ==> AbsentLast(stack.log, peer)
    ensures !gone ==> LookupFailedLast(stack.log, peer) || stack.now >= old(stack.now) + 500
    ensures Tried(Book(old(stack.log)), Book(stack.log), peer, gone, 20, 0)
    ensures old(stack.log) < stack.log && OfFound(stack.log, |old(stack.log)|, peer)
    ensures stack.now >= old(stack.now)
  {
    var started := stack.TickCount();
    ghost var start, was, from := stack.now, Book(stack.log), |old(stack.log)|;
    ghost var polls := 0;
    while true
      invariant old(stack.log) < stack.log && OfFound(stack.log, from, peer)
      invariant polls <= POLLS && start + DELAY_TICKS * polls <= stack.now < start + TIMEOUT_TICKS + STALL
      invariant Book(stack.log) == was.(delays := was.delays + polls)
      decreases POLLS - polls
    {
      var rc, late := Look(stack, peer, started, start, from);
      if rc == ENOTCONN {
        return true;
      }
      if rc != 0 || late {
        return false;
      }
      OfFoundNext(stack.log, Delay, from, peer);
      stack.Wait();
      polls := polls + 1;
    }
  }

  /** One round: look the peer up, ask for termination, poll. */
  method Attempt(stack: Stack, peer: Address) returns (gone: bool)
    modifies stack
    ensures gone ==> AbsentLast(stack.log, peer)
    ensures !gone ==>
      LookupFailedLast(stack.log, peer) || Book(stack.log).terminations == Book(old(stack.log)).terminations + 1
    ensures Tried(Book(old(stack.log)), Book(stack.log), peer, gone, 20, 1)
    ensures old(stack.log) < stack.log && OfFound(stack.log, |old(stack.log)|, peer)
    ensures !gone && Answered(stack.log, |old(stack.log)|) ==> stack.now >= old(stack.now) + 500
    ensures stack.now >= old(stack.now)
  {
    var rc, handle := stack.FindByAddr(peer);
    if rc == ENOTCONN {
      return true;
    }
    if rc != 0 {
      return false;
    }
    var terminated := stack.TerminateLink(handle);
    ghost var asked := stack.log;
    assert asked[|old(stack.log)| + 1] == Terminate(handle, terminated);
    if terminated != 0 && terminated != EALREADY && terminated != ENOTCONN {
      return false;
    }
    gone := Poll(stack, peer);
    OfFoundJoin(asked, stack.log, |old(stack.log)|, peer);
  }

  /** The book after so many rounds that failed. */
  predicate TriedRounds(was: Ledger, b: Ledger, rounds: nat) {
    && was.delays <= b.delays <= was.delays + rounds * POLLS + (if rounds > 0 then rounds - 1 else 0)
    && (rounds > 0 ==> was.delays + rounds - 1 <= b.delays)
    && was.terminations <= b.terminations <= was.terminations + rounds
    && b == was.(delays := b.delays, terminations := b.terminations)
  }

  /** The round after so many that failed: an attempt, after a delay unless it is the first. was is the
      book and from the length of the log when the disconnection began. */
  method Round(stack: Stack, peer: Address, rounds: nat, ghost was: Ledger, ghost from: nat) returns (gone: bool)
    requires from <= |stack.log| && OfFound(stack.log, from, peer) && rounds < ATTEMPTS
    requires TriedRounds(was, Book(stack.log), rounds)
    modifies stack
    ensures gone ==> AbsentLast(stack.log, peer) && Tried(was, Book(stack.log), peer, true, 62, 3)
    ensures !gone ==> TriedRounds(was, Book(stack.log), rounds + 1)
    ensures old(stack.log) < stack.log && OfFound(stack.log, from, peer)
    ensures !gone && Answered(stack.log, from) ==>
      && Answered(old(stack.log), from)
      && Book(stack.log).terminations == Book(old(stack.log)).terminations + 1
      && stack.now >= old(stack.now) + 500
  {
    if rounds > 0 {
      OfFoundNext(stack.log, Delay, from, peer);
      stack.Wait();
    }
    ghost var waited := stack.log;
    gone := Attempt(stack, peer);
    OfFoundJoin(waited, stack.log, from, peer);
    if !gone && Answered(stack.log, from) {
      AnsweredSoFar(old(stack.log), stack.log, from);
      assert !LookupFailedLast(stack.log, peer);
    }
  }

  /** The lookup behind all rounds. */
  method LastLook(stack: Stack, peer: Address, ghost was: Ledger, ghost from: nat) returns (gone: bool)
    requires OfFound(stack.log, from, peer) && TriedRounds(was, Book(stack.log), 3)
    modifies stack
    ensures EndsInLookup(stack.log, peer) && (gone <==> AbsentLast(stack.log, peer))
    ensures Book(stack.log).delays >= was.delays + 2 && Tried(was, Book(stack.log), peer, gone, 62, 3)
    ensures old(stack.log) < stack.log && OfFound(stack.log, from, peer)
    ensures Answered(stack.log, from) ==> Answered(old(stack.log), from)
    ensures Book(stack.log).terminations == Book(old(stack.log)).terminations && stack.now >= old(stack.now)
  {
    ghost var tried := stack.log;
    var rc, handle := stack.FindByAddr(peer);
    OfFoundNext(tried, Find(peer, rc, handle), from, peer);
    if Answered(stack.log, from) {
      AnsweredSoFar(tried, stack.log, from);
    }
    gone := rc == ENOTCONN;
  }

  /** ble_disconnect_peer. Whatever the stack answers, it makes at most three termination
      requests, each for the connection it has just found, and 62 quarter-second delays (15.5 s), ends
      with a lookup of the peer, and returns true exactly when that last lookup found the peer absent.
      It gives up on a stack that answers every call only after three requests and five seconds for each. */
  method DisconnectPeer(stack: Stack, peer: Address) returns (gone: bool)
    modifies stack
    ensures EndsInLookup(stack.log, peer)
    ensures gone <==> AbsentLast(stack.log, peer)
    ensures !gone ==> Book(stack.log).delays >= Book(old(stack.log)).delays + 2
    ensures Tried(Book(old(stack.log)), Book(stack.log), peer, gone, 62, 3)
    ensures old(stack.log) < stack.log && OfFound(stack.log, |old(stack.log)|, peer)
    ensures !gone && Answered(stack.log, |old(stack.log)|) ==>
      && Book(stack.log).terminations == Book(old(stack.log)).terminations + 3
      && stack.now >= old(stack.now) + 1500
  {
    ghost var was, from, began := Book(stack.log), |stack.log|, stack.now;
    for attempt := 1 to ATTEMPTS + 1
      invariant TriedRounds(was, Book(stack.log), attempt - 1)
      invariant old(stack.log) <= stack.log && OfFound(stack.log, from, peer)
      invariant Answered(stack.log, from) ==>
        Book(stack.log).terminations == was.terminations + attempt - 1 && stack.now >= began + 500 * (attempt - 1)
    {
      gone := Round(stack, peer, attempt - 1, was, from);
      if gone {
        return;
      }
    }
    gone := LastLook(stack, peer, was, from);
  }
}
