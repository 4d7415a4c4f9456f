/** The cleanup side of battery_scanner.cpp: one probe at a time, and no new connection until
    the last one is known to be gone. */
module ProbeScanner {
  import opened Radio
  import opened Wrappers
  import opened Disconnect

  predicate EndsInFailedReset(log: seq<Call>) {
    |log| > 0 && log[|log| - 1] == ManagerReset(false)
  }

  /** What a scan that found these peers does: it probes them in order, and stops early only when the
      last cleanup failed. */
  predicate Probed(was: Ledger, now: Ledger, cleanupPending: bool) {
    && |now.scans| == |was.scans| + 1 && was.scans < now.scans
    && was.attempts <= now.attempts <= was.attempts + now.scans[|was.scans|]
    && (!cleanupPending ==> now.attempts == was.attempts + now.scans[|was.scans|])
  }

  /** The calls of cancel_pending_probe_connect: an attempt in progress is cancelled, and an accepted
      cancellation is waited for. */
  predicate Cancels(calls: seq<Call>) {
    || calls == [ConnActive(false)]
    || (|calls| == 2 && calls[0] == ConnActive(true) && calls[1].ConnCancel? && calls[1].rc != 0 && calls[1].rc != 2)
    || (|calls| == 3 && calls[0] == ConnActive(true) && calls[1] in {ConnCancel(0), ConnCancel(2)} && calls[2] == AwaitBits)
  }

  /** The stack is reset only after an attempt was still in progress or the peer still found. */
  predicate ResetWhenLost(log: seq<Call>, peer: Address) {
    |log| > 1 && log[|log| - 1].ManagerReset? ==>
      var last := log[|log| - 2];
      last == ConnActive(true) || (last.Find? && last.peer == peer && last.rc != 7)
  }

  class Scanner {
    const stack: Stack
    var cleanupPending: bool
    var probe: Address

    /** The pending flag says exactly what the log of radio calls says: a connection is
        outstanding, and it is the current probe's. */
    ghost predicate Valid()
      reads this, stack
    {
      var b := Book(stack.log);
      && b.safe
      && (cleanupPending <==> b.outstanding.Some?)
      && (cleanupPending ==> b.outstanding == Some(probe))
    }

    constructor (stack: Stack)
      requires stack.log == []
      ensures Valid() && this.stack == stack && !cleanupPending
    {
      this.stack := stack;
      cleanupPending := false;
      probe := 0;
    }

    method CancelPendingConnect()
      requires Valid()
      modifies stack
      ensures Valid() && Book(stack.log).outstanding == old(Book(stack.log).outstanding)
      ensures Book(stack.log).attempts == old(Book(stack.log).attempts)
      ensures Book(stack.log).scans == old(Book(stack.log).scans)
      ensures old(stack.log) <= stack.log && Cancels(stack.log[|old(stack.log)|..])
    {
      ghost var was := stack.log;
      var active := stack.GapConnActive();
      assert stack.log[|was|..] == [ConnActive(active)];
      if !active {
        return;
      }
      var rc := stack.GapConnCancel();
      assert stack.log[|was|..] == [ConnActive(true), ConnCancel(rc)];
      if rc != 0 && rc != EALREADY {
        return;
      }
      stack.WaitBits();
      assert stack.log[|was|..] == [ConnActive(true), ConnCancel(rc), AwaitBits];
    }

    /** Cancelling, and disconnecting unless an attempt is still in progress. */
    method TryDisconnect()
      requires Valid() && cleanupPending
      modifies this`cleanupPending, stack
      ensures Valid() && stack.log != []
      ensures cleanupPending ==> var last := stack.log[|stack.log| - 1];
        last == ConnActive(true) || (last.Find? && last.peer == probe && last.rc != 7)
      ensures !cleanupPending ==> !stack.log[|stack.log| - 1].ManagerReset?
      ensures Book(stack.log).attempts == old(Book(stack.log).attempts)
      ensures Book(stack.log).scans == old(Book(stack.log).scans)
    {
      CancelPendingConnect();
      var active := stack.GapConnActive();
      if active {
        cleanupPending := true;
      } else {
        var gone := DisconnectPeer(stack, probe);
        cleanupPending := !gone;
      }
    }

    /** disconnect_probe. It succeeds exactly when nothing is outstanding any more, and gives
        up only after a reset of the stack failed. */
    method DisconnectProbe() returns (clean: bool)
      requires Valid() && cleanupPending
      modifies this`cleanupPending, stack
      ensures Valid() && clean == !cleanupPending
      ensures !clean ==> EndsInFailedReset(stack.log)
      ensures ResetWhenLost(stack.log, probe)
      ensures Book(stack.log).attempts == old(Book(stack.log).attempts)
      ensures Book(stack.log).scans == old(Book(stack.log).scans)
    {
      TryDisconnect();
      if cleanupPending {
        var ok := stack.ResetManager();
        if ok {
          cleanupPending := false;
        }
      }
      clean := !cleanupPending;
    }

    /** Waiting for the connection, then discovery, subscription and requests. */
    method ProbeExchanges()
      requires Valid()
      modifies stack
      ensures Valid() && Book(stack.log) == old(Book(stack.log))
    {
      stack.WaitBits();
      var connected := stack.Exchange();
      var subscribed := connected;
      if connected {
        subscribed := stack.Exchange();
      }
      if subscribed {
        var _ := stack.Exchange();
      }
    }

    /** probe_battery up to the end of its radio traffic: one connection attempt. */
    method ProbeBattery(candidate: Address)
      requires Valid() && !cleanupPending
      modifies this, stack
      ensures Valid() && probe == candidate
      ensures Book(stack.log).attempts == old(Book(stack.log).attempts) + [candidate]
      ensures Book(stack.log).scans == old(Book(stack.log).scans)
    {
      stack.Record(ReplaceProbe(candidate), 0);
      probe := candidate;
      var rc := stack.GapConnect(candidate);
      if rc != 0 {
        return;
      }
      cleanupPending := true;
      ProbeExchanges();
      var _ := DisconnectProbe();
    }

    /** The candidates of a scan, in order, until a cleanup fails. */
    method ProbeAll(candidates: seq<Address>)
      requires Valid() && !cleanupPending
      modifies this, stack
      ensures Valid() && Book(stack.log).scans == old(Book(stack.log).scans)
      ensures var was, now := old(Book(stack.log)).attempts, Book(stack.log).attempts;
        was <= now <= was + candidates && (!cleanupPending ==> now == was + candidates)
    {
      for i := 0 to |candidates|
        invariant Valid() && !cleanupPending && Book(stack.log).scans == old(Book(stack.log).scans)
        invariant Book(stack.log).attempts == old(Book(stack.log).attempts) + candidates[..i]
      {
        ProbeBattery(candidates[i]);
        assert candidates[..i + 1] == candidates[..i] + [candidates[i]];
        if cleanupPending {
          return;
        }
        stack.Wait();
      }
      assert candidates[..|candidates|] == candidates;
    }

    /** A scan, and the probes of what it found. */
    method ScanAndProbe()
      requires Valid() && !cleanupPending
      modifies this, stack
      ensures Valid() && Probed(old(Book(stack.log)), Book(stack.log), cleanupPending)
    {
      var rc, candidates := stack.Discover();
      if rc != 0 {
        return;
      }
      stack.WaitBits();
      ProbeAll(candidates);
    }

    /** run_scan: it scans and probes what it finds, unless an earlier cleanup still fails; then it does
        nothing more. */
    method RunScan()
      requires Valid()
      modifies this, stack
      ensures Valid()
      ensures Probed(old(Book(stack.log)), Book(stack.log), cleanupPending)
           || (old(cleanupPending) && cleanupPending && EndsInFailedReset(stack.log) && probe == old(probe)
               && Book(stack.log).attempts == old(Book(stack.log).attempts)
               && Book(stack.log).scans == old(Book(stack.log).scans))
    {
      if cleanupPending {
        var clean := DisconnectProbe();
        if !clean {
          return;
        }
      }
      ScanAndProbe();
    }

    /** The scanner task for any number of cycles: in all the radio calls it ever makes, a
        probe is replaced and a connection attempted only with nothing outstanding. */
    method Task(cycles: nat)
      requires Valid()
      modifies this, stack
      ensures Valid()
      ensures forall i | 0 <= i < |stack.log| && StartsProbe(stack.log[i]) ::
                Book(stack.log[..i]).outstanding.None?
    {
      for n := 0 to cycles
        invariant Valid()
      {
        var open := stack.WaitUntilSynced();
        if open {
          RunScan();
        }
        stack.Pause();
      }
      SafeMeansEveryProbe(stack.log);
    }
  }
}
