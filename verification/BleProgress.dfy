/** What the shared flags of the Bluetooth recovery mean in terms of the steps before, and that the
    protocol gets anywhere: from every state it can reach, a reset can complete and the scanner
    can go on. */
module BleProgress {
  import opened BleRecovery

  // ---- Each flag is what was last written ------------------------------------------------

  datatype Flag = Pending | Synced | SyncedBit | DoneBit | Started | Observed

  predicate Value(flag: Flag, s: State) {
    match flag
    case Pending => s.pending
    case Synced => s.synced
    case SyncedBit => s.syncedBit
    case DoneBit => s.doneBit
    case Started => s.started
    case Observed => s.observed
  }

  /** The step raises the flag, up or not. */
  predicate Sets(flag: Flag, step: Step) {
    match flag
    case Pending => step.event.Call?
    case Synced => step.event.SyncPublish?
    case SyncedBit => step.event.SyncSignal?
    case DoneBit => step.event.SyncSignal? && step.pre.host.SyncSignalling? && step.pre.host.recovered
    case Started => step.event.Dispatch?
    case Observed => step.event.ObserveReset? && step.pre.started
  }

  predicate Clears(flag: Flag, step: Step) {
    match flag
    case Pending => ReleasesRequest(step)
    case Synced => step.event.HostReset? || step.event.RequestUnsync?
    case SyncedBit => step.event.ClearAfterReset? || step.event.RequestClear? || step.event.EmptyBits?
    case DoneBit => step.event.EmptyBits?
    case Started => step.event.SyncTake?
    case Observed => step.event.SyncTake? || step.event.Dispatch?
  }

  ghost predicate SetSince(flag: Flag, run: seq<Step>, k: nat)
    requires k <= |run|
  {
    exists i | 0 <= i < k :: Sets(flag, run[i]) && forall j | i < j < k :: !Clears(flag, run[j])
  }

  lemma SetSinceNext(flag: Flag, run: seq<Step>, k: nat)
    requires k < |run|
    ensures SetSince(flag, run, k + 1) <==> Sets(flag, run[k]) || (SetSince(flag, run, k) && !Clears(flag, run[k]))
  {
    if !Sets(flag, run[k]) && SetSince(flag, run, k + 1) {
      var i :| 0 <= i < k + 1 && Sets(flag, run[i]) && forall j | i < j < k + 1 :: !Clears(flag, run[j]);
      assert i < k;
    }
  }

  lemma FlagStep(flag: Flag, step: Step)
    requires Consistent(step.pre) && Enabled(step.pre, step.event)
    ensures Value(flag, Next(step.pre, step.event)) <==>
      Sets(flag, step) || (Value(flag, step.pre) && !Clears(flag, step))
  {
  }

  /** At every moment of every run, each flag is up exactly when a step has raised it and none
      since has taken it down. */
  lemma {:induction false} FlagIsLastWrite(flag: Flag, run: seq<Step>, k: nat)
    requires Run(run) && k <= |run|
    ensures Value(flag, At(run, k)) <==> SetSince(flag, run, k)
  {
    if k > 0 {
      FlagIsLastWrite(flag, run, k - 1);
      AtIsPre(run, k - 1);
      ConsistentAt(run, k - 1);
      FlagStep(flag, run[k - 1]);
      SetSinceNext(flag, run, k - 1);
    }
  }

  // ---- What a caller has seen ------------------------------------------------------------

  predicate ScannerMoves(e: Event) {
    || e.Call? || e.EmptyBits? || e.Enqueue? || e.Wait? || e.LoadSynced? || e.LoadPending?
    || e.GateWait? || e.GateLoadSynced? || e.GateLoadPending?
  }

  /** The steps of the scanner's task up to here end with these two, nothing else of its between. */
  predicate LastTwo(run: seq<Step>, k: nat, i: nat, j: nat)
    requires k <= |run|
  {
    && i < j < k
    && (forall n | i < n < k && n != j :: !ScannerMoves(run[n].event))
  }

  predicate LastOne(run: seq<Step>, k: nat, i: nat)
    requires k <= |run|
  {
    i < k && forall n | i < n < k :: !ScannerMoves(run[n].event)
  }

  ghost predicate Looked(run: seq<Step>, k: nat)
    requires k <= |run|
  {
    exists i: nat, j: nat :: LastTwo(run, k, i, j) && run[i].event.Wait? && run[i].pre.doneBit
      && run[j].event.LoadSynced? && run[j].pre.synced
  }

  ghost predicate GateLooked(run: seq<Step>, k: nat)
    requires k <= |run|
  {
    exists i: nat, j: nat :: LastTwo(run, k, i, j) && run[i].event.GateWait? && run[i].pre.syncedBit
      && run[j].event.GateLoadSynced? && run[j].pre.synced
  }

  ghost predicate SawDone(run: seq<Step>, k: nat)
    requires k <= |run|
  {
    exists i: nat :: LastOne(run, k, i) && run[i].event.Wait? && run[i].pre.doneBit
  }

  ghost predicate SawOpen(run: seq<Step>, k: nat)
    requires k <= |run|
  {
    exists i: nat :: LastOne(run, k, i) && run[i].event.GateWait? && run[i].pre.syncedBit
  }

  ghost predicate ScannerKnows(run: seq<Step>, k: nat, s: State)
    requires k <= |run|
  {
    && (s.scanner == SawBits(true) ==> SawDone(run, k))
    && (s.scanner.SawSynced? ==> Looked(run, k))
    && (s.scanner == GateSawBits(true) ==> SawOpen(run, k))
    && (s.scanner.GateSawSynced? ==> GateLooked(run, k))
  }

  lemma KnowsStill(run: seq<Step>, k: nat)
    requires k < |run| && !ScannerMoves(run[k].event)
    ensures SawDone(run, k) ==> SawDone(run, k + 1)
    ensures SawOpen(run, k) ==> SawOpen(run, k + 1)
    ensures Looked(run, k) ==> Looked(run, k + 1)
    ensures GateLooked(run, k) ==> GateLooked(run, k + 1)
  {
    if SawDone(run, k) {
      var i: nat :| LastOne(run, k, i) && run[i].event.Wait? && run[i].pre.doneBit;
      assert LastOne(run, k + 1, i);
    }
    if SawOpen(run, k) {
      var i: nat :| LastOne(run, k, i) && run[i].event.GateWait? && run[i].pre.syncedBit;
      assert LastOne(run, k + 1, i);
    }
    if Looked(run, k) {
      var i: nat, j: nat :| LastTwo(run, k, i, j) && run[i].event.Wait? && run[i].pre.doneBit
        && run[j].event.LoadSynced? && run[j].pre.synced;
      assert LastTwo(run, k + 1, i, j);
    }
    if GateLooked(run, k) {
      var i: nat, j: nat :| LastTwo(run, k, i, j) && run[i].event.GateWait? && run[i].pre.syncedBit
        && run[j].event.GateLoadSynced? && run[j].pre.synced;
      assert LastTwo(run, k + 1, i, j);
    }
  }

  lemma KnowsMore(run: seq<Step>, k: nat)
    requires k < |run| && ScannerKnows(run, k, run[k].pre)
    requires Enabled(run[k].pre, run[k].event) && ScannerMoves(run[k].event)
    ensures ScannerKnows(run, k + 1, Next(run[k].pre, run[k].event))
  {
    var s, e := run[k].pre, run[k].event;
    if e.Wait? || e.GateWait? {
      assert LastOne(run, k + 1, k);
    } else if e.LoadSynced? && s.scanner == SawBits(true) && s.synced {
      var i: nat :| LastOne(run, k, i) && run[i].event.Wait? && run[i].pre.doneBit;
      assert LastTwo(run, k + 1, i, k);
    } else if e.GateLoadSynced? && s.scanner == GateSawBits(true) && s.synced {
      var i: nat :| LastOne(run, k, i) && run[i].event.GateWait? && run[i].pre.syncedBit;
      assert LastTwo(run, k + 1, i, k);
    }
  }

  lemma KnowsNext(run: seq<Step>, k: nat)
    requires k < |run| && ScannerKnows(run, k, run[k].pre) && Enabled(run[k].pre, run[k].event)
    ensures ScannerKnows(run, k + 1, Next(run[k].pre, run[k].event))
  {
    if ScannerMoves(run[k].event) {
      KnowsMore(run, k);
    } else {
      KnowsStill(run, k);
      HostKeepsScanner(run[k]);
    }
  }

  lemma HostKeepsScanner(step: Step)
    requires Enabled(step.pre, step.event) && !ScannerMoves(step.event)
    ensures Next(step.pre, step.event).scanner == step.pre.scanner
  {
    match step.event {
      case HostReset => case ObserveReset => case ClearAfterReset =>
      case SyncBegin => case SyncAddress(_) => case SyncTake => case SyncRelease => case SyncPublish => case SyncSignal =>
      case Dispatch => case RequestUnsync => case RequestClear => case Schedule =>
      case _ =>
    }
  }

  lemma {:induction false} KnowsAt(run: seq<Step>, k: nat)
    requires Run(run) && k <= |run|
    ensures ScannerKnows(run, k, At(run, k))
  {
    if k > 0 {
      KnowsAt(run, k - 1);
      AtIsPre(run, k - 1);
      KnowsNext(run, k - 1);
    }
  }

  /** ble_manager_reset returns OK only after a wait that saw the completion bit and then a look
      at g_ble_synced that saw it set; the gate opens only after the same with the sync bit. */
  lemma AnswersAreSeen(run: seq<Step>, k: nat)
    requires Run(run) && k < |run|
    ensures ReturnsOk(run[k]) ==> Looked(run, k)
    ensures GateOpens(run[k]) ==> GateLooked(run, k)
  {
    KnowsAt(run, k);
    AtIsPre(run, k);
  }

  // ---- Going on --------------------------------------------------------------------------

  /** The state after some events, each enabled in its turn. */
  ghost predicate Leads(s: State, events: seq<Event>, t: State)
    decreases |events|
  {
    if |events| == 0 then s == t
    else Enabled(s, events[0]) && Leads(Next(s, events[0]), events[1..], t)
  }

  lemma {:induction false} LeadsOn(s: State, a: seq<Event>, t: State, b: seq<Event>, u: State)
    requires Leads(s, a, t) && Leads(t, b, u)
    ensures Leads(s, a + b, u)
    decreases |a|
  {
    if a == [] {
      assert a + b == b;
    } else {
      LeadsOn(Next(s, a[0]), a[1..], t, b, u);
      assert (a + b)[1..] == a[1..] + b;
    }
  }

  lemma LeadsOne(s: State, e: Event)
    requires Enabled(s, e)
    ensures Leads(s, [e], Next(s, e))
  {
    assert [e][1..] == [];
  }

  lemma GoOn(s: State, events: seq<Event>, t: State, e: Event) returns (more: seq<Event>, u: State)
    requires Leads(s, events, t) && Enabled(t, e) && Consistent(t)
    ensures more == events + [e] && u == Next(t, e) && Leads(s, more, u) && Consistent(u)
  {
    more, u := events + [e], Next(t, e);
    LeadsOne(t, e);
    LeadsOn(s, events, t, [e], u);
    ConsistentStep(t, e);
  }

  /** Some continuation gets there. */
  ghost predicate CanReach(s: State, t: State) {
    exists events :: Leads(s, events, t)
  }

  lemma Step1(s: State, t: State, e: Event) returns (u: State)
    requires CanReach(s, t) && Enabled(t, e) && Consistent(t)
    ensures u == Next(t, e) && CanReach(s, u) && Consistent(u)
  {
    var events :| Leads(s, events, t);
    var more;
    more, u := GoOn(s, events, t, e);
  }

  lemma Stay(s: State)
    ensures CanReach(s, s)
  {
    assert Leads(s, [], s);
  }

  /** How many steps a callback of the host task still takes, and the next of them. */
  function HostLeft(h: Host): nat {
    match h
    case HostIdle => 0
    case ResetObserving => 2
    case ResetClearing => 1
    case SyncAddressing => 1
    case SyncTaking => 4
    case SyncReleasing(_) => 3
    case SyncPublishing(_) => 2
    case SyncSignalling(_) => 1
    case RequestUnsyncing => 3
    case RequestClearing => 2
    case RequestScheduling => 1
  }

  function HostNext(h: Host): Event
    requires !h.HostIdle?
  {
    match h
    case ResetObserving => ObserveReset
    case ResetClearing => ClearAfterReset
    case SyncAddressing => SyncAddress(false)
    case SyncTaking => SyncTake
    case SyncReleasing(_) => SyncRelease
    case SyncPublishing(_) => SyncPublish
    case SyncSignalling(_) => SyncSignal
    case RequestUnsyncing => RequestUnsync
    case RequestClearing => RequestClear
    case RequestScheduling => Schedule
  }

  lemma HostNextCounts(s: State)
    requires !s.host.HostIdle?
    ensures Enabled(s, HostNext(s.host))
    ensures var t := Next(s, HostNext(s.host)); HostLeft(t.host) < HostLeft(s.host) && t.scanner == s.scanner
  {
  }

  /** A callback of the host task that is under way ends. */
  lemma {:induction false} HostEnds(s: State, u: State) returns (t: State)
    requires CanReach(s, u) && Consistent(u)
    ensures CanReach(s, t) && Consistent(t) && t.host.HostIdle? && t.scanner == u.scanner
    decreases HostLeft(u.host)
  {
    t := u;
    if !u.host.HostIdle? {
      HostNextCounts(u);
      t := Step1(s, u, HostNext(u.host));
      t := HostEnds(s, t);
    }
  }

  function ScannerLeft(c: Scanner): nat {
    match c
    case ScannerIdle => 0
    case Raised => 5
    case Emptied => 4
    case Waiting => 3
    case SawBits(_) => 2
    case SawSynced => 1
    case GateSawBits(_) => 2
    case GateSawSynced => 1
  }

  function ScannerNext(c: Scanner): Event
    requires !c.ScannerIdle?
  {
    match c
    case Raised => EmptyBits
    case Emptied => Enqueue
    case Waiting => Wait
    case SawBits(_) => LoadSynced
    case SawSynced => LoadPending
    case GateSawBits(_) => GateLoadSynced
    case GateSawSynced => GateLoadPending
  }

  lemma ScannerNextCounts(s: State)
    requires !s.scanner.ScannerIdle?
    ensures Enabled(s, ScannerNext(s.scanner))
    ensures var t := Next(s, ScannerNext(s.scanner)); ScannerLeft(t.scanner) < ScannerLeft(s.scanner) && t.host == s.host
  {
  }

  /** So does a call of the scanner's task: every wait has a timeout. */
  lemma {:induction false} ScannerEnds(s: State, u: State) returns (t: State)
    requires CanReach(s, u) && Consistent(u) && u.host.HostIdle?
    ensures CanReach(s, t) && Consistent(t) && t.host.HostIdle? && t.scanner.ScannerIdle?
    decreases ScannerLeft(u.scanner)
  {
    t := u;
    if !u.scanner.ScannerIdle? {
      ScannerNextCounts(u);
      t := Step1(s, u, ScannerNext(u.scanner));
      t := ScannerEnds(s, t);
    }
  }

  /** A caller that raises a request, or joins one, and waits. */
  lemma CallerWaits(s: State, u: State) returns (t: State)
    requires CanReach(s, u) && Consistent(u) && u.host.HostIdle? && u.scanner.ScannerIdle?
    ensures CanReach(s, t) && Consistent(t) && t.host.HostIdle? && t.scanner.Waiting? && t.pending
  {
    t := Step1(s, u, Call);
    if t.scanner.Raised? {
      t := Step1(s, t, EmptyBits);
      t := Step1(s, t, Enqueue);
    }
  }

  /** The host task takes the request up, if it has not. */
  lemma HostStarts(s: State, u: State) returns (t: State)
    requires CanReach(s, u) && Consistent(u) && u.host.HostIdle? && u.scanner.Waiting? && u.pending
    ensures CanReach(s, t) && Consistent(t) && t.host.HostIdle? && t.scanner.Waiting? && t.started
  {
    t := u;
    if t.queued > 0 {
      t := Step1(s, t, Dispatch);
      t := Step1(s, t, RequestUnsync);
      t := Step1(s, t, RequestClear);
      t := Step1(s, t, Schedule);
    }
  }

  /** The host stack resets and syncs, nothing in between. */
  lemma HostRecovers(s: State, u: State) returns (t: State)
    requires CanReach(s, u) && Consistent(u) && u.host.HostIdle? && u.scanner.Waiting? && u.started
    ensures CanReach(s, t) && Consistent(t) && t.host.HostIdle? && t.scanner.Waiting?
    ensures !t.pending && t.synced && t.doneBit && t.syncedBit
  {
    t := Step1(s, u, HostReset);
    t := Step1(s, t, ObserveReset);
    t := Step1(s, t, ClearAfterReset);
    t := Step1(s, t, SyncBegin);
    t := Step1(s, t, SyncAddress(true));
    t := Step1(s, t, SyncTake);
    t := Step1(s, t, SyncRelease);
    t := Step1(s, t, SyncPublish);
    t := Step1(s, t, SyncSignal);
  }

  /** From every state that can be reached, some continuation completes a reset: its caller is
      about to return OK, and nothing is pending. */
  lemma ResetCanComplete(s: State) returns (t: State)
    requires Reachable(s)
    ensures CanReach(s, t) && t.scanner.SawSynced? && !t.pending && ReturnsOk(Step(t, LoadPending))
    ensures t.host.HostIdle? && t.synced && t.syncedBit && Consistent(t)
  {
    ReachableIsConsistent(s);
    Stay(s);
    t := HostEnds(s, s);
    t := ScannerEnds(s, t);
    t := CallerWaits(s, t);
    t := HostStarts(s, t);
    t := HostRecovers(s, t);
    t := Step1(s, t, Wait);
    t := Step1(s, t, LoadSynced);
  }

  lemma ReachableIsConsistent(s: State)
    requires Reachable(s)
    ensures Consistent(s)
  {
    var run :| Run(run) && At(run, |run|) == s;
    ConsistentAt(run, |run|);
  }

  /** And after it the gate opens. So the scanner is never shut out for good. */
  lemma GateCanOpen(s: State) returns (t: State)
    requires Reachable(s)
    ensures CanReach(s, t) && GateOpens(Step(t, GateLoadPending))
    ensures t.scanner.GateSawSynced? && !t.pending
  {
    t := ResetCanComplete(s);
    t := Step1(s, t, LoadPending);
    t := Step1(s, t, GateWait);
    t := Step1(s, t, GateLoadSynced);
  }

  /** Without any reset: when both tasks are idle and nothing is pending, one undisturbed sync
      callback is enough, at start-up above all. */
  lemma SyncOpensGate(s: State) returns (t: State)
    requires Consistent(s) && s.host.HostIdle? && s.scanner.ScannerIdle? && !s.pending
    ensures Leads(s, [SyncBegin, SyncAddress(true), SyncTake, SyncRelease, SyncPublish, SyncSignal]
                     + [GateWait, GateLoadSynced], t)
    ensures t.scanner.GateSawSynced? && !t.pending && GateOpens(Step(t, GateLoadPending))
  {
    var synced := SyncRuns(s);
    t := GateRuns(synced);
    LeadsOn(s, [SyncBegin, SyncAddress(true), SyncTake, SyncRelease, SyncPublish, SyncSignal], synced,
            [GateWait, GateLoadSynced], t);
  }

  lemma SyncRuns(s: State) returns (t: State)
    requires Consistent(s) && s.host.HostIdle? && !s.pending
    ensures Leads(s, [SyncBegin, SyncAddress(true), SyncTake, SyncRelease, SyncPublish, SyncSignal], t)
    ensures Consistent(t) && t.synced && t.syncedBit && !t.pending && t.host.HostIdle? && t.scanner == s.scanner
  {
    var events: seq<Event> := [];
    t := s;
    events, t := GoOn(s, events, t, SyncBegin);
    events, t := GoOn(s, events, t, SyncAddress(true));
    events, t := GoOn(s, events, t, SyncTake);
    events, t := GoOn(s, events, t, SyncRelease);
    events, t := GoOn(s, events, t, SyncPublish);
    events, t := GoOn(s, events, t, SyncSignal);
  }

  lemma GateRuns(s: State) returns (t: State)
    requires Consistent(s) && s.synced && s.syncedBit && !s.pending && s.scanner.ScannerIdle?
    ensures Leads(s, [GateWait, GateLoadSynced], t) && t.scanner.GateSawSynced? && !t.pending
  {
    var events: seq<Event> := [];
    t := s;
    events, t := GoOn(s, events, t, GateWait);
    events, t := GoOn(s, events, t, GateLoadSynced);
  }

  // ---- OK may come before the host says so ------------------------------------------------

  lemma StaleRequestScheduled() returns (s: State)
    ensures Reachable(s)
    ensures s == State(true, false, true, false, false, true, 0, 2, HostIdle, SawSynced)
  {
    s := StaleLook();
    s := ReachNext(s, Dispatch);
    s := ReachNext(s, RequestUnsync);
    s := ReachNext(s, RequestClear);
    s := ReachNext(s, Schedule);
  }

  /** The stale bits let a caller see the release of its request before the sync callback has
      published it: ble_manager_reset returns OK while g_ble_synced is still down. */
  lemma OkBeforePublish() returns (s: State)
    ensures Reachable(s) && ReturnsOk(Step(s, LoadPending)) && Enabled(s, LoadPending)
    ensures !s.synced && !s.syncedBit
  {
    s := StaleRequestScheduled();
    s := ReachNext(s, HostReset);
    s := ReachNext(s, ObserveReset);
    s := ReachNext(s, ClearAfterReset);
    s := ReachNext(s, SyncBegin);
    s := ReachNext(s, SyncAddress(true));
    s := ReachNext(s, SyncTake);
    s := ReachNext(s, SyncRelease);
  }
}
