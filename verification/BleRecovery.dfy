/** Bluetooth recovery of ble_manager.cpp as interleaved steps. The scanner task is the only
    caller of ble_manager_reset; the host task runs the reset callback, the sync callback and
    the queued request, one at a time. A step is one access to something both tasks share. */
module BleRecovery {

  datatype Host =
    | HostIdle
    | ResetObserving            // ble_on_reset, after it cleared g_ble_synced
    | ResetClearing
    | SyncAddressing            // ble_on_sync, past its first test
    | SyncTaking
    | SyncReleasing(recovered: bool)
    | SyncPublishing(recovered: bool)
    | SyncSignalling(recovered: bool)
    | RequestUnsyncing          // ble_reset_requested
    | RequestClearing
    | RequestScheduling

  datatype Scanner =
    | ScannerIdle
    | Raised                    // ble_manager_reset, after it set g_reset_pending
    | Emptied                   // after it cleared the event bits
    | Waiting
    | SawBits(done: bool)
    | SawSynced
    | GateSawBits(open: bool)   // ble_manager_wait_until_synced
    | GateSawSynced

  datatype State = State(
    pending: bool, synced: bool,               // the atomics
    started: bool, observed: bool,             // host task only
    syncedBit: bool, doneBit: bool,            // the event group
    queued: nat,                               // reset events in the host queue
    scheduled: nat,                            // calls of ble_hs_sched_reset
    host: Host, scanner: Scanner)

  const INITIAL: State :=
    State(false, false, false, false, false, false, 0, 0, HostIdle, ScannerIdle)

  datatype Event =
    // ble_on_reset: the host stack runs it at any time, requested or not
    | HostReset | ObserveReset | ClearAfterReset
    // ble_on_sync: likewise, even for a sync that predates the request
    | SyncBegin | SyncAddress(ok: bool) | SyncTake | SyncRelease | SyncPublish | SyncSignal
    // ble_reset_requested
    | Dispatch | RequestUnsync | RequestClear | Schedule
    // ble_manager_reset; Wait returns when the bit is set or at the timeout
    | Call | EmptyBits | Enqueue | Wait | LoadSynced | LoadPending
    // ble_manager_wait_until_synced
    | GateWait | GateLoadSynced | GateLoadPending

  predicate Enabled(s: State, e: Event) {
    match e
    case HostReset => s.host.HostIdle?
    case ObserveReset => s.host.ResetObserving?
    case ClearAfterReset => s.host.ResetClearing?
    case SyncBegin => s.host.HostIdle?
    case SyncAddress(_) => s.host.SyncAddressing?
    case SyncTake => s.host.SyncTaking?
    case SyncRelease => s.host.SyncReleasing?
    case SyncPublish => s.host.SyncPublishing?
    case SyncSignal => s.host.SyncSignalling?
    case Dispatch => s.host.HostIdle? && s.queued > 0
    case RequestUnsync => s.host.RequestUnsyncing?
    case RequestClear => s.host.RequestClearing?
    case Schedule => s.host.RequestScheduling?
    case Call => s.scanner.ScannerIdle?
    case EmptyBits => s.scanner.Raised?
    case Enqueue => s.scanner.Emptied?
    case Wait => s.scanner.Waiting?
    case LoadSynced => s.scanner.SawBits?
    case LoadPending => s.scanner.SawSynced?
    case GateWait => s.scanner.ScannerIdle?
    case GateLoadSynced => s.scanner.GateSawBits?
    case GateLoadPending => s.scanner.GateSawSynced?
  }

  function Next(s: State, e: Event): State
    requires Enabled(s, e)
  {
    match e
    case HostReset => s.(synced := false, host := ResetObserving)
    case ObserveReset => s.(observed := s.observed || s.started, host := ResetClearing)
    case ClearAfterReset => s.(syncedBit := false, host := HostIdle)
    case SyncBegin => if s.pending && !s.observed then s else s.(host := SyncAddressing)
    case SyncAddress(ok) => s.(host := if ok then SyncTaking else HostIdle)
    case SyncTake => s.(started := false, observed := false, host := SyncReleasing(s.observed))
    case SyncRelease => s.(pending := s.pending && !s.host.recovered, host := SyncPublishing(s.host.recovered))
    case SyncPublish => s.(synced := true, host := SyncSignalling(s.host.recovered))
    case SyncSignal => s.(syncedBit := true, doneBit := s.doneBit || s.host.recovered, host := HostIdle)
    case Dispatch => s.(queued := s.queued - 1, started := true, observed := false, host := RequestUnsyncing)
    case RequestUnsync => s.(synced := false, host := RequestClearing)
    case RequestClear => s.(syncedBit := false, host := RequestScheduling)
    case Schedule => s.(scheduled := s.scheduled + 1, host := HostIdle)
    case Call => if s.pending then s.(scanner := Waiting) else s.(pending := true, scanner := Raised)
    case EmptyBits => s.(syncedBit := false, doneBit := false, scanner := Emptied)
    case Enqueue => s.(queued := s.queued + 1, scanner := Waiting)
    case Wait => s.(scanner := SawBits(s.doneBit))
    case LoadSynced => s.(scanner := if s.scanner.done && s.synced then SawSynced else ScannerIdle)
    case LoadPending => s.(scanner := ScannerIdle)
    case GateWait => s.(scanner := GateSawBits(s.syncedBit))
    case GateLoadSynced => s.(scanner := if s.scanner.open && s.synced then GateSawSynced else ScannerIdle)
    case GateLoadPending => s.(scanner := ScannerIdle)
  }

  datatype Step = Step(pre: State, event: Event)

  /** A run: any interleaving of enabled steps from the start. */
  predicate Run(run: seq<Step>) {
    && (|run| > 0 ==> run[0].pre == INITIAL)
    && (forall i | 0 <= i < |run| :: Enabled(run[i].pre, run[i].event))
    && (forall i | 0 < i < |run| :: run[i].pre == Next(run[i - 1].pre, run[i - 1].event))
  }

  /** The state reached after the first k steps. */
  function At(run: seq<Step>, k: nat): State
    requires Run(run) && k <= |run|
  {
    if k == 0 then INITIAL else Next(run[k - 1].pre, run[k - 1].event)
  }

  lemma AtIsPre(run: seq<Step>, k: nat)
    requires Run(run) && k < |run|
    ensures At(run, k) == run[k].pre
  {
  }

  // ---- What every step keeps --------------------------------------------------------

  predicate Requesting(s: State) {
    s.host.RequestUnsyncing? || s.host.RequestClearing? || s.host.RequestScheduling?
  }

  predicate Enqueueing(s: State) {
    s.scanner.Raised? || s.scanner.Emptied?
  }

  predicate Releasing(s: State) {
    s.host.SyncReleasing? && s.host.recovered
  }

  /** A pending request is in exactly one place: being enqueued, queued, started, or being
      released by the sync that completes it. Without one nothing of a recovery is left. */
  predicate Consistent(s: State) {
    && (s.observed ==> s.started)
    && (Requesting(s) ==> s.started && !s.observed)
    && ((s.host.SyncAddressing? || s.host.SyncTaking?) ==> s.observed || !s.started)
    && s.queued + One(s.started) + One(Enqueueing(s)) + One(Releasing(s)) == One(s.pending)
  }

  function One(b: bool): nat {
    if b then 1 else 0
  }

  lemma ConsistentStep(s: State, e: Event)
    requires Consistent(s) && Enabled(s, e)
    ensures Consistent(Next(s, e))
  {
  }

  lemma {:induction false} ConsistentAt(run: seq<Step>, k: nat)
    requires Run(run) && k <= |run|
    ensures Consistent(At(run, k))
  {
    if k > 0 {
      ConsistentAt(run, k - 1);
      AtIsPre(run, k - 1);
      ConsistentStep(run[k - 1].pre, run[k - 1].event);
    }
  }

  /** With no reset pending the queue is empty and both host flags are down; with one pending
      at most one event is queued. */
  lemma NothingLeftOver(run: seq<Step>, k: nat)
    requires Run(run) && k <= |run|
    ensures !At(run, k).pending ==> At(run, k).queued == 0 && !At(run, k).started && !At(run, k).observed
    ensures At(run, k).queued <= 1
  {
    ConsistentAt(run, k);
  }

  // ---- Each request is spent once -----------------------------------------------------

  datatype Kind = Raises | Enqueues | Dispatches | Schedules | Releases

  predicate RaisesRequest(step: Step) {
    step.event.Call? && !step.pre.pending
  }

  predicate ReleasesRequest(step: Step) {
    step.event.SyncRelease? && step.pre.host.SyncReleasing? && step.pre.host.recovered
  }

  predicate Counted(kind: Kind, step: Step) {
    match kind
    case Raises => RaisesRequest(step)
    case Enqueues => step.event.Enqueue?
    case Dispatches => step.event.Dispatch?
    case Schedules => step.event.Schedule?
    case Releases => ReleasesRequest(step)
  }

  function Tally(run: seq<Step>, k: nat, kind: Kind): nat
    requires k <= |run|
  {
    if k == 0 then 0 else Tally(run, k - 1, kind) + One(Counted(kind, run[k - 1]))
  }

  lemma ConservationStep(step: Step)
    requires Consistent(step.pre) && Enabled(step.pre, step.event)
    ensures var s, t := step.pre, Next(step.pre, step.event);
      && One(Counted(Raises, step)) + One(Enqueueing(s)) == One(Counted(Enqueues, step)) + One(Enqueueing(t))
      && One(Counted(Enqueues, step)) + s.queued == One(Counted(Dispatches, step)) + t.queued
      && One(Counted(Dispatches, step)) + One(Requesting(s)) == One(Counted(Schedules, step)) + One(Requesting(t))
      && One(Counted(Raises, step)) + One(s.pending) == One(Counted(Releases, step)) + One(t.pending)
      && t.scheduled == s.scheduled + One(Counted(Schedules, step))
  {
  }

  /** At every moment of every run, however often callers time out and join: each raise of
      g_reset_pending queues one event, each event is dispatched once, each dispatch schedules
      one host reset, and one recovering sync takes the raise back. */
  lemma {:induction false} Conservation(run: seq<Step>, k: nat)
    requires Run(run) && k <= |run|
    ensures Tally(run, k, Raises) == Tally(run, k, Enqueues) + One(Enqueueing(At(run, k)))
    ensures Tally(run, k, Enqueues) == Tally(run, k, Dispatches) + At(run, k).queued
    ensures Tally(run, k, Dispatches) == Tally(run, k, Schedules) + One(Requesting(At(run, k)))
    ensures Tally(run, k, Raises) == Tally(run, k, Releases) + One(At(run, k).pending)
    ensures At(run, k).scheduled == Tally(run, k, Schedules)
  {
    if k > 0 {
      Conservation(run, k - 1);
      ConsistentAt(run, k - 1);
      AtIsPre(run, k - 1);
      ConservationStep(run[k - 1]);
    }
  }

  /** A new request is raised only when every earlier one caused exactly one host reset. */
  lemma OneResetPerRequest(run: seq<Step>, k: nat)
    requires Run(run) && k < |run| && RaisesRequest(run[k])
    ensures Tally(run, k, Schedules) == Tally(run, k, Raises) == Tally(run, k, Releases)
  {
    Conservation(run, k);
    ConsistentAt(run, k);
    AtIsPre(run, k);
  }

  // ---- OK means recovered -------------------------------------------------------------

  /** Events that end a running sync callback early, or need it to have ended. */
  predicate Breaks(e: Event) {
    e.HostReset? || e.SyncBegin? || e.Dispatch? || e == SyncAddress(false)
  }

  /** No step between the two ends or restarts the sync callback that was running. */
  predicate Unbroken(run: seq<Step>, from: int, to: int)
    requires 0 <= from && to <= |run|
  {
    forall j | from < j < to :: !Breaks(run[j].event)
  }

  /** Where the current request was raised, dispatched, answered by a host reset callback, and
      completed by which sync; -1 for what has not happened. */
  datatype Marks = Marks(raise: int, dispatch: int, reset: int, sync: int, release: int)

  predicate HasRaise(run: seq<Step>, k: nat, m: Marks)
    requires k <= |run|
  {
    && 0 <= m.raise < k
    && RaisesRequest(run[m.raise])
    && (forall j | m.raise < j < k :: !RaisesRequest(run[j]))
  }

  predicate HasDispatch(run: seq<Step>, k: nat, m: Marks)
    requires k <= |run|
  {
    HasRaise(run, k, m) && m.raise < m.dispatch < k && run[m.dispatch].event.Dispatch?
  }

  predicate HasReset(run: seq<Step>, k: nat, m: Marks)
    requires k <= |run|
  {
    HasDispatch(run, k, m) && m.dispatch < m.reset < k && run[m.reset].event.HostReset?
  }

  predicate HasSync(run: seq<Step>, k: nat, m: Marks)
    requires k <= |run|
  {
    && HasReset(run, k, m)
    && m.reset < m.sync < k
    && run[m.sync].event.SyncBegin?
    && Unbroken(run, m.sync, k)
  }

  /** The whole recovery of the latest request, in order: raised, dispatched, a host reset
      callback, then one unbroken run of the sync callback that released the request. */
  predicate Recovered(run: seq<Step>, k: nat, m: Marks)
    requires k <= |run|
  {
    && HasReset(run, k, m)
    && m.reset < m.sync < m.release < k
    && run[m.sync].event.SyncBegin?
    && Unbroken(run, m.sync, m.release)
    && ReleasesRequest(run[m.release])
  }

  function Advance(m: Marks, i: nat, step: Step): Marks {
    if RaisesRequest(step) then Marks(i, -1, -1, -1, -1)
    else if step.event.Dispatch? then m.(dispatch := i)
    else if step.event.HostReset? && step.pre.started then m.(reset := i)
    else if step.event.SyncBegin? && step.pre.observed then m.(sync := i)
    else if ReleasesRequest(step) then m.(release := i)
    else m
  }

  /** When the state relies on a host reset having answered the request. */
  predicate NeedsReset(s: State) {
    s.observed || (s.host.ResetObserving? && s.started)
  }

  /** When the state relies on a sync begun after that. */
  predicate NeedsSync(s: State) {
    ((s.host.SyncAddressing? || s.host.SyncTaking?) && s.observed) || Releasing(s)
  }

  predicate InReset(s: State) {
    Enqueueing(s) || s.scanner.Waiting? || s.scanner.SawBits? || s.scanner.SawSynced?
  }

  /** What the state says about the marks. */
  predicate Marked(run: seq<Step>, k: nat, m: Marks, s: State)
    requires k <= |run|
  {
    && (s.pending ==> HasRaise(run, k, m))
    && (s.started ==> HasDispatch(run, k, m))
    && (NeedsReset(s) ==> HasReset(run, k, m))
    && (NeedsSync(s) ==> HasSync(run, k, m))
    && (!s.pending && m.raise >= 0 ==> Recovered(run, k, m))
    && (InReset(s) ==> m.raise >= 0)
  }

  /** Later steps that are not new raises leave the marks in force. */
  lemma MarksStay(run: seq<Step>, k: nat, m: Marks)
    requires k < |run| && !RaisesRequest(run[k])
    ensures HasRaise(run, k, m) ==> HasRaise(run, k + 1, m)
    ensures HasDispatch(run, k, m) ==> HasDispatch(run, k + 1, m)
    ensures HasReset(run, k, m) ==> HasReset(run, k + 1, m)
    ensures Recovered(run, k, m) ==> Recovered(run, k + 1, m)
    ensures HasSync(run, k, m) && !Breaks(run[k].event) ==> HasSync(run, k + 1, m)
  {
  }

  predicate MovesMark(step: Step) {
    || RaisesRequest(step)
    || step.event.Dispatch?
    || (step.event.HostReset? && step.pre.started)
    || (step.event.SyncBegin? && step.pre.observed)
    || ReleasesRequest(step)
  }

  /** A step that moves no mark makes no new need. */
  lemma NoNewHostNeeds(step: Step)
    requires Consistent(step.pre) && Enabled(step.pre, step.event) && !MovesMark(step)
    ensures var s, t := step.pre, Next(step.pre, step.event);
      && (NeedsReset(t) ==> NeedsReset(s))
      && (NeedsSync(t) ==> NeedsSync(s) && !Breaks(step.event))
  {
  }

  lemma NoNewRequestNeeds(step: Step)
    requires Consistent(step.pre) && Enabled(step.pre, step.event) && !MovesMark(step)
    ensures var s, t := step.pre, Next(step.pre, step.event);
      && t.pending == s.pending
      && (InReset(t) ==> InReset(s) || s.pending)
  {
  }

  lemma NoNewStart(step: Step)
    requires Consistent(step.pre) && Enabled(step.pre, step.event) && !MovesMark(step)
    ensures Next(step.pre, step.event).started ==> step.pre.started
  {
  }

  lemma MarkedUnmovedStep(run: seq<Step>, k: nat, m: Marks)
    requires Run(run) && k < |run| && Consistent(run[k].pre) && !MovesMark(run[k])
    requires Marked(run, k, m, run[k].pre)
    ensures Marked(run, k + 1, m, At(run, k + 1))
  {
    NoNewHostNeeds(run[k]);
    NoNewRequestNeeds(run[k]);
    NoNewStart(run[k]);
    MarksStay(run, k, m);
  }

  lemma MarkedRaise(run: seq<Step>, k: nat, m: Marks)
    requires Run(run) && k < |run| && Consistent(run[k].pre) && RaisesRequest(run[k])
    requires Marked(run, k, m, run[k].pre)
    ensures Marked(run, k + 1, Advance(m, k, run[k]), At(run, k + 1))
  {
  }

  lemma MarkedDispatch(run: seq<Step>, k: nat, m: Marks)
    requires Run(run) && k < |run| && Consistent(run[k].pre) && run[k].event.Dispatch?
    requires Marked(run, k, m, run[k].pre)
    ensures Marked(run, k + 1, Advance(m, k, run[k]), At(run, k + 1))
  {
  }

  lemma MarkedReset(run: seq<Step>, k: nat, m: Marks)
    requires Run(run) && k < |run| && Consistent(run[k].pre) && run[k].event.HostReset? && run[k].pre.started
    requires Marked(run, k, m, run[k].pre)
    ensures Marked(run, k + 1, Advance(m, k, run[k]), At(run, k + 1))
  {
  }

  lemma MarkedSync(run: seq<Step>, k: nat, m: Marks)
    requires Run(run) && k < |run| && Consistent(run[k].pre) && run[k].event.SyncBegin? && run[k].pre.observed
    requires Marked(run, k, m, run[k].pre)
    ensures Marked(run, k + 1, Advance(m, k, run[k]), At(run, k + 1))
  {
  }

  lemma MarkedRelease(run: seq<Step>, k: nat, m: Marks)
    requires Run(run) && k < |run| && Consistent(run[k].pre) && ReleasesRequest(run[k])
    requires Marked(run, k, m, run[k].pre)
    ensures Marked(run, k + 1, Advance(m, k, run[k]), At(run, k + 1))
  {
  }

  function MarksAt(run: seq<Step>, k: nat): Marks
    requires k <= |run|
  {
    if k == 0 then Marks(-1, -1, -1, -1, -1) else Advance(MarksAt(run, k - 1), k - 1, run[k - 1])
  }

  lemma MarkedNext(run: seq<Step>, i: nat, m: Marks)
    requires Run(run) && i < |run| && Consistent(run[i].pre) && Marked(run, i, m, run[i].pre)
    ensures Marked(run, i + 1, Advance(m, i, run[i]), At(run, i + 1))
  {
    if RaisesRequest(run[i]) {
      MarkedRaise(run, i, m);
    } else if run[i].event.Dispatch? {
      MarkedDispatch(run, i, m);
    } else if run[i].event.HostReset? && run[i].pre.started {
      MarkedReset(run, i, m);
    } else if run[i].event.SyncBegin? && run[i].pre.observed {
      MarkedSync(run, i, m);
    } else if ReleasesRequest(run[i]) {
      MarkedRelease(run, i, m);
    } else {
      MarkedUnmovedStep(run, i, m);
    }
  }

  lemma {:induction false} MarkedAt(run: seq<Step>, k: nat)
    requires Run(run) && k <= |run|
    ensures Marked(run, k, MarksAt(run, k), At(run, k))
  {
    if k > 0 {
      MarkedAt(run, k - 1);
      AtIsPre(run, k - 1);
      ConsistentAt(run, k - 1);
      MarkedNext(run, k - 1, MarksAt(run, k - 1));
    }
  }

  /** The step at which ble_manager_reset decides to return ESP_OK. */
  predicate ReturnsOk(step: Step) {
    step.event.LoadPending? && !step.pre.pending
  }

  /** In every interleaving, ble_manager_reset returns OK only after the latest request was
      raised, dispatched, answered by a host reset callback, and released by a sync callback
      that began after it; old syncs, stale completion bits and failed syncs never suffice. */
  lemma OkMeansRecovered(run: seq<Step>, k: nat)
    requires Run(run) && k < |run| && ReturnsOk(run[k])
    ensures exists m :: Recovered(run, k, m)
  {
    MarkedAt(run, k);
    AtIsPre(run, k);
    assert InReset(At(run, k));
    assert Recovered(run, k, MarksAt(run, k));
  }

  /** The step at which ble_manager_wait_until_synced lets the scanner go on. */
  predicate GateOpens(step: Step) {
    step.event.GateLoadPending? && !step.pre.pending
  }

  /** A recovery that outlives its caller's timeout still holds the scanner back: the gate
      opens only when no request was ever raised or the latest one has fully recovered, and
      then nothing of it is left. */
  lemma GateMeansRecovered(run: seq<Step>, k: nat)
    requires Run(run) && k < |run| && GateOpens(run[k])
    ensures (forall j | 0 <= j < k :: !RaisesRequest(run[j])) || exists m :: Recovered(run, k, m)
    ensures run[k].pre.queued == 0 && !run[k].pre.started && !run[k].pre.observed
  {
    MarkedAt(run, k);
    AtIsPre(run, k);
    ConsistentAt(run, k);
    var m := MarksAt(run, k);
    if m.raise >= 0 {
      assert Recovered(run, k, m);
    } else {
      NoMarkNoRaise(run, k);
    }
  }

  lemma {:induction false} NoMarkNoRaise(run: seq<Step>, k: nat)
    requires k <= |run|
    requires MarksAt(run, k).raise < 0
    ensures forall j | 0 <= j < k :: !RaisesRequest(run[j])
  {
    if k > 0 {
      NoMarkNoRaise(run, k - 1);
    }
  }

  // ---- Why the pending flag is read last ------------------------------------------------

  ghost predicate Reachable(s: State) {
    exists run :: Run(run) && At(run, |run|) == s
  }

  lemma ReachNext(s: State, e: Event) returns (t: State)
    requires Reachable(s) && Enabled(s, e)
    ensures Reachable(t) && t == Next(s, e)
  {
    var run :| Run(run) && At(run, |run|) == s;
    var longer := run + [Step(s, e)];
    assert forall i | 0 <= i < |run| :: longer[i] == run[i];
    t := Next(s, e);
    assert Run(longer) && At(longer, |longer|) == t;
  }

  lemma InitialReachable()
    ensures Reachable(INITIAL)
  {
    var empty: seq<Step> := [];
    assert Run(empty) && At(empty, |empty|) == INITIAL;
  }

  /** A first request, dispatched and scheduled while its caller waits. */
  lemma RequestScheduled() returns (s: State)
    ensures Reachable(s)
    ensures s == State(true, false, true, false, false, false, 0, 1, HostIdle, Waiting)
  {
    InitialReachable();
    s := ReachNext(INITIAL, Call);
    s := ReachNext(s, EmptyBits);
    s := ReachNext(s, Enqueue);
    s := ReachNext(s, Dispatch);
    s := ReachNext(s, RequestUnsync);
    s := ReachNext(s, RequestClear);
    s := ReachNext(s, Schedule);
  }

  /** Its recovery, up to the sync callback that has released it but not yet said so. */
  lemma ReleasedButUnsignalled() returns (s: State)
    ensures Reachable(s)
    ensures s == State(false, false, false, false, false, false, 0, 1, SyncPublishing(true), Waiting)
  {
    s := RequestScheduled();
    s := ReachNext(s, HostReset);
    s := ReachNext(s, ObserveReset);
    s := ReachNext(s, ClearAfterReset);
    s := ReachNext(s, SyncBegin);
    s := ReachNext(s, SyncAddress(true));
    s := ReachNext(s, SyncTake);
    s := ReachNext(s, SyncRelease);
  }

  /** The caller leaves after its timeout, comes back, raises a new request and clears the bits. */
  lemma RaisedAgain() returns (s: State)
    ensures Reachable(s)
    ensures s == State(true, false, false, false, false, false, 0, 1, SyncPublishing(true), Emptied)
  {
    s := ReleasedButUnsignalled();
    s := ReachNext(s, Wait);
    s := ReachNext(s, LoadSynced);
    s := ReachNext(s, Call);
    s := ReachNext(s, EmptyBits);
  }

  lemma StaleLook() returns (s: State)
    ensures Reachable(s)
    ensures s == State(true, true, false, false, true, true, 1, 1, HostIdle, SawSynced)
  {
    s := RaisedAgain();
    s := ReachNext(s, SyncPublish);
    s := ReachNext(s, SyncSignal);
    s := ReachNext(s, Enqueue);
    s := ReachNext(s, Wait);
    s := ReachNext(s, LoadSynced);
  }

  /** The completion bit and g_ble_synced can both be seen set while a fresh request has not
      even been dispatched: the signal of the previous recovery lands after the new request
      cleared the bits. Only the final test of g_reset_pending keeps ESP_OK honest. */
  lemma StaleBitsAreSeen()
    ensures exists s :: Reachable(s) && s.scanner.SawSynced? && s.pending && s.queued == 1
  {
    var s := StaleLook();
  }
}
