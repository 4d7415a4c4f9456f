/** The relay task: messages set forces and timers, the loop expires timers, and each change is
    written to the outputs once. */
module RelayManager {
  import opened RelayBoard
  import opened RelayTimer
  import opened Wrappers

  datatype Force = NoForce | On | Off

  datatype RelayState = RelayState(timerActive: bool, force: Force, outputOn: bool, offAt: int)

  /** What force and timer ask for. */
  predicate Desired(s: RelayState) {
    match s.force
    case On => true
    case Off => false
    case NoForce => s.timerActive
  }

  function TimerOf(s: RelayState): Option<int> {
    if s.timerActive then Some(s.offAt) else None
  }

  function Forced(force: Force, r: Request): Force {
    match r
    case ForceOn => On
    case ForceOff => Off
    case ClearForce => NoForce
    case OnFor(_) => force
    case Query => force
  }

  class Manager {
    const hw: Hardware
    const outputs: Outputs
    const relays: array<RelayState>
    ghost var failed: set<int>       // relays whose latest write failed
    ghost var turns: seq<Turn>       // the turns of the loop so far

    constructor (hw: Hardware, reliable: bool)
      requires Usable(hw)
      ensures Valid() && Timed() && this.hw == hw && outputs.reliable == reliable && failed == {} && turns == []
      ensures fresh(outputs) && fresh(relays)
      ensures forall i | 0 <= i < hw.count :: relays[i] == RelayState(false, NoForce, false, 0)
    {
      this.hw := hw;
      outputs := new Outputs(hw, reliable);
      relays := new RelayState[MAX_RELAYS](_ => RelayState(false, NoForce, false, 0));
      failed, turns := {}, [];
    }

    predicate Mapped(channel: int) {
      exists i | 0 <= i < |hw.channels| && i < hw.count :: hw.channels[i] == channel
    }

    /** Each relay's line has the level of its output_on, and every other bit of a TCA9554 still
        has the level it was configured with. */
    ghost predicate Consistent()
      reads this, outputs, relays
    {
      && Usable(hw) && outputs.hw == hw && relays.Length == MAX_RELAYS
      && (forall i | 0 <= i < hw.count :: outputs.Line(hw.channels[i]) == High(hw, relays[i].outputOn))
      && (hw.kind.Tca9554? ==> forall c | 0 <= c < 8 && !Mapped(c) :: outputs.Line(c) == High(hw, false))
      && (outputs.reliable ==> failed == {})
    }

    /** And an output differs from what force and timer ask for only when the latest write of
        that relay failed. */
    ghost predicate Valid()
      reads this, outputs, relays
    {
      Consistent() && forall i | 0 <= i < hw.count :: relays[i].outputOn == Desired(relays[i]) || i + 1 in failed
    }

    /** Valid, but relay i may not have been written yet. */
    ghost predicate Pending(i: int)
      reads this, outputs, relays
    {
      && Consistent()
      && forall k | 0 <= k < hw.count && k != i :: relays[k].outputOn == Desired(relays[k]) || k + 1 in failed
    }

    /** Writes one relay's level and records it. */
    method WriteOutput(i: int, on: bool) returns (ok: bool)
      requires Consistent() && 0 <= i < hw.count
      modifies outputs, relays
      ensures Consistent() && (outputs.reliable ==> ok)
      ensures relays[i] == if ok then old(relays[i]).(outputOn := on) else old(relays[i])
      ensures forall k | 0 <= k < hw.count && k != i :: relays[k] == old(relays[k])
    {
      assert forall k | 0 <= k < hw.count :: outputs.Driven(hw.channels[k]);
      ok := outputs.Set(hw.channels[i], on);
      if ok {
        relays[i] := relays[i].(outputOn := on);
      }
    }

    /** apply_output. */
    method ApplyOutput(relay: int)
      requires 1 <= relay <= hw.count && Pending(relay - 1)
      modifies outputs, relays, this`failed
      ensures Valid()
      ensures relays[relay - 1] == old(relays[relay - 1]).(outputOn := relays[relay - 1].outputOn)
      ensures forall k | 0 <= k < hw.count && k != relay - 1 :: relays[k] == old(relays[k])
    {
      var desired := Desired(relays[relay - 1]);
      if relays[relay - 1].outputOn == desired {
        return;
      }
      var ok := WriteOutput(relay - 1, desired);
      failed := if ok then failed - {relay} else failed + {relay};
    }

    /** A relay's new force or timer, and its output. */
    method Update(i: int, state: RelayState)
      requires Valid() && 0 <= i < hw.count && state.outputOn == relays[i].outputOn
      modifies outputs, relays, this`failed
      ensures Valid()
      ensures relays[i] == state.(outputOn := relays[i].outputOn)
      ensures forall k | 0 <= k < hw.count && k != i :: relays[k] == old(relays[k])
    {
      relays[i] := state;
      ApplyOutput(i + 1);
    }

    /** expire_timers. */
    method ExpireTimers(now: int)
      requires Valid()
      modifies outputs, relays, this`failed
      ensures Valid()
      ensures forall i | 0 <= i < hw.count ::
        TimerOf(relays[i]) == Expired(TimerOf(old(relays[i])), now) && relays[i].force == old(relays[i].force)
    {
      for i := 0 to hw.count
        invariant Valid()
        invariant forall k | 0 <= k < i ::
          TimerOf(relays[k]) == Expired(TimerOf(old(relays[k])), now) && relays[k].force == old(relays[k].force)
        invariant forall k | i <= k < hw.count :: relays[k] == old(relays[k])
      {
        var state := relays[i];
        if state.timerActive && state.offAt <= now {
          Update(i, state.(timerActive := false, offAt := 0));
        }
      }
    }

    /** handle_message, without the reply. A number that is no relay's changes nothing. */
    method HandleMessage(m: Message, now: int)
      requires Valid()
      modifies outputs, relays, this`failed
      ensures Valid()
      ensures forall i | 0 <= i < hw.count ::
        && TimerOf(relays[i]) == Handled(TimerOf(old(relays[i])), i + 1, m, now)
        && relays[i].force == if m.relay == i + 1 then Forced(old(relays[i].force), m.request) else old(relays[i].force)
    {
      if m.relay < 1 || m.relay > hw.count {
        return;
      }
      var i := m.relay - 1;
      var state := relays[i];
      match m.request {
        case OnFor(seconds) =>
          var requested := now + seconds * SECOND;
          var offAt := if state.timerActive && state.offAt > requested then state.offAt else requested;
          Update(i, if seconds > 0 then state.(timerActive := true, offAt := offAt)
                    else state.(timerActive := false, offAt := 0));
        case ForceOn =>
          Update(i, state.(force := On));
        case ForceOff =>
          Update(i, state.(force := Off));
        case ClearForce =>
          Update(i, state.(force := NoForce));
        case Query =>
      }
    }
  
    /** Timers and forces are what the turns so far have made them. */
    ghost predicate Timed()
      reads this, relays
    {
      && relays.Length >= hw.count && Ordered(turns)
      && (forall i | 0 <= i < hw.count :: TimerOf(relays[i]) == Timer(i + 1, turns))
      && (forall i | 0 <= i < hw.count :: ForceStands(i + 1, turns, relays[i].force))
    }

    /** One turn of relay_task. After it every relay whose latest write did not fail is as the
        history of messages asks, and every line has the level that switches its relay so. */
    method RunTurn(t: Turn)
      requires Valid() && Timed() && Ordered(turns + [t])
      modifies outputs, relays, this
      ensures Valid() && Timed() && turns == old(turns) + [t]
      ensures forall i | 0 <= i < hw.count && i + 1 !in failed :: Asked(i + 1, turns, t.expiredAt, relays[i].outputOn)
      ensures hw.activeLevel == 1 ==>
        forall i | 0 <= i < hw.count :: outputs.Line(hw.channels[i]) == relays[i].outputOn
      ensures hw.activeLevel == 0 ==>
        forall i | 0 <= i < hw.count :: outputs.Line(hw.channels[i]) == !relays[i].outputOn
      ensures hw.kind.Tca9554? ==>
        forall c | 0 <= c < 8 && c !in hw.channels[..hw.count] :: outputs.Line(c) == (hw.activeLevel == 0)
      ensures outputs.reliable ==> failed == {}
    {
      if t.message.Some? {
        HandleMessage(t.message.value, t.handledAt);
      }
      ExpireTimers(t.expiredAt);
      turns := turns + [t];
      assert turns[..|turns| - 1] == old(turns) && turns[|turns| - 1] == t;
      forall i | 0 <= i < hw.count
        ensures TimerOf(relays[i]).Some? <==> AnyLive(i + 1, turns, t.expiredAt)
        ensures ForceStands(i + 1, turns, relays[i].force)
      {
        ActiveMeansLive(i + 1, turns);
        ForceStandsNext(i + 1, old(turns), t, old(relays[i].force), relays[i].force);
      }
    }
  }

  /** A force stands for the last message that set it. */
  ghost predicate ForceStands(relay: int, turns: seq<Turn>, force: Force) {
    && (force.On? <==> LastForce(relay, turns, ForceOn))
    && (force.Off? <==> LastForce(relay, turns, ForceOff))
  }

  lemma ForceStandsNext(relay: int, turns: seq<Turn>, t: Turn, before: Force, after: Force)
    requires ForceStands(relay, turns, before)
    requires after == if t.message.Some? && t.message.value.relay == relay then Forced(before, t.message.value.request)
                      else before
    ensures ForceStands(relay, turns + [t], after)
  {
    LastForceNext(relay, turns, t, ForceOn);
    LastForceNext(relay, turns, t, ForceOff);
  }
}
