/** The dead-man timer of a relay, from the history of the relay task's loop. Relays are numbered
    from 1, times are microseconds. */
module RelayTimer {
  import opened Wrappers

  const SECOND: int := 1000000

  datatype Request = OnFor(seconds: nat) | ForceOn | ForceOff | ClearForce | Query

  datatype Message = Message(relay: int, request: Request)

  /** One turn of the loop: perhaps a message, handled at a time, then the expiry. */
  datatype Turn = Turn(message: Option<Message>, handledAt: int, expiredAt: int)

  // ---- What a turn does to a timer ---------------------------------------------------

  /** The timer after a message: the time it ends at, or None when it is not active. */
  function Handled(timer: Option<int>, relay: int, m: Message, now: int): Option<int> {
    if m.relay != relay || !m.request.OnFor? then timer
    else if m.request.seconds == 0 then None
    else
      var requested := now + m.request.seconds * SECOND;
      if timer.Some? && timer.value > requested then timer else Some(requested)
  }

  function Expired(timer: Option<int>, now: int): Option<int> {
    if timer.Some? && timer.value <= now then None else timer
  }

  function AfterTurn(timer: Option<int>, relay: int, t: Turn): Option<int> {
    Expired(if t.message.Some? then Handled(timer, relay, t.message.value, t.handledAt) else timer, t.expiredAt)
  }

  function Timer(relay: int, turns: seq<Turn>): Option<int> {
    if |turns| == 0 then None else AfterTurn(Timer(relay, turns[..|turns| - 1]), relay, turns[|turns| - 1])
  }

  // ---- What the history says ---------------------------------------------------------

  /** Time does not run backwards. */
  predicate Ordered(turns: seq<Turn>) {
    && (forall i | 0 <= i < |turns| :: turns[i].handledAt <= turns[i].expiredAt)
    && (forall i, j | 0 <= i < j < |turns| :: turns[i].expiredAt <= turns[j].handledAt)
  }

  lemma OrderedTurns(a: Turn, b: Turn)
    ensures Ordered([a, b]) <==> a.handledAt <= a.expiredAt <= b.handledAt <= b.expiredAt
  {
    var turns := [a, b];
    assert Ordered(turns) ==> turns[0].handledAt <= turns[0].expiredAt <= turns[1].handledAt <= turns[1].expiredAt;
  }

  predicate Asks(relay: int, t: Turn) {
    t.message.Some? && t.message.value.relay == relay && t.message.value.request.OnFor?
      && t.message.value.request.seconds > 0
  }

  predicate Cancels(relay: int, t: Turn) {
    t.message.Some? && t.message.value.relay == relay && t.message.value.request == OnFor(0)
  }

  function End(t: Turn): int {
    if t.message.Some? && t.message.value.request.OnFor? then
      t.handledAt + t.message.value.request.seconds * SECOND
    else t.handledAt
  }

  /** A request for the relay that no later message took back and that ends after now. */
  predicate Live(relay: int, turns: seq<Turn>, i: nat, now: int) {
    && i < |turns| && Asks(relay, turns[i]) && End(turns[i]) > now
    && forall k | i < k < |turns| :: !Cancels(relay, turns[k])
  }

  /** The timer stands for the live requests: it ends with the last of them, and is not active
      when there is none. */
  ghost predicate StandsFor(timer: Option<int>, relay: int, turns: seq<Turn>, now: int) {
    && (forall i: nat | Live(relay, turns, i, now) :: timer.Some? && End(turns[i]) <= timer.value)
    && (timer.Some? ==> exists i: nat :: Live(relay, turns, i, now) && End(turns[i]) == timer.value)
  }

  lemma LiveNext(relay: int, turns: seq<Turn>, t: Turn, i: nat, now: int)
    ensures Live(relay, turns + [t], i, now) <==>
      if i == |turns| then Asks(relay, t) && End(t) > now
      else Live(relay, turns, i, now) && !Cancels(relay, t)
  {
    var all := turns + [t];
    if i < |turns| {
      assert all[i] == turns[i] && all[|turns|] == t;
      assert forall k | i < k < |turns| :: all[k] == turns[k];
    }
  }

  lemma LiveEarlier(relay: int, turns: seq<Turn>, i: nat, before: int, now: int)
    requires before <= now && Live(relay, turns, i, now)
    ensures Live(relay, turns, i, before)
  {
  }

  /** After a message and an expiry at a later time the timer stands for the live requests. */
  lemma StandsNext(relay: int, turns: seq<Turn>, t: Turn, before: int, timer: Option<int>)
    requires StandsFor(timer, relay, turns, before) && before <= t.handledAt <= t.expiredAt
    ensures StandsFor(AfterTurn(timer, relay, t), relay, turns + [t], t.expiredAt)
  {
    var all, after, now := turns + [t], AfterTurn(timer, relay, t), t.expiredAt;
    forall i: nat | Live(relay, all, i, now) ensures after.Some? && End(all[i]) <= after.value {
      LiveNext(relay, turns, t, i, now);
      if i < |turns| {
        LiveEarlier(relay, turns, i, before, now);
      }
    }
    if after.Some? {
      if Asks(relay, t) && after.value == End(t) {
        LiveNext(relay, turns, t, |turns|, now);
      } else {
        var i: nat :| Live(relay, turns, i, before) && End(turns[i]) == timer.value;
        assert Live(relay, turns, i, now);
        LiveNext(relay, turns, t, i, now);
      }
    }
  }

  /** After every turn of the loop a timer is active exactly when some request is live, and it
      ends when the last live request does. */
  lemma {:induction false} TimerStandsForRequests(relay: int, turns: seq<Turn>)
    requires Ordered(turns) && |turns| > 0
    ensures StandsFor(Timer(relay, turns), relay, turns, turns[|turns| - 1].expiredAt)
  {
    var before, t := turns[..|turns| - 1], turns[|turns| - 1];
    assert turns == before + [t];
    if |before| > 0 {
      TimerStandsForRequests(relay, before);
      StandsNext(relay, before, t, before[|before| - 1].expiredAt, Timer(relay, before));
    } else {
      assert Timer(relay, before) == None;
      assert StandsFor(None, relay, before, t.handledAt);
      StandsNext(relay, before, t, t.handledAt, None);
    }
  }

  // ---- Forces --------------------------------------------------------------------------

  predicate IsForce(relay: int, t: Turn) {
    && t.message.Some? && t.message.value.relay == relay
    && (t.message.value.request.ForceOn? || t.message.value.request.ForceOff? || t.message.value.request.ClearForce?)
  }

  /** The last message that set or cleared a force of the relay was this one. */
  ghost predicate LastForce(relay: int, turns: seq<Turn>, r: Request) {
    exists k: nat :: ForcedAt(relay, turns, r, k)
  }

  predicate ForcedAt(relay: int, turns: seq<Turn>, r: Request, k: nat) {
    && k < |turns| && turns[k].message == Some(Message(relay, r))
    && forall j | k < j < |turns| :: !IsForce(relay, turns[j])
  }

  lemma LastForceNext(relay: int, turns: seq<Turn>, t: Turn, r: Request)
    requires r.ForceOn? || r.ForceOff?
    ensures LastForce(relay, turns + [t], r) <==>
      t.message == Some(Message(relay, r)) || (LastForce(relay, turns, r) && !IsForce(relay, t))
  {
    var all := turns + [t];
    assert all[|turns|] == t;
    if t.message == Some(Message(relay, r)) {
      assert ForcedAt(relay, all, r, |turns|);
    }
    if k: nat :| ForcedAt(relay, turns, r, k) && !IsForce(relay, t) {
      assert all[k] == turns[k];
      assert forall j | k < j < |turns| :: all[j] == turns[j];
      assert ForcedAt(relay, all, r, k);
    }
    if k: nat :| ForcedAt(relay, all, r, k) && k < |turns| {
      assert forall j | 0 <= j < |turns| :: all[j] == turns[j];
      assert ForcedAt(relay, turns, r, k);
    }
  }

  /** What the history asks of a relay: on or off by the last force, and without one on exactly
      while some request is live. */
  ghost predicate Asked(relay: int, turns: seq<Turn>, now: int, on: bool) {
    && (LastForce(relay, turns, ForceOn) ==> on)
    && (LastForce(relay, turns, ForceOff) ==> !on)
    && (!LastForce(relay, turns, ForceOn) && !LastForce(relay, turns, ForceOff) ==>
        (on <==> AnyLive(relay, turns, now)))
  }

  ghost predicate AnyLive(relay: int, turns: seq<Turn>, now: int) {
    exists i: nat :: Live(relay, turns, i, now)
  }

  lemma ActiveMeansLive(relay: int, turns: seq<Turn>)
    requires Ordered(turns) && |turns| > 0
    ensures Timer(relay, turns).Some? <==> AnyLive(relay, turns, turns[|turns| - 1].expiredAt)
  {
    TimerStandsForRequests(relay, turns);
  }

  /** A single request for some seconds keeps its relay on for so many million microseconds. */
  lemma OneRequest(relay: int, seconds: nat, at: int, now: int)
    requires at <= now
    ensures var turns := [Turn(Some(Message(relay, OnFor(seconds))), at, now)];
      AnyLive(relay, turns, now) <==> now < at + seconds * 1000000
  {
    var turns := [Turn(Some(Message(relay, OnFor(seconds))), at, now)];
    assert seconds > 0 && now < at + seconds * 1000000 ==> Live(relay, turns, 0, now);
  }

  /** A request for no time takes back those before it, and another relay's request does not. */
  lemma TakenBack(relay: int, first: Turn, second: Turn, now: int)
    requires first.message.Some? && first.message.value.relay == relay
    requires first.message.value.request.OnFor? && first.handledAt + first.message.value.request.seconds * 1000000 > now
    requires second.message.Some? && second.message.value.request == OnFor(0)
    requires now >= first.handledAt
    ensures AnyLive(relay, [first, second], now) <==> second.message.value.relay != relay
  {
    var turns := [first, second];
    if second.message.value.relay != relay {
      assert Live(relay, turns, 0, now);
    } else {
      assert Cancels(relay, turns[1]);
    }
  }

  /** The last of the messages that set or clear a force decides. */
  lemma LastForceDecides(relay: int, first: Request, last: Request, at: int)
    requires first in {ForceOn, ForceOff, ClearForce} && last in {ForceOn, ForceOff, ClearForce}
    ensures var turns := [Turn(Some(Message(relay, first)), at, at), Turn(Some(Message(relay, last)), at, at)];
      && (LastForce(relay, turns, ForceOn) <==> last == ForceOn)
      && (LastForce(relay, turns, ForceOff) <==> last == ForceOff)
  {
    var turns := [Turn(Some(Message(relay, first)), at, at), Turn(Some(Message(relay, last)), at, at)];
    assert ForcedAt(relay, turns, last, 1);
  }
}
