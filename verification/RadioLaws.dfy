/** What the book of radio calls says, told from the log alone. */
module RadioLaws {
  import opened Radio
  import opened Wrappers

  predicate Accepted(c: Call) {
    c.Connect? && c.rc == 0
  }

  /** Calls that tell whether a connection attempt is in progress. */
  predicate Tells(c: Call) {
    c.ConnActive? || Accepted(c)
  }

  /** The last call that tells, if any, said that no attempt is in progress. */
  predicate Quiet(log: seq<Call>) {
    forall k | 0 <= k < |log| && Tells(log[k]) && (forall j | k < j < |log| :: !Tells(log[j])) :: log[k] == ConnActive(false)
  }

  lemma QuietNext(log: seq<Call>, c: Call)
    ensures Quiet(log + [c]) <==> if Tells(c) then c == ConnActive(false) else Quiet(log)
  {
    var all := log + [c];
    assert all[|log|] == c;
    assert forall k | 0 <= k < |log| :: all[k] == log[k];
    if Quiet(all) && !Tells(c) {
      forall k | 0 <= k < |log| && Tells(log[k]) && (forall j | k < j < |log| :: !Tells(log[j]))
        ensures log[k] == ConnActive(false)
      {
        assert all[k] == log[k];
      }
    }
  }

  lemma {:induction false} IdleMeansQuiet(log: seq<Call>)
    ensures Book(log).idle <==> Quiet(log)
  {
    if |log| > 0 {
      var front, c := log[..|log| - 1], log[|log| - 1];
      assert front + [c] == log;
      IdleMeansQuiet(front);
      QuietNext(front, c);
    }
  }

  /** What ends a connection with the peer for good: a completed reset of the stack, or a lookup that does
      not find the peer while no attempt is in progress. */
  predicate Ends(log: seq<Call>, i: nat, peer: Address)
    requires i < |log|
  {
    log[i] == ManagerReset(true) || (log[i].Find? && log[i].peer == peer && log[i].rc == 7 && Quiet(log[..i]))
  }

  ghost predicate LeftOver(log: seq<Call>, peer: Address) {
    exists k: nat :: LeftSince(log, peer, k)
  }

  predicate LeftSince(log: seq<Call>, peer: Address, k: nat) {
    && k < |log| && log[k] == Connect(peer, 0)
    && forall j: nat | k < j < |log| :: !Accepted(log[j]) && !Ends(log, j, peer)
  }

  lemma LeftNext(log: seq<Call>, c: Call, peer: Address)
    ensures LeftOver(log + [c], peer) <==>
      c == Connect(peer, 0) || (LeftOver(log, peer) && !Accepted(c) && !Ends(log + [c], |log|, peer))
  {
    var all := log + [c];
    assert all[|log|] == c;
    forall j: nat | j < |log| ensures all[j] == log[j] && (Ends(all, j, peer) <==> Ends(log, j, peer)) {
      assert all[..j] == log[..j];
    }
    if c == Connect(peer, 0) {
      assert LeftSince(all, peer, |log|);
    }
    if k: nat :| LeftSince(log, peer, k) && !Accepted(c) && !Ends(all, |log|, peer) {
      assert LeftSince(all, peer, k);
    }
    if k: nat :| LeftSince(all, peer, k) && k < |log| {
      assert LeftSince(log, peer, k);
    }
  }

  /** A connection is outstanding exactly when the last accepted attempt was for the peer and nothing
      since has ended it. */
  lemma {:induction false} OutstandingMeansLeftOver(log: seq<Call>, peer: Address)
    ensures Book(log).outstanding == Some(peer) <==> LeftOver(log, peer)
  {
    if |log| == 0 {
    } else {
      var front, c := log[..|log| - 1], log[|log| - 1];
      assert front + [c] == log;
      OutstandingMeansLeftOver(front, peer);
      LeftNext(front, c, peer);
      IdleMeansQuiet(front);
      assert log[..|front|] == front;
    }
  }

  // ---- Counts ----------------------------------------------------------------------------

  predicate IsDelay(c: Call) { c == Delay }
  predicate IsTermination(c: Call) { c.Terminate? }
  predicate IsAttempt(c: Call) { c.Connect? }
  predicate IsScan(c: Call) { c.Scan? }

  function Count(log: seq<Call>, which: Call -> bool): nat {
    if |log| == 0 then 0 else Count(log[1..], which) + if which(log[0]) then 1 else 0
  }

  lemma {:induction false} CountSnoc(log: seq<Call>, c: Call, which: Call -> bool)
    ensures Count(log + [c], which) == Count(log, which) + if which(c) then 1 else 0
  {
    if |log| == 0 {
      assert log + [c] == [c] && [c][1..] == [];
    } else {
      assert (log + [c])[1..] == log[1..] + [c];
      CountSnoc(log[1..], c, which);
    }
  }

  lemma {:induction false} BookCounts(log: seq<Call>)
    ensures Book(log).delays == Count(log, IsDelay) && Book(log).terminations == Count(log, IsTermination)
    ensures |Book(log).attempts| == Count(log, IsAttempt) && |Book(log).scans| == Count(log, IsScan)
  {
    if |log| > 0 {
      var front, c := log[..|log| - 1], log[|log| - 1];
      assert front + [c] == log;
      BookCounts(front);
      CountSnoc(front, c, IsDelay);
      CountSnoc(front, c, IsTermination);
      CountSnoc(front, c, IsAttempt);
      CountSnoc(front, c, IsScan);
    }
  }
}
