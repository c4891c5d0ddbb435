/**
 * The other half of the send budget: what a run can still come to. From any state of any run, exactly when an alert
 * can be sent a second time before more time passes, exactly when it can ever be, and runs that spend the whole budget.
 */
module LeaseReach {
  import opened Prelude
  import opened AlertTables
  import opened AlertMachine
  import opened LeaseSafety

  // ---- Budget from any point on ------------------------------------------------------------------------------------

  /** How often the delivery may have been sent, in every state to come, beyond the claims abandoned by then. */
  ghost function Budget(s: State, d: DeliveryId): int
    requires d < |s.db.deliveries|
  {
    var available := if Available(s.claims, s.db.now, d, s.db.deliveries[d]) then 1 else 0;
    |Commitments(s.claims, d)| + available - |Abandoned(s.claims, s.db.now, d)|
  }

  lemma {:induction false} RunKeepsBudget(states: seq<State>, moves: seq<Move>, i: nat, j: nat, d: DeliveryId)
    requires IsRun(states, moves) && i <= j < |states| && d < |states[i].db.deliveries|
    ensures d < |states[j].db.deliveries| && DeliveryBudget(states[j], d, Budget(states[i], d))
    decreases j
  {
    if i == j {
      ReachableBudget(states, moves, i, d);
    } else {
      RunKeepsBudget(states, moves, i, j - 1, d);
      assert IsMove(states, moves, j - 1);
      StepKeepsBudget(states[j - 1], states[moves[j - 1].snapshot].db, moves[j - 1].step, d, Budget(states[i], d));
    }
  }

  /** From any state on, a further send must be paid for with a further abandoned claim. */
  lemma LaterSendsAreBudgeted(states: seq<State>, moves: seq<Move>, i: nat, j: nat, d: DeliveryId)
    requires IsRun(states, moves) && i <= j < |states| && d < |states[i].db.deliveries|
    ensures |Sends(states[j].claims, d)|
         <= Budget(states[i], d) + |Abandoned(states[j].claims, states[j].db.now, d)|
  {
    RunKeepsBudget(states, moves, i, j, d);
    SubsetCard(Sends(states[j].claims, d), Commitments(states[j].claims, d));
  }

  // ---- Runs that go on ---------------------------------------------------------------------------------------------

  /** The second run begins with the first. */
  ghost predicate Continues(states: seq<State>, moves: seq<Move>, states': seq<State>, moves': seq<Move>) {
    && IsRun(states', moves')
    && |moves| + 1 == |states| <= |states'|
    && states'[..|states|] == states && moves'[..|moves|] == moves
  }

  ghost predicate NoTimePasses(moves: seq<Move>, start: nat) {
    forall k :: start <= k < |moves| ==> !moves[k].step.Wait?
  }

  ghost predicate SentTwice(states: seq<State>, d: DeliveryId)
    requires states != []
  {
    |Sends(states[|states| - 1].claims, d)| >= 2
  }

  /** It can be sent a second time, or was, with no more time passing. */
  ghost predicate CanDoubleNow(states: seq<State>, moves: seq<Move>, d: DeliveryId) {
    exists states', moves' :: Continues(states, moves, states', moves') && NoTimePasses(moves', |moves|) && SentTwice(states', d)
  }

  ghost predicate CanDouble(states: seq<State>, moves: seq<Move>, d: DeliveryId) {
    exists states', moves' :: Continues(states, moves, states', moves') && SentTwice(states', d)
  }

  lemma Step(states: seq<State>, moves: seq<Move>, states1: seq<State>, moves1: seq<Move>, step: Step)
    returns (states': seq<State>, moves': seq<Move>)
    requires Continues(states, moves, states1, moves1)
    requires Enabled(states1[|moves1|], states1[|moves1|].db, step)
    ensures Continues(states, moves, states', moves')
    ensures |moves'| == |moves1| + 1 && states'[|moves'|] == Apply(states1[|moves1|], step)
    ensures NoTimePasses(moves1, |moves|) && !step.Wait? ==> NoTimePasses(moves', |moves|)
  {
    states', moves' := Extend(states1, moves1, step, Apply(states1[|moves1|], step));
  }

  // ---- Before more time passes -------------------------------------------------------------------------------------

  /** The claims of the alert that sent or still could, and the one that could be made at once. */
  ghost function Pledged(s: State, d: DeliveryId): nat
    requires d < |s.db.deliveries|
  {
    |Commitments(s.claims, d)| + if Claimable(s.db.deliveries[d], s.db.now) then 1 else 0
  }

  lemma OneIsPledged(before: seq<Claim>, ids: seq<DeliveryId>, now: int, i: nat)
    requires Distinct(ids) && i < |ids|
    ensures Commitments(before + NewClaims(ids, now), ids[i]) == Commitments(before, ids[i]) + {|before| + i}
  {
    var after := before + NewClaims(ids, now);
    forall j | |before| <= j < |after|
      ensures after[j].delivery == ids[i] <==> j == |before| + i
    {
      assert after[j] == Claim(ids[j - |before|], now + CLAIM_LEASE, false, None);
    }
  }

  lemma OthersArePledged(before: seq<Claim>, ids: seq<DeliveryId>, now: int, d: DeliveryId)
    requires d !in ids
    ensures Commitments(before + NewClaims(ids, now), d) == Commitments(before, d)
  {
    var after := before + NewClaims(ids, now);
    assert forall j :: |before| <= j < |after| ==> after[j].delivery == ids[j - |before|];
  }

  lemma ClaimingPledges(s: State, ids: seq<DeliveryId>, d: DeliveryId)
    requires Enabled(s, s.db, ClaimBatch(ids)) && d < |s.db.deliveries|
    ensures Pledged(Apply(s, ClaimBatch(ids)), d) == Pledged(s, d)
  {
    assert d in ids <==> d in Elements(ids);
    if d in ids {
      var i :| 0 <= i < |ids| && ids[i] == d;
      OneIsPledged(s.claims, ids, s.db.now, i);
      assert |s.claims| + i !in Commitments(s.claims, d);
    } else {
      OthersArePledged(s.claims, ids, s.db.now, d);
    }
  }

  lemma RecordingUnpledges(claims: seq<Claim>, k: nat, now: int)
    requires k < |claims| && !claims[k].sent && claims[k].recordedAt.None?
    ensures var after := claims[k := claims[k].(recordedAt := Some(now))];
            |Commitments(after, claims[k].delivery)| == |Commitments(claims, claims[k].delivery)| - 1
            && forall d :: d != claims[k].delivery ==> Commitments(after, d) == Commitments(claims, d)
  {
    var d, after := claims[k].delivery, claims[k := claims[k].(recordedAt := Some(now))];
    assert Commitments(after, d) == Commitments(claims, d) - {k};
    assert k in Commitments(claims, d);
  }

  lemma FailingUnpledges(s: State, step: Step, d: DeliveryId)
    requires (step.Retry? || step.Refuse?) && Enabled(s, s.db, step) && d < |s.db.deliveries|
    ensures Pledged(Apply(s, step), d) <= Pledged(s, d)
  {
    RecordingUnpledges(s.claims, step.claim, s.db.now);
    if d != s.claims[step.claim].delivery {
      assert Apply(s, step).db.deliveries[d] == s.db.deliveries[d];
    }
  }

  lemma PledgedNeverGrows(s: State, snap: Db, step: Step, d: DeliveryId)
    requires Enabled(s, snap, step) && !step.Wait? && d < |s.db.deliveries|
    ensures d < |Apply(s, step).db.deliveries| && Pledged(Apply(s, step), d) <= Pledged(s, d)
  {
    match step
    case ClaimBatch(ids) => ClaimingPledges(s, ids, d);
    case Retry(_) => FailingUnpledges(s, step, d);
    case Refuse(_) => FailingUnpledges(s, step, d);
    case Send(k) =>
      assert Commitments(s.claims[k := s.claims[k].(sent := true)], d) == Commitments(s.claims, d);
    case MarkSent(done) =>
      assert Commitments(Record(s.claims, done, s.db.now), d) == Commitments(s.claims, d);
    case Enqueue(_, _, triples) =>
      assert EnqueueStmt(s.db.deliveries, triples, s.db.now)[d] == s.db.deliveries[d];
    case _ =>
  }

  lemma {:induction false} PledgedBounds(states: seq<State>, moves: seq<Move>, start: nat, j: nat, d: DeliveryId)
    requires IsRun(states, moves) && start <= j < |states| && d < |states[start].db.deliveries|
    requires NoTimePasses(moves, start)
    ensures d < |states[j].db.deliveries| && Pledged(states[j], d) <= Pledged(states[start], d)
    decreases j
  {
    if start < j {
      PledgedBounds(states, moves, start, j - 1, d);
      assert IsMove(states, moves, j - 1);
      PledgedNeverGrows(states[j - 1], states[moves[j - 1].snapshot].db, moves[j - 1].step, d);
    }
  }

  /** The claim sends, unless it has. */
  lemma SendOne(states: seq<State>, moves: seq<Move>, states1: seq<State>, moves1: seq<Move>, k: nat, d: DeliveryId)
    returns (states': seq<State>, moves': seq<Move>)
    requires Continues(states, moves, states1, moves1) && k in Commitments(states1[|moves1|].claims, d)
    ensures Continues(states, moves, states', moves')
    ensures NoTimePasses(moves1, |moves|) ==> NoTimePasses(moves', |moves|)
    ensures Commitments(states'[|moves'|].claims, d) == Commitments(states1[|moves1|].claims, d)
    ensures Sends(states'[|moves'|].claims, d) == Sends(states1[|moves1|].claims, d) + {k}
  {
    states', moves' := states1, moves1;
    var claims := states1[|moves1|].claims;
    if claims[k].sent {
      assert k in Sends(claims, d);
    } else {
      states', moves' := Step(states, moves, states1, moves1, Send(k));
    }
  }

  lemma SendTwo(states: seq<State>, moves: seq<Move>, states1: seq<State>, moves1: seq<Move>, d: DeliveryId)
    returns (states': seq<State>, moves': seq<Move>)
    requires Continues(states, moves, states1, moves1) && |Commitments(states1[|moves1|].claims, d)| >= 2
    ensures Continues(states, moves, states', moves')
    ensures NoTimePasses(moves1, |moves|) ==> NoTimePasses(moves', |moves|)
    ensures SentTwice(states', d)
  {
    var all := Commitments(states1[|moves1|].claims, d);
    var a :| a in all;
    CardMinus(all, {a});
    var b :| b in all - {a};
    states', moves' := SendOne(states, moves, states1, moves1, a, d);
    states', moves' := SendOne(states, moves, states', moves', b, d);
    SubsetCard({a, b}, Sends(states'[|moves'|].claims, d));
  }

  /** Any worker may take it now, and whoever else may still send it, does. */
  lemma ClaimAndSend(states: seq<State>, moves: seq<Move>, states1: seq<State>, moves1: seq<Move>, d: DeliveryId)
    returns (states': seq<State>, moves': seq<Move>)
    requires Continues(states, moves, states1, moves1) && d < |states1[|moves1|].db.deliveries|
    requires Claimable(states1[|moves1|].db.deliveries[d], states1[|moves1|].db.now)
    requires |Commitments(states1[|moves1|].claims, d)| >= 1
    ensures Continues(states, moves, states', moves')
    ensures NoTimePasses(moves1, |moves|) ==> NoTimePasses(moves', |moves|)
    ensures SentTwice(states', d)
  {
    states', moves' := Step(states, moves, states1, moves1, ClaimBatch([d]));
    ClaimingPledges(states1[|moves1|], [d], d);
    assert d in Elements([d]);
    states', moves' := SendTwo(states, moves, states', moves', d);
  }

  /**
   * Whenever a worker has outlived its lease, and the alert is up for another claim while that worker may still send
   * it, both can: "running two instances never doubles an alert" fails in every such state.
   */
  lemma LateWorkerSendsAgain(states: seq<State>, moves: seq<Move>, k: nat, d: DeliveryId)
    returns (states': seq<State>, moves': seq<Move>)
    requires IsRun(states, moves)
    requires OpenClaim(states[|moves|], k) && states[|moves|].claims[k].delivery == d
    requires d < |states[|moves|].db.deliveries| && Claimable(states[|moves|].db.deliveries[d], states[|moves|].db.now)
    ensures Continues(states, moves, states', moves') && NoTimePasses(moves', |moves|) && SentTwice(states', d)
  {
    SubsetCard({k}, Commitments(states[|moves|].claims, d));
    states', moves' := ClaimAndSend(states, moves, states, moves, d);
  }

  /** After any run: the alert can be sent twice before more time passes exactly when two claims are pledged to it. */
  lemma DoubleNowWhen(states: seq<State>, moves: seq<Move>, d: DeliveryId)
    requires IsRun(states, moves) && d < |states[|moves|].db.deliveries|
    ensures CanDoubleNow(states, moves, d) <==> Pledged(states[|moves|], d) >= 2
  {
    if Pledged(states[|moves|], d) >= 2 {
      var states', moves';
      if Claimable(states[|moves|].db.deliveries[d], states[|moves|].db.now) {
        states', moves' := ClaimAndSend(states, moves, states, moves, d);
      } else {
        states', moves' := SendTwo(states, moves, states, moves, d);
      }
    }
    if CanDoubleNow(states, moves, d) {
      var states': seq<State>, moves' :|
        Continues(states, moves, states', moves') && NoTimePasses(moves', |moves|) && SentTwice(states', d);
      assert states'[|moves|] == states[|moves|];
      PledgedBounds(states', moves', |moves|, |moves'|, d);
      SubsetCard(Sends(states'[|moves'|].claims, d), Commitments(states'[|moves'|].claims, d));
    }
  }

  // ---- Ever --------------------------------------------------------------------------------------------------------

  /** Out of the queue, with at most one claim that sent or could, and no claim left that could put it back. */
  ghost predicate Settled(s: State, d: DeliveryId)
    requires d < |s.db.deliveries|
  {
    && s.db.deliveries[d].status != Pending
    && |Commitments(s.claims, d)| <= 1
    && (s.db.deliveries[d].attempts >= s.maxAttempts
        || forall k: nat :: OpenClaim(s, k) ==> s.claims[k].delivery != d)
  }

  lemma MarkSentKeepsSettled(s: State, done: set<nat>, d: DeliveryId)
    requires Enabled(s, s.db, MarkSent(done)) && d < |s.db.deliveries| && Settled(s, d)
    ensures Settled(Apply(s, MarkSent(done)), d)
  {
    var t := Apply(s, MarkSent(done));
    assert Commitments(t.claims, d) == Commitments(s.claims, d);
    forall k: nat | OpenClaim(t, k)
      ensures OpenClaim(s, k) && t.claims[k] == s.claims[k]
    {
    }
  }

  lemma ClaimStepKeepsSettled(s: State, step: Step, d: DeliveryId)
    requires step.Send? || step.Retry? || step.Refuse?
    requires Enabled(s, s.db, step) && d < |s.db.deliveries| && Settled(s, d)
    ensures Settled(Apply(s, step), d)
  {
    var t := Apply(s, step);
    SubsetCard(Commitments(t.claims, d), Commitments(s.claims, d));
    forall k: nat | OpenClaim(t, k)
      ensures OpenClaim(s, k) && t.claims[k] == s.claims[k]
    {
    }
  }

  lemma OthersClaimedKeepsSettled(s: State, ids: seq<DeliveryId>, d: DeliveryId)
    requires Enabled(s, s.db, ClaimBatch(ids)) && d < |s.db.deliveries| && Settled(s, d)
    ensures Settled(Apply(s, ClaimBatch(ids)), d)
  {
    var t := Apply(s, ClaimBatch(ids));
    assert d !in ids;
    assert forall j :: |s.claims| <= j < |t.claims| ==> t.claims[j].delivery == ids[j - |s.claims|];
    assert Commitments(t.claims, d) == Commitments(s.claims, d);
    forall k: nat | OpenClaim(t, k) && t.claims[k].delivery == d
      ensures OpenClaim(s, k) && s.claims[k].delivery == d
    {
    }
  }

  lemma StepKeepsSettled(s: State, snap: Db, step: Step, d: DeliveryId)
    requires Enabled(s, snap, step) && d < |s.db.deliveries| && Settled(s, d)
    ensures d < |Apply(s, step).db.deliveries| && Settled(Apply(s, step), d)
  {
    match step
    case ClaimBatch(ids) => OthersClaimedKeepsSettled(s, ids, d);
    case Send(_) => ClaimStepKeepsSettled(s, step, d);
    case Retry(_) => ClaimStepKeepsSettled(s, step, d);
    case Refuse(_) => ClaimStepKeepsSettled(s, step, d);
    case MarkSent(done) => MarkSentKeepsSettled(s, done, d);
    case Enqueue(_, _, triples) =>
      assert EnqueueStmt(s.db.deliveries, triples, s.db.now)[d] == s.db.deliveries[d];
      assert forall k: nat :: OpenClaim(Apply(s, step), k) ==> OpenClaim(s, k);
    case _ =>
      assert forall k: nat :: OpenClaim(Apply(s, step), k) ==> OpenClaim(s, k);
  }

  lemma {:induction false} StaysSettled(states: seq<State>, moves: seq<Move>, start: nat, j: nat, d: DeliveryId)
    requires IsRun(states, moves) && start <= j < |states| && d < |states[start].db.deliveries|
    requires Settled(states[start], d)
    ensures d < |states[j].db.deliveries| && Settled(states[j], d)
    decreases j
  {
    if start < j {
      StaysSettled(states, moves, start, j - 1, d);
      assert IsMove(states, moves, j - 1);
      StepKeepsSettled(states[j - 1], states[moves[j - 1].snapshot].db, moves[j - 1].step, d);
    }
  }

  /** A pending alert is claimed once its time has come, and comes up again when that lease has run out. */
  lemma PendingCanDouble(states: seq<State>, moves: seq<Move>, states1: seq<State>, moves1: seq<Move>, d: DeliveryId)
    requires Continues(states, moves, states1, moves1) && d < |states1[|moves1|].db.deliveries|
    requires states1[|moves1|].db.deliveries[d].status == Pending
    ensures CanDouble(states, moves, d)
  {
    var s := states1[|moves1|];
    var states', moves' := Step(states, moves, states1, moves1, Wait(Max(s.db.now, s.db.deliveries[d].nextAttemptAt)));
    var s' := states'[|moves'|];
    states', moves' := Step(states, moves, states', moves', ClaimBatch([d]));
    ClaimingPledges(s', [d], d);
    assert d in Elements([d]);
    states', moves' := Step(states, moves, states', moves', Wait(s'.db.now + CLAIM_LEASE));
    states', moves' := ClaimAndSend(states, moves, states', moves', d);
  }

  /** After any run: the alert can ever come to be sent twice exactly when it is not settled. */
  lemma DoubleWhen(states: seq<State>, moves: seq<Move>, d: DeliveryId)
    requires IsRun(states, moves) && d < |states[|moves|].db.deliveries|
    ensures CanDouble(states, moves, d) <==> !Settled(states[|moves|], d)
  {
    var s := states[|moves|];
    if CanDouble(states, moves, d) {
      var states': seq<State>, moves' :| Continues(states, moves, states', moves') && SentTwice(states', d);
      assert states'[|moves|] == states[|moves|];
      if Settled(s, d) {
        StaysSettled(states', moves', |moves|, |moves'|, d);
        SubsetCard(Sends(states'[|moves'|].claims, d), Commitments(states'[|moves'|].claims, d));
        assert false;
      }
    }
    if s.db.deliveries[d].status == Pending {
      PendingCanDouble(states, moves, states, moves, d);
    } else if |Commitments(s.claims, d)| >= 2 {
      var states', moves' := SendTwo(states, moves, states, moves, d);
    } else if !Settled(s, d) {
      var k: nat :| OpenClaim(s, k) && s.claims[k].delivery == d;
      var states', moves' := Step(states, moves, states, moves, Retry(k));
      PendingCanDouble(states, moves, states', moves', d);
    }
  }

  // ---- The whole budget --------------------------------------------------------------------------------------------

  /** Claimed n times, each time outlived, and up for the next claim. */
  ghost predicate Outlived(s: State, d: DeliveryId, n: nat) {
    && d < |s.db.deliveries| && Claimable(s.db.deliveries[d], s.db.now)
    && |ClaimsOf(s.claims, d)| == n
    && forall k <- ClaimsOf(s.claims, d) :: OpenClaim(s, k) && s.claims[k].leaseEnd <= s.db.now
  }

  /** Claimed once more than it was outlived; nothing of it recorded. */
  ghost predicate Taken(s: State, d: DeliveryId, n: nat) {
    && d < |s.db.deliveries|
    && |ClaimsOf(s.claims, d)| == n + 1
    && |Abandoned(s.claims, s.db.now, d)| == n
    && forall k <- ClaimsOf(s.claims, d) :: s.claims[k].recordedAt.None?
  }

  lemma OneMoreClaim(claims: seq<Claim>, now: int, d: DeliveryId)
    requires forall k <- ClaimsOf(claims, d) :: claims[k].recordedAt.None? && claims[k].leaseEnd <= now
    ensures var after := claims + [Claim(d, now + CLAIM_LEASE, false, None)];
            ClaimsOf(after, d) == ClaimsOf(claims, d) + {|claims|} && Abandoned(after, now, d) == ClaimsOf(claims, d)
  {
    var after := claims + [Claim(d, now + CLAIM_LEASE, false, None)];
    forall k: nat | k < |claims|
      ensures k in ClaimsOf(claims, d) <==> after[k].delivery == d && LeftOpen(after[k], now)
    {
      if claims[k].delivery == d {
        assert k in ClaimsOf(claims, d);
      }
    }
  }

  lemma ClaimAgain(s: State, d: DeliveryId)
    requires d < |s.db.deliveries| && Claimable(s.db.deliveries[d], s.db.now)
    ensures Enabled(s, s.db, ClaimBatch([d]))
    ensures var t := Apply(s, ClaimBatch([d]));
            && d < |t.db.deliveries| && t.db.now == s.db.now
            && t.db.deliveries[d].status == Pending && t.db.deliveries[d].nextAttemptAt == s.db.now + CLAIM_LEASE
            && t.claims == s.claims + [Claim(d, s.db.now + CLAIM_LEASE, false, None)]
  {
    assert d in Elements([d]);
    assert NewClaims([d], s.db.now) == [Claim(d, s.db.now + CLAIM_LEASE, false, None)];
  }

  lemma TakeOnce(s: State, d: DeliveryId, n: nat)
    requires Outlived(s, d, n)
    ensures Enabled(s, s.db, ClaimBatch([d])) && Taken(Apply(s, ClaimBatch([d])), d, n)
  {
    ClaimAgain(s, d);
    OneMoreClaim(s.claims, s.db.now, d);
    assert |s.claims| !in ClaimsOf(s.claims, d);
  }

  lemma OutliveOnce(s: State, d: DeliveryId, n: nat)
    requires Outlived(s, d, n)
    ensures Enabled(s, s.db, ClaimBatch([d]))
    ensures var t := Apply(s, ClaimBatch([d]));
            t.db.now == s.db.now && Outlived(Apply(t, Wait(s.db.now + CLAIM_LEASE)), d, n + 1)
  {
    ClaimAgain(s, d);
    OneMoreClaim(s.claims, s.db.now, d);
    var t := Apply(s, ClaimBatch([d]));
    assert |s.claims| !in ClaimsOf(s.claims, d);
    forall k <- ClaimsOf(t.claims, d)
      ensures OpenClaim(t, k) && t.claims[k].leaseEnd <= s.db.now + CLAIM_LEASE
    {
      assert k < |s.claims| ==> k in ClaimsOf(s.claims, d);
    }
  }

  lemma {:induction false} OutliveAll(states: seq<State>, moves: seq<Move>, d: DeliveryId, n: nat)
    returns (states': seq<State>, moves': seq<Move>)
    requires IsRun(states, moves) && Outlived(states[|moves|], d, 0)
    ensures Continues(states, moves, states', moves') && Outlived(states'[|moves'|], d, n)
  {
    if n == 0 {
      states', moves' := states, moves;
    } else {
      states', moves' := OutliveAll(states, moves, d, n - 1);
      var s := states'[|moves'|];
      OutliveOnce(s, d, n - 1);
      states', moves' := Step(states, moves, states', moves', ClaimBatch([d]));
      states', moves' := Step(states, moves, states', moves', Wait(s.db.now + CLAIM_LEASE));
    }
  }

  lemma SendingKeepsTaken(s: State, k: nat, d: DeliveryId, n: nat)
    requires Taken(s, d, n) && k in ClaimsOf(s.claims, d) && OpenClaim(s, k)
    ensures var t := Apply(s, Send(k));
            Taken(t, d, n) && ClaimsOf(t.claims, d) == ClaimsOf(s.claims, d)
            && Sends(t.claims, d) == Sends(s.claims, d) + {k}
  {
    var t := Apply(s, Send(k));
    assert ClaimsOf(t.claims, d) == ClaimsOf(s.claims, d);
    assert Abandoned(t.claims, s.db.now, d) == Abandoned(s.claims, s.db.now, d);
  }

  lemma {:induction false} SendAll(states: seq<State>, moves: seq<Move>, states1: seq<State>, moves1: seq<Move>,
          d: DeliveryId, n: nat)
    returns (states': seq<State>, moves': seq<Move>)
    requires Continues(states, moves, states1, moves1) && Taken(states1[|moves1|], d, n)
    ensures Continues(states, moves, states', moves') && Taken(states'[|moves'|], d, n)
    ensures |Sends(states'[|moves'|].claims, d)| == n + 1
    decreases ClaimsOf(states1[|moves1|].claims, d) - Sends(states1[|moves1|].claims, d)
  {
    var s := states1[|moves1|];
    if ClaimsOf(s.claims, d) - Sends(s.claims, d) == {} {
      states', moves' := states1, moves1;
      forall k <- ClaimsOf(s.claims, d)
        ensures k in Sends(s.claims, d)
      {
        assert k !in ClaimsOf(s.claims, d) - Sends(s.claims, d);
      }
      assert Sends(s.claims, d) == ClaimsOf(s.claims, d);
    } else {
      var k :| k in ClaimsOf(s.claims, d) - Sends(s.claims, d);
      SendingKeepsTaken(s, k, d, n);
      states', moves' := Step(states, moves, states1, moves1, Send(k));
      states', moves' := SendAll(states, moves, states', moves', d, n);
    }
  }

  /** From any run that leaves an alert up for its first claim: n abandoned claims, and n + 1 sends. */
  lemma BudgetIsSpent(states: seq<State>, moves: seq<Move>, d: DeliveryId, n: nat)
    returns (states': seq<State>, moves': seq<Move>)
    requires IsRun(states, moves) && Outlived(states[|moves|], d, 0)
    ensures Continues(states, moves, states', moves')
    ensures var s := states'[|moves'|];
            |Abandoned(s.claims, s.db.now, d)| == n && |Sends(s.claims, d)| == n + 1
  {
    states', moves' := OutliveAll(states, moves, d, n);
    TakeOnce(states'[|moves'|], d, n);
    states', moves' := Step(states, moves, states', moves', ClaimBatch([d]));
    states', moves' := SendAll(states, moves, states', moves', d, n);
  }

  // ---- From nothing ------------------------------------------------------------------------------------------------

  /** One check DOWN and one channel. */
  function Example(incidents: seq<Incident>, deliveries: seq<Delivery>, justOpened: set<Ref>): State {
    State(Db(map[0 := Check(0, 0, DOWN, None, None, None)], map[0 := Channel(0, true)], incidents, deliveries, 0),
          [], justOpened, {}, {}, 6)
  }

  lemma AlertQueued() returns (states: seq<State>, moves: seq<Move>)
    ensures IsRun(states, moves) && Outlived(states[|moves|], 0, 0)
  {
    var incident, t := Incident(0, 0, None), Triple(0, 0, Down);
    var alert := Delivery(t, Pending, 0, 0, None);
    states, moves := [Example([], [], {})], [];
    assert OpenStmt([], [0], 0) == [incident];
    assert Inserted([], [incident]) == {Ref(0, 0)};
    states, moves := Extend(states, moves, OpenIncidents([0]), Example([incident], [], {Ref(0, 0)}));
    forall x
      ensures InFanout(states[1].db, {Ref(0, 0)}, Down, x) <==> x in [t]
    {
      if x == t {
        assert Ref(0, 0) in {Ref(0, 0)};
      }
    }
    assert EnqueueStmt([], [t], 0) == [alert];
    states, moves := Extend(states, moves, Enqueue(Down, {Ref(0, 0)}, [t]), Example([incident], [alert], {}));
    assert ClaimsOf([], 0) == {};
  }

  /** The bound of `SendsAreBudgeted` is met, whatever the number of abandoned claims. */
  lemma BudgetIsReached(n: nat) returns (states: seq<State>, moves: seq<Move>)
    ensures IsRun(states, moves)
    ensures var s := states[|moves|];
            |Abandoned(s.claims, s.db.now, 0)| == n && |Sends(s.claims, 0)| == n + 1
  {
    states, moves := AlertQueued();
    states, moves := BudgetIsSpent(states, moves, 0, n);
  }
}
