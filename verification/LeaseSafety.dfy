/**
 * How often one alert can be sent. The statements that record an outcome do not look at the status the
 * row has, so a worker that outlives its lease can revive a row that is already dealt with. What still
 * holds is a budget: one successful send, plus one for each claim whose outcome was not recorded before its
 * lease ended. `LeaseReach` shows that all of it can be spent.
 */
module LeaseSafety {
  import opened Prelude
  import opened AlertTables
  import opened AlertMachine

  /** The lease ran out before the outcome was recorded. */
  predicate LeftOpen(c: Claim, now: int) {
    c.leaseEnd <= now && (c.recordedAt.None? || c.leaseEnd <= c.recordedAt.value)
  }

  ghost function ClaimsOf(claims: seq<Claim>, d: DeliveryId): set<nat> {
    set k: nat | k < |claims| && claims[k].delivery == d
  }

  ghost function Abandoned(claims: seq<Claim>, now: int, d: DeliveryId): set<nat> {
    set k: nat | k < |claims| && claims[k].delivery == d && LeftOpen(claims[k], now)
  }

  ghost function Sends(claims: seq<Claim>, d: DeliveryId): set<nat> {
    set k: nat | k < |claims| && claims[k].delivery == d && claims[k].sent
  }

  /** The claims that have no outcome in the database yet. */
  ghost function Holders(claims: seq<Claim>, d: DeliveryId): set<nat> {
    set k: nat | k < |claims| && claims[k].delivery == d && claims[k].recordedAt.None?
  }

  /** The claims that did send, or still could. */
  ghost function Commitments(claims: seq<Claim>, d: DeliveryId): set<nat> {
    set k: nat | k < |claims| && claims[k].delivery == d && (claims[k].sent || claims[k].recordedAt.None?)
  }

  /** The claim keeps the row out of sight. */
  predicate Covers(c: Claim, d: DeliveryId, row: Delivery, now: int) {
    c.delivery == d && c.recordedAt.None? && c.leaseEnd == row.nextAttemptAt && now < c.leaseEnd
  }

  /** The row is, or will be, up for another claim without any lease having to run out. */
  ghost predicate Available(claims: seq<Claim>, now: int, d: DeliveryId, row: Delivery) {
    row.status == Pending && forall k: nat | k < |claims| :: !Covers(claims[k], d, row, now)
  }

  /** `base` is how often the delivery may be sent without any claim being abandoned. */
  ghost predicate WithinBudget(claims: seq<Claim>, now: int, d: DeliveryId, row: Delivery, maxAttempts: nat,
          base: int)
  {
    var available := if Available(claims, now, d, row) then 1 else 0;
    && |Commitments(claims, d)| + available <= base + |Abandoned(claims, now, d)|
    && row.attempts == |ClaimsOf(claims, d)|
    && row.attempts + available <= maxAttempts + |Abandoned(claims, now, d)|
  }

  ghost predicate DeliveryBudget(s: State, d: DeliveryId, base: int)
    requires d < |s.db.deliveries|
  {
    WithinBudget(s.claims, s.db.now, d, s.db.deliveries[d], s.maxAttempts, base)
  }

  ghost predicate LeaseInvariant(s: State) {
    && s.maxAttempts >= 1
    && (forall k :: 0 <= k < |s.claims| ==> s.claims[k].delivery < |s.db.deliveries|)
    && (forall d: nat :: d < |s.db.deliveries| ==> DeliveryBudget(s, d, 1))
  }

  /** The claims of one delivery are the same in both histories. */
  ghost predicate SameClaims(before: seq<Claim>, after: seq<Claim>, d: DeliveryId) {
    && |before| <= |after|
    && (forall k :: 0 <= k < |before| && (before[k].delivery == d || after[k].delivery == d) ==> after[k] == before[k])
    && (forall k :: |before| <= k < |after| ==> after[k].delivery != d)
  }

  lemma OthersKeepBudget(before: seq<Claim>, after: seq<Claim>, now: int, d: DeliveryId, row: Delivery,
          max: nat, base: int)
    requires WithinBudget(before, now, d, row, max, base) && SameClaims(before, after, d)
    ensures WithinBudget(after, now, d, row, max, base)
  {
    assert ClaimsOf(after, d) == ClaimsOf(before, d);
    assert Abandoned(after, now, d) == Abandoned(before, now, d);
    assert Commitments(after, d) == Commitments(before, d);
    if Available(after, now, d, row) {
      forall k: nat | k < |before|
        ensures !Covers(before[k], d, row, now)
      {
        assert !Covers(after[k], d, row, now);
      }
      assert Available(before, now, d, row);
    }
  }

  /** Time can free a row only by ending the lease that covered it, and that claim becomes an abandoned one. */
  lemma WaitingKeepsBudget(claims: seq<Claim>, now: int, until: int, d: DeliveryId, row: Delivery, max: nat, base: int)
    requires WithinBudget(claims, now, d, row, max, base) && now <= until
    ensures WithinBudget(claims, until, d, row, max, base)
  {
    SubsetCard(Abandoned(claims, now, d), Abandoned(claims, until, d));
    if Available(claims, until, d, row) && !Available(claims, now, d, row) {
      var k: nat :| k < |claims| && Covers(claims[k], d, row, now);
      assert !Covers(claims[k], d, row, until);
      assert k in Abandoned(claims, until, d) && k !in Abandoned(claims, now, d);
    }
  }

  lemma NewRowWithinBudget(claims: seq<Claim>, now: int, d: DeliveryId, row: Delivery, max: nat, base: int)
    requires row.attempts == 0 && max >= 1 && base >= 1
    requires forall k :: 0 <= k < |claims| ==> claims[k].delivery != d
    ensures WithinBudget(claims, now, d, row, max, base)
  {
    assert ClaimsOf(claims, d) == {};
    assert Commitments(claims, d) == {};
  }

  lemma ClaimingKeepsBudget(before: seq<Claim>, after: seq<Claim>, k: nat, now: int, d: DeliveryId,
          row: Delivery, max: nat, base: int)
    requires WithinBudget(before, now, d, row, max, base) && Claimable(row, now)
    requires |before| <= k < |after| && after[..|before|] == before
    requires after[k] == Claim(d, now + CLAIM_LEASE, false, None)
    requires forall j :: |before| <= j < |after| && j != k ==> after[j].delivery != d
    ensures WithinBudget(after, now, d, row.(attempts := row.attempts + 1, nextAttemptAt := now + CLAIM_LEASE), max, base)
  {
    assert forall j :: 0 <= j < |before| ==> after[j] == before[j];
    assert ClaimsOf(after, d) == ClaimsOf(before, d) + {k};
    assert Commitments(after, d) == Commitments(before, d) + {k};
    assert Abandoned(after, now, d) == Abandoned(before, now, d);
    assert Available(before, now, d, row);
    assert Covers(after[k], d, row.(attempts := row.attempts + 1, nextAttemptAt := now + CLAIM_LEASE), now);
  }

  lemma SendingKeepsBudget(before: seq<Claim>, k: nat, now: int, d: DeliveryId, row: Delivery, max: nat, base: int)
    requires WithinBudget(before, now, d, row, max, base)
    requires k < |before| && before[k].delivery == d && !before[k].sent && before[k].recordedAt.None?
    ensures WithinBudget(before[k := before[k].(sent := true)], now, d, row, max, base)
  {
    var after := before[k := before[k].(sent := true)];
    assert ClaimsOf(after, d) == ClaimsOf(before, d);
    assert Abandoned(after, now, d) == Abandoned(before, now, d);
    assert Commitments(after, d) == Commitments(before, d);
    if Available(after, now, d, row) {
      forall j: nat | j < |before|
        ensures !Covers(before[j], d, row, now)
      {
        assert !Covers(after[j], d, row, now);
      }
      assert Available(before, now, d, row);
    }
  }

  /** A failure recorded, in time or late, gives back at most the send it gave up. */
  lemma RecordingFailureKeepsBudget(before: seq<Claim>, k: nat, now: int, d: DeliveryId, row: Delivery,
          row': Delivery, max: nat, base: int)
    requires WithinBudget(before, now, d, row, max, base)
    requires k < |before| && before[k].delivery == d && !before[k].sent && before[k].recordedAt.None?
    requires row'.attempts == row.attempts
    requires row'.status == Pending ==> row.attempts < max
    ensures WithinBudget(before[k := before[k].(recordedAt := Some(now))], now, d, row', max, base)
  {
    var after := before[k := before[k].(recordedAt := Some(now))];
    assert k in Commitments(before, d);
    assert ClaimsOf(after, d) == ClaimsOf(before, d);
    assert Abandoned(after, now, d) == Abandoned(before, now, d);
    assert Commitments(after, d) == Commitments(before, d) - {k};
  }

  lemma RecordingSentKeepsBudget(before: seq<Claim>, done: set<nat>, now: int, d: DeliveryId, row: Delivery,
          max: nat, base: int)
    requires WithinBudget(before, now, d, row, max, base)
    requires forall k <- done :: k < |before| && before[k].sent && before[k].recordedAt.None?
    ensures WithinBudget(Record(before, done, now), now, d, row.(status := Sent, sentAt := Some(now)), max, base)
  {
    var after := Record(before, done, now);
    assert ClaimsOf(after, d) == ClaimsOf(before, d);
    assert Abandoned(after, now, d) == Abandoned(before, now, d);
    assert Commitments(after, d) == Commitments(before, d);
  }

  /* ------------------------------------------------------------------- one step --- */

  lemma {:induction false} EnqueuedAreNew(deliveries: seq<Delivery>, triples: seq<Triple>, now: int, d: DeliveryId)
    requires |deliveries| <= d < |EnqueueStmt(deliveries, triples, now)|
    ensures var row := EnqueueStmt(deliveries, triples, now)[d];
            row == Delivery(row.triple, Pending, 0, now, None)
    decreases |triples|
  {
    if triples != [] {
      var next := if HasTriple(deliveries, triples[0]) then deliveries
                  else deliveries + [Delivery(triples[0], Pending, 0, now, None)];
      if d < |next| {
        assert EnqueueStmt(next, triples[1..], now)[d] == next[d];
      } else {
        EnqueuedAreNew(next, triples[1..], now, d);
      }
    }
  }

  lemma ClaimKeepsBudget(s: State, ids: seq<DeliveryId>, d: DeliveryId, base: int)
    requires Enabled(s, s.db, ClaimBatch(ids)) && d < |s.db.deliveries| && DeliveryBudget(s, d, base)
    ensures DeliveryBudget(Apply(s, ClaimBatch(ids)), d, base)
  {
    var n, after, row := |s.claims|, s.claims + NewClaims(ids, s.db.now), s.db.deliveries[d];
    assert forall j :: n <= j < |after| ==> after[j] == Claim(ids[j - n], s.db.now + CLAIM_LEASE, false, None);
    if d in ids {
      var i :| 0 <= i < |ids| && ids[i] == d;
      ClaimingKeepsBudget(s.claims, after, n + i, s.db.now, d, row, s.maxAttempts, base);
    } else {
      OthersKeepBudget(s.claims, after, s.db.now, d, row, s.maxAttempts, base);
    }
  }

  lemma SendKeepsBudget(s: State, k: nat, d: DeliveryId, base: int)
    requires OpenClaim(s, k) && d < |s.db.deliveries| && DeliveryBudget(s, d, base)
    ensures DeliveryBudget(Apply(s, Send(k)), d, base)
  {
    if d == s.claims[k].delivery {
      SendingKeepsBudget(s.claims, k, s.db.now, d, s.db.deliveries[d], s.maxAttempts, base);
    } else {
      OthersKeepBudget(s.claims, s.claims[k := s.claims[k].(sent := true)], s.db.now, d, s.db.deliveries[d],
                       s.maxAttempts, base);
    }
  }

  lemma FailureKeepsBudget(s: State, step: Step, d: DeliveryId, base: int)
    requires (step.Retry? || step.Refuse?) && Enabled(s, s.db, step)
    requires d < |s.db.deliveries| && DeliveryBudget(s, d, base)
    ensures DeliveryBudget(Apply(s, step), d, base)
  {
    var k := step.claim;
    var after := s.claims[k := s.claims[k].(recordedAt := Some(s.db.now))];
    var row := Apply(s, step).db.deliveries[d];
    if d == s.claims[k].delivery {
      RecordingFailureKeepsBudget(s.claims, k, s.db.now, d, s.db.deliveries[d], row, s.maxAttempts, base);
    } else {
      OthersKeepBudget(s.claims, after, s.db.now, d, row, s.maxAttempts, base);
    }
  }

  lemma MarkSentKeepsBudget(s: State, done: set<nat>, d: DeliveryId, base: int)
    requires Enabled(s, s.db, MarkSent(done)) && d < |s.db.deliveries| && DeliveryBudget(s, d, base)
    ensures DeliveryBudget(Apply(s, MarkSent(done)), d, base)
  {
    if d in Marked(s.claims, done) {
      RecordingSentKeepsBudget(s.claims, done, s.db.now, d, s.db.deliveries[d], s.maxAttempts, base);
    } else {
      OthersKeepBudget(s.claims, Record(s.claims, done, s.db.now), s.db.now, d, s.db.deliveries[d], s.maxAttempts, base);
    }
  }

  /** Whatever the step, a delivery keeps its budget. */
  lemma StepKeepsBudget(s: State, snap: Db, step: Step, d: DeliveryId, base: int)
    requires Enabled(s, snap, step) && d < |s.db.deliveries| && DeliveryBudget(s, d, base)
    ensures d < |Apply(s, step).db.deliveries| && DeliveryBudget(Apply(s, step), d, base)
  {
    match step
    case ClaimBatch(ids) => ClaimKeepsBudget(s, ids, d, base);
    case Send(k) => SendKeepsBudget(s, k, d, base);
    case Retry(_) => FailureKeepsBudget(s, step, d, base);
    case Refuse(_) => FailureKeepsBudget(s, step, d, base);
    case MarkSent(done) => MarkSentKeepsBudget(s, done, d, base);
    case Wait(until) =>
      WaitingKeepsBudget(s.claims, s.db.now, until, d, s.db.deliveries[d], s.maxAttempts, base);
    case Enqueue(_, _, triples) =>
      assert EnqueueStmt(s.db.deliveries, triples, s.db.now)[d] == s.db.deliveries[d];
    case _ =>
  }

  lemma ClaimedRowsExist(s: State, snap: Db, step: Step)
    requires LeaseInvariant(s) && Enabled(s, snap, step)
    ensures var t := Apply(s, step);
            forall k :: 0 <= k < |t.claims| ==> t.claims[k].delivery < |t.db.deliveries|
  {
    if step.ClaimBatch? {
      var ids, after := step.ids, s.claims + NewClaims(step.ids, s.db.now);
      forall k | |s.claims| <= k < |after|
        ensures after[k].delivery < |s.db.deliveries|
      {
        assert after[k].delivery == ids[k - |s.claims|] && ids[k - |s.claims|] in ids;
      }
    }
  }

  /** The rows a step adds are new alerts. */
  lemma AddedRowsAreNew(s: State, snap: Db, step: Step, d: DeliveryId)
    requires LeaseInvariant(s) && Enabled(s, snap, step) && |s.db.deliveries| <= d < |Apply(s, step).db.deliveries|
    ensures DeliveryBudget(Apply(s, step), d, 1)
  {
    EnqueuedAreNew(s.db.deliveries, step.triples, s.db.now, d);
    NewRowWithinBudget(s.claims, s.db.now, d, Apply(s, step).db.deliveries[d], s.maxAttempts, 1);
  }

  lemma StepKeepsLeases(s: State, snap: Db, step: Step)
    requires LeaseInvariant(s) && Enabled(s, snap, step)
    ensures LeaseInvariant(Apply(s, step))
  {
    var t := Apply(s, step);
    ClaimedRowsExist(s, snap, step);
    forall d: nat | d < |t.db.deliveries|
      ensures DeliveryBudget(t, d, 1)
    {
      if d < |s.db.deliveries| {
        StepKeepsBudget(s, snap, step, d, 1);
      } else {
        AddedRowsAreNew(s, snap, step, d);
      }
    }
  }

  lemma {:induction false} RunKeepsLeases(states: seq<State>, moves: seq<Move>, i: nat)
    requires IsRun(states, moves) && i < |states|
    ensures LeaseInvariant(states[i])
  {
    if i > 0 {
      RunKeepsLeases(states, moves, i - 1);
      assert IsMove(states, moves, i - 1);
      StepKeepsLeases(states[i - 1], states[moves[i - 1].snapshot].db, moves[i - 1].step);
    }
  }

  /* --------------------------------------------------------------------- results --- */

  lemma ReachableBudget(states: seq<State>, moves: seq<Move>, i: nat, d: DeliveryId)
    requires IsRun(states, moves) && i < |states| && d < |states[i].db.deliveries|
    ensures DeliveryBudget(states[i], d, 1)
  {
    RunKeepsLeases(states, moves, i);
  }

  /** Over every run: at most one successful send more than the claims that were abandoned. */
  lemma SendsAreBudgeted(states: seq<State>, moves: seq<Move>, i: nat, d: DeliveryId)
    requires IsRun(states, moves) && i < |states| && d < |states[i].db.deliveries|
    ensures |Sends(states[i].claims, d)| <= 1 + |Abandoned(states[i].claims, states[i].db.now, d)|
  {
    ReachableBudget(states, moves, i, d);
    SubsetCard(Sends(states[i].claims, d), Commitments(states[i].claims, d));
  }

  /** An alert is claimed at most `maxAttempts` times, plus once for each claim that was abandoned. */
  lemma ClaimsAreBudgeted(states: seq<State>, moves: seq<Move>, i: nat, d: DeliveryId)
    requires IsRun(states, moves) && i < |states| && d < |states[i].db.deliveries|
    ensures |ClaimsOf(states[i].claims, d)| <= states[i].maxAttempts + |Abandoned(states[i].claims, states[i].db.now, d)|
  {
    ReachableBudget(states, moves, i, d);
  }

  /**
   * With no claim abandoned, an alert is never in two hands, never sent twice, and never sent while another holds it.
   */
  lemma PunctualWorkersNeverDouble(states: seq<State>, moves: seq<Move>, i: nat, d: DeliveryId)
    requires IsRun(states, moves) && i < |states| && d < |states[i].db.deliveries|
    requires Abandoned(states[i].claims, states[i].db.now, d) == {}
    ensures |Sends(states[i].claims, d)| <= 1
    ensures |Holders(states[i].claims, d)| <= 1
    ensures forall a, b :: a in Sends(states[i].claims, d) && b in Holders(states[i].claims, d) ==> a == b
  {
    var claims := states[i].claims;
    ReachableBudget(states, moves, i, d);
    SubsetCard(Sends(claims, d), Commitments(claims, d));
    SubsetCard(Holders(claims, d), Commitments(claims, d));
    forall a, b | a in Sends(claims, d) && b in Holders(claims, d)
      ensures a == b
    {
      if a != b {
        SubsetCard({a, b}, Commitments(claims, d));
        assert false;
      }
    }
  }

  /* --------------------------------------------------------------------- retries --- */

  /** Half a minute after the first failure, then twice as long each time, up to an hour. */
  lemma BackoffDoubles(attempts: nat)
    requires attempts >= 1
    ensures Backoff(1) == 30_000
    ensures Backoff(attempts + 1) == Min(3_600_000, 2 * Backoff(attempts))
  {
    assert Power2(attempts) == 2 * Power2(attempts - 1);
  }

  /**
   * A recorded failure puts the row up for another claim after its backoff and not before, and never after the last
   * attempt.
   */
  lemma RetriedRowWaits(deliveries: seq<Delivery>, d: DeliveryId, maxAttempts: nat, now: int, later: int)
    requires d < |deliveries|
    ensures Claimable(RetryStmt(deliveries, d, maxAttempts, now)[d], later) <==>
            deliveries[d].attempts < maxAttempts && now + Backoff(deliveries[d].attempts) <= later
    ensures forall x :: 0 <= x < |deliveries| && x != d ==> RetryStmt(deliveries, d, maxAttempts, now)[x] == deliveries[x]
  {
  }
}
