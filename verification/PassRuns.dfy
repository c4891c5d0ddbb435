/**
 * The delivery loop is one of the workers of the protocol too: a pass over a claimed batch is a run of its statements
 * and sends, so that the send budget and the invariants hold of what it does.
 */
module PassRuns {
  import opened Prelude
  import opened AlertTables
  import opened AlertMachine
  import opened CeilingLaws
  import opened NotificationQueue
  import opened TickRuns

  /** The rows in the order they are dealt with, each outcome recorded after the one before, the marks at the end. */
  ghost predicate InOrder(now: int, p: Pass, order: seq<DeliveryId>) {
    && Distinct(order) && Elements(order) == p.claimed == p.outcome.Keys
    && now <= p.claimAt <= p.markAt
    && (forall d <- p.claimed :: p.claimAt <= p.retryAt(d) <= p.markAt)
    && (forall i, j :: 0 <= i < j < |order| ==> p.retryAt(order[i]) <= p.retryAt(order[j]))
  }

  /** The pass as far as its first `i` rows. */
  ghost function Sofar(p: Pass, order: seq<DeliveryId>, i: nat): Pass
    requires i <= |order|
  {
    p.(outcome := map d | d in p.outcome && d in order[..i] :: p.outcome[d])
  }

  /** The claims of the batch: the first `i` have what their rows came to, and the others are open. */
  ghost predicate ClaimsOfPass(claims: seq<Claim>, p: Pass, order: seq<DeliveryId>, i: nat) {
    && |claims| == |order| && i <= |order|
    && (forall k :: 0 <= k < |order| ==> claims[k].delivery == order[k])
    && (forall k :: i <= k < |order| ==> !claims[k].sent && claims[k].recordedAt.None?)
    && (forall k :: 0 <= k < i ==> order[k] in p.outcome)
    && (forall k :: 0 <= k < i && p.outcome[order[k]] == Delivered ==> claims[k].sent && claims[k].recordedAt.None?)
  }

  /** The run has come to the `i`th row of the pass. */
  ghost predicate Reached(s: State, before: Db, n: nat, p: Pass, order: seq<DeliveryId>, i: nat, now: int)
    requires i <= |order|
  {
    && n <= |s.claims| && ClaimsOfPass(s.claims[n..], p, order, i)
    && s.db == before.(deliveries := Midway(before.deliveries, Sofar(p, order, i), s.maxAttempts), now := now)
  }

  lemma SofarNext(p: Pass, order: seq<DeliveryId>, i: nat)
    requires i < |order| && Distinct(order) && Elements(order) == p.outcome.Keys
    ensures order[i] !in Sofar(p, order, i).outcome && order[i] in p.outcome
    ensures Sofar(p, order, i + 1).outcome == Sofar(p, order, i).outcome[order[i] := p.outcome[order[i]]]
  {
    assert order[i] in Elements(order);
    assert order[..i + 1] == order[..i] + [order[i]];
    forall d
      ensures d in order[..i + 1] <==> d in order[..i] || d == order[i]
    {
    }
  }

  lemma SofarAll(p: Pass, order: seq<DeliveryId>)
    requires Elements(order) == p.outcome.Keys
    ensures Sofar(p, order, |order|) == p && Sofar(p, order, 0) == p.(outcome := map[])
  {
    assert order[..|order|] == order;
    assert forall d <- p.outcome :: d in Elements(order);
    assert Sofar(p, order, |order|).outcome == p.outcome;
  }

  // ---- Claiming ----------------------------------------------------------------------------------------------------

  lemma ClaimMatches(deliveries: seq<Delivery>, p: Pass, order: seq<DeliveryId>, now: int, maxAttempts: nat)
    requires Elements(order) == p.claimed && p.claimed <= ClaimableSet(deliveries, p.claimAt) && now == p.claimAt
    ensures forall d <- order :: d < |deliveries| && Claimable(deliveries[d], now)
    ensures ClaimStmt(deliveries, Elements(order), now) == Midway(deliveries, p.(outcome := map[]), maxAttempts)
  {
    forall d <- order
      ensures d < |deliveries| && Claimable(deliveries[d], now)
    {
      assert d in Elements(order) && d in ClaimableSet(deliveries, p.claimAt);
    }
  }

  lemma NewClaimsOfPass(claims: seq<Claim>, p: Pass, order: seq<DeliveryId>, now: int)
    ensures ClaimsOfPass((claims + NewClaims(order, now))[|claims|..], p, order, 0)
  {
    assert (claims + NewClaims(order, now))[|claims|..] == NewClaims(order, now);
  }

  lemma ClaimedAll(s: State, p: Pass, order: seq<DeliveryId>)
    requires InOrder(s.db.now, p, order) && p.claimed <= ClaimableSet(s.db.deliveries, p.claimAt)
    ensures var t := Apply(s, Wait(p.claimAt));
            Enabled(t, t.db, ClaimBatch(order))
            && Reached(Apply(t, ClaimBatch(order)), s.db, |s.claims|, p, order, 0, p.claimAt)
  {
    SofarAll(p, order);
    ClaimMatches(s.db.deliveries, p, order, p.claimAt, s.maxAttempts);
    NewClaimsOfPass(s.claims, p, order, p.claimAt);
  }

  // ---- One row -----------------------------------------------------------------------------------------------------

  lemma RowWritten(s: State, before: Db, n: nat, p: Pass, order: seq<DeliveryId>, i: nat, now: int)
    requires i < |order| && InOrder(before.now, p, order) && Reached(s, before, n, p, order, i, now)
    requires forall d <- p.claimed :: d < |before.deliveries|
    ensures var d, rows := order[i], s.db.deliveries;
            && d in p.outcome && d < |rows| && OpenClaim(s, n + i) && s.claims[n + i].delivery == d
            && Midway(before.deliveries, Sofar(p, order, i + 1), s.maxAttempts)
               == if p.outcome[d] == Delivered || !p.recorded(d) then rows
                  else if p.outcome[d] == Refused then RefuseStmt(rows, d)
                  else RetryStmt(rows, d, s.maxAttempts, p.retryAt(d))
  {
    SofarNext(p, order, i);
    assert order[i] in Elements(order);
    assert s.claims[n + i] == s.claims[n..][i];
    OutcomeWritten(before.deliveries, Sofar(p, order, i), order[i], p.outcome[order[i]], s.maxAttempts);
    assert Sofar(p, order, i + 1) == Sofar(p, order, i).(outcome := Sofar(p, order, i).outcome[order[i] := p.outcome[order[i]]]);
  }

  lemma ClaimDealtWith(before: seq<Claim>, n: nat, p: Pass, order: seq<DeliveryId>, i: nat, after: seq<Claim>)
    requires n <= |before| && i < |order| && ClaimsOfPass(before[n..], p, order, i) && order[i] in p.outcome
    requires |after| == |before| && forall k :: 0 <= k < |before| && k != n + i ==> after[k] == before[k]
    requires after[n + i].delivery == before[n + i].delivery
    requires p.outcome[order[i]] == Delivered ==> after[n + i].sent && after[n + i].recordedAt.None?
    ensures ClaimsOfPass(after[n..], p, order, i + 1)
  {
    assert forall k :: 0 <= k < |order| && k != i ==> after[n..][k] == before[n..][k];
    assert after[n..][i] == after[n + i] && before[n..][i] == before[n + i];
  }

  lemma DeliverRow(states: seq<State>, moves: seq<Move>, states1: seq<State>, moves1: seq<Move>, before: Db, n: nat,
          p: Pass, order: seq<DeliveryId>, i: nat, now: int)
    returns (states': seq<State>, moves': seq<Move>)
    requires i < |order| && InOrder(before.now, p, order) && forall d <- p.claimed :: d < |before.deliveries|
    requires GoesOn(states, moves, states1, moves1)
    requires Reached(states1[|moves1|], before, n, p, order, i, now)
    requires order[i] in p.outcome && p.outcome[order[i]] == Delivered
    ensures GoesOn(states, moves, states', moves')
    ensures Reached(states'[|moves'|], before, n, p, order, i + 1, now)
    ensures states'[|moves'|].maxAttempts == states1[|moves1|].maxAttempts
  {
    RowWritten(states1[|moves1|], before, n, p, order, i, now);
    states', moves' := OneStep(states, moves, states1, moves1, states1[|moves1|].db, Send(n + i));
    ClaimDealtWith(states1[|moves1|].claims, n, p, order, i, states'[|moves'|].claims);
  }

  function OutcomeStep(p: Pass, order: seq<DeliveryId>, i: nat, n: nat): Step
    requires i < |order| && order[i] in p.outcome
  {
    if p.outcome[order[i]] == Refused then Refuse(n + i) else Retry(n + i)
  }

  lemma RefusalIsApplied(t: State, k: nat)
    requires OpenClaim(t, k) && t.claims[k].delivery < |t.db.deliveries|
    ensures Enabled(t, t.db, Refuse(k))
    ensures var u := Apply(t, Refuse(k));
            && u.db == t.db.(deliveries := RefuseStmt(t.db.deliveries, t.claims[k].delivery))
            && u.maxAttempts == t.maxAttempts && OnlyRecorded(t.claims, u.claims, k)
  {
  }

  lemma RetryIsApplied(t: State, k: nat)
    requires OpenClaim(t, k) && t.claims[k].delivery < |t.db.deliveries|
    ensures Enabled(t, t.db, Retry(k))
    ensures var u := Apply(t, Retry(k));
            && u.db == t.db.(deliveries := RetryStmt(t.db.deliveries, t.claims[k].delivery, t.maxAttempts, t.db.now))
            && u.maxAttempts == t.maxAttempts && OnlyRecorded(t.claims, u.claims, k)
  {
  }

  /** Nothing but the `k`th claim is touched, and it is still of the same row. */
  ghost predicate OnlyRecorded(before: seq<Claim>, after: seq<Claim>, k: nat) {
    && |after| == |before| && k < |before| && after[k].delivery == before[k].delivery
    && forall j :: 0 <= j < |before| && j != k ==> after[j] == before[j]
  }

  lemma ReachedNext(s: State, before: Db, n: nat, p: Pass, order: seq<DeliveryId>, i: nat, now: int, u: State)
    requires i < |order| && Reached(s, before, n, p, order, i, now) && OnlyRecorded(s.claims, u.claims, n + i)
    requires order[i] in p.outcome && p.outcome[order[i]] != Delivered
    requires u.maxAttempts == s.maxAttempts
    requires u.db == before.(deliveries := Midway(before.deliveries, Sofar(p, order, i + 1), s.maxAttempts), now := u.db.now)
    ensures Reached(u, before, n, p, order, i + 1, u.db.now)
  {
    ClaimDealtWith(s.claims, n, p, order, i, u.claims);
  }

  lemma OutcomeIsRecorded(s: State, before: Db, n: nat, p: Pass, order: seq<DeliveryId>, i: nat, now: int)
    requires i < |order| && InOrder(before.now, p, order) && forall d <- p.claimed :: d < |before.deliveries|
    requires Reached(s, before, n, p, order, i, now) && now <= p.retryAt(order[i])
    requires order[i] in p.outcome && p.outcome[order[i]] != Delivered && p.recorded(order[i])
    ensures var t, step := Apply(s, Wait(p.retryAt(order[i]))), OutcomeStep(p, order, i, n);
            Enabled(t, t.db, step) && Reached(Apply(t, step), before, n, p, order, i + 1, p.retryAt(order[i]))
  {
    RowWritten(s, before, n, p, order, i, now);
    var t := Apply(s, Wait(p.retryAt(order[i])));
    if p.outcome[order[i]] == Refused {
      RefusalIsApplied(t, n + i);
    } else {
      RetryIsApplied(t, n + i);
    }
    ReachedNext(s, before, n, p, order, i, now, Apply(t, OutcomeStep(p, order, i, n)));
  }

  lemma RecordRow(states: seq<State>, moves: seq<Move>, states1: seq<State>, moves1: seq<Move>, before: Db, n: nat,
          p: Pass, order: seq<DeliveryId>, i: nat, now: int)
    returns (states': seq<State>, moves': seq<Move>)
    requires i < |order| && InOrder(before.now, p, order) && forall d <- p.claimed :: d < |before.deliveries|
    requires GoesOn(states, moves, states1, moves1)
    requires Reached(states1[|moves1|], before, n, p, order, i, now) && now <= p.retryAt(order[i])
    requires order[i] in p.outcome && p.outcome[order[i]] != Delivered && p.recorded(order[i])
    ensures GoesOn(states, moves, states', moves')
    ensures Reached(states'[|moves'|], before, n, p, order, i + 1, p.retryAt(order[i]))
    ensures states'[|moves'|].maxAttempts == states1[|moves1|].maxAttempts
  {
    OutcomeIsRecorded(states1[|moves1|], before, n, p, order, i, now);
    var s;
    states', moves', s := StatementAt(states, moves, states1, moves1, states1[|moves1|].db, p.retryAt(order[i]),
                                      OutcomeStep(p, order, i, n));
  }

  /** A row whose outcome could not be written leaves its claim open. */
  lemma RowUnrecorded(s: State, before: Db, n: nat, p: Pass, order: seq<DeliveryId>, i: nat, now: int)
    requires i < |order| && InOrder(before.now, p, order) && forall d <- p.claimed :: d < |before.deliveries|
    requires Reached(s, before, n, p, order, i, now)
    requires order[i] in p.outcome && p.outcome[order[i]] != Delivered && !p.recorded(order[i])
    ensures Reached(s, before, n, p, order, i + 1, now)
  {
    RowWritten(s, before, n, p, order, i, now);
  }

  /** When the last outcome among the first `i` rows reached the database, at the latest. */
  ghost predicate Before(now: int, p: Pass, order: seq<DeliveryId>, i: nat) {
    now <= p.markAt && forall k :: i <= k < |order| ==> now <= p.retryAt(order[k])
  }

  lemma ClaimedBefore(now: int, p: Pass, order: seq<DeliveryId>)
    requires InOrder(now, p, order)
    ensures Before(p.claimAt, p, order, 0)
  {
    forall k | 0 <= k < |order|
      ensures p.claimAt <= p.retryAt(order[k])
    {
      assert order[k] in Elements(order);
    }
  }

  lemma BeforeNext(since: int, now: int, p: Pass, order: seq<DeliveryId>, i: nat)
    requires i < |order| && InOrder(since, p, order) && Before(now, p, order, i)
    ensures order[i] in p.outcome && now <= p.retryAt(order[i])
    ensures Before(now, p, order, i + 1) && Before(p.retryAt(order[i]), p, order, i + 1)
  {
    assert order[i] in Elements(order);
  }

  lemma RowIsARun(states: seq<State>, moves: seq<Move>, states1: seq<State>, moves1: seq<Move>, before: Db, n: nat,
          p: Pass, order: seq<DeliveryId>, i: nat, now: int)
    returns (states': seq<State>, moves': seq<Move>, now': int)
    requires i < |order| && InOrder(before.now, p, order) && forall d <- p.claimed :: d < |before.deliveries|
    requires GoesOn(states, moves, states1, moves1)
    requires Reached(states1[|moves1|], before, n, p, order, i, now) && Before(now, p, order, i)
    ensures GoesOn(states, moves, states', moves')
    ensures Reached(states'[|moves'|], before, n, p, order, i + 1, now') && Before(now', p, order, i + 1)
    ensures states'[|moves'|].maxAttempts == states1[|moves1|].maxAttempts
  {
    BeforeNext(before.now, now, p, order, i);
    if p.outcome[order[i]] == Delivered {
      states', moves' := DeliverRow(states, moves, states1, moves1, before, n, p, order, i, now);
      now' := now;
    } else if p.recorded(order[i]) {
      states', moves' := RecordRow(states, moves, states1, moves1, before, n, p, order, i, now);
      now' := p.retryAt(order[i]);
    } else {
      RowUnrecorded(states1[|moves1|], before, n, p, order, i, now);
      states', moves', now' := states1, moves1, now;
    }
  }

  lemma {:induction false} RowsAreARun(states: seq<State>, moves: seq<Move>, states1: seq<State>, moves1: seq<Move>,
          before: Db, n: nat, p: Pass, order: seq<DeliveryId>, i: nat)
    returns (states': seq<State>, moves': seq<Move>, now: int)
    requires i <= |order| && InOrder(before.now, p, order) && forall d <- p.claimed :: d < |before.deliveries|
    requires GoesOn(states, moves, states1, moves1)
    requires Reached(states1[|moves1|], before, n, p, order, 0, p.claimAt)
    ensures GoesOn(states, moves, states', moves')
    ensures Reached(states'[|moves'|], before, n, p, order, i, now) && Before(now, p, order, i)
    ensures states'[|moves'|].maxAttempts == states1[|moves1|].maxAttempts
  {
    if i == 0 {
      states', moves', now := states1, moves1, p.claimAt;
      ClaimedBefore(before.now, p, order);
    } else {
      states', moves', now := RowsAreARun(states, moves, states1, moves1, before, n, p, order, i - 1);
      states', moves', now := RowIsARun(states, moves, states', moves', before, n, p, order, i - 1, now);
    }
  }

  // ---- Marking -----------------------------------------------------------------------------------------------------

  ghost function SentOf(n: nat, p: Pass, order: seq<DeliveryId>): set<nat> {
    set k: nat | k < |order| && order[k] in p.outcome && p.outcome[order[k]] == Delivered :: n + k
  }

  lemma MarkedOf(s: State, before: Db, n: nat, p: Pass, order: seq<DeliveryId>, now: int)
    requires InOrder(before.now, p, order) && Reached(s, before, n, p, order, |order|, now)
    ensures Marked(s.claims, SentOf(n, p, order)) == With(p.outcome, Delivered)
    ensures forall k <- SentOf(n, p, order) :: k < |s.claims| && s.claims[k].sent && s.claims[k].recordedAt.None?
  {
    var batch := s.claims[n..];
    forall d <- With(p.outcome, Delivered)
      ensures d in Marked(s.claims, SentOf(n, p, order))
    {
      assert d in Elements(order);
      var k :| 0 <= k < |order| && order[k] == d;
      assert batch[k].delivery == d && s.claims[n + k] == batch[k] && n + k in SentOf(n, p, order);
    }
    forall k <- SentOf(n, p, order)
      ensures k < |s.claims| && s.claims[k].sent && s.claims[k].recordedAt.None?
      ensures s.claims[k].delivery in With(p.outcome, Delivered)
    {
      assert s.claims[k] == batch[k - n] && batch[k - n].delivery == order[k - n];
    }
  }

  /** From any state of any run, a pass is more of the run, and leaves the alerts as the pass leaves them. */
  lemma PassIsARun(states: seq<State>, moves: seq<Move>, p: Pass, order: seq<DeliveryId>)
    returns (states': seq<State>, moves': seq<Move>)
    requires IsRun(states, moves) && InOrder(states[|moves|].db.now, p, order)
    requires p.claimed <= ClaimableSet(states[|moves|].db.deliveries, p.claimAt)
    ensures var s := states[|moves|];
            GoesOnTo(states, moves, states', moves',
                     s.db.(deliveries := AfterPass(s.db.deliveries, p, s.maxAttempts), now := p.markAt))
  {
    var s, n := states[|moves|], |states[|moves|].claims|;
    ClaimedAll(s, p, order);
    var t, now;
    states', moves', t := StatementAt(states, moves, states, moves, s.db, p.claimAt, ClaimBatch(order));
    states', moves', now := RowsAreARun(states, moves, states', moves', s.db, n, p, order, |order|);
    SofarAll(p, order);
    MarkedOf(states'[|moves'|], s.db, n, p, order, now);
    MarkingEnds(s.db.deliveries, p, s.maxAttempts);
    states', moves', t := StatementAt(states, moves, states', moves', states'[|moves'|].db, p.markAt, MarkSent(SentOf(n, p, order)));
  }
}
