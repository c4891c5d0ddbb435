/** No queued alert starves: every pass takes what has waited longest, and what it took comes back later. */
module QueueFairness {
  import opened Prelude
  import opened AlertTables
  import opened DetectionLaws
  import opened Database
  import opened CeilingLaws

  /** One worker's passes, each over what the one before left and what was queued since. */
  ghost predicate Passes(tables: seq<seq<Delivery>>, passes: seq<Pass>, batch: nat, maxAttempts: nat) {
    && |tables| == |passes| + 1
    && forall k :: 0 <= k < |passes| ==> PassEnds(tables, passes, batch, maxAttempts, k)
  }

  ghost predicate PassEnds(tables: seq<seq<Delivery>>, passes: seq<Pass>, batch: nat, maxAttempts: nat, k: nat)
    requires k < |passes| < |tables|
  {
    var table, p := tables[k], passes[k];
    && Takes(p.claimed, ClaimableSet(table, p.claimAt), batch)
    && EarliestFirst(AttemptTimes(table), p.claimed, ClaimableSet(table, p.claimAt))
    && p.outcome.Keys == p.claimed
    && (k > 0 ==> passes[k - 1].claimAt <= p.claimAt)
    && (forall d <- p.claimed :: p.claimAt <= p.retryAt(d))
    && QueuedSince(AfterPass(table, p, maxAttempts), tables[k + 1], p.claimAt)
  }

  /** The alerts queued since are up from the instant they were queued at. */
  ghost predicate QueuedSince(before: seq<Delivery>, after: seq<Delivery>, since: int) {
    && |before| <= |after|
    && (forall d: nat :: d < |before| ==> after[d] == before[d])
    && (forall d: nat :: |before| <= d < |after| ==> after[d].nextAttemptAt > since)
  }

  /** The other pending alerts that are up no later. */
  ghost function Ahead(table: seq<Delivery>, d: DeliveryId): set<DeliveryId>
    requires d < |table|
  {
    set x: nat | x < |table| && x != d && table[x].status == Pending && table[x].nextAttemptAt <= table[d].nextAttemptAt
  }

  lemma BackoffIsPositive(attempts: nat)
    ensures Backoff(attempts) > 0
  {
    PowerIsPositive(Max(0, attempts - 1));
  }

  lemma {:induction false} PowerIsPositive(n: nat)
    ensures Power2(n) >= 1
  {
    if n > 0 {
      PowerIsPositive(n - 1);
    }
  }

  /** What a pass took is out of the queue, or up only after the pass. */
  lemma TakenComesBackLater(row: Delivery, d: DeliveryId, p: Pass, maxAttempts: nat)
    requires d in p.claimed && p.claimAt <= p.retryAt(d)
    ensures var after := RowAfter(row, d, p, maxAttempts);
            after.status == Pending ==> after.nextAttemptAt > p.claimAt
  {
    BackoffIsPositive(Claimed(row, p.claimAt).attempts);
  }

  /** A pass that does not take a row that is up takes a full batch of those ahead of it. */
  lemma PassedOver(tables: seq<seq<Delivery>>, passes: seq<Pass>, batch: nat, maxAttempts: nat, k: nat, d: DeliveryId)
    requires k < |passes| < |tables| && PassEnds(tables, passes, batch, maxAttempts, k)
    requires d < |tables[k]| && Claimable(tables[k][d], passes[k].claimAt) && d !in passes[k].claimed
    ensures passes[k].claimed <= Ahead(tables[k], d) && |passes[k].claimed| == batch
  {
    var table, p := tables[k], passes[k];
    var up := ClaimableSet(table, p.claimAt);
    assert d in up - p.claimed;
    SubsetCard(p.claimed, up);
    forall x <- p.claimed
      ensures x in Ahead(table, d)
    {
      assert x in up && AttemptTimes(table)[x] <= AttemptTimes(table)[d];
    }
  }

  /** And they are ahead of it no more, while nothing new comes in before it. */
  lemma AheadShrinks(tables: seq<seq<Delivery>>, passes: seq<Pass>, batch: nat, maxAttempts: nat, k: nat, d: DeliveryId)
    requires k < |passes| < |tables| && PassEnds(tables, passes, batch, maxAttempts, k)
    requires d < |tables[k]| && Claimable(tables[k][d], passes[k].claimAt) && d !in passes[k].claimed
    ensures d < |tables[k + 1]| && tables[k + 1][d] == tables[k][d]
    ensures |Ahead(tables[k + 1], d)| + batch <= |Ahead(tables[k], d)|
  {
    var table, p, next := tables[k], passes[k], tables[k + 1];
    var after := AfterPass(table, p, maxAttempts);
    PassedOver(tables, passes, batch, maxAttempts, k, d);
    assert after[d] == table[d];
    forall x | x in Ahead(next, d)
      ensures x in Ahead(table, d) - p.claimed
    {
      assert x < |after|;
      if x in p.claimed {
        TakenComesBackLater(table[x], x, p, maxAttempts);
      }
      assert after[x] == RowAfter(table[x], x, p, maxAttempts);
    }
    CardMinus(Ahead(table, d), p.claimed);
    SubsetCard(Ahead(next, d), Ahead(table, d) - p.claimed);
  }

  lemma OneMoreBatch(n: nat, batch: nat)
    ensures (n + 1) * batch == n * batch + batch
  {
  }

  lemma {:induction false} AheadRunsOut(tables: seq<seq<Delivery>>, passes: seq<Pass>, batch: nat, maxAttempts: nat,
          n: nat, d: DeliveryId)
    requires Passes(tables, passes, batch, maxAttempts) && n <= |passes| && passes != []
    requires d < |tables[0]| && Claimable(tables[0][d], passes[0].claimAt)
    requires forall k :: 0 <= k < n ==> d !in passes[k].claimed
    ensures d < |tables[n]| && (n < |passes| ==> Claimable(tables[n][d], passes[n].claimAt))
    ensures |Ahead(tables[n], d)| + n * batch <= |Ahead(tables[0], d)|
  {
    if n > 0 {
      AheadRunsOut(tables, passes, batch, maxAttempts, n - 1, d);
      assert PassEnds(tables, passes, batch, maxAttempts, n - 1);
      AheadShrinks(tables, passes, batch, maxAttempts, n - 1, d);
      OneMoreBatch(n - 1, batch);
      if n < |passes| {
        assert PassEnds(tables, passes, batch, maxAttempts, n);
      }
    }
  }

  /**
   * An alert that is up is taken within n passes once n batches hold more than what is ahead of it, whatever is queued,
   * fails or is refused meanwhile.
   */
  lemma NoAlertStarves(tables: seq<seq<Delivery>>, passes: seq<Pass>, batch: nat, maxAttempts: nat, n: nat,
          d: DeliveryId)
    requires Passes(tables, passes, batch, maxAttempts) && n <= |passes| && passes != []
    requires d < |tables[0]| && Claimable(tables[0][d], passes[0].claimAt)
    requires |Ahead(tables[0], d)| < n * batch
    ensures exists k :: 0 <= k < n && d in passes[k].claimed
  {
    if forall k :: 0 <= k < n ==> d !in passes[k].claimed {
      AheadRunsOut(tables, passes, batch, maxAttempts, n, d);
    }
  }
}
