/**
 * The hourly ceiling of a channel. A delivery pass counts once, before it sends, and marks once, after: with one
 * pass at a time that is enough for every window of an hour. `CeilingOverlap` has several at a time.
 */
module CeilingLaws {
  import opened Prelude
  import opened AlertTables

  /** What one pass did: which rows it claimed, what became of each, and when. */
  datatype Outcome = Delivered | Refused | Failing

  datatype Pass = Pass(
    claimed: set<DeliveryId>,
    outcome: map<DeliveryId, Outcome>,
    claimAt: int,
    countAt: int,
    markAt: int,
    retryAt: DeliveryId -> int,
    recorded: DeliveryId -> bool)

  function Claimed(row: Delivery, at: int): Delivery {
    row.(attempts := row.attempts + 1, nextAttemptAt := at + CLAIM_LEASE)
  }

  /**
   * A claimed row before the marks. A refusal or a failure that could not be written leaves it as the claim made it.
   */
  function Unmarked(row: Delivery, d: DeliveryId, p: Pass, maxAttempts: nat): Delivery {
    if d !in p.outcome || p.outcome[d] == Delivered || !p.recorded(d) then row
    else if p.outcome[d] == Refused then row.(status := Failed)
    else row.(status := if row.attempts >= maxAttempts then Failed else Pending,
              nextAttemptAt := p.retryAt(d) + Backoff(row.attempts))
  }

  /** A row after the pass. */
  function RowAfter(row: Delivery, d: DeliveryId, p: Pass, maxAttempts: nat): Delivery {
    if d !in p.claimed then row
    else
      var unmarked := Unmarked(Claimed(row, p.claimAt), d, p, maxAttempts);
      if d in p.outcome && p.outcome[d] == Delivered then unmarked.(status := Sent, sentAt := Some(p.markAt)) else unmarked
  }

  function AfterPass(before: seq<Delivery>, p: Pass, maxAttempts: nat): seq<Delivery> {
    seq(|before|, d requires 0 <= d < |before| => RowAfter(before[d], d, p, maxAttempts))
  }

  /** The rows of a channel that had this outcome. */
  function OnChannel(deliveries: seq<Delivery>, outcome: map<DeliveryId, Outcome>, kind: Outcome,
          channel: ChannelId): set<DeliveryId>
  {
    set d | d in outcome && outcome[d] == kind && d < |deliveries| && deliveries[d].triple.channel == channel
  }

  function With(outcome: map<DeliveryId, Outcome>, kind: Outcome): set<DeliveryId> {
    set d | d in outcome && outcome[d] == kind
  }

  /** The deliveries of a channel that were marked sent after `since`. */
  ghost function SentSince(deliveries: seq<Delivery>, channel: ChannelId, since: int): set<DeliveryId> {
    set d: nat | d < |deliveries| && deliveries[d].triple.channel == channel && deliveries[d].status == Sent
                 && deliveries[d].sentAt.Some? && since < deliveries[d].sentAt.value
  }

  /** How the ceiling splits a pass: 0 means there is none. */
  ghost predicate RespectsCeiling(before: seq<Delivery>, p: Pass, ceiling: nat) {
    && p.outcome.Keys == p.claimed
    && (forall d <- p.claimed :: d < |before| && Claimable(before[d], p.claimAt))
    && (ceiling == 0 ==> With(p.outcome, Refused) == {})
    && (ceiling > 0 ==> forall channel :: ChannelRespects(before, p, ceiling, channel))
  }

  /** Sent before plus sent now stays within the ceiling, and a row is refused only when that is reached. */
  ghost predicate ChannelRespects(before: seq<Delivery>, p: Pass, ceiling: nat, channel: ChannelId) {
    var already := |SentSince(before, channel, p.countAt - 3_600_000)|;
    var now := |OnChannel(before, p.outcome, Delivered, channel)|;
    && (now > 0 ==> already + now <= ceiling)
    && (OnChannel(before, p.outcome, Refused, channel) != {} ==> ceiling <= already + now)
  }

  /**
   * With one worker and every mark recorded, `sent_at` is set exactly on the rows marked sent, and never ahead of
   * time.
   */
  ghost predicate Ledger(deliveries: seq<Delivery>, now: int) {
    forall d :: 0 <= d < |deliveries| ==>
      && (deliveries[d].status == Sent <==> deliveries[d].sentAt.Some?)
      && (deliveries[d].sentAt.Some? ==> deliveries[d].sentAt.value <= now)
  }

  /** The deliveries a channel received in the hour, 3,600,000 milliseconds, that ends at `until`. */
  ghost function Window(deliveries: seq<Delivery>, channel: ChannelId, until: int): set<DeliveryId> {
    set d: nat | d < |deliveries| && deliveries[d].triple.channel == channel
                 && deliveries[d].sentAt.Some? && until - 3_600_000 < deliveries[d].sentAt.value <= until
  }

  ghost predicate CeilingKept(deliveries: seq<Delivery>, ceiling: nat) {
    forall channel, until :: |Window(deliveries, channel, until)| <= ceiling
  }

  /** An hour without the mark holds what it held; one with it holds at most what was counted, and what was sent. */
  lemma WindowAfterPass(before: seq<Delivery>, p: Pass, maxAttempts: nat, channel: ChannelId, until: int)
    requires Ledger(before, p.countAt) && p.countAt <= p.markAt && p.outcome.Keys == p.claimed
    ensures var after := Window(AfterPass(before, p, maxAttempts), channel, until);
            if until < p.markAt || p.markAt <= until - 3_600_000 then after <= Window(before, channel, until)
            else after <= SentSince(before, channel, p.countAt - 3_600_000) + OnChannel(before, p.outcome, Delivered, channel)
  {
    var after := AfterPass(before, p, maxAttempts);
    forall d | d in Window(after, channel, until)
      ensures after[d] == RowAfter(before[d], d, p, maxAttempts)
    {
    }
  }

  lemma PassKeepsWindow(before: seq<Delivery>, p: Pass, maxAttempts: nat, ceiling: nat, channel: ChannelId, until: int)
    requires ceiling > 0 && RespectsCeiling(before, p, ceiling)
    requires Ledger(before, p.countAt) && p.countAt <= p.markAt && CeilingKept(before, ceiling)
    ensures |Window(AfterPass(before, p, maxAttempts), channel, until)| <= ceiling
  {
    var after := Window(AfterPass(before, p, maxAttempts), channel, until);
    var news := OnChannel(before, p.outcome, Delivered, channel);
    var olds := SentSince(before, channel, p.countAt - 3_600_000);
    WindowAfterPass(before, p, maxAttempts, channel, until);
    assert ChannelRespects(before, p, ceiling, channel);
    assert olds == Window(before, channel, p.countAt);
    if until < p.markAt || p.markAt <= until - 3_600_000 {
      SubsetCard(after, Window(before, channel, until));
    } else {
      SubsetCard(after, olds + news);
    }
  }

  lemma PassKeepsCeiling(before: seq<Delivery>, p: Pass, maxAttempts: nat, ceiling: nat)
    requires ceiling > 0 && RespectsCeiling(before, p, ceiling)
    requires Ledger(before, p.countAt) && p.countAt <= p.markAt && CeilingKept(before, ceiling)
    ensures CeilingKept(AfterPass(before, p, maxAttempts), ceiling)
    ensures Ledger(AfterPass(before, p, maxAttempts), p.markAt)
  {
    forall channel, until
      ensures |Window(AfterPass(before, p, maxAttempts), channel, until)| <= ceiling
    {
      PassKeepsWindow(before, p, maxAttempts, ceiling, channel, until);
    }
  }

  /** Alerts queued between two passes. */
  ghost predicate OnlyQueued(before: seq<Delivery>, after: seq<Delivery>) {
    && |before| <= |after| && after[..|before|] == before
    && forall d :: |before| <= d < |after| ==> after[d].status == Pending && after[d].sentAt.None?
  }

  /** Pass after pass of one worker, each counting after the one before has marked. */
  ghost predicate OneWorker(tables: seq<seq<Delivery>>, passes: seq<Pass>, maxAttempts: nat, ceiling: nat) {
    && |tables| == |passes| + 1
    && forall k :: 0 <= k < |passes| ==>
         && RespectsCeiling(tables[k], passes[k], ceiling) && passes[k].countAt <= passes[k].markAt
         && (k > 0 ==> passes[k - 1].markAt <= passes[k].countAt)
         && OnlyQueued(AfterPass(tables[k], passes[k], maxAttempts), tables[k + 1])
  }

  lemma QueueingKeepsCeiling(before: seq<Delivery>, after: seq<Delivery>, ceiling: nat, now: int)
    requires OnlyQueued(before, after) && CeilingKept(before, ceiling) && Ledger(before, now)
    ensures CeilingKept(after, ceiling) && Ledger(after, now)
  {
    assert forall d :: 0 <= d < |before| ==> after[d] == after[..|before|][d];
    forall channel, until
      ensures |Window(after, channel, until)| <= ceiling
    {
      assert Window(after, channel, until) == Window(before, channel, until);
    }
  }

  /** No channel ever has more than the ceiling of deliveries in any window of an hour. */
  lemma {:induction false} CeilingHolds(tables: seq<seq<Delivery>>, passes: seq<Pass>, maxAttempts: nat,
          ceiling: nat, start: int, k: nat)
    requires ceiling > 0 && OneWorker(tables, passes, maxAttempts, ceiling) && k < |tables|
    requires CeilingKept(tables[0], ceiling) && Ledger(tables[0], start)
    requires passes != [] ==> start <= passes[0].countAt
    ensures CeilingKept(tables[k], ceiling)
    ensures Ledger(tables[k], if k == 0 then start else passes[k - 1].markAt)
  {
    if k > 0 {
      CeilingHolds(tables, passes, maxAttempts, ceiling, start, k - 1);
      var p := passes[k - 1];
      PassKeepsCeiling(tables[k - 1], p, maxAttempts, ceiling);
      assert OnlyQueued(AfterPass(tables[k - 1], p, maxAttempts), tables[(k - 1) + 1]);
      QueueingKeepsCeiling(AfterPass(tables[k - 1], p, maxAttempts), tables[k], ceiling, p.markAt);
    }
  }
}
