/** The delivery loop of one instance. */
module NotificationQueue {
  import opened Prelude
  import opened AlertTables
  import opened DetectionLaws
  import opened Database
  import opened CeilingLaws

  type Totals = map<ChannelId, nat>

  function Total(totals: Totals, channel: ChannelId): nat {
    if channel in totals then totals[channel] else 0
  }

  function Channels(deliveries: seq<Delivery>, ids: set<DeliveryId>): set<ChannelId> {
    set d | d in ids && d < |deliveries| :: deliveries[d].triple.channel
  }

  /** The table while the pass is under way: the outcomes so far are written, none is marked yet. */
  function Midway(before: seq<Delivery>, p: Pass, maxAttempts: nat): seq<Delivery> {
    seq(|before|, d requires 0 <= d < |before| =>
      if d in p.claimed then Unmarked(Claimed(before[d], p.claimAt), d, p, maxAttempts) else before[d])
  }

  /** The running totals of the loop: what each channel of the batch was sent in the hour, this pass included. */
  ghost predicate Counted(before: seq<Delivery>, p: Pass, ceiling: nat, totals: Totals) {
    forall d <- p.claimed :: d < |before| && ChannelCounted(before, p, ceiling, before[d].triple.channel, totals)
  }

  ghost predicate ChannelCounted(before: seq<Delivery>, p: Pass, ceiling: nat, channel: ChannelId, totals: Totals) {
    var now := OnChannel(before, p.outcome, Delivered, channel);
    && Total(totals, channel) == |SentSince(before, channel, p.countAt - 3_600_000)| + |now|
    && (now != {} ==> Total(totals, channel) <= ceiling)
    && (OnChannel(before, p.outcome, Refused, channel) != {} ==> ceiling <= Total(totals, channel))
  }

  ghost predicate Budgeted(before: seq<Delivery>, p: Pass, ceiling: nat, totals: Totals) {
    if ceiling == 0 then With(p.outcome, Refused) == {} else Counted(before, p, ceiling, totals)
  }

  /** A row is delivered only if its provider took it, and left for later only if it did not. */
  ghost predicate Truthful(outcome: map<DeliveryId, Outcome>, provider: DeliveryId -> bool) {
    forall d <- outcome :: (outcome[d] == Delivered ==> provider(d)) && (outcome[d] == Failing ==> !provider(d))
  }

  class NotificationQueueService {
    const tables: Tables
    const batchSize: nat
    const maxAttempts: nat
    const ceiling: nat
    var sent: nat
    var failed: nat

    constructor (tables: Tables, batchSize: nat, maxAttempts: nat, ceiling: nat)
      ensures this.tables == tables && this.batchSize == batchSize
      ensures this.maxAttempts == maxAttempts && this.ceiling == ceiling
      ensures sent == failed == 0
    {
      this.tables, this.batchSize, this.maxAttempts, this.ceiling := tables, batchSize, maxAttempts, ceiling;
      sent, failed := 0, 0;
    }

    /**
     * Claims a batch and delivers it. `provider` is whether sending a row succeeds, `recorded` whether the statement
     * that writes its refusal or failure does, `retryAt` when it runs.
     */
    method Drain(claimAt: int, countAt: int, markAt: int, retryAt: DeliveryId -> int,
                 provider: DeliveryId -> bool, recorded: DeliveryId -> bool) returns (ghost p: Pass)
      modifies this`sent, this`failed, tables
      ensures p == Pass(p.claimed, p.outcome, claimAt, countAt, markAt, retryAt, recorded)
      ensures Takes(p.claimed, ClaimableSet(old(tables.db.deliveries), claimAt), batchSize)
      ensures EarliestFirst(AttemptTimes(old(tables.db.deliveries)), p.claimed, ClaimableSet(old(tables.db.deliveries), claimAt))
      ensures RespectsCeiling(old(tables.db.deliveries), p, ceiling)
      ensures Truthful(p.outcome, provider)
      ensures tables.db == old(tables.db).(
                deliveries := AfterPass(old(tables.db.deliveries), p, maxAttempts), now := tables.db.now)
      ensures sent == old(sent) + |With(p.outcome, Delivered)|
      ensures failed == old(failed) + Unsent(p.outcome)
    {
      ghost var before := tables.db.deliveries;
      var claimed := tables.Claim(batchSize, claimAt);
      p := Pass(claimed, map[], claimAt, countAt, markAt, retryAt, recorded);
      assert tables.db.deliveries == Midway(before, p, maxAttempts);
      var rows := List(claimed);
      var totals: Totals := map[];
      if ceiling > 0 {
        totals := tables.CountSent(Channels(tables.db.deliveries, claimed), countAt);
        CountedSince(tables.db.deliveries, Channels(tables.db.deliveries, claimed), countAt);
        StartCounted(before, p, ceiling, totals);
      }
      var delivered := {};
      for i := 0 to |rows|
        invariant p == Pass(claimed, p.outcome, claimAt, countAt, markAt, retryAt, recorded)
        invariant p.outcome.Keys == Elements(rows[..i]) && delivered == With(p.outcome, Delivered)
        invariant tables.db == old(tables.db).(deliveries := Midway(before, p, maxAttempts), now := tables.db.now)
        invariant Truthful(p.outcome, provider) && Budgeted(before, p, ceiling, totals)
        invariant sent == old(sent) + |With(p.outcome, Delivered)|
        invariant failed == old(failed) + Unsent(p.outcome)
      {
        NextRow(rows, i);
        p, delivered, totals := One(rows[i], before, p, delivered, totals, retryAt, provider, recorded);
      }
      assert rows[..|rows|] == rows;
      MarkingEnds(before, p, maxAttempts);
      if delivered != {} {
        tables.MarkSent(delivered, markAt);
      }
      if ceiling > 0 {
        ChannelsCounted(before, p, ceiling, totals);
      }
    }

    /** The body of the loop: refuse, deliver, or record a failure. */
    method One(d: DeliveryId, ghost before: seq<Delivery>, ghost p: Pass, delivered: set<DeliveryId>, totals: Totals,
               retryAt: DeliveryId -> int, provider: DeliveryId -> bool, recorded: DeliveryId -> bool)
      returns (ghost p': Pass, delivered': set<DeliveryId>, totals': Totals)
      requires tables.db.deliveries == Midway(before, p, maxAttempts)
      requires d in p.claimed && d < |before| && d !in p.outcome
      requires delivered == With(p.outcome, Delivered) && p.retryAt == retryAt && p.recorded == recorded
      requires Truthful(p.outcome, provider) && Budgeted(before, p, ceiling, totals)
      modifies this`sent, this`failed, tables
      ensures p' == p.(outcome := p'.outcome) && p'.outcome.Keys == p.outcome.Keys + {d}
      ensures delivered' == With(p'.outcome, Delivered)
      ensures tables.db == old(tables.db).(deliveries := Midway(before, p', maxAttempts), now := tables.db.now)
      ensures Truthful(p'.outcome, provider) && Budgeted(before, p', ceiling, totals')
      ensures sent == old(sent) + |With(p'.outcome, Delivered)| - |With(p.outcome, Delivered)|
      ensures failed == old(failed) + Unsent(p'.outcome) - Unsent(p.outcome)
    {
      var channel := tables.db.deliveries[d].triple.channel;
      ghost var kind;
      delivered', totals' := delivered, totals;
      if ceiling > 0 && Total(totals, channel) >= ceiling {
        kind := Refused;
        failed := failed + 1;
        if recorded(d) {
          tables.Refuse(d, retryAt(d));
        }
      } else if provider(d) {
        kind := Delivered;
        delivered' := delivered + {d};
        sent := sent + 1;
        totals' := totals[channel := Total(totals, channel) + 1];
      } else {
        kind := Failing;
        failed := failed + 1;
        if recorded(d) {
          tables.Retry(d, maxAttempts, retryAt(d));
        }
      }
      p' := p.(outcome := p.outcome[d := kind]);
      OutcomeWritten(before, p, d, kind, maxAttempts);
      KeyAdded(p.outcome, d, kind);
      OutcomeAdds(p.outcome, d, kind);
      StaysTruthful(p.outcome, d, kind, provider);
      if ceiling > 0 {
        OutcomeCounts(before, p, ceiling, totals, d, kind);
      }
    }
  }

  /* ------------------------------------------------------------------------- rows --- */

  lemma NextRow(rows: seq<DeliveryId>, i: nat)
    requires Distinct(rows) && i < |rows|
    ensures Elements(rows[..i + 1]) == Elements(rows[..i]) + {rows[i]}
    ensures rows[i] in Elements(rows) && rows[i] !in Elements(rows[..i])
  {
    assert rows[..i + 1] == rows[..i] + [rows[i]];
  }

  lemma OutcomeWritten(before: seq<Delivery>, p: Pass, d: DeliveryId, kind: Outcome, maxAttempts: nat)
    requires d in p.claimed && d < |before| && d !in p.outcome
    ensures Midway(before, p.(outcome := p.outcome[d := kind]), maxAttempts)
         == if kind == Delivered || !p.recorded(d) then Midway(before, p, maxAttempts)
            else if kind == Refused then RefuseStmt(Midway(before, p, maxAttempts), d)
            else RetryStmt(Midway(before, p, maxAttempts), d, maxAttempts, p.retryAt(d))
  {
    var next := p.(outcome := p.outcome[d := kind]);
    forall x | 0 <= x < |before| && x != d
      ensures Midway(before, next, maxAttempts)[x] == Midway(before, p, maxAttempts)[x]
    {
      assert (x in next.outcome) == (x in p.outcome);
    }
  }

  /** Rows that were not sent in this pass: refused, or left for another attempt. */
  ghost function Unsent(outcome: map<DeliveryId, Outcome>): nat {
    |With(outcome, Refused)| + |With(outcome, Failing)|
  }

  lemma WithAdded(outcome: map<DeliveryId, Outcome>, d: DeliveryId, kind: Outcome)
    requires d !in outcome
    ensures With(outcome[d := kind], kind) == With(outcome, kind) + {d}
    ensures |With(outcome[d := kind], kind)| == |With(outcome, kind)| + 1
  {
    var after := With(outcome[d := kind], kind);
    assert d !in With(outcome, kind);
    forall x
      ensures x in after <==> x in With(outcome, kind) || x == d
    {
    }
    assert after == With(outcome, kind) + {d};
  }

  lemma WithKept(outcome: map<DeliveryId, Outcome>, d: DeliveryId, kind: Outcome, k: Outcome)
    requires d !in outcome && k != kind
    ensures With(outcome[d := kind], k) == With(outcome, k)
  {
  }

  lemma UnsentAdds(outcome: map<DeliveryId, Outcome>, d: DeliveryId, kind: Outcome)
    requires d !in outcome
    ensures Unsent(outcome[d := kind]) == Unsent(outcome) + if kind == Delivered then 0 else 1
  {
    WithAdded(outcome, d, kind);
    if kind != Refused {
      WithKept(outcome, d, kind, Refused);
    }
    if kind != Failing {
      WithKept(outcome, d, kind, Failing);
    }
  }

  lemma KeyAdded(outcome: map<DeliveryId, Outcome>, d: DeliveryId, kind: Outcome)
    ensures outcome[d := kind].Keys == outcome.Keys + {d}
  {
  }

  lemma OutcomeAdds(outcome: map<DeliveryId, Outcome>, d: DeliveryId, kind: Outcome)
    requires d !in outcome
    ensures With(outcome[d := kind], Delivered) == if kind == Delivered then With(outcome, Delivered) + {d} else With(outcome, Delivered)
    ensures |With(outcome[d := kind], Delivered)| == |With(outcome, Delivered)| + if kind == Delivered then 1 else 0
    ensures kind != Refused ==> With(outcome[d := kind], Refused) == With(outcome, Refused)
    ensures Unsent(outcome[d := kind]) == Unsent(outcome) + if kind == Delivered then 0 else 1
  {
    UnsentAdds(outcome, d, kind);
    if kind == Delivered {
      WithAdded(outcome, d, kind);
    } else {
      WithKept(outcome, d, kind, Delivered);
    }
    if kind != Refused {
      WithKept(outcome, d, kind, Refused);
    }
  }

  lemma StaysTruthful(outcome: map<DeliveryId, Outcome>, d: DeliveryId, kind: Outcome, provider: DeliveryId -> bool)
    requires Truthful(outcome, provider)
    requires (kind == Delivered ==> provider(d)) && (kind == Failing ==> !provider(d))
    ensures Truthful(outcome[d := kind], provider)
  {
  }

  lemma MarkingEnds(before: seq<Delivery>, p: Pass, maxAttempts: nat)
    requires p.outcome.Keys == p.claimed
    ensures MarkSentStmt(Midway(before, p, maxAttempts), With(p.outcome, Delivered), p.markAt) == AfterPass(before, p, maxAttempts)
    ensures With(p.outcome, Delivered) == {} ==> Midway(before, p, maxAttempts) == AfterPass(before, p, maxAttempts)
  {
    if With(p.outcome, Delivered) == {} {
      forall d | d in p.outcome
        ensures p.outcome[d] != Delivered
      {
        assert d !in With(p.outcome, Delivered);
      }
    }
  }

  /* ----------------------------------------------------------------------- totals --- */

  lemma CountedSince(deliveries: seq<Delivery>, channels: set<ChannelId>, at: int)
    ensures forall ch <- channels ::
              SentSince(deliveries, ch, at - 3_600_000)
              == set d: nat | d < |deliveries| && deliveries[d].triple.channel == ch && deliveries[d].status == Sent
                              && deliveries[d].sentAt.Some? && deliveries[d].sentAt.value > at - 3_600_000
  {
  }

  /** What was claimed was pending, so counting after the claim is counting before it. */
  lemma StartCounted(before: seq<Delivery>, p: Pass, ceiling: nat, totals: Totals)
    requires forall d <- p.claimed :: d < |before| && Claimable(before[d], p.claimAt)
    requires p.outcome == map[]
    requires var claimed := ClaimStmt(before, p.claimed, p.claimAt);
             forall ch <- Channels(claimed, p.claimed) :: Total(totals, ch) == |SentSince(claimed, ch, p.countAt - 3_600_000)|
    ensures Counted(before, p, ceiling, totals)
  {
    var claimed := ClaimStmt(before, p.claimed, p.claimAt);
    forall d | d in p.claimed
      ensures ChannelCounted(before, p, ceiling, before[d].triple.channel, totals)
    {
      var ch := before[d].triple.channel;
      assert claimed[d].triple.channel in Channels(claimed, p.claimed);
      assert SentSince(claimed, ch, p.countAt - 3_600_000) == SentSince(before, ch, p.countAt - 3_600_000);
      assert OnChannel(before, map[], Delivered, ch) == {};
      assert OnChannel(before, map[], Refused, ch) == {};
    }
  }

  lemma OneMore(before: seq<Delivery>, outcome: map<DeliveryId, Outcome>, d: DeliveryId, kind: Outcome,
          k: Outcome, channel: ChannelId)
    requires d < |before| && d !in outcome
    ensures var less, more := OnChannel(before, outcome, k, channel), OnChannel(before, outcome[d := kind], k, channel);
            if k == kind && before[d].triple.channel == channel then more == less + {d} && |more| == |less| + 1
            else more == less
  {
    var less, more := OnChannel(before, outcome, k, channel), OnChannel(before, outcome[d := kind], k, channel);
    assert more == less + if k == kind && before[d].triple.channel == channel then {d} else {};
  }

  lemma OutcomeCounts(before: seq<Delivery>, p: Pass, ceiling: nat, totals: Totals, d: DeliveryId, kind: Outcome)
    requires d in p.claimed && d < |before| && d !in p.outcome
    requires Counted(before, p, ceiling, totals)
    requires kind == Refused ==> Total(totals, before[d].triple.channel) >= ceiling
    requires kind == Delivered ==> Total(totals, before[d].triple.channel) < ceiling
    ensures var channel := before[d].triple.channel;
            Counted(before, p.(outcome := p.outcome[d := kind]), ceiling,
                    if kind == Delivered then totals[channel := Total(totals, channel) + 1] else totals)
  {
    var channel := before[d].triple.channel;
    forall x | x in p.claimed
      ensures ChannelCounted(before, p.(outcome := p.outcome[d := kind]), ceiling, before[x].triple.channel,
                             if kind == Delivered then totals[channel := Total(totals, channel) + 1] else totals)
    {
      var other := before[x].triple.channel;
      assert ChannelCounted(before, p, ceiling, other, totals);
      OneMore(before, p.outcome, d, kind, Delivered, other);
      OneMore(before, p.outcome, d, kind, Refused, other);
    }
  }

  lemma ChannelsCounted(before: seq<Delivery>, p: Pass, ceiling: nat, totals: Totals)
    requires p.outcome.Keys == p.claimed && Counted(before, p, ceiling, totals)
    ensures forall channel :: ChannelRespects(before, p, ceiling, channel)
  {
    forall channel
      ensures ChannelRespects(before, p, ceiling, channel)
    {
      var delivered, refused := OnChannel(before, p.outcome, Delivered, channel), OnChannel(before, p.outcome, Refused, channel);
      if d :| d in delivered + refused {
        assert d in p.claimed && before[d].triple.channel == channel;
        assert ChannelCounted(before, p, ceiling, before[d].triple.channel, totals);
      }
    }
  }
}
