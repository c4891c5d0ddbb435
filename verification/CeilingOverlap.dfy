/**
 * The hourly ceiling with several workers: passes that all count before any of them marks. Each respects the ceiling
 * by its own count; when they keep it together, and by how much they can exceed it.
 */
module CeilingOverlap {
  import opened Prelude
  import opened AlertTables
  import opened CeilingLaws

  /** The rows of a pass that are on the channel. */
  ghost function ClaimedOn(before: seq<Delivery>, p: Pass, channel: ChannelId): set<DeliveryId> {
    set d | d in p.claimed && d < |before| && before[d].triple.channel == channel
  }

  /** What a pass believes it may still send. */
  ghost function Room(before: seq<Delivery>, p: Pass, ceiling: nat, channel: ChannelId): nat {
    Max(0, ceiling - |SentSince(before, channel, p.countAt - 3_600_000)|)
  }

  ghost function Share(before: seq<Delivery>, p: Pass, ceiling: nat, channel: ChannelId): nat {
    Min(Room(before, p, ceiling, channel), |ClaimedOn(before, p, channel)|)
  }

  predicate MarksWithin(p: Pass, until: int) {
    until - 3_600_000 < p.markAt <= until
  }

  /** The most that the passes can deliver on the channel in the hour that ends at `until`. */
  ghost function Most(before: seq<Delivery>, ps: seq<Pass>, ceiling: nat, channel: ChannelId, until: int): nat {
    if ps == [] then 0
    else
      var p := ps[|ps| - 1];
      Most(before, ps[..|ps| - 1], ceiling, channel, until)
      + if MarksWithin(p, until) then Share(before, p, ceiling, channel) else 0
  }

  ghost function Delivers(before: seq<Delivery>, ps: seq<Pass>, channel: ChannelId, until: int): nat {
    if ps == [] then 0
    else
      var p := ps[|ps| - 1];
      Delivers(before, ps[..|ps| - 1], channel, until)
      + if MarksWithin(p, until) then |OnChannel(before, p.outcome, Delivered, channel)| else 0
  }

  function AfterAll(before: seq<Delivery>, ps: seq<Pass>, maxAttempts: nat): seq<Delivery> {
    if ps == [] then before else AfterPass(AfterAll(before, ps[..|ps| - 1], maxAttempts), ps[|ps| - 1], maxAttempts)
  }

  ghost predicate Claims(before: seq<Delivery>, p: Pass) {
    forall d <- p.claimed :: d < |before| && Claimable(before[d], p.claimAt)
  }

  /** The workers claim different rows, and all of them count before any of them marks. */
  ghost predicate Overlap(before: seq<Delivery>, ps: seq<Pass>, ceiling: nat, start: int) {
    && ceiling > 0 && Ledger(before, start) && CeilingKept(before, ceiling)
    && (forall i :: 0 <= i < |ps| ==> start <= ps[i].countAt && Claims(before, ps[i]))
    && (forall i, j :: 0 <= i < |ps| && 0 <= j < |ps| ==> ps[i].countAt <= ps[j].markAt)
    && (forall i, j :: 0 <= i < j < |ps| ==> ps[i].claimed !! ps[j].claimed)
  }

  ghost predicate AllRespect(before: seq<Delivery>, ps: seq<Pass>, ceiling: nat) {
    forall i :: 0 <= i < |ps| ==> RespectsCeiling(before, ps[i], ceiling)
  }

  // ---- What the channels receive -----------------------------------------------------------------------------------

  lemma {:induction false} RowsAfterAll(before: seq<Delivery>, ps: seq<Pass>, maxAttempts: nat)
    ensures var after := AfterAll(before, ps, maxAttempts);
            && |after| == |before|
            && (forall d :: 0 <= d < |before| ==> after[d].triple == before[d].triple)
            && (forall d :: 0 <= d < |before| && (forall i :: 0 <= i < |ps| ==> d !in ps[i].claimed) ==> after[d] == before[d])
  {
    if ps != [] {
      var front, last := ps[..|ps| - 1], ps[|ps| - 1];
      RowsAfterAll(before, front, maxAttempts);
      forall d | 0 <= d < |before| && forall i :: 0 <= i < |ps| ==> d !in ps[i].claimed
        ensures AfterAll(before, ps, maxAttempts)[d] == before[d]
      {
        assert forall i :: 0 <= i < |front| ==> front[i] == ps[i];
      }
    }
  }

  lemma PassAddsToWindow(table: seq<Delivery>, p: Pass, maxAttempts: nat, channel: ChannelId, until: int)
    requires p.outcome.Keys == p.claimed
    requires forall d <- p.claimed :: d < |table| && table[d].sentAt.None?
    ensures var old', new', after := Window(table, channel, until), OnChannel(table, p.outcome, Delivered, channel),
                                     Window(AfterPass(table, p, maxAttempts), channel, until);
            after == (if MarksWithin(p, until) then old' + new' else old') && old' !! new'
  {
    var after := AfterPass(table, p, maxAttempts);
    forall d: nat | d < |table|
      ensures d in Window(after, channel, until) <==>
              d in Window(table, channel, until)
              || (MarksWithin(p, until) && d in OnChannel(table, p.outcome, Delivered, channel))
    {
      assert after[d] == RowAfter(table[d], d, p, maxAttempts);
    }
  }

  lemma FrontOverlaps(before: seq<Delivery>, ps: seq<Pass>, ceiling: nat, start: int)
    requires ps != [] && Overlap(before, ps, ceiling, start)
    ensures Overlap(before, ps[..|ps| - 1], ceiling, start)
    ensures AllRespect(before, ps, ceiling) ==> AllRespect(before, ps[..|ps| - 1], ceiling)
  {
  }

  /** What a channel received in an hour: what it had before, and what the passes marked in that hour. */
  lemma {:induction false} WindowAfterAll(before: seq<Delivery>, ps: seq<Pass>, ceiling: nat, start: int,
          maxAttempts: nat, channel: ChannelId, until: int)
    requires Overlap(before, ps, ceiling, start) && AllRespect(before, ps, ceiling)
    ensures |Window(AfterAll(before, ps, maxAttempts), channel, until)|
         == |Window(before, channel, until)| + Delivers(before, ps, channel, until)
  {
    if ps != [] {
      var front, p := ps[..|ps| - 1], ps[|ps| - 1];
      FrontOverlaps(before, ps, ceiling, start);
      WindowAfterAll(before, front, ceiling, start, maxAttempts, channel, until);
      RowsAfterAll(before, front, maxAttempts);
      var table := AfterAll(before, front, maxAttempts);
      forall d | d in p.claimed
        ensures d < |table| && table[d].sentAt.None?
      {
        assert Claims(before, p);
        assert forall i :: 0 <= i < |front| ==> d !in front[i].claimed;
      }
      PassAddsToWindow(table, p, maxAttempts, channel, until);
      assert OnChannel(table, p.outcome, Delivered, channel) == OnChannel(before, p.outcome, Delivered, channel);
    }
  }

  lemma DeliversItsShare(before: seq<Delivery>, p: Pass, ceiling: nat, channel: ChannelId)
    requires ceiling > 0 && RespectsCeiling(before, p, ceiling)
    ensures |OnChannel(before, p.outcome, Delivered, channel)| <= Share(before, p, ceiling, channel)
  {
    assert ChannelRespects(before, p, ceiling, channel);
    SubsetCard(OnChannel(before, p.outcome, Delivered, channel), ClaimedOn(before, p, channel));
  }

  lemma {:induction false} DeliversAtMost(before: seq<Delivery>, ps: seq<Pass>, ceiling: nat,
          channel: ChannelId, until: int)
    requires ceiling > 0 && AllRespect(before, ps, ceiling)
    ensures Delivers(before, ps, channel, until) <= Most(before, ps, ceiling, channel, until)
  {
    if ps != [] {
      assert AllRespect(before, ps[..|ps| - 1], ceiling);
      DeliversAtMost(before, ps[..|ps| - 1], ceiling, channel, until);
      DeliversItsShare(before, ps[|ps| - 1], ceiling, channel);
    }
  }

  // ---- The worst hours ---------------------------------------------------------------------------------------------

  lemma {:induction false} MostGrows(before: seq<Delivery>, ps: seq<Pass>, ceiling: nat, channel: ChannelId,
          a: int, b: int)
    requires forall i :: 0 <= i < |ps| && MarksWithin(ps[i], a) ==> MarksWithin(ps[i], b)
    ensures Most(before, ps, ceiling, channel, a) <= Most(before, ps, ceiling, channel, b)
  {
    if ps != [] {
      MostGrows(before, ps[..|ps| - 1], ceiling, channel, a, b);
      assert MarksWithin(ps[|ps| - 1], a) ==> MarksWithin(ps[|ps| - 1], b);
    }
  }

  lemma {:induction false} NoneMost(before: seq<Delivery>, ps: seq<Pass>, ceiling: nat, channel: ChannelId, until: int)
    requires forall i :: 0 <= i < |ps| ==> !MarksWithin(ps[i], until)
    ensures Most(before, ps, ceiling, channel, until) == 0
  {
    if ps != [] {
      NoneMost(before, ps[..|ps| - 1], ceiling, channel, until);
      assert !MarksWithin(ps[|ps| - 1], until);
    }
  }

  lemma {:induction false} LatestMark(ps: seq<Pass>, until: int) returns (i: nat)
    requires exists j :: 0 <= j < |ps| && MarksWithin(ps[j], until)
    ensures i < |ps| && MarksWithin(ps[i], until)
    ensures forall j :: 0 <= j < |ps| && MarksWithin(ps[j], until) ==> ps[j].markAt <= ps[i].markAt
  {
    i := |ps| - 1;
    if j :| 0 <= j < |ps| - 1 && MarksWithin(ps[j], until) {
      var front := ps[..|ps| - 1];
      assert front[j] == ps[j];
      var k := LatestMark(front, until);
      assert forall j :: 0 <= j < |front| ==> front[j] == ps[j];
      if !MarksWithin(ps[i], until) || ps[i].markAt < ps[k].markAt {
        i := k;
      }
    }
  }

  /** The fullest hours end at a mark. */
  lemma WorstAtAMark(before: seq<Delivery>, ps: seq<Pass>, ceiling: nat, start: int, channel: ChannelId, until: int)
    returns (i: nat)
    requires Overlap(before, ps, ceiling, start)
    requires exists j :: 0 <= j < |ps| && MarksWithin(ps[j], until)
    ensures i < |ps|
    ensures |Window(before, channel, until)| + Most(before, ps, ceiling, channel, until)
         <= |Window(before, channel, ps[i].markAt)| + Most(before, ps, ceiling, channel, ps[i].markAt)
  {
    i := LatestMark(ps, until);
    MostGrows(before, ps, ceiling, channel, until, ps[i].markAt);
    assert start <= ps[i].countAt <= ps[i].markAt;
    SubsetCard(Window(before, channel, until), Window(before, channel, ps[i].markAt));
  }

  // ---- Every provider accepting ------------------------------------------------------------------------------------

  ghost function Below(s: set<nat>, x: nat): set<nat> {
    set y | y in s && y < x
  }

  lemma {:induction false} Largest(s: set<nat>) returns (m: nat)
    requires s != {}
    ensures m in s && forall x <- s :: x <= m
  {
    m :| m in s;
    if s != {m} {
      var rest := s - {m};
      assert rest != {};
      var r := Largest(rest);
      assert forall x <- s :: x == m || x in rest;
      m := Max(m, r);
    }
  }

  /** The members of rank below n are n of them, or all. */
  lemma {:induction false} FirstOnes(s: set<nat>, n: nat)
    ensures |set x | x in s && |Below(s, x)| < n| == Min(n, |s|)
  {
    var first := set x | x in s && |Below(s, x)| < n;
    if s != {} {
      var m := Largest(s);
      var rest := s - {m};
      FirstOnes(rest, n);
      forall x <- rest
        ensures Below(s, x) == Below(rest, x)
      {
      }
      assert Below(s, m) == rest;
      var lower := set x | x in rest && |Below(rest, x)| < n;
      assert first == lower + if |rest| < n then {m} else {};
    } else {
      assert first == {};
    }
  }

  ghost function Accepting(before: seq<Delivery>, p: Pass, ceiling: nat): map<DeliveryId, Outcome>
    requires Claims(before, p)
  {
    map d | d in p.claimed ::
      if |Below(ClaimedOn(before, p, before[d].triple.channel), d)| < Room(before, p, ceiling, before[d].triple.channel)
      then Delivered else Refused
  }

  lemma AcceptingDelivers(before: seq<Delivery>, p: Pass, ceiling: nat, channel: ChannelId)
    requires Claims(before, p)
    ensures |OnChannel(before, Accepting(before, p, ceiling), Delivered, channel)| == Share(before, p, ceiling, channel)
  {
    var on, room := ClaimedOn(before, p, channel), Room(before, p, ceiling, channel);
    FirstOnes(on, room);
    var first := set d | d in on && |Below(on, d)| < room;
    assert OnChannel(before, Accepting(before, p, ceiling), Delivered, channel) == first;
  }

  lemma AcceptingRespects(before: seq<Delivery>, p: Pass, ceiling: nat)
    requires ceiling > 0 && Claims(before, p)
    ensures RespectsCeiling(before, p.(outcome := Accepting(before, p, ceiling)), ceiling)
  {
    var q := p.(outcome := Accepting(before, p, ceiling));
    assert q.outcome.Keys == q.claimed;
    forall channel
      ensures ChannelRespects(before, q, ceiling, channel)
    {
      AcceptingDelivers(before, p, ceiling, channel);
      var delivered, refused := OnChannel(before, q.outcome, Delivered, channel), OnChannel(before, q.outcome, Refused, channel);
      if d :| d in refused {
        assert d in ClaimedOn(before, p, channel) && d !in delivered;
        SubsetCard(delivered, ClaimedOn(before, p, channel));
      }
    }
  }

  // ---- When they keep the ceiling ----------------------------------------------------------------------------------

  ghost predicate SameWork(ps: seq<Pass>, qs: seq<Pass>) {
    |qs| == |ps| && forall i :: 0 <= i < |ps| ==> qs[i] == ps[i].(outcome := qs[i].outcome)
  }

  ghost predicate Fits(before: seq<Delivery>, ps: seq<Pass>, ceiling: nat, channel: ChannelId, until: int) {
    |Window(before, channel, until)| + Most(before, ps, ceiling, channel, until) <= ceiling
  }

  ghost predicate AllFit(before: seq<Delivery>, ps: seq<Pass>, ceiling: nat) {
    forall channel, i :: 0 <= i < |ps| ==> Fits(before, ps, ceiling, channel, ps[i].markAt)
  }

  lemma {:induction false} SameWorkSameMost(before: seq<Delivery>, ps: seq<Pass>, qs: seq<Pass>, ceiling: nat,
          channel: ChannelId, until: int)
    requires SameWork(ps, qs)
    ensures Most(before, qs, ceiling, channel, until) == Most(before, ps, ceiling, channel, until)
  {
    if ps != [] {
      var p, q := ps[|ps| - 1], qs[|qs| - 1];
      SameWorkSameMost(before, ps[..|ps| - 1], qs[..|qs| - 1], ceiling, channel, until);
      assert q == p.(outcome := q.outcome);
      assert ClaimedOn(before, q, channel) == ClaimedOn(before, p, channel);
    }
  }

  lemma SameWorkOverlaps(before: seq<Delivery>, ps: seq<Pass>, qs: seq<Pass>, ceiling: nat, start: int)
    requires Overlap(before, ps, ceiling, start) && SameWork(ps, qs)
    ensures Overlap(before, qs, ceiling, start)
  {
    forall i | 0 <= i < |qs|
      ensures start <= qs[i].countAt && Claims(before, qs[i])
    {
      assert Claims(before, ps[i]);
    }
  }

  /** If every provider accepts, the passes deliver all that they can. */
  lemma {:induction false} MostIsReached(before: seq<Delivery>, ps: seq<Pass>, ceiling: nat, start: int)
    returns (qs: seq<Pass>)
    requires Overlap(before, ps, ceiling, start)
    ensures SameWork(ps, qs) && AllRespect(before, qs, ceiling)
    ensures forall channel, until :: Delivers(before, qs, channel, until) == Most(before, ps, ceiling, channel, until)
  {
    if ps == [] {
      qs := [];
    } else {
      var p := ps[|ps| - 1];
      assert Claims(before, p);
      FrontOverlaps(before, ps, ceiling, start);
      var front := MostIsReached(before, ps[..|ps| - 1], ceiling, start);
      var q := p.(outcome := Accepting(before, p, ceiling));
      AcceptingRespects(before, p, ceiling);
      qs := front + [q];
      assert qs[..|qs| - 1] == front;
      forall channel, until
        ensures Delivers(before, qs, channel, until) == Most(before, ps, ceiling, channel, until)
      {
        AcceptingDelivers(before, p, ceiling, channel);
        assert Delivers(before, front, channel, until) == Most(before, ps[..|ps| - 1], ceiling, channel, until);
      }
    }
  }

  ghost predicate KeepWhoeverAccepts(before: seq<Delivery>, ps: seq<Pass>, ceiling: nat, maxAttempts: nat) {
    forall qs :: SameWork(ps, qs) && AllRespect(before, qs, ceiling) ==> CeilingKept(AfterAll(before, qs, maxAttempts), ceiling)
  }

  lemma FittingKeep(before: seq<Delivery>, ps: seq<Pass>, ceiling: nat, start: int, maxAttempts: nat,
          channel: ChannelId, until: int)
    requires Overlap(before, ps, ceiling, start) && AllRespect(before, ps, ceiling) && AllFit(before, ps, ceiling)
    ensures |Window(AfterAll(before, ps, maxAttempts), channel, until)| <= ceiling
  {
    WindowAfterAll(before, ps, ceiling, start, maxAttempts, channel, until);
    DeliversAtMost(before, ps, ceiling, channel, until);
    if exists j :: 0 <= j < |ps| && MarksWithin(ps[j], until) {
      var i := WorstAtAMark(before, ps, ceiling, start, channel, until);
      assert Fits(before, ps, ceiling, channel, ps[i].markAt);
    } else {
      NoneMost(before, ps, ceiling, channel, until);
    }
  }

  lemma SameWorkFits(before: seq<Delivery>, ps: seq<Pass>, qs: seq<Pass>, ceiling: nat)
    requires SameWork(ps, qs) && AllFit(before, ps, ceiling)
    ensures AllFit(before, qs, ceiling)
  {
    forall channel, i | 0 <= i < |qs|
      ensures Fits(before, qs, ceiling, channel, qs[i].markAt)
    {
      assert Fits(before, ps, ceiling, channel, ps[i].markAt);
      SameWorkSameMost(before, ps, qs, ceiling, channel, ps[i].markAt);
    }
  }

  /**
   * Any number of workers whose passes overlap keep the ceiling, whatever the providers accept, exactly when on every
   * channel the hour that ends at each mark has room for the shares of all the passes that mark in it.
   */
  lemma OverlapKeepsCeilingWhen(before: seq<Delivery>, ps: seq<Pass>, ceiling: nat, start: int, maxAttempts: nat)
    requires Overlap(before, ps, ceiling, start)
    ensures KeepWhoeverAccepts(before, ps, ceiling, maxAttempts) <==> AllFit(before, ps, ceiling)
  {
    if KeepWhoeverAccepts(before, ps, ceiling, maxAttempts) {
      var qs := MostIsReached(before, ps, ceiling, start);
      SameWorkOverlaps(before, ps, qs, ceiling, start);
      forall channel, i | 0 <= i < |ps|
        ensures Fits(before, ps, ceiling, channel, ps[i].markAt)
      {
        WindowAfterAll(before, qs, ceiling, start, maxAttempts, channel, ps[i].markAt);
      }
    }
    if AllFit(before, ps, ceiling) {
      forall qs | SameWork(ps, qs) && AllRespect(before, qs, ceiling)
        ensures CeilingKept(AfterAll(before, qs, maxAttempts), ceiling)
      {
        SameWorkOverlaps(before, ps, qs, ceiling, start);
        SameWorkFits(before, ps, qs, ceiling);
        forall channel, until
          ensures |Window(AfterAll(before, qs, maxAttempts), channel, until)| <= ceiling
        {
          FittingKeep(before, qs, ceiling, start, maxAttempts, channel, until);
        }
      }
    }
  }

  // ---- How far they go past it -------------------------------------------------------------------------------------

  lemma {:induction false} SharesAddUp(before: seq<Delivery>, ps: seq<Pass>, ceiling: nat, channel: ChannelId,
          until: int, had: nat)
    requires had <= ceiling
    requires forall i :: 0 <= i < |ps| ==> had <= |SentSince(before, channel, ps[i].countAt - 3_600_000)|
    ensures Most(before, ps, ceiling, channel, until) <= |ps| * (ceiling - had)
  {
    if ps != [] {
      SharesAddUp(before, ps[..|ps| - 1], ceiling, channel, until, had);
      assert had <= |SentSince(before, channel, ps[|ps| - 1].countAt - 3_600_000)|;
      OneMoreTime(|ps| - 1, ceiling - had);
    }
  }

  lemma OneMoreTime(n: nat, x: nat)
    ensures (n + 1) * x == n * x + x
  {
  }

  lemma SharedHour(n: nat, ceiling: nat, had: nat)
    requires n >= 1 && had <= ceiling
    ensures had + n * (ceiling - had) <= n * ceiling
  {
    assert n * (ceiling - had) == n * ceiling - n * had;
    assert had <= n * had;
  }

  /** What is still in the hour at some mark was in it at every count. */
  lemma SentWithin(before: seq<Delivery>, ps: seq<Pass>, ceiling: nat, start: int, channel: ChannelId, i: nat, j: nat)
    requires Overlap(before, ps, ceiling, start) && i < |ps| && j < |ps|
    ensures |Window(before, channel, ps[i].markAt)| <= |SentSince(before, channel, ps[j].countAt - 3_600_000)|
  {
    assert ps[j].countAt <= ps[i].markAt;
    SubsetCard(Window(before, channel, ps[i].markAt), SentSince(before, channel, ps[j].countAt - 3_600_000));
  }

  lemma SharedAtAMark(before: seq<Delivery>, ps: seq<Pass>, ceiling: nat, start: int, channel: ChannelId, i: nat)
    requires Overlap(before, ps, ceiling, start) && i < |ps|
    ensures |Window(before, channel, ps[i].markAt)| + Most(before, ps, ceiling, channel, ps[i].markAt) <= |ps| * ceiling
  {
    var had := |Window(before, channel, ps[i].markAt)|;
    forall j | 0 <= j < |ps|
      ensures had <= |SentSince(before, channel, ps[j].countAt - 3_600_000)|
    {
      SentWithin(before, ps, ceiling, start, channel, i, j);
    }
    SharesAddUp(before, ps, ceiling, channel, ps[i].markAt, had);
    SharedHour(|ps|, ceiling, had);
  }

  /** However they overlap, w workers deliver at most w times the ceiling to a channel in an hour. */
  lemma WorkersShareTheExcess(before: seq<Delivery>, ps: seq<Pass>, ceiling: nat, start: int, maxAttempts: nat,
          channel: ChannelId, until: int)
    requires Overlap(before, ps, ceiling, start) && AllRespect(before, ps, ceiling) && ps != []
    ensures |Window(AfterAll(before, ps, maxAttempts), channel, until)| <= |ps| * ceiling
  {
    WindowAfterAll(before, ps, ceiling, start, maxAttempts, channel, until);
    DeliversAtMost(before, ps, ceiling, channel, until);
    if exists j :: 0 <= j < |ps| && MarksWithin(ps[j], until) {
      var i := WorstAtAMark(before, ps, ceiling, start, channel, until);
      SharedAtAMark(before, ps, ceiling, start, channel, i);
    } else {
      NoneMost(before, ps, ceiling, channel, until);
      SharedHour(|ps|, ceiling, ceiling);
    }
  }

  // ---- Two workers at one instant ----------------------------------------------------------------------------------

  /** A worker that claims, counts and marks at one instant. */
  function At(claimed: set<DeliveryId>, now: int): Pass {
    Pass(claimed, map[], now, now, now, d => now, d => true)
  }

  lemma TwoShares(before: seq<Delivery>, a: set<DeliveryId>, b: set<DeliveryId>, ceiling: nat,
          channel: ChannelId, now: int)
    ensures Most(before, [At(a, now), At(b, now)], ceiling, channel, now)
         == Share(before, At(a, now), ceiling, channel) + Share(before, At(b, now), ceiling, channel)
  {
    var ps := [At(a, now), At(b, now)];
    assert ps[..1] == [At(a, now)] && ps[..1][..0] == [];
    assert Most(before, ps[..1], ceiling, channel, now) == Share(before, At(a, now), ceiling, channel);
  }

  /**
   * Two workers at one instant keep the ceiling exactly when their shares fit together in the room each believes it
   * has.
   */
  lemma TwoKeepCeilingWhen(before: seq<Delivery>, a: set<DeliveryId>, b: set<DeliveryId>, ceiling: nat,
          now: int, maxAttempts: nat)
    requires Overlap(before, [At(a, now), At(b, now)], ceiling, now)
    ensures KeepWhoeverAccepts(before, [At(a, now), At(b, now)], ceiling, maxAttempts) <==>
            forall channel :: Share(before, At(a, now), ceiling, channel) + Share(before, At(b, now), ceiling, channel)
                           <= Room(before, At(a, now), ceiling, channel)
  {
    var ps := [At(a, now), At(b, now)];
    OverlapKeepsCeilingWhen(before, ps, ceiling, now, maxAttempts);
    forall channel
      ensures Fits(before, ps, ceiling, channel, now) <==>
              Share(before, ps[0], ceiling, channel) + Share(before, ps[1], ceiling, channel) <= Room(before, ps[0], ceiling, channel)
    {
      TwoShares(before, a, b, ceiling, channel, now);
      assert Window(before, channel, now) == SentSince(before, channel, now - 3_600_000);
    }
    assert ps[0].markAt == now == ps[1].markAt;
    if AllFit(before, ps, ceiling) {
      forall channel
        ensures Share(before, ps[0], ceiling, channel) + Share(before, ps[1], ceiling, channel) <= Room(before, ps[0], ceiling, channel)
      {
        assert Fits(before, ps, ceiling, channel, ps[0].markAt);
      }
    }
  }

  /**
   * Wherever one more delivery would reach the ceiling, two workers that take one row each send both, each within the
   * ceiling by its own count.
   */
  lemma TwoWorkersExceed(before: seq<Delivery>, ceiling: nat, channel: ChannelId, x: DeliveryId, y: DeliveryId,
          now: int, maxAttempts: nat) returns (qs: seq<Pass>)
    requires Ledger(before, now) && CeilingKept(before, ceiling) && |SentSince(before, channel, now - 3_600_000)| + 1 == ceiling
    requires x != y && x < |before| && y < |before| && Claimable(before[x], now) && Claimable(before[y], now)
    requires before[x].triple.channel == channel == before[y].triple.channel
    ensures Overlap(before, qs, ceiling, now) && AllRespect(before, qs, ceiling) && |qs| == 2
    ensures !CeilingKept(AfterAll(before, qs, maxAttempts), ceiling)
  {
    var ps := [At({x}, now), At({y}, now)];
    qs := MostIsReached(before, ps, ceiling, now);
    SameWorkOverlaps(before, ps, qs, ceiling, now);
    WindowAfterAll(before, qs, ceiling, now, maxAttempts, channel, now);
    TwoShares(before, {x}, {y}, ceiling, channel, now);
    assert ClaimedOn(before, ps[0], channel) == {x} && ClaimedOn(before, ps[1], channel) == {y};
    assert Window(before, channel, now) == SentSince(before, channel, now - 3_600_000);
  }
}
