/**
 * Whole ticks of one undisturbed instance, one after another: each drains the overdue checks, opens incidents, resolves
 * others, and queues alerts. Checks go on going LATE and DOWN from tick to tick.
 */
module Convergence {
  import opened Prelude
  import opened AlertTables
  import opened AlertSafety
  import opened DetectionLaws

  /** One transaction of the drain: what it selected and when. */
  datatype Batch = Batch(selected: set<CheckId>, at: int)

  function AfterDrain(checks: map<CheckId, Check>, drain: seq<Batch>): map<CheckId, Check> {
    if drain == [] then checks
    else
      var last := drain[|drain| - 1];
      AdvanceStmt(AfterDrain(checks, drain[..|drain| - 1]), last.selected, last.at)
  }

  /** Every batch takes what is due, up to its size. */
  ghost predicate TakesDue(checks: map<CheckId, Check>, drain: seq<Batch>, batch: nat) {
    forall k :: 0 <= k < |drain| ==> Takes(drain[k].selected, DueSet(AfterDrain(checks, drain[..k]), drain[k].at), batch)
  }

  /** The last batch was short. */
  ghost predicate Drained(drain: seq<Batch>, batch: nat) {
    drain != [] && |drain[|drain| - 1].selected| < batch
  }

  /** `advanceOverdueChecks`: batch after full batch, until one is short or there were twenty-five. */
  ghost predicate IsDrain(checks: map<CheckId, Check>, drain: seq<Batch>, batch: nat) {
    && 1 <= |drain| <= 25
    && TakesDue(checks, drain, batch)
    && (forall k :: 0 <= k < |drain| - 1 ==> |drain[k].selected| == batch)
    && (|drain| == 25 || Drained(drain, batch))
  }

  datatype WholeTick = WholeTick(drain: seq<Batch>, choice: Choice)

  function Late(before: Db, t: WholeTick): Db {
    before.(checks := AfterDrain(before.checks, t.drain))
  }

  /** A tick that nothing competes with; deliveries and the clock may move besides. */
  ghost predicate IsTick(before: Db, t: WholeTick, after: Db, batch: nat) {
    && IsDrain(before.checks, t.drain, batch)
    && Alone(Late(before, t), t.choice, batch)
    && after.checks == Late(before, t).checks
    && after.incidents == AfterTick(Late(before, t), t.choice).incidents
  }

  ghost predicate Ticks(dbs: seq<Db>, ticks: seq<WholeTick>, batch: nat) {
    && |dbs| == |ticks| + 1
    && forall k :: 0 < k < |dbs| ==> TickEnds(dbs, ticks, batch, k)
  }

  /** The tick that ends in the `k`th state. */
  ghost predicate TickEnds(dbs: seq<Db>, ticks: seq<WholeTick>, batch: nat, k: nat)
    requires 0 < k < |dbs| == |ticks| + 1
  {
    IsTick(dbs[k - 1], ticks[k - 1], dbs[k], batch)
  }

  lemma OneMore(n: nat, batch: nat)
    ensures (n + 1) * batch == n * batch + batch
  {
  }

  // ---- The drain ---------------------------------------------------------------------------------------------------

  /** A check after some batches: as it was, or further down, and otherwise the same. */
  predicate Sinks(a: Check, b: Check) {
    (b.state == a.state || Descends(a.state, b.state)) && b == a.(state := b.state)
  }

  lemma {:induction false} DrainSinks(checks: map<CheckId, Check>, drain: seq<Batch>, c: CheckId)
    requires c in checks
    ensures AfterDrain(checks, drain).Keys == checks.Keys
    ensures Sinks(checks[c], AfterDrain(checks, drain)[c])
  {
    if drain != [] {
      DrainSinks(checks, drain[..|drain| - 1], c);
    }
  }

  lemma {:induction false} DrainKeepsKeys(checks: map<CheckId, Check>, drain: seq<Batch>)
    ensures AfterDrain(checks, drain).Keys == checks.Keys
  {
    if drain != [] {
      DrainKeepsKeys(checks, drain[..|drain| - 1]);
    }
  }

  lemma TakesDueFront(checks: map<CheckId, Check>, drain: seq<Batch>, batch: nat)
    requires drain != [] && TakesDue(checks, drain, batch)
    ensures TakesDue(checks, drain[..|drain| - 1], batch)
    ensures var last := drain[|drain| - 1];
            Takes(last.selected, DueSet(AfterDrain(checks, drain[..|drain| - 1]), last.at), batch)
  {
    var front := drain[..|drain| - 1];
    forall k | 0 <= k < |front|
      ensures Takes(front[k].selected, DueSet(AfterDrain(checks, front[..k]), front[k].at), batch)
    {
      assert front[..k] == drain[..k];
    }
  }

  /** Full batches pay for themselves in transitions. */
  lemma {:induction false} DrainSheds(checks: map<CheckId, Check>, drain: seq<Batch>, batch: nat)
    requires TakesDue(checks, drain, batch) && forall k :: 0 <= k < |drain| ==> |drain[k].selected| == batch
    ensures Weight(AfterDrain(checks, drain)) + |drain| * batch <= Weight(checks)
  {
    if drain != [] {
      var n := |drain| - 1;
      TakesDueFront(checks, drain, batch);
      DrainSheds(checks, drain[..n], batch);
      AdvanceSheds(AfterDrain(checks, drain[..n]), drain[n].selected, drain[n].at);
      OneMore(n, batch);
    }
  }

  /** A short batch leaves nothing due at its instant. */
  lemma {:induction false} ShortLeavesNothingDue(checks: map<CheckId, Check>, drain: seq<Batch>, batch: nat)
    requires TakesDue(checks, drain, batch) && Drained(drain, batch)
    ensures DueSet(AfterDrain(checks, drain), drain[|drain| - 1].at) == {}
  {
    var n := |drain| - 1;
    var before := AfterDrain(checks, drain[..n]);
    TakesDueFront(checks, drain, batch);
    SubsetCard(drain[n].selected, DueSet(before, drain[n].at));
    BatchesAddUp(before, drain[n].selected, drain[n].at);
  }

  // ---- Gaps --------------------------------------------------------------------------------------------------------

  /** The DOWN checks that have their incident. */
  function Reported(db: Db): set<CheckId> {
    set c | c in db.checks && db.checks[c].state == DOWN && HasOpen(db.incidents, c)
  }

  lemma ReportedAndMissing(db: Db)
    ensures InStates(db.checks, {DOWN}) == Reported(db) + Missing(db) && Reported(db) !! Missing(db)
    ensures |Reported(db)| + |Missing(db)| == |InStates(db.checks, {DOWN})|
  {
    CardUnion(Reported(db), Missing(db));
  }

  /** What the drain does to the disagreements: it adds gaps, loses no report, and makes no incident stale. */
  lemma {:induction false} DrainMoves(before: Db, t: WholeTick)
    ensures Missing(before) <= Missing(Late(before, t)) && Reported(before) <= Reported(Late(before, t))
    ensures Stale(Late(before, t)) <= Stale(before)
  {
    DrainKeepsKeys(before.checks, t.drain);
    forall c | c in before.checks
      ensures Sinks(before.checks[c], Late(before, t).checks[c])
    {
      DrainSinks(before.checks, t.drain, c);
    }
    var late := Late(before, t);
    forall i | i in Stale(late)
      ensures i in Stale(before)
    {
      assert Sinks(before.checks[before.incidents[i].check], late.checks[before.incidents[i].check]);
    }
  }

  lemma AfterTickLeaves(db: Db, ch: Choice, batch: nat)
    requires Alone(db, ch, batch)
    ensures Missing(AfterTick(db, ch)) == Missing(db) - Elements(ch.down)
    ensures AfterTick(db, ch).checks == db.checks
  {
    OpenShrinksMissing(db, ch.down, ch.openAt);
    OnlyChecksAndIncidentsCount(AfterDowns(db, ch), AfterOpen(db, ch));
    ResolveShrinksStale(AfterDowns(db, ch), ch.resolved, ch.resolveAt);
    OnlyChecksAndIncidentsCount(AfterTick(db, ch), AfterResolve(db, ch));
  }

  /** A tick loses no report, and one that leaves a gap added a full batch of them. */
  lemma {:induction false} TickReports(before: Db, t: WholeTick, after: Db, batch: nat)
    requires IsTick(before, t, after, batch)
    ensures Reported(before) <= Reported(after)
    ensures Missing(after) != {} ==> |Reported(before)| + batch <= |Reported(after)|
  {
    var late := Late(before, t);
    DrainMoves(before, t);
    AfterTickLeaves(late, t.choice, batch);
    TickConverges(late, t.choice, batch);
    OnlyChecksAndIncidentsCount(after, AfterTick(late, t.choice));
    ReportedAndMissing(late);
    ReportedAndMissing(after);
    SubsetCard(Reported(before), Reported(late));
    forall c | c in Reported(late)
      ensures c in Reported(after)
    {
      assert c in InStates(after.checks, {DOWN}) && c !in Missing(after);
    }
    if Missing(after) != {} {
      SubsetCard({}, Missing(after));
    }
  }

  /** A tick makes nothing stale, and one that leaves a stale incident resolved a full batch of them. */
  lemma {:induction false} TickResolves(before: Db, t: WholeTick, after: Db, batch: nat)
    requires IsTick(before, t, after, batch)
    ensures |Stale(after)| <= |Stale(before)|
    ensures Stale(after) != {} ==> |Stale(after)| + batch <= |Stale(before)|
  {
    DrainMoves(before, t);
    SubsetCard(Stale(Late(before, t)), Stale(before));
    TickConverges(Late(before, t), t.choice, batch);
    OnlyChecksAndIncidentsCount(after, AfterTick(Late(before, t), t.choice));
  }

  lemma TickBefore(dbs: seq<Db>, ticks: seq<WholeTick>, batch: nat, k: nat)
    requires Ticks(dbs, ticks, batch) && 0 < k < |dbs|
    ensures IsTick(dbs[k - 1], ticks[k - 1], dbs[k], batch)
  {
    assert TickEnds(dbs, ticks, batch, k);
  }

  /** How many of the first `n` ticks end with a DOWN check that has no incident. */
  ghost function GapTicks(dbs: seq<Db>, n: nat): nat
    requires n < |dbs|
  {
    if n == 0 then 0 else GapTicks(dbs, n - 1) + if Missing(dbs[n]) != {} then 1 else 0
  }

  /** How many of them end with an open incident of a check that is back. */
  ghost function StaleTicks(dbs: seq<Db>, n: nat): nat
    requires n < |dbs|
  {
    if n == 0 then 0 else StaleTicks(dbs, n - 1) + if Stale(dbs[n]) != {} then 1 else 0
  }

  /** What one tick does to the counts. */
  ghost predicate Pays(before: Db, after: Db, batch: nat) {
    && after.checks.Keys == before.checks.Keys
    && Reported(before) <= Reported(after)
    && |Reported(before)| + (if Missing(after) != {} then batch else 0) <= |Reported(after)|
    && |Stale(after)| + (if Stale(after) != {} then batch else 0) <= |Stale(before)|
  }

  ghost predicate AllPay(dbs: seq<Db>, batch: nat) {
    forall k :: 0 < k < |dbs| ==> PaysAt(dbs, batch, k)
  }

  ghost predicate PaysAt(dbs: seq<Db>, batch: nat, k: nat)
    requires 0 < k < |dbs|
  {
    Pays(dbs[k - 1], dbs[k], batch)
  }

  lemma TickPays(before: Db, t: WholeTick, after: Db, batch: nat)
    requires IsTick(before, t, after, batch)
    ensures Pays(before, after, batch)
  {
    TickReports(before, t, after, batch);
    TickResolves(before, t, after, batch);
    DrainKeepsKeys(before.checks, t.drain);
    SubsetCard(Reported(before), Reported(after));
  }

  lemma TicksPay(dbs: seq<Db>, ticks: seq<WholeTick>, batch: nat)
    requires Ticks(dbs, ticks, batch)
    ensures AllPay(dbs, batch)
  {
    forall k | 0 < k < |dbs|
      ensures PaysAt(dbs, batch, k)
    {
      TickBefore(dbs, ticks, batch, k);
      TickPays(dbs[k - 1], ticks[k - 1], dbs[k], batch);
    }
  }

  /** The counting of one more tick. */
  lemma OneMorePaid(ticks: nat, more: nat, batch: nat, before: nat, after: nat)
    requires more <= 1 && ticks * batch <= before && before + (if more == 1 then batch else 0) <= after
    ensures (ticks + more) * batch <= after
  {
    OneMore(ticks, batch);
  }

  lemma OneMoreResolved(ticks: nat, more: nat, batch: nat, start: nat, before: nat, after: nat)
    requires more <= 1 && ticks * batch + before <= start && after + (if more == 1 then batch else 0) <= before
    ensures (ticks + more) * batch + after <= start
  {
    OneMore(ticks, batch);
  }

  lemma {:induction false} GapsArePaidFor(dbs: seq<Db>, batch: nat, n: nat)
    requires AllPay(dbs, batch) && n < |dbs|
    ensures GapTicks(dbs, n) * batch <= |Reported(dbs[n])|
    ensures dbs[n].checks.Keys == dbs[0].checks.Keys
  {
    if n > 0 {
      GapsArePaidFor(dbs, batch, n - 1);
      assert PaysAt(dbs, batch, n);
      OneMorePaid(GapTicks(dbs, n - 1), if Missing(dbs[n]) != {} then 1 else 0, batch,
                  |Reported(dbs[n - 1])|, |Reported(dbs[n])|);
    }
  }

  lemma {:induction false} StaleIsPaidFor(dbs: seq<Db>, batch: nat, n: nat)
    requires AllPay(dbs, batch) && n < |dbs|
    ensures StaleTicks(dbs, n) * batch + |Stale(dbs[n])| <= |Stale(dbs[0])|
  {
    if n > 0 {
      StaleIsPaidFor(dbs, batch, n - 1);
      assert PaysAt(dbs, batch, n);
      var more := if Stale(dbs[n]) != {} then 1 else 0;
      OneMoreResolved(StaleTicks(dbs, n - 1), more, batch, |Stale(dbs[0])|, |Stale(dbs[n - 1])|, |Stale(dbs[n])|);
    }
  }

  // ---- Agreement ---------------------------------------------------------------------------------------------------

  ghost predicate OnlyOpen(incidents: seq<Incident>, i: nat, c: CheckId)
    requires i < |incidents|
  {
    forall j :: 0 <= j < |incidents| ==> (incidents[j].check == c && incidents[j].resolvedAt.None? <==> j == i)
  }

  ghost predicate ExactlyOneOpen(incidents: seq<Incident>, c: CheckId) {
    exists i :: 0 <= i < |incidents| && OnlyOpen(incidents, i, c)
  }

  /** Exactly one open incident for every DOWN check, and none for a check that is UP or PAUSED. */
  ghost predicate Agreement(db: Db) {
    && (forall c :: c in db.checks && db.checks[c].state == DOWN ==> ExactlyOneOpen(db.incidents, c))
    && (forall c :: c in db.checks && db.checks[c].state in {UP, PAUSED} ==> !HasOpen(db.incidents, c))
  }

  lemma OneIsExactlyOne(incidents: seq<Incident>, c: CheckId)
    requires OneOpenPerCheck(incidents)
    ensures HasOpen(incidents, c) <==> ExactlyOneOpen(incidents, c)
  {
    if HasOpen(incidents, c) {
      var i :| 0 <= i < |incidents| && incidents[i].check == c && incidents[i].resolvedAt.None?;
      assert OnlyOpen(incidents, i, c);
    }
    if i :| 0 <= i < |incidents| && OnlyOpen(incidents, i, c) {
      assert incidents[i].check == c && incidents[i].resolvedAt.None?;
    }
  }

  lemma NothingLeftIsAgreement(db: Db)
    requires OneOpenPerCheck(db.incidents)
    ensures Agreement(db) <==> Missing(db) == {} && Stale(db) == {}
  {
    forall c
      ensures HasOpen(db.incidents, c) <==> ExactlyOneOpen(db.incidents, c)
    {
      OneIsExactlyOne(db.incidents, c);
    }
    if Missing(db) == {} && Stale(db) == {} {
      forall c | c in db.checks && db.checks[c].state == DOWN
        ensures HasOpen(db.incidents, c)
      {
        assert c !in Missing(db);
      }
      forall c | c in db.checks && HasOpen(db.incidents, c)
        ensures db.checks[c].state !in {UP, PAUSED}
      {
        var i: nat :| i < |db.incidents| && db.incidents[i].check == c && db.incidents[i].resolvedAt.None?;
        assert i !in Stale(db);
      }
    }
    if Agreement(db) {
      forall c
        ensures c !in Missing(db)
      {
      }
      forall i
        ensures i !in Stale(db)
      {
        assert 0 <= i < |db.incidents| && db.incidents[i].resolvedAt.None? ==> HasOpen(db.incidents, db.incidents[i].check);
      }
    }
  }

  lemma {:induction false} TickKeepsOne(before: Db, t: WholeTick, after: Db, batch: nat)
    requires IsTick(before, t, after, batch) && OneOpenPerCheck(before.incidents)
    ensures OneOpenPerCheck(after.incidents)
  {
    OpenKeepsOne(before.incidents, t.choice.down, t.choice.openAt);
  }

  lemma NextKeepsOne(dbs: seq<Db>, ticks: seq<WholeTick>, batch: nat, k: nat)
    requires Ticks(dbs, ticks, batch) && 0 < k < |dbs| && OneOpenPerCheck(dbs[k - 1].incidents)
    ensures OneOpenPerCheck(dbs[k].incidents)
  {
    TickBefore(dbs, ticks, batch, k);
    TickKeepsOne(dbs[k - 1], ticks[k - 1], dbs[k], batch);
  }

  lemma {:induction false} TicksKeepOne(dbs: seq<Db>, ticks: seq<WholeTick>, batch: nat, k: nat)
    requires Ticks(dbs, ticks, batch) && k < |dbs| && OneOpenPerCheck(dbs[0].incidents)
    ensures OneOpenPerCheck(dbs[k].incidents)
  {
    if k > 0 {
      TicksKeepOne(dbs, ticks, batch, k - 1);
      NextKeepsOne(dbs, ticks, batch, k);
    }
  }

  /** A tick ends in agreement exactly when neither disagreement was larger, after its drain, than one batch. */
  lemma {:induction false} TickAgreesWhen(before: Db, t: WholeTick, after: Db, batch: nat)
    requires IsTick(before, t, after, batch) && OneOpenPerCheck(before.incidents)
    ensures Agreement(after) <==> |Missing(Late(before, t))| <= batch && |Stale(Late(before, t))| <= batch
  {
    TickKeepsOne(before, t, after, batch);
    NothingLeftIsAgreement(after);
    TickConverges(Late(before, t), t.choice, batch);
    OnlyChecksAndIncidentsCount(after, AfterTick(Late(before, t), t.choice));
  }

  /** How many of the first `n` ticks do not end in agreement. */
  ghost function DisagreeingTicks(dbs: seq<Db>, n: nat): nat
    requires n < |dbs|
  {
    if n == 0 then 0 else DisagreeingTicks(dbs, n - 1) + if Agreement(dbs[n]) then 0 else 1
  }

  lemma {:induction false} DisagreementIsGapOrStale(dbs: seq<Db>, n: nat)
    requires n < |dbs| && forall k :: 0 <= k < |dbs| ==> OneOpenPerCheck(dbs[k].incidents)
    ensures DisagreeingTicks(dbs, n) <= GapTicks(dbs, n) + StaleTicks(dbs, n)
  {
    if n > 0 {
      DisagreementIsGapOrStale(dbs, n - 1);
      NothingLeftIsAgreement(dbs[n]);
    }
  }

  /**
   * Convergence: of however many ticks, whatever goes LATE and DOWN meanwhile, at most (checks + stale incidents) / batch
   * do not end with states and incidents in agreement.
   */
  lemma {:induction false} AllButFewTicksAgree(dbs: seq<Db>, ticks: seq<WholeTick>, batch: nat)
    requires Ticks(dbs, ticks, batch) && OneOpenPerCheck(dbs[0].incidents)
    ensures DisagreeingTicks(dbs, |ticks|) * batch <= |dbs[0].checks| + |Stale(dbs[0])|
  {
    var n := |ticks|;
    TicksPay(dbs, ticks, batch);
    GapsArePaidFor(dbs, batch, n);
    StaleIsPaidFor(dbs, batch, n);
    forall k | 0 <= k < |dbs|
      ensures OneOpenPerCheck(dbs[k].incidents)
    {
      TicksKeepOne(dbs, ticks, batch, k);
    }
    DisagreementIsGapOrStale(dbs, n);
    SubsetCard(Reported(dbs[n]), dbs[n].checks.Keys);
    Multiply(DisagreeingTicks(dbs, n), GapTicks(dbs, n), StaleTicks(dbs, n), batch);
  }

  lemma Multiply(a: nat, b: nat, c: nat, batch: nat)
    requires a <= b + c
    ensures a * batch <= b * batch + c * batch
  {
    assert (b + c - a) * batch >= 0;
  }

  // ---- One check ---------------------------------------------------------------------------------------------------

  lemma {:induction false} StaysReported(dbs: seq<Db>, batch: nat, i: nat, j: nat)
    requires AllPay(dbs, batch) && i <= j < |dbs|
    ensures Reported(dbs[i]) <= Reported(dbs[j])
  {
    if i < j {
      StaysReported(dbs, batch, i, j - 1);
      assert PaysAt(dbs, batch, j);
    }
  }

  ghost predicate Lower(before: map<CheckId, Check>, after: map<CheckId, Check>) {
    after.Keys == before.Keys && forall c <- before :: Sinks(before[c], after[c])
  }

  ghost predicate AllLower(dbs: seq<Db>) {
    forall k :: 0 < k < |dbs| ==> LowerAt(dbs, k)
  }

  ghost predicate LowerAt(dbs: seq<Db>, k: nat)
    requires 0 < k < |dbs|
  {
    Lower(dbs[k - 1].checks, dbs[k].checks)
  }

  lemma TicksLower(dbs: seq<Db>, ticks: seq<WholeTick>, batch: nat)
    requires Ticks(dbs, ticks, batch)
    ensures AllLower(dbs)
  {
    forall k | 0 < k < |dbs|
      ensures LowerAt(dbs, k)
    {
      TickBefore(dbs, ticks, batch, k);
      DrainLower(dbs[k - 1].checks, ticks[k - 1].drain);
    }
  }

  lemma DrainLower(checks: map<CheckId, Check>, drain: seq<Batch>)
    ensures Lower(checks, AfterDrain(checks, drain))
  {
    DrainKeepsKeys(checks, drain);
    forall c <- checks
      ensures Sinks(checks[c], AfterDrain(checks, drain)[c])
    {
      DrainSinks(checks, drain, c);
    }
  }

  lemma {:induction false} StaysLower(dbs: seq<Db>, i: nat, j: nat, c: CheckId)
    requires AllLower(dbs) && i <= j < |dbs| && c in dbs[i].checks
    ensures c in dbs[j].checks && Sinks(dbs[i].checks[c], dbs[j].checks[c])
  {
    if i < j {
      StaysLower(dbs, i, j - 1, c);
      assert LowerAt(dbs, j);
    }
  }

  lemma StaysDown(dbs: seq<Db>, ticks: seq<WholeTick>, batch: nat, i: nat, j: nat, c: CheckId)
    requires Ticks(dbs, ticks, batch) && i <= j < |dbs| && c in dbs[i].checks && dbs[i].checks[c].state == DOWN
    ensures c in dbs[j].checks && dbs[j].checks[c].state == DOWN
  {
    TicksLower(dbs, ticks, batch);
    StaysLower(dbs, i, j, c);
  }

  /** While a check that is DOWN has no incident, every tick reports a full batch of others. */
  lemma {:induction false} WaitingIsPaidFor(dbs: seq<Db>, batch: nat, i: nat, j: nat, c: CheckId)
    requires AllPay(dbs, batch) && i <= j < |dbs|
    requires forall k :: i <= k <= j ==> c in Missing(dbs[k])
    ensures (j - i) * batch <= |Reported(dbs[j])|
  {
    if i < j {
      WaitingIsPaidFor(dbs, batch, i, j - 1, c);
      assert PaysAt(dbs, batch, j);
      assert c in Missing(dbs[j]);
      OneMore(j - 1 - i, batch);
    }
  }

  /** A check that is DOWN has exactly one open incident once the ticks could have reported every check there is. */
  lemma {:induction false} DownIsReported(dbs: seq<Db>, ticks: seq<WholeTick>, batch: nat, i: nat, n: nat, c: CheckId)
    requires Ticks(dbs, ticks, batch) && OneOpenPerCheck(dbs[0].incidents) && i <= n < |dbs|
    requires c in dbs[i].checks && dbs[i].checks[c].state == DOWN
    requires |dbs[i].checks| <= (n - i) * batch
    ensures ExactlyOneOpen(dbs[n].incidents, c)
  {
    TicksPay(dbs, ticks, batch);
    TicksKeepOne(dbs, ticks, batch, n);
    OneIsExactlyOne(dbs[n].incidents, c);
    StaysDown(dbs, ticks, batch, i, n, c);
    if !HasOpen(dbs[n].incidents, c) {
      forall k | i <= k <= n
        ensures c in Missing(dbs[k])
      {
        StaysDown(dbs, ticks, batch, i, k, c);
        StaysReported(dbs, batch, k, n);
        assert c in Reported(dbs[k]) || c in Missing(dbs[k]);
      }
      WaitingIsPaidFor(dbs, batch, i, n, c);
      GapsArePaidFor(dbs, batch, i);
      GapsArePaidFor(dbs, batch, n);
      SubsetCard(Reported(dbs[n]), dbs[n].checks.Keys);
    }
  }

  /** The grace of a check is spent at this instant. */
  predicate GraceSpent(c: Check, at: int) {
    c.nextDueAt.Some? && c.nextDueAt.value < at && Deadline(c) <= at
  }

  /** A drain that ends short leaves no check watched whose grace is spent. */
  lemma {:induction false} ShortDrainTakesDown(checks: map<CheckId, Check>, drain: seq<Batch>, batch: nat, c: CheckId)
    requires IsDrain(checks, drain, batch) && Drained(drain, batch)
    requires c in checks && checks[c].state in {NEW, UP, LATE, DOWN} && GraceSpent(checks[c], drain[|drain| - 1].at)
    ensures c in AfterDrain(checks, drain) && AfterDrain(checks, drain)[c].state == DOWN
  {
    ShortLeavesNothingDue(checks, drain, batch);
    DrainSinks(checks, drain, c);
    assert c !in DueSet(AfterDrain(checks, drain), drain[|drain| - 1].at);
  }

  /** And one that does not end short made twenty-five full batches of transitions. */
  lemma {:induction false} LongDrainSheds(checks: map<CheckId, Check>, drain: seq<Batch>, batch: nat)
    requires IsDrain(checks, drain, batch) && !Drained(drain, batch)
    ensures Weight(AfterDrain(checks, drain)) + 25 * batch <= Weight(checks)
  {
    TakesDueFront(checks, drain, batch);
    assert |drain[|drain| - 1].selected| == batch;
    DrainSheds(checks, drain, batch);
  }

  /** When the last batch of a tick ran. */
  function LastAt(t: WholeTick): int
    requires t.drain != []
  {
    t.drain[|t.drain| - 1].at
  }

  /** The check is DOWN, or twenty-five full batches of transitions were made. */
  ghost predicate TakesDownOrSheds(before: map<CheckId, Check>, after: map<CheckId, Check>, batch: nat, c: CheckId) {
    && c in after
    && (after[c].state == DOWN || Weight(after) + 25 * batch <= Weight(before))
  }

  lemma {:induction false} DrainTakesDownOrSheds(checks: map<CheckId, Check>, drain: seq<Batch>, batch: nat, c: CheckId)
    requires IsDrain(checks, drain, batch)
    requires c in checks && checks[c].state in {NEW, UP, LATE, DOWN} && GraceSpent(checks[c], drain[|drain| - 1].at)
    ensures TakesDownOrSheds(checks, AfterDrain(checks, drain), batch, c)
  {
    if Drained(drain, batch) {
      ShortDrainTakesDown(checks, drain, batch, c);
    } else {
      LongDrainSheds(checks, drain, batch);
      DrainKeepsKeys(checks, drain);
    }
  }

  /** A check that can still go down, or did, and whose grace is spent. */
  predicate Doomed(c: Check, at: int) {
    c.state in {NEW, UP, LATE, DOWN} && GraceSpent(c, at)
  }

  lemma {:induction false} TickTakesDownOrSheds(before: Db, t: WholeTick, after: Db, batch: nat, c: CheckId, row: Check)
    requires IsTick(before, t, after, batch) && c in before.checks && Sinks(row, before.checks[c])
    requires Doomed(row, t.drain[|t.drain| - 1].at)
    ensures TakesDownOrSheds(before.checks, after.checks, batch, c)
  {
    DrainTakesDownOrSheds(before.checks, t.drain, batch, c);
  }

  ghost predicate ShedsAt(dbs: seq<Db>, batch: nat, c: CheckId, k: nat)
    requires 0 < k < |dbs|
  {
    TakesDownOrSheds(dbs[k - 1].checks, dbs[k].checks, batch, c)
  }

  /** The check is doomed by the time every drain of these ticks ends. */
  ghost predicate DoomedThroughout(row: Check, ticks: seq<WholeTick>) {
    forall k :: 0 <= k < |ticks| ==> DoomedAt(row, ticks[k])
  }

  predicate DoomedAt(row: Check, t: WholeTick) {
    t.drain != [] && Doomed(row, LastAt(t))
  }

  lemma {:induction false} TicksTakeDownOrShed(dbs: seq<Db>, ticks: seq<WholeTick>, batch: nat, k: nat,
          c: CheckId, row: Check)
    requires Ticks(dbs, ticks, batch) && 0 < k < |dbs|
    requires c in dbs[k - 1].checks && Sinks(row, dbs[k - 1].checks[c]) && DoomedAt(row, ticks[k - 1])
    ensures ShedsAt(dbs, batch, c, k)
  {
    TickBefore(dbs, ticks, batch, k);
    TickTakesDownOrSheds(dbs[k - 1], ticks[k - 1], dbs[k], batch, c, row);
  }

  lemma {:induction false} AllTakeDownOrShed(dbs: seq<Db>, ticks: seq<WholeTick>, batch: nat, k: nat, c: CheckId)
    requires Ticks(dbs, ticks, batch) && 0 < k < |dbs| && c in dbs[0].checks && DoomedThroughout(dbs[0].checks[c], ticks)
    ensures ShedsAt(dbs, batch, c, k)
  {
    TicksLower(dbs, ticks, batch);
    StaysLower(dbs, 0, k - 1, c);
    assert DoomedAt(dbs[0].checks[c], ticks[k - 1]);
    TicksTakeDownOrShed(dbs, ticks, batch, k, c, dbs[0].checks[c]);
  }

  lemma {:induction false} BacklogIsPaidFor(dbs: seq<Db>, batch: nat, m: nat, c: CheckId)
    requires AllLower(dbs) && m < |dbs| && c in dbs[0].checks
    requires forall k :: 0 < k <= m ==> ShedsAt(dbs, batch, c, k)
    ensures c in dbs[m].checks
    ensures dbs[m].checks[c].state == DOWN || Weight(dbs[m].checks) + m * (25 * batch) <= Weight(dbs[0].checks)
  {
    if m > 0 {
      BacklogIsPaidFor(dbs, batch, m - 1, c);
      assert LowerAt(dbs, m);
      assert ShedsAt(dbs, batch, c, m);
      OneMore(m - 1, 25 * batch);
    }
  }

  /**
   * No missed outage: a check whose grace is spent has exactly one open incident once there were ticks enough for the
   * backlog of transitions, and then for an incident of every check there is, whatever else goes down meanwhile. It
   * needs a deadline: a check the quota reconciler resumed has none until its next heartbeat.
   */
  lemma {:induction false} OutageIsReported(dbs: seq<Db>, ticks: seq<WholeTick>, batch: nat, m: nat, n: nat, c: CheckId)
    requires Ticks(dbs, ticks, batch) && OneOpenPerCheck(dbs[0].incidents) && m <= n < |dbs|
    requires c in dbs[0].checks && DoomedThroughout(dbs[0].checks[c], ticks)
    requires 2 * |InStates(dbs[0].checks, {NEW, UP, LATE})| < m * (25 * batch)
    requires |dbs[0].checks| <= (n - m) * batch
    ensures ExactlyOneOpen(dbs[n].incidents, c)
  {
    TicksLower(dbs, ticks, batch);
    forall k | 0 < k <= m
      ensures ShedsAt(dbs, batch, c, k)
    {
      AllTakeDownOrShed(dbs, ticks, batch, k, c);
    }
    BacklogIsPaidFor(dbs, batch, m, c);
    SubsetCard(InStates(dbs[0].checks, {NEW, UP}), InStates(dbs[0].checks, {NEW, UP, LATE}));
    TicksPay(dbs, ticks, batch);
    GapsArePaidFor(dbs, batch, m);
    SameSize(dbs[0].checks, dbs[m].checks);
    DownIsReported(dbs, ticks, batch, m, n, c);
  }

  lemma SameSize(a: map<CheckId, Check>, b: map<CheckId, Check>)
    requires a.Keys == b.Keys
    ensures |a| == |b|
  {
    assert |a| == |a.Keys| && |b| == |b.Keys|;
  }

  /** A job that says it failed has exactly one open incident after ticks enough, deadline or not. */
  lemma {:induction false} FailureIsReported(row: Check, receivedAt: int, due: Option<int>, dbs: seq<Db>,
          ticks: seq<WholeTick>, batch: nat, n: nat, c: CheckId)
    requires Ticks(dbs, ticks, batch) && OneOpenPerCheck(dbs[0].incidents) && n < |dbs| && row.state != PAUSED
    requires c in dbs[0].checks && dbs[0].checks[c] == Ingested(row, Fail, receivedAt, due)
    requires |dbs[0].checks| <= n * batch
    ensures ExactlyOneOpen(dbs[n].incidents, c)
  {
    DownIsReported(dbs, ticks, batch, 0, n, c);
  }

  lemma {:induction false} StaleRunsOut(dbs: seq<Db>, batch: nat, n: nat)
    requires AllPay(dbs, batch) && n < |dbs|
    ensures Stale(dbs[n]) != {} ==> n * batch + |Stale(dbs[n])| <= |Stale(dbs[0])|
  {
    if n > 0 {
      StaleRunsOut(dbs, batch, n - 1);
      assert PaysAt(dbs, batch, n);
      OneMore(n - 1, batch);
    }
  }

  /** After ticks enough for the incidents that were stale, no check that is UP or PAUSED has one. */
  lemma {:induction false} RecoveriesAreReported(dbs: seq<Db>, ticks: seq<WholeTick>, batch: nat, n: nat, c: CheckId)
    requires Ticks(dbs, ticks, batch) && n < |dbs| && |Stale(dbs[0])| <= n * batch
    requires c in dbs[n].checks && dbs[n].checks[c].state in {UP, PAUSED}
    ensures !HasOpen(dbs[n].incidents, c)
  {
    TicksPay(dbs, ticks, batch);
    StaleRunsOut(dbs, batch, n);
    assert Stale(dbs[n]) == {};
    forall i | 0 <= i < |dbs[n].incidents| && dbs[n].incidents[i].check == c
      ensures dbs[n].incidents[i].resolvedAt.Some?
    {
      assert i !in Stale(dbs[n]);
    }
  }

  /** No drain of these ticks runs after the deadline. */
  ghost predicate RunsBefore(ticks: seq<WholeTick>, due: Option<int>) {
    forall k, b :: 0 <= k < |ticks| && 0 <= b < |ticks[k].drain| ==> due.None? || ticks[k].drain[b].at <= due.value
  }

  lemma {:induction false} NotDueStays(checks: map<CheckId, Check>, drain: seq<Batch>, c: CheckId)
    requires c in checks
    requires forall b :: 0 <= b < |drain| ==> checks[c].nextDueAt.None? || drain[b].at <= checks[c].nextDueAt.value
    ensures c in AfterDrain(checks, drain) && AfterDrain(checks, drain)[c] == checks[c]
  {
    if drain != [] {
      NotDueStays(checks, drain[..|drain| - 1], c);
    }
  }

  lemma TickLeavesNotDue(before: Db, t: WholeTick, after: Db, batch: nat, c: CheckId)
    requires IsTick(before, t, after, batch) && c in before.checks
    requires forall b :: 0 <= b < |t.drain| ==> before.checks[c].nextDueAt.None? || t.drain[b].at <= before.checks[c].nextDueAt.value
    ensures c in after.checks && after.checks[c] == before.checks[c]
  {
    NotDueStays(before.checks, t.drain, c);
  }

  lemma {:induction false} StaysUntilDue(dbs: seq<Db>, ticks: seq<WholeTick>, batch: nat, n: nat, c: CheckId)
    requires Ticks(dbs, ticks, batch) && n < |dbs| && c in dbs[0].checks && RunsBefore(ticks, dbs[0].checks[c].nextDueAt)
    ensures c in dbs[n].checks && dbs[n].checks[c] == dbs[0].checks[c]
  {
    if n > 0 {
      StaysUntilDue(dbs, ticks, batch, n - 1, c);
      TickBefore(dbs, ticks, batch, n);
      TickLeavesNotDue(dbs[n - 1], ticks[n - 1], dbs[n], batch, c);
    }
  }

  /** A success ends the outage, of a check that does not fall due again before the ticks that takes are over. */
  lemma {:induction false} SuccessEndsTheOutage(row: Check, receivedAt: int, due: Option<int>, dbs: seq<Db>,
          ticks: seq<WholeTick>, batch: nat, n: nat, c: CheckId)
    requires Ticks(dbs, ticks, batch) && n < |dbs| && row.state != PAUSED
    requires c in dbs[0].checks && dbs[0].checks[c] == Ingested(row, Success, receivedAt, due) && RunsBefore(ticks, due)
    requires |Stale(dbs[0])| <= n * batch
    ensures !HasOpen(dbs[n].incidents, c)
  {
    StaysUntilDue(dbs, ticks, batch, n, c);
    RecoveriesAreReported(dbs, ticks, batch, n, c);
  }

  /** In agreement, with nothing due, a tick writes nothing and queues nothing. */
  lemma {:induction false} AgreementIsStable(before: Db, t: WholeTick, after: Db, batch: nat)
    requires batch > 0 && IsTick(before, t, after, batch) && OneOpenPerCheck(before.incidents) && Agreement(before)
    requires DueSet(before.checks, t.drain[0].at) == {}
    ensures after.checks == before.checks && after.incidents == before.incidents
    ensures AfterTick(Late(before, t), t.choice).deliveries == before.deliveries
    ensures t.choice.downs == [] && t.choice.ups == []
  {
    NothingDueNothingDrained(before.checks, t.drain, batch);
    NothingLeftIsAgreement(before);
    NothingToWrite(Late(before, t), t.choice, batch);
  }

  lemma NothingDueNothingDrained(checks: map<CheckId, Check>, drain: seq<Batch>, batch: nat)
    requires batch > 0 && IsDrain(checks, drain, batch) && DueSet(checks, drain[0].at) == {}
    ensures AfterDrain(checks, drain) == checks
  {
    assert drain[..0] == [] && AfterDrain(checks, []) == checks;
    assert Takes(drain[0].selected, DueSet(AfterDrain(checks, drain[..0]), drain[0].at), batch);
    assert drain[0].selected == {};
    assert |drain| == 1;
    assert AdvanceStmt(checks, {}, drain[0].at) == checks;
  }

  lemma NothingToWrite(db: Db, ch: Choice, batch: nat)
    requires Missing(db) == {} && Stale(db) == {} && Alone(db, ch, batch)
    ensures AfterTick(db, ch) == db.(now := ch.upsAt)
    ensures ch.downs == [] && ch.ups == []
  {
    NoElements(ch.down);
    assert AfterOpen(db, ch) == db.(now := ch.openAt);
    assert Inserted(db.incidents, db.incidents) == {};
    NoElements(ch.downs);
    assert Stale(AfterDowns(db, ch)) == {};
    assert ch.resolved == {};
    assert ResolveStmt(db.incidents, {}, ch.resolveAt) == db.incidents;
    assert RefsOf(db.incidents, {}) == {};
    NoElements(ch.ups);
  }
}
