/**
 * What becomes of an overdue check, in the columns of its row: LATE while its grace runs, DOWN from its last
 * millisecond on, and anything else as it was.
 */
module Lateness {
  import opened Prelude
  import opened AlertTables
  import opened DetectionLaws
  import opened Convergence

  /** The batches of a drain run one after the other. */
  ghost predicate Rising(drain: seq<Batch>) {
    forall i, j :: 0 <= i < j < |drain| ==> drain[i].at <= drain[j].at
  }

  /** What a row can have come to by `at`: what it was, or a transition whose time had come. */
  predicate MayBe(row: Check, now: Check, at: int) {
    && now == row.(state := now.state)
    && (now.state == row.state
        || (row.state in {NEW, UP, LATE} && row.nextDueAt.Some? && row.nextDueAt.value < at
            && (now.state == LATE || (now.state == DOWN && row.nextDueAt.value + 1000 * row.graceSeconds <= at))))
  }

  lemma {:induction false} DrainMayBe(checks: map<CheckId, Check>, drain: seq<Batch>, c: CheckId, at: int)
    requires c in checks && forall k :: 0 <= k < |drain| ==> drain[k].at <= at
    ensures c in AfterDrain(checks, drain) && MayBe(checks[c], AfterDrain(checks, drain)[c], at)
  {
    if drain != [] {
      DrainMayBe(checks, drain[..|drain| - 1], c, at);
    }
  }

  /**
   * A drain that ends in a short batch leaves every row as its columns have it at the last batch: one that is not
   * overdue, or is paused or DOWN, as it was; an overdue one LATE while its grace runs, and DOWN when it is over.
   */
  lemma DrainedRow(checks: map<CheckId, Check>, drain: seq<Batch>, batch: nat, c: CheckId)
    requires IsDrain(checks, drain, batch) && Drained(drain, batch) && Rising(drain) && c in checks
    ensures var row, at := checks[c], drain[|drain| - 1].at;
            c in AfterDrain(checks, drain)
            && AfterDrain(checks, drain)[c] == row.(
                 state := if row.state in {DOWN, PAUSED} || row.nextDueAt.None? || at <= row.nextDueAt.value then row.state
                          else if at < row.nextDueAt.value + 1000 * row.graceSeconds then LATE
                          else DOWN)
  {
    var at := drain[|drain| - 1].at;
    DrainMayBe(checks, drain, c, at);
    ShortLeavesNothingDue(checks, drain, batch);
    assert c !in DueSet(AfterDrain(checks, drain), at);
  }

  // ---- Over ticks --------------------------------------------------------------------------------------------------

  /** The deadline has passed and the grace still runs, in every batch of these ticks. */
  ghost predicate OverdueThroughout(row: Check, ticks: seq<WholeTick>) {
    forall k :: 0 <= k < |ticks| ==> OverdueAt(row, ticks[k].drain)
  }

  ghost predicate OverdueAt(row: Check, drain: seq<Batch>) {
    && row.nextDueAt.Some?
    && forall k :: 0 <= k < |drain| ==>
         row.nextDueAt.value < drain[k].at < row.nextDueAt.value + 1000 * row.graceSeconds
  }

  lemma {:induction false} DrainKeepsFromDown(checks: map<CheckId, Check>, drain: seq<Batch>, c: CheckId)
    requires c in checks && checks[c].state in {NEW, UP, LATE} && OverdueAt(checks[c], drain)
    ensures c in AfterDrain(checks, drain)
    ensures AfterDrain(checks, drain)[c] in {checks[c], checks[c].(state := LATE)}
  {
    if drain != [] {
      assert OverdueAt(checks[c], drain[..|drain| - 1]);
      DrainKeepsFromDown(checks, drain[..|drain| - 1], c);
    }
  }

  /** The check is LATE, or twenty-five full batches of transitions were made. */
  ghost predicate LateOrSheds(before: map<CheckId, Check>, after: map<CheckId, Check>, batch: nat, c: CheckId) {
    && c in after
    && (after[c].state == LATE || Weight(after) + 25 * batch <= Weight(before))
  }

  lemma DrainIsLateOrSheds(checks: map<CheckId, Check>, drain: seq<Batch>, batch: nat, c: CheckId)
    requires IsDrain(checks, drain, batch)
    requires c in checks && checks[c].state in {NEW, UP, LATE} && OverdueAt(checks[c], drain)
    ensures LateOrSheds(checks, AfterDrain(checks, drain), batch, c)
  {
    DrainKeepsFromDown(checks, drain, c);
    if Drained(drain, batch) {
      ShortLeavesNothingDue(checks, drain, batch);
      assert c !in DueSet(AfterDrain(checks, drain), drain[|drain| - 1].at);
    } else {
      LongDrainSheds(checks, drain, batch);
    }
  }

  lemma NextTick(dbs: seq<Db>, ticks: seq<WholeTick>, batch: nat, k: nat, c: CheckId, row: Check)
    requires Ticks(dbs, ticks, batch) && 0 < k < |dbs|
    requires c in dbs[k - 1].checks && dbs[k - 1].checks[c] in {row, row.(state := LATE)}
    requires row.state in {NEW, UP, LATE} && OverdueAt(row, ticks[k - 1].drain)
    ensures LateOrSheds(dbs[k - 1].checks, dbs[k].checks, batch, c)
    ensures dbs[k].checks[c] in {row, row.(state := LATE)}
    ensures dbs[k - 1].checks[c].state == LATE ==> dbs[k].checks[c].state == LATE
  {
    TickBefore(dbs, ticks, batch, k);
    DrainKeepsFromDown(dbs[k - 1].checks, ticks[k - 1].drain, c);
    DrainIsLateOrSheds(dbs[k - 1].checks, ticks[k - 1].drain, batch, c);
  }

  lemma {:induction false} LateOrPaidFor(dbs: seq<Db>, ticks: seq<WholeTick>, batch: nat, m: nat, c: CheckId)
    requires Ticks(dbs, ticks, batch) && m < |dbs|
    requires c in dbs[0].checks && dbs[0].checks[c].state in {NEW, UP, LATE} && OverdueThroughout(dbs[0].checks[c], ticks)
    ensures c in dbs[m].checks && dbs[m].checks[c] in {dbs[0].checks[c], dbs[0].checks[c].(state := LATE)}
    ensures dbs[m].checks[c].state == LATE || Weight(dbs[m].checks) + m * (25 * batch) <= Weight(dbs[0].checks)
  {
    if m > 0 {
      LateOrPaidFor(dbs, ticks, batch, m - 1, c);
      assert OverdueAt(dbs[0].checks[c], ticks[m - 1].drain);
      NextTick(dbs, ticks, batch, m, c, dbs[0].checks[c]);
      OneMore(m - 1, 25 * batch);
    }
  }

  /**
   * A check that is overdue and within its grace is LATE after ticks enough to drain the backlog, and nothing else of
   * it has changed.
   */
  lemma OverdueIsLate(dbs: seq<Db>, ticks: seq<WholeTick>, batch: nat, m: nat, c: CheckId)
    requires Ticks(dbs, ticks, batch) && m < |dbs|
    requires c in dbs[0].checks && dbs[0].checks[c].state in {NEW, UP, LATE} && OverdueThroughout(dbs[0].checks[c], ticks)
    requires 2 * |set x | x in dbs[0].checks && dbs[0].checks[x].state in {NEW, UP, LATE}| < m * (25 * batch)
    ensures c in dbs[m].checks && dbs[m].checks[c] == dbs[0].checks[c].(state := LATE)
  {
    LateOrPaidFor(dbs, ticks, batch, m, c);
    var checks := dbs[0].checks;
    assert InStates(checks, {NEW, UP, LATE}) == set x | x in checks && checks[x].state in {NEW, UP, LATE};
    SubsetCard(InStates(checks, {NEW, UP}), InStates(checks, {NEW, UP, LATE}));
    assert Weight(checks) < m * (25 * batch);
    assert dbs[m].checks[c].state == LATE;
    if dbs[m].checks[c] == checks[c] {
      assert checks[c] == checks[c].(state := LATE);
    }
  }
}
