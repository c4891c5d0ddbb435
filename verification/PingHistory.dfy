/**
 * What the heartbeats of a check leave in its row, over every run: each column is that of the latest heartbeat that
 * writes it, whatever detection does to the state in between, and a paused check takes none.
 */
module PingHistory {
  import opened Prelude
  import opened AlertTables
  import opened AlertMachine

  predicate IsPing(step: Step, c: CheckId) {
    step.Ingest? && step.check == c
  }

  /** A success or a failure, which ends a run of the job. */
  predicate IsEnd(step: Step, c: CheckId) {
    IsPing(step, c) && step.ping != Start
  }

  /** Nobody edits the check from state `i` to state `j`. */
  ghost predicate Unedited(moves: seq<Move>, c: CheckId, i: nat, j: nat)
    requires i <= j <= |moves|
  {
    forall m :: i <= m < j ==> LeavesRow(moves, m, c)
  }

  ghost predicate LeavesRow(moves: seq<Move>, m: nat, c: CheckId)
    requires m < |moves|
  {
    moves[m].step.Edit? ==> moves[m].step.check != c
  }

  /** The move is the latest before state `j`, from state `i` on, that ends a run. */
  ghost predicate IsLatestEnd(moves: seq<Move>, c: CheckId, i: nat, j: nat, m: nat)
    requires j <= |moves|
  {
    i <= m < j && IsEnd(moves[m].step, c) && NoEnd(moves, c, m + 1, j)
  }

  ghost predicate NoEnd(moves: seq<Move>, c: CheckId, i: nat, j: nat)
    requires j <= |moves|
  {
    forall m :: i <= m < j ==> !IsEnd(moves[m].step, c)
  }

  /** The move is the latest heartbeat of any kind. */
  ghost predicate IsLatestPing(moves: seq<Move>, c: CheckId, i: nat, j: nat, m: nat)
    requires j <= |moves|
  {
    i <= m < j && IsPing(moves[m].step, c) && NoPing(moves, c, m + 1, j)
  }

  ghost predicate NoPing(moves: seq<Move>, c: CheckId, i: nat, j: nat)
    requires j <= |moves|
  {
    forall m :: i <= m < j ==> !IsPing(moves[m].step, c)
  }

  // ---- One move ----------------------------------------------------------------------------------------------------

  lemma AdvanceKeepsColumns(checks: map<CheckId, Check>, selected: set<CheckId>, at: int, c: CheckId)
    requires c in checks
    ensures var after := AdvanceStmt(checks, selected, at);
            && c in after && after[c] == checks[c].(state := after[c].state)
            && (after[c].state == PAUSED <==> checks[c].state == PAUSED)
            && (checks[c].state in {DOWN, PAUSED} ==> after[c] == checks[c])
  {
  }

  /** A move that is no heartbeat of the check moves its state at most, and not into or out of PAUSED or DOWN. */
  lemma OtherMoves(s: State, snap: Db, step: Step, c: CheckId)
    requires Enabled(s, snap, step) && c in s.db.checks
    requires !IsPing(step, c) && (step.Edit? ==> step.check != c)
    ensures var before, t := s.db.checks[c], Apply(s, step);
            && c in t.db.checks && t.db.checks[c] == before.(state := t.db.checks[c].state)
            && (t.db.checks[c].state == PAUSED <==> before.state == PAUSED)
            && (before.state in {DOWN, PAUSED} ==> t.db.checks[c] == before)
  {
    if step.Advance? {
      AdvanceKeepsColumns(s.db.checks, step.selected, step.at, c);
    }
  }

  /** What a heartbeat writes, column by column. */
  lemma PingWrites(s: State, snap: Db, step: Step, c: CheckId)
    requires Enabled(s, snap, step) && IsPing(step, c) && s.db.checks[c].state != PAUSED
    ensures var before, after := s.db.checks[c], Apply(s, step).db.checks[c];
            && after.project == before.project && after.graceSeconds == before.graceSeconds
            && (step.ping == Start ==>
                  after.lastStartedAt == Some(step.receivedAt) && after.lastPingAt == before.lastPingAt
                  && after.nextDueAt == before.nextDueAt && after.state == before.state)
            && (step.ping != Start ==>
                  after.lastStartedAt == None && after.lastPingAt == Some(step.receivedAt) && after.nextDueAt == step.due
                  && after.state == if step.ping == Fail then DOWN else UP)
  {
  }

  // ---- Runs --------------------------------------------------------------------------------------------------------

  /** A check that is not paused stays so until it is edited. */
  lemma {:induction false} StaysUnpaused(states: seq<State>, moves: seq<Move>, c: CheckId, i: nat, j: nat)
    requires IsRun(states, moves) && i <= j < |states| && Unedited(moves, c, i, j)
    requires c in states[i].db.checks && states[i].db.checks[c].state != PAUSED
    ensures c in states[j].db.checks && states[j].db.checks[c].state != PAUSED
    ensures states[j].db.checks[c].graceSeconds == states[i].db.checks[c].graceSeconds
    decreases j
  {
    if i < j {
      StaysUnpaused(states, moves, c, i, j - 1);
      assert IsMove(states, moves, j - 1) && LeavesRow(moves, j - 1, c);
      var s, snap, step := states[j - 1], states[moves[j - 1].snapshot].db, moves[j - 1].step;
      if IsPing(step, c) {
        PingWrites(s, snap, step, c);
      } else {
        OtherMoves(s, snap, step, c);
      }
    }
  }

  /** No heartbeat reaches a paused check: until it is edited its row stays as it is. */
  lemma {:induction false} PausedTakesNone(states: seq<State>, moves: seq<Move>, c: CheckId, i: nat, j: nat)
    requires IsRun(states, moves) && i <= j < |states| && Unedited(moves, c, i, j)
    requires c in states[i].db.checks && states[i].db.checks[c].state == PAUSED
    ensures c in states[j].db.checks && states[j].db.checks[c] == states[i].db.checks[c]
    decreases j
  {
    if i < j {
      PausedTakesNone(states, moves, c, i, j - 1);
      assert IsMove(states, moves, j - 1) && LeavesRow(moves, j - 1, c);
      if !IsPing(moves[j - 1].step, c) {
        OtherMoves(states[j - 1], states[moves[j - 1].snapshot].db, moves[j - 1].step, c);
      }
    }
  }

  /** Without an end of a run in between, when the last one came and the deadline are what they were. */
  lemma {:induction false} NoEndNoChange(states: seq<State>, moves: seq<Move>, c: CheckId, i: nat, j: nat)
    requires IsRun(states, moves) && i <= j < |states| && Unedited(moves, c, i, j) && NoEnd(moves, c, i, j)
    requires c in states[i].db.checks && states[i].db.checks[c].state != PAUSED
    ensures var a := states[i].db.checks[c];
            && c in states[j].db.checks && states[j].db.checks[c].state != PAUSED
            && states[j].db.checks[c].lastPingAt == a.lastPingAt && states[j].db.checks[c].nextDueAt == a.nextDueAt
            && (a.state == DOWN ==> states[j].db.checks[c].state == DOWN)
    decreases j
  {
    if i < j {
      NoEndNoChange(states, moves, c, i, j - 1);
      assert IsMove(states, moves, j - 1) && LeavesRow(moves, j - 1, c) && !IsEnd(moves[j - 1].step, c);
      var s, snap, step := states[j - 1], states[moves[j - 1].snapshot].db, moves[j - 1].step;
      if IsPing(step, c) {
        PingWrites(s, snap, step, c);
      } else {
        OtherMoves(s, snap, step, c);
      }
    }
  }

  lemma {:induction false} NoPingNoChange(states: seq<State>, moves: seq<Move>, c: CheckId, i: nat, j: nat)
    requires IsRun(states, moves) && i <= j < |states| && Unedited(moves, c, i, j) && NoPing(moves, c, i, j)
    requires c in states[i].db.checks && states[i].db.checks[c].state != PAUSED
    ensures c in states[j].db.checks && states[j].db.checks[c].lastStartedAt == states[i].db.checks[c].lastStartedAt
    decreases j
  {
    if i < j {
      NoPingNoChange(states, moves, c, i, j - 1);
      assert IsMove(states, moves, j - 1) && LeavesRow(moves, j - 1, c) && !IsPing(moves[j - 1].step, c);
      OtherMoves(states[j - 1], states[moves[j - 1].snapshot].db, moves[j - 1].step, c);
    }
  }

  /**
   * While a check is not paused or edited, when it was last heard of and when it is due are those of its latest success
   * or failure, and a failure keeps it DOWN until the next one.
   */
  lemma LatestEndIsInTheRow(states: seq<State>, moves: seq<Move>, c: CheckId, i: nat, j: nat, m: nat)
    requires IsRun(states, moves) && i <= j < |states| && Unedited(moves, c, i, j)
    requires c in states[i].db.checks && states[i].db.checks[c].state != PAUSED
    requires IsLatestEnd(moves, c, i, j, m)
    ensures c in states[j].db.checks
    ensures var row, ping := states[j].db.checks[c], moves[m].step;
            && row.lastPingAt == Some(ping.receivedAt) && row.nextDueAt == ping.due
            && row.state in {UP, LATE, DOWN} && (ping.ping == Fail ==> row.state == DOWN)
  {
    StaysUnpaused(states, moves, c, i, m);
    assert IsMove(states, moves, m);
    PingWrites(states[m], states[moves[m].snapshot].db, moves[m].step, c);
    NoEndNoChange(states, moves, c, m + 1, j);
    NeverNewAgain(states, moves, c, m + 1, j);
  }

  lemma {:induction false} NeverNewAgain(states: seq<State>, moves: seq<Move>, c: CheckId, i: nat, j: nat)
    requires IsRun(states, moves) && i <= j < |states| && Unedited(moves, c, i, j)
    requires c in states[i].db.checks && states[i].db.checks[c].state in {UP, LATE, DOWN}
    ensures c in states[j].db.checks && states[j].db.checks[c].state in {UP, LATE, DOWN}
    decreases j
  {
    if i < j {
      NeverNewAgain(states, moves, c, i, j - 1);
      assert IsMove(states, moves, j - 1) && LeavesRow(moves, j - 1, c);
    }
  }

  /**
   * And when its run started is that of the latest heartbeat: the `start` itself, or nothing once the run has ended.
   */
  lemma LatestStartIsInTheRow(states: seq<State>, moves: seq<Move>, c: CheckId, i: nat, j: nat, m: nat)
    requires IsRun(states, moves) && i <= j < |states| && Unedited(moves, c, i, j)
    requires c in states[i].db.checks && states[i].db.checks[c].state != PAUSED
    requires IsLatestPing(moves, c, i, j, m)
    ensures c in states[j].db.checks
    ensures states[j].db.checks[c].lastStartedAt
         == if moves[m].step.ping == Start then Some(moves[m].step.receivedAt) else None
  {
    StaysUnpaused(states, moves, c, i, m);
    assert IsMove(states, moves, m);
    PingWrites(states[m], states[moves[m].snapshot].db, moves[m].step, c);
    NoPingNoChange(states, moves, c, m + 1, j);
  }
}
