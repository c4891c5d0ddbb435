/**
 * The first promise of the product, over whole runs of every instance: a job that keeps checking in is never
 * reported. It is stated with the pings alone, so it does not matter where the detection statements, the
 * `start` pings or the other checks' traffic fall between them.
 */
module NoFalseAlarm {
  import opened Prelude
  import opened AlertTables
  import opened AlertMachine
  import opened Schedules

  /** When the last success ping written before state `i` was received, or `since` if there was none. */
  ghost function LastSuccess(moves: seq<Move>, c: CheckId, since: int, i: nat): int
    requires i <= |moves|
  {
    if i == 0 then since
    else
      var step := moves[i - 1].step;
      if step.Ingest? && step.check == c && step.ping == Success then step.receivedAt
      else LastSuccess(moves, c, since, i - 1)
  }

  /** Nobody edits the check, and what it sends is `start` or success with the deadline of its interval. */
  ghost predicate Healthy(step: Step, c: CheckId, periodSeconds: int, cron: CronLibrary) {
    && (step.Edit? ==> step.check != c)
    && (step.Ingest? && step.check == c && step.ping != Start ==>
          step.ping == Success && step.due == NextDueAt(Every(periodSeconds), step.receivedAt, cron))
  }

  /** A run that starts just after a success ping of `c`, or its creation, at `since`. */
  ghost predicate HealthyRun(states: seq<State>, moves: seq<Move>, c: CheckId, since: int, periodSeconds: int,
          cron: CronLibrary)
  {
    && IsRun(states, moves)
    && periodSeconds > 0
    && c in states[0].db.checks
    && states[0].db.checks[c].state in {NEW, UP}
    && states[0].db.checks[c].nextDueAt == NextDueAt(Every(periodSeconds), since, cron)
    && forall m :: 0 <= m < |moves| ==> HealthyMove(moves, m, c, periodSeconds, cron)
  }

  ghost predicate HealthyMove(moves: seq<Move>, m: nat, c: CheckId, periodSeconds: int, cron: CronLibrary)
    requires m < |moves|
  {
    Healthy(moves[m].step, c, periodSeconds, cron)
  }

  /**
   * At every instant of the run the last success is less than `allowance` old: each came that soon after the one
   * before.
   */
  ghost predicate PingsWithin(states: seq<State>, moves: seq<Move>, c: CheckId, since: int, allowance: int)
    requires |states| == |moves| + 1
  {
    forall i :: 0 <= i < |states| ==> FreshAt(states, moves, c, since, allowance, i)
  }

  ghost predicate FreshAt(states: seq<State>, moves: seq<Move>, c: CheckId, since: int, allowance: int, i: nat)
    requires i < |states| == |moves| + 1
  {
    states[i].db.now < LastSuccess(moves, c, since, i) + allowance
  }

  ghost predicate Watched(s: State, c: CheckId, graceSeconds: nat, due: int) {
    && c in s.db.checks
    && s.db.checks[c].graceSeconds == graceSeconds
    && s.db.checks[c].nextDueAt == Some(due)
    && s.db.checks[c].state in {NEW, UP, LATE}
    && NoIncidentOf(s.db.incidents, c)
  }

  ghost predicate NoIncidentOf(incidents: seq<Incident>, c: CheckId) {
    forall i :: 0 <= i < |incidents| ==> incidents[i].check != c
  }

  lemma {:induction false} OpenOnlyForCandidates(incidents: seq<Incident>, candidates: seq<CheckId>, now: int,
          c: CheckId)
    requires c !in candidates
    requires NoIncidentOf(incidents, c)
    ensures NoIncidentOf(OpenStmt(incidents, candidates, now), c)
    decreases |candidates|
  {
    if candidates != [] {
      var x := candidates[0];
      OpenOnlyForCandidates(if HasOpen(incidents, x) then incidents else incidents + [Incident(x, now, None)],
                            candidates[1..], now, c);
    }
  }

  /** Period plus grace, and with no grace at all still the whole period, its last instant included. */
  function Allowance(periodSeconds: int, graceSeconds: nat): int {
    Max((periodSeconds + graceSeconds) * 1000, periodSeconds * 1000 + 1)
  }

  lemma StepStaysQuiet(s: State, snap: Db, step: Step, c: CheckId, graceSeconds: nat, since: int,
          periodSeconds: int, cron: CronLibrary)
    requires periodSeconds > 0
    requires Watched(s, c, graceSeconds, since + periodSeconds * 1000)
    requires Enabled(s, snap, step) && Healthy(step, c, periodSeconds, cron)
    requires s.db.now < since + Allowance(periodSeconds, graceSeconds)
    ensures var last := if step.Ingest? && step.check == c && step.ping == Success then step.receivedAt else since;
            Watched(Apply(s, step), c, graceSeconds, last + periodSeconds * 1000)
  {
    match step
    case OpenIncidents(candidates) =>
      OpenOnlyForCandidates(s.db.incidents, candidates, s.db.now, c);
    case Advance(selected, at) => AdvanceStaysQuiet(s.db.checks, selected, at, c);
    case _ =>
  }

  /** An advance before the grace is over takes a check to LATE at most. */
  lemma AdvanceStaysQuiet(checks: map<CheckId, Check>, selected: set<CheckId>, at: int, c: CheckId)
    requires c in checks && checks[c].state in {NEW, UP, LATE} && checks[c].nextDueAt.Some?
    requires at < Max(Deadline(checks[c]), checks[c].nextDueAt.value + 1)
    ensures var after := AdvanceStmt(checks, selected, at);
            c in after && after[c] == checks[c].(state := after[c].state) && after[c].state in {NEW, UP, LATE}
  {
    assert Due(checks[c], at) ==> at < Deadline(checks[c]);
  }

  /** No deadline has passed, so no detection statement has anything to say about the check. */
  lemma StepIsNotLate(s: State, snap: Db, step: Step, c: CheckId, periodSeconds: int, cron: CronLibrary)
    requires c in s.db.checks && s.db.checks[c].state in {NEW, UP}
    requires s.db.checks[c].nextDueAt.Some? && s.db.now <= s.db.checks[c].nextDueAt.value
    requires Enabled(s, snap, step) && Healthy(step, c, periodSeconds, cron)
    ensures c in Apply(s, step).db.checks && Apply(s, step).db.checks[c].state in {NEW, UP}
  {
    if step.Advance? {
      assert c !in DueSet(s.db.checks, step.at);
    }
  }

  /** Before the `i`th move the check is watched, with the deadline of its last success. */
  ghost predicate QuietAt(states: seq<State>, moves: seq<Move>, c: CheckId, graceSeconds: nat, since: int,
          periodSeconds: int, i: nat)
    requires i < |states| == |moves| + 1
  {
    Watched(states[i], c, graceSeconds, LastSuccess(moves, c, since, i) + periodSeconds * 1000)
  }

  lemma MoveStaysQuiet(states: seq<State>, moves: seq<Move>, c: CheckId, graceSeconds: nat, since: int,
          periodSeconds: int, cron: CronLibrary, i: nat)
    requires |states| == |moves| + 1 && i < |moves| && IsMove(states, moves, i) && periodSeconds > 0
    requires HealthyMove(moves, i, c, periodSeconds, cron)
    requires FreshAt(states, moves, c, since, Allowance(periodSeconds, graceSeconds), i)
    requires QuietAt(states, moves, c, graceSeconds, since, periodSeconds, i)
    ensures QuietAt(states, moves, c, graceSeconds, since, periodSeconds, i + 1)
  {
    StepStaysQuiet(states[i], states[moves[i].snapshot].db, moves[i].step, c, graceSeconds,
                   LastSuccess(moves, c, since, i), periodSeconds, cron);
  }

  lemma NextIsQuiet(states: seq<State>, moves: seq<Move>, c: CheckId, since: int, periodSeconds: int,
          cron: CronLibrary, allowance: int, graceSeconds: nat, i: nat)
    requires HealthyRun(states, moves, c, since, periodSeconds, cron) && i < |moves|
    requires PingsWithin(states, moves, c, since, allowance) && allowance <= Allowance(periodSeconds, graceSeconds)
    requires QuietAt(states, moves, c, graceSeconds, since, periodSeconds, i)
    ensures QuietAt(states, moves, c, graceSeconds, since, periodSeconds, i + 1)
  {
    assert IsMove(states, moves, i);
    assert HealthyMove(moves, i, c, periodSeconds, cron);
    assert FreshAt(states, moves, c, since, allowance, i);
    MoveStaysQuiet(states, moves, c, graceSeconds, since, periodSeconds, cron, i);
  }

  lemma {:induction false} RunStaysQuiet(states: seq<State>, moves: seq<Move>, c: CheckId, since: int,
          periodSeconds: int, cron: CronLibrary, allowance: int, graceSeconds: nat, i: nat)
    requires HealthyRun(states, moves, c, since, periodSeconds, cron) && i < |states|
    requires PingsWithin(states, moves, c, since, allowance) && allowance <= Allowance(periodSeconds, graceSeconds)
    requires QuietAt(states, moves, c, graceSeconds, since, periodSeconds, 0)
    ensures QuietAt(states, moves, c, graceSeconds, since, periodSeconds, i)
  {
    if i > 0 {
      RunStaysQuiet(states, moves, c, since, periodSeconds, cron, allowance, graceSeconds, i - 1);
      NextIsQuiet(states, moves, c, since, periodSeconds, cron, allowance, graceSeconds, i - 1);
    }
  }

  lemma StartsQuiet(states: seq<State>, moves: seq<Move>, c: CheckId, since: int, periodSeconds: int, cron: CronLibrary)
    requires HealthyRun(states, moves, c, since, periodSeconds, cron)
    ensures QuietAt(states, moves, c, states[0].db.checks[c].graceSeconds, since, periodSeconds, 0)
  {
  }

  /** Success pings less than period + grace apart: the check is never DOWN and no incident is ever opened for it. */
  lemma NeverDown(states: seq<State>, moves: seq<Move>, c: CheckId, since: int, periodSeconds: int,
          cron: CronLibrary, i: nat)
    requires HealthyRun(states, moves, c, since, periodSeconds, cron) && i < |states|
    requires PingsWithin(states, moves, c, since, (periodSeconds + states[0].db.checks[c].graceSeconds) * 1000)
    ensures c in states[i].db.checks && states[i].db.checks[c].state in {NEW, UP, LATE}
    ensures forall k :: 0 <= k < |states[i].db.incidents| ==> states[i].db.incidents[k].check != c
  {
    var graceSeconds := states[0].db.checks[c].graceSeconds;
    StartsQuiet(states, moves, c, since, periodSeconds, cron);
    RunStaysQuiet(states, moves, c, since, periodSeconds, cron, (periodSeconds + graceSeconds) * 1000, graceSeconds, i);
  }

  /** Success pings at most a period apart: the check is never even LATE. */
  lemma {:induction false} NeverLate(states: seq<State>, moves: seq<Move>, c: CheckId, since: int,
          periodSeconds: int, cron: CronLibrary, i: nat)
    requires HealthyRun(states, moves, c, since, periodSeconds, cron) && i < |states|
    requires PingsWithin(states, moves, c, since, periodSeconds * 1000 + 1)
    ensures c in states[i].db.checks && states[i].db.checks[c].state in {NEW, UP}
  {
    if i > 0 {
      var graceSeconds := states[0].db.checks[c].graceSeconds;
      NeverLate(states, moves, c, since, periodSeconds, cron, i - 1);
      StartsQuiet(states, moves, c, since, periodSeconds, cron);
      RunStaysQuiet(states, moves, c, since, periodSeconds, cron, periodSeconds * 1000 + 1, graceSeconds, i - 1);
      NextIsNotLate(states, moves, c, since, periodSeconds, cron, graceSeconds, i - 1);
    }
  }

  lemma NextIsNotLate(states: seq<State>, moves: seq<Move>, c: CheckId, since: int, periodSeconds: int,
          cron: CronLibrary, graceSeconds: nat, i: nat)
    requires HealthyRun(states, moves, c, since, periodSeconds, cron) && i < |moves|
    requires PingsWithin(states, moves, c, since, periodSeconds * 1000 + 1)
    requires QuietAt(states, moves, c, graceSeconds, since, periodSeconds, i)
    requires c in states[i].db.checks && states[i].db.checks[c].state in {NEW, UP}
    ensures c in states[i + 1].db.checks && states[i + 1].db.checks[c].state in {NEW, UP}
  {
    assert IsMove(states, moves, i) && HealthyMove(moves, i, c, periodSeconds, cron);
    assert FreshAt(states, moves, c, since, periodSeconds * 1000 + 1, i);
    OneMoveNotLate(states, moves, c, LastSuccess(moves, c, since, i), periodSeconds, cron, i);
  }

  lemma OneMoveNotLate(states: seq<State>, moves: seq<Move>, c: CheckId, last: int, periodSeconds: int,
          cron: CronLibrary, i: nat)
    requires |states| == |moves| + 1 && i < |moves| && IsMove(states, moves, i)
    requires HealthyMove(moves, i, c, periodSeconds, cron)
    requires c in states[i].db.checks && states[i].db.checks[c].state in {NEW, UP}
    requires states[i].db.checks[c].nextDueAt == Some(last + periodSeconds * 1000)
    requires states[i].db.now < last + periodSeconds * 1000 + 1
    ensures c in states[i + 1].db.checks && states[i + 1].db.checks[c].state in {NEW, UP}
  {
    StepIsNotLate(states[i], states[moves[i].snapshot].db, moves[i].step, c, periodSeconds, cron);
  }

  /* ------------------------------------------------------------- without a deadline --- */

  /** An edit of the check, or a heartbeat that says more than that the job started. */
  predicate Writes(step: Step, c: CheckId) {
    (step.Edit? && step.check == c) || (step.Ingest? && step.check == c && step.ping != Start)
  }

  ghost predicate QuietMove(moves: seq<Move>, m: nat, c: CheckId)
    requires m < |moves|
  {
    !Writes(moves[m].step, c)
  }

  predicate Unwatched(s: State, c: CheckId, state: CheckState) {
    c in s.db.checks && s.db.checks[c].nextDueAt.None? && s.db.checks[c].state == state
  }

  lemma StepLeavesUnwatched(s: State, snap: Db, step: Step, c: CheckId, state: CheckState)
    requires Enabled(s, snap, step) && !Writes(step, c) && Unwatched(s, c, state)
    ensures Unwatched(Apply(s, step), c, state)
  {
    if step.Advance? {
      assert c !in DueSet(s.db.checks, step.at);
    }
  }

  /** Whatever else a run does, a check without a deadline keeps its state until something writes it one. */
  lemma {:induction false} UnwatchedUntilWritten(states: seq<State>, moves: seq<Move>, c: CheckId, state: CheckState,
          i: nat, j: nat)
    requires IsRun(states, moves) && i <= j < |states| && Unwatched(states[i], c, state)
    requires forall m :: i <= m < j ==> QuietMove(moves, m, c)
    ensures Unwatched(states[j], c, state)
  {
    if i < j {
      UnwatchedUntilWritten(states, moves, c, state, i, j - 1);
      assert IsMove(states, moves, j - 1) && QuietMove(moves, j - 1, c);
      StepLeavesUnwatched(states[j - 1], states[moves[j - 1].snapshot].db, moves[j - 1].step, c, state);
    }
  }
}
