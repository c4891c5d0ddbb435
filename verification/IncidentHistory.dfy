/**
 * Where the times in the tables come from, over every run: an incident starts and ends, and an alert is marked sent,
 * at the instant of the statement that said so; and a claim hides an alert for five minutes.
 */
module IncidentHistory {
  import opened Prelude
  import opened AlertTables
  import opened AlertMachine

  /** The move opened an incident of the check at this instant, the check being DOWN. */
  ghost predicate OpensAt(states: seq<State>, moves: seq<Move>, k: nat, c: CheckId, at: int)
    requires |states| == |moves| + 1
  {
    && k < |moves| && moves[k].step.OpenIncidents? && c in moves[k].step.candidates
    && states[k].db.now == at && c in states[k].db.checks && states[k].db.checks[c].state == DOWN
  }

  /** The move resolved the incident at this instant, its statement seeing the check UP or PAUSED. */
  ghost predicate ResolvesAt(states: seq<State>, moves: seq<Move>, k: nat, x: IncidentId, c: CheckId, at: int)
    requires |states| == |moves| + 1
  {
    && k < |moves| && moves[k].step.ResolveIncidents? && x in moves[k].step.selected
    && states[k].db.now == at
    && moves[k].snapshot < |states| && c in states[moves[k].snapshot].db.checks
    && states[moves[k].snapshot].db.checks[c].state in {UP, PAUSED}
  }

  /** The times of the incident are those of two moves before state `i`, the one after the other. */
  ghost predicate TimesAreTrue(states: seq<State>, moves: seq<Move>, i: nat, x: IncidentId)
    requires i < |states| == |moves| + 1 && x < |states[i].db.incidents|
  {
    var incident := states[i].db.incidents[x];
    exists k :: 0 <= k < i && OpensAt(states, moves, k, incident.check, incident.startedAt)
      && (incident.resolvedAt.Some? ==>
            exists m :: k < m < i && ResolvesAt(states, moves, m, x, incident.check, incident.resolvedAt.value))
  }

  lemma {:induction false} OpenedOnes(incidents: seq<Incident>, candidates: seq<CheckId>, now: int, x: nat)
    requires |incidents| <= x < |OpenStmt(incidents, candidates, now)|
    ensures var row := OpenStmt(incidents, candidates, now)[x];
            row.check in candidates && row.startedAt == now && row.resolvedAt.None?
    decreases |candidates|
  {
    if candidates != [] {
      var c := candidates[0];
      var next := if HasOpen(incidents, c) then incidents else incidents + [Incident(c, now, None)];
      if x < |next| {
        assert OpenStmt(next, candidates[1..], now)[x] == next[x];
      } else {
        OpenedOnes(next, candidates[1..], now, x);
      }
    }
  }

  lemma StillTrue(states: seq<State>, moves: seq<Move>, i: nat, x: IncidentId)
    requires i + 1 < |states| == |moves| + 1
    requires x < |states[i].db.incidents| && TimesAreTrue(states, moves, i, x)
    requires x < |states[i + 1].db.incidents| && states[i + 1].db.incidents[x] == states[i].db.incidents[x]
    ensures TimesAreTrue(states, moves, i + 1, x)
  {
    var incident := states[i].db.incidents[x];
    var k :| 0 <= k < i && OpensAt(states, moves, k, incident.check, incident.startedAt)
      && (incident.resolvedAt.Some? ==>
            exists m :: k < m < i && ResolvesAt(states, moves, m, x, incident.check, incident.resolvedAt.value));
    if incident.resolvedAt.Some? {
      var m :| k < m < i && ResolvesAt(states, moves, m, x, incident.check, incident.resolvedAt.value);
      assert k < m < i + 1;
    }
  }

  lemma OpeningIsTrue(states: seq<State>, moves: seq<Move>, i: nat, x: IncidentId)
    requires i + 1 < |states| == |moves| + 1 && IsMove(states, moves, i)
    requires |states[i].db.incidents| <= x < |states[i + 1].db.incidents|
    ensures TimesAreTrue(states, moves, i + 1, x)
  {
    var candidates := moves[i].step.candidates;
    OpenedOnes(states[i].db.incidents, candidates, states[i].db.now, x);
    assert OpensAt(states, moves, i, states[i + 1].db.incidents[x].check, states[i].db.now);
  }

  lemma ResolvingIsTrue(states: seq<State>, moves: seq<Move>, i: nat, x: IncidentId)
    requires i + 1 < |states| == |moves| + 1 && IsMove(states, moves, i)
    requires x < |states[i].db.incidents| && TimesAreTrue(states, moves, i, x)
    requires moves[i].step.ResolveIncidents? && x in moves[i].step.selected
    ensures TimesAreTrue(states, moves, i + 1, x)
  {
    var incident := states[i].db.incidents[x];
    var k :| 0 <= k < i && OpensAt(states, moves, k, incident.check, incident.startedAt);
    var after := states[i + 1].db.incidents[x];
    assert after == incident.(resolvedAt := Some(states[i].db.now));
    assert ResolvesAt(states, moves, i, x, after.check, after.resolvedAt.value);
    assert OpensAt(states, moves, k, after.check, after.startedAt) && k < i < i + 1;
  }

  lemma OtherMovesKeepIncidents(s: State, snap: Db, step: Step)
    requires Enabled(s, snap, step) && !step.OpenIncidents? && !step.ResolveIncidents?
    ensures Apply(s, step).db.incidents == s.db.incidents
  {
  }

  lemma MoveKeepsTimes(states: seq<State>, moves: seq<Move>, i: nat, x: IncidentId)
    requires i + 1 < |states| == |moves| + 1 && IsMove(states, moves, i)
    requires x < |states[i + 1].db.incidents|
    requires x < |states[i].db.incidents| ==> TimesAreTrue(states, moves, i, x)
    ensures TimesAreTrue(states, moves, i + 1, x)
  {
    var step := moves[i].step;
    if x >= |states[i].db.incidents| {
      OtherMovesGrowNothing(states[i], states[moves[i].snapshot].db, step);
      OpeningIsTrue(states, moves, i, x);
    } else if step.ResolveIncidents? && x in step.selected {
      ResolvingIsTrue(states, moves, i, x);
    } else {
      StillTrue(states, moves, i, x);
    }
  }

  lemma OtherMovesGrowNothing(s: State, snap: Db, step: Step)
    requires Enabled(s, snap, step) && |Apply(s, step).db.incidents| > |s.db.incidents|
    ensures step.OpenIncidents?
  {
  }

  lemma NextKeepsTimes(states: seq<State>, moves: seq<Move>, i: nat, x: IncidentId)
    requires IsRun(states, moves) && i < |moves| && x < |states[i + 1].db.incidents|
    requires x < |states[i].db.incidents| ==> TimesAreTrue(states, moves, i, x)
    ensures TimesAreTrue(states, moves, i + 1, x)
  {
    assert IsMove(states, moves, i);
    MoveKeepsTimes(states, moves, i, x);
  }

  /**
   * Every incident of every run started when some statement opened it for a check that was DOWN, and if it has ended it
   * ended when some later statement found the check back or paused.
   */
  lemma {:induction false} IncidentTimesAreTrue(states: seq<State>, moves: seq<Move>, i: nat, x: IncidentId)
    requires IsRun(states, moves) && i < |states| && x < |states[i].db.incidents|
    ensures TimesAreTrue(states, moves, i, x)
  {
    if i > 0 {
      if x < |states[i - 1].db.incidents| {
        IncidentTimesAreTrue(states, moves, i - 1, x);
      }
      NextKeepsTimes(states, moves, i - 1, x);
    }
  }

  // ---- Alerts ------------------------------------------------------------------------------------------------------

  /** The move marked the alert sent at this instant, a worker having sent it. */
  ghost predicate MarksAt(states: seq<State>, moves: seq<Move>, k: nat, d: DeliveryId, at: int)
    requires |states| == |moves| + 1
  {
    && k < |moves| && moves[k].step.MarkSent? && states[k].db.now == at
    && exists n <- moves[k].step.done :: n < |states[k].claims| && states[k].claims[n].delivery == d && states[k].claims[n].sent
  }

  lemma SentAtChanges(s: State, snap: Db, step: Step, d: DeliveryId)
    requires Enabled(s, snap, step) && d < |Apply(s, step).db.deliveries|
    requires d < |s.db.deliveries| ==> Apply(s, step).db.deliveries[d].sentAt != s.db.deliveries[d].sentAt
    requires Apply(s, step).db.deliveries[d].sentAt.Some?
    ensures step.MarkSent? && d in Marked(s.claims, step.done) && Apply(s, step).db.deliveries[d].sentAt == Some(s.db.now)
  {
    if step.Enqueue? && d >= |s.db.deliveries| {
      QueuedOnes(s.db.deliveries, step.triples, s.db.now, d);
    }
  }

  lemma {:induction false} QueuedOnes(deliveries: seq<Delivery>, triples: seq<Triple>, now: int, d: DeliveryId)
    requires |deliveries| <= d < |EnqueueStmt(deliveries, triples, now)|
    ensures EnqueueStmt(deliveries, triples, now)[d].sentAt.None?
    decreases |triples|
  {
    if triples != [] {
      var next := if HasTriple(deliveries, triples[0]) then deliveries
                  else deliveries + [Delivery(triples[0], Pending, 0, now, None)];
      if d < |next| {
        assert EnqueueStmt(next, triples[1..], now)[d] == next[d];
      } else {
        QueuedOnes(next, triples[1..], now, d);
      }
    }
  }

  /** An alert that has a time of sending was marked sent at that time, after a worker had sent it. */
  lemma {:induction false} SentAtIsTrue(states: seq<State>, moves: seq<Move>, i: nat, d: DeliveryId)
    requires IsRun(states, moves) && i < |states| && d < |states[i].db.deliveries| && states[i].db.deliveries[d].sentAt.Some?
    ensures exists k :: 0 <= k < i && MarksAt(states, moves, k, d, states[i].db.deliveries[d].sentAt.value)
  {
    if i > 0 {
      assert IsMove(states, moves, i - 1);
      if d < |states[i - 1].db.deliveries| && states[i - 1].db.deliveries[d].sentAt == states[i].db.deliveries[d].sentAt {
        SentAtIsTrue(states, moves, i - 1, d);
      } else {
        SentAtChanges(states[i - 1], states[moves[i - 1].snapshot].db, moves[i - 1].step, d);
        assert MarksAt(states, moves, i - 1, d, states[i].db.deliveries[d].sentAt.value);
      }
    }
  }

  // ---- The lease ---------------------------------------------------------------------------------------------------

  /** The move puts the alert up at another time: it claims it, or records a failure of it. */
  ghost predicate Reschedules(states: seq<State>, moves: seq<Move>, k: nat, d: DeliveryId)
    requires k < |moves| < |states|
  {
    var step := moves[k].step;
    || (step.ClaimBatch? && d in step.ids)
    || (step.Retry? && step.claim < |states[k].claims| && states[k].claims[step.claim].delivery == d)
  }

  lemma TimeOfAttemptStays(s: State, snap: Db, step: Step, d: DeliveryId)
    requires Enabled(s, snap, step) && d < |s.db.deliveries|
    requires step.ClaimBatch? ==> d !in step.ids
    requires step.Retry? ==> s.claims[step.claim].delivery != d
    ensures d < |Apply(s, step).db.deliveries|
    ensures Apply(s, step).db.deliveries[d].nextAttemptAt == s.db.deliveries[d].nextAttemptAt
    ensures Apply(s, step).db.deliveries[d].attempts == s.db.deliveries[d].attempts
  {
    if step.ClaimBatch? {
      assert d !in Elements(step.ids);
    }
  }

  /**
   * After a claim the alert is up again, if it is still pending, from exactly 300,000 milliseconds later on, and with
   * one attempt more, unless its outcome says otherwise before.
   */
  lemma {:induction false} ClaimHidesForFiveMinutes(states: seq<State>, moves: seq<Move>, k: nat, j: nat, d: DeliveryId)
    requires IsRun(states, moves) && k < j < |states|
    requires moves[k].step.ClaimBatch? && d in moves[k].step.ids && d < |states[k].db.deliveries|
    requires forall m :: k < m < j ==> !Reschedules(states, moves, m, d)
    ensures d < |states[j].db.deliveries|
    ensures states[j].db.deliveries[d].attempts == states[k].db.deliveries[d].attempts + 1
    ensures states[j].db.deliveries[d].nextAttemptAt == states[k].db.now + 300_000
    ensures Claimable(states[j].db.deliveries[d], states[j].db.now) <==>
            states[j].db.deliveries[d].status == Pending && states[k].db.now + 300_000 <= states[j].db.now
    decreases j
  {
    assert IsMove(states, moves, j - 1);
    if j == k + 1 {
      assert d in Elements(moves[k].step.ids);
    } else {
      ClaimHidesForFiveMinutes(states, moves, k, j - 1, d);
      assert !Reschedules(states, moves, j - 1, d);
      TimeOfAttemptStays(states[j - 1], states[moves[j - 1].snapshot].db, moves[j - 1].step, d);
    }
  }
}
