/**
 * What every reachable state keeps, whatever the instances interleave and however old the snapshots their
 * statements act on: one open incident per check, one delivery per (incident, channel, kind), incidents that
 * stay resolved, and recoveries announced only for outages somebody was told about.
 */
module AlertSafety {
  import opened Prelude
  import opened AlertTables
  import opened AlertMachine

  ghost predicate OneOpenPerCheck(incidents: seq<Incident>) {
    forall i, j :: 0 <= i < j < |incidents| && incidents[i].check == incidents[j].check
                   ==> incidents[i].resolvedAt.Some? || incidents[j].resolvedAt.Some?
  }

  ghost predicate OnePerTriple(deliveries: seq<Delivery>) {
    forall i, j :: 0 <= i < j < |deliveries| ==> deliveries[i].triple != deliveries[j].triple
  }

  /** A `down` delivery of the incident that was marked sent at some point. */
  ghost predicate Announced(s: State, incident: IncidentId, d: DeliveryId) {
    && d < |s.db.deliveries| && d in s.everSent
    && s.db.deliveries[d].triple.incident == incident && s.db.deliveries[d].triple.kind == Down
  }

  ghost predicate RecoveryJustified(s: State, u: DeliveryId)
    requires u < |s.db.deliveries|
  {
    var i := s.db.deliveries[u].triple.incident;
    s.db.deliveries[u].triple.kind == Up ==>
      && i < |s.db.incidents| && s.db.incidents[i].resolvedAt.Some?
      && exists d: nat :: Announced(s, i, d)
  }

  ghost predicate ValidRef(s: State, ref: Ref) {
    ref.incident < |s.db.incidents| && s.db.incidents[ref.incident].check == ref.check
  }

  ghost predicate RecoveriesJustified(s: State) {
    forall u: nat :: u < |s.db.deliveries| ==> RecoveryJustified(s, u)
  }

  ghost predicate RefsValid(s: State) {
    && (forall ref <- s.justOpened :: ValidRef(s, ref))
    && (forall ref <- s.justResolved :: ValidRef(s, ref) && s.db.incidents[ref.incident].resolvedAt.Some?)
  }

  ghost predicate SentRemembered(deliveries: seq<Delivery>, everSent: set<DeliveryId>) {
    && (forall d <- everSent :: d < |deliveries|)
    && (forall d: nat :: d < |deliveries| && deliveries[d].status == Sent ==> d in everSent)
  }

  ghost predicate ClaimsValid(s: State) {
    forall k: nat :: k < |s.claims| ==> s.claims[k].delivery < |s.db.deliveries|
  }

  ghost predicate AlertInvariant(s: State) {
    && OneOpenPerCheck(s.db.incidents)
    && OnePerTriple(s.db.deliveries)
    && RecoveriesJustified(s)
    && RefsValid(s)
    && SentRemembered(s.db.deliveries, s.everSent)
    && ClaimsValid(s)
  }

  /** What a later state still shows of an earlier one. */
  ghost predicate Precedes(a: State, b: State) {
    && a.db.now <= b.db.now
    && |a.db.incidents| <= |b.db.incidents|
    && (forall i: nat :: i < |a.db.incidents| ==>
          && b.db.incidents[i].check == a.db.incidents[i].check
          && b.db.incidents[i].startedAt == a.db.incidents[i].startedAt
          && (a.db.incidents[i].resolvedAt.Some? ==> b.db.incidents[i] == a.db.incidents[i]))
    && |a.db.deliveries| <= |b.db.deliveries|
    && (forall d: nat :: d < |a.db.deliveries| ==> b.db.deliveries[d].triple == a.db.deliveries[d].triple)
    && a.everSent <= b.everSent
  }

  /* ------------------------------------------------------------------ statements --- */

  lemma {:induction false} OpenKeepsOne(incidents: seq<Incident>, candidates: seq<CheckId>, now: int)
    requires OneOpenPerCheck(incidents)
    ensures OneOpenPerCheck(OpenStmt(incidents, candidates, now))
    decreases |candidates|
  {
    if candidates != [] {
      var c := candidates[0];
      var next := if HasOpen(incidents, c) then incidents else incidents + [Incident(c, now, None)];
      OpenKeepsOne(next, candidates[1..], now);
    }
  }

  lemma {:induction false} EnqueueKeepsOne(deliveries: seq<Delivery>, triples: seq<Triple>, now: int)
    requires OnePerTriple(deliveries)
    ensures OnePerTriple(EnqueueStmt(deliveries, triples, now))
    decreases |triples|
  {
    if triples != [] {
      var t := triples[0];
      var next := if HasTriple(deliveries, t) then deliveries else deliveries + [Delivery(t, Pending, 0, now, None)];
      EnqueueKeepsOne(next, triples[1..], now);
    }
  }

  ghost predicate AddedExactly(before: seq<Delivery>, triples: seq<Triple>, now: int, after: seq<Delivery>) {
    && |before| <= |after|
    && (forall d: nat :: d < |before| ==> after[d] == before[d])
    && (forall t <- triples :: HasTriple(after, t))
    && (forall d: nat :: |before| <= d < |after| ==> NewRow(before, triples, now, after[d]))
  }

  ghost predicate NewRow(before: seq<Delivery>, triples: seq<Triple>, now: int, row: Delivery) {
    row.triple in triples && !HasTriple(before, row.triple) && row == Delivery(row.triple, Pending, 0, now, None)
  }

  /** Everything asked for is there afterwards, and nothing that was not asked for is added. */
  lemma {:induction false} EnqueueAddsExactly(deliveries: seq<Delivery>, triples: seq<Triple>, now: int)
    ensures AddedExactly(deliveries, triples, now, EnqueueStmt(deliveries, triples, now))
    decreases |triples|
  {
    if triples != [] {
      var t := triples[0];
      var next := if HasTriple(deliveries, t) then deliveries else deliveries + [Delivery(t, Pending, 0, now, None)];
      var after := EnqueueStmt(next, triples[1..], now);
      assert after == EnqueueStmt(deliveries, triples, now);
      EnqueueAddsExactly(next, triples[1..], now);
      assert HasTriple(next, t) by {
        if !HasTriple(deliveries, t) {
          assert next[|deliveries|].triple == t;
        }
      }
      LongerHasTriple(next, after, t);
      assert forall x :: x in triples ==> x == t || x in triples[1..];
      forall d: nat | |deliveries| <= d < |after|
        ensures NewRow(deliveries, triples, now, after[d])
      {
        if d < |next| {
          assert after[d] == next[d];
        } else if HasTriple(deliveries, after[d].triple) {
          LongerHasTriple(deliveries, next, after[d].triple);
        }
      }
    }
  }

  /** What is asked for and not there yet. */
  function NotThere(deliveries: seq<Delivery>, triples: seq<Triple>): set<Triple> {
    set t | t in triples && !HasTriple(deliveries, t)
  }

  lemma NotThereAfterOne(deliveries: seq<Delivery>, t: Triple, rest: seq<Triple>, now: int)
    ensures var next := if HasTriple(deliveries, t) then deliveries else deliveries + [Delivery(t, Pending, 0, now, None)];
            && NotThere(next, rest) == NotThere(deliveries, [t] + rest) - {t}
            && |next| + |NotThere(next, rest)| == |deliveries| + |NotThere(deliveries, [t] + rest)|
  {
    var next := if HasTriple(deliveries, t) then deliveries else deliveries + [Delivery(t, Pending, 0, now, None)];
    forall x
      ensures HasTriple(next, x) <==> HasTriple(deliveries, x) || x == t
    {
      if next != deliveries {
        assert next[|deliveries|].triple == t;
        if HasTriple(deliveries, x) {
          LongerHasTriple(deliveries, next, x);
        }
      }
    }
    assert NotThere(next, rest) == NotThere(deliveries, [t] + rest) - {t};
  }

  /** It inserts one row for each of them. */
  lemma {:induction false} EnqueueCounts(deliveries: seq<Delivery>, triples: seq<Triple>, now: int)
    ensures |EnqueueStmt(deliveries, triples, now)| == |deliveries| + |NotThere(deliveries, triples)|
    decreases |triples|
  {
    if triples == [] {
      assert NotThere(deliveries, triples) == {};
    } else {
      var t := triples[0];
      var next := if HasTriple(deliveries, t) then deliveries else deliveries + [Delivery(t, Pending, 0, now, None)];
      EnqueueCounts(next, triples[1..], now);
      assert triples == [t] + triples[1..];
      NotThereAfterOne(deliveries, t, triples[1..], now);
    }
  }

  lemma LongerHasTriple(a: seq<Delivery>, b: seq<Delivery>, t: Triple)
    requires HasTriple(a, t) && |a| <= |b| && forall d :: 0 <= d < |a| ==> b[d].triple == a[d].triple
    ensures HasTriple(b, t)
  {
    var d :| 0 <= d < |a| && a[d].triple == t;
    assert b[d].triple == t;
  }

  /* -------------------------------------------------------------------- one step --- */

  lemma StepMovesForward(s: State, snap: Db, step: Step)
    requires Enabled(s, snap, step)
    ensures Precedes(s, Apply(s, step))
  {
    var t := Apply(s, step);
    match step
    case OpenIncidents(candidates) =>
    case Enqueue(_, _, triples) =>
    case _ =>
  }

  lemma PrecedesIsTransitive(a: State, b: State, c: State)
    requires Precedes(a, b) && Precedes(b, c)
    ensures Precedes(a, c)
  {
    forall i: nat | i < |a.db.incidents|
      ensures c.db.incidents[i].check == a.db.incidents[i].check
      ensures c.db.incidents[i].startedAt == a.db.incidents[i].startedAt
      ensures a.db.incidents[i].resolvedAt.Some? ==> c.db.incidents[i] == a.db.incidents[i]
    {
      assert b.db.incidents[i].check == a.db.incidents[i].check;
      assert c.db.incidents[i].check == b.db.incidents[i].check;
    }
    forall d: nat | d < |a.db.deliveries|
      ensures c.db.deliveries[d].triple == a.db.deliveries[d].triple
    {
      assert b.db.deliveries[d].triple == a.db.deliveries[d].triple;
    }
  }

  /** What a justified recovery rests on is never taken back. */
  lemma JustificationLasts(a: State, b: State, u: DeliveryId)
    requires u < |a.db.deliveries| && RecoveryJustified(a, u) && Precedes(a, b)
    ensures RecoveryJustified(b, u)
  {
    assert b.db.deliveries[u].triple == a.db.deliveries[u].triple;
    if a.db.deliveries[u].triple.kind == Up {
      var i := a.db.deliveries[u].triple.incident;
      var d: nat :| Announced(a, i, d);
      assert b.db.deliveries[d].triple == a.db.deliveries[d].triple;
      assert Announced(b, i, d);
      assert b.db.incidents[i] == a.db.incidents[i];
    }
  }

  lemma JustificationsLast(a: State, b: State)
    requires RecoveriesJustified(a) && Precedes(a, b) && |a.db.deliveries| == |b.db.deliveries|
    ensures RecoveriesJustified(b)
  {
    forall u: nat | u < |b.db.deliveries|
      ensures RecoveryJustified(b, u)
    {
      JustificationLasts(a, b, u);
    }
  }

  lemma RefsStayValid(a: State, b: State, ref: Ref)
    requires ValidRef(a, ref) && Precedes(a, b)
    ensures ValidRef(b, ref)
    ensures a.db.incidents[ref.incident].resolvedAt.Some? ==> b.db.incidents[ref.incident].resolvedAt.Some?
  {
  }

  lemma EnqueueJustifies(s: State, snap: State, step: Step)
    requires AlertInvariant(s) && SentRemembered(snap.db.deliveries, snap.everSent) && Precedes(snap, s)
    requires step.Enqueue? && Enabled(s, snap.db, step)
    ensures RecoveriesJustified(Apply(s, step))
  {
    var t := Apply(s, step);
    StepMovesForward(s, snap.db, step);
    EnqueueAddsExactly(s.db.deliveries, step.triples, s.db.now);
    forall u: nat | u < |t.db.deliveries|
      ensures RecoveryJustified(t, u)
    {
      if u < |s.db.deliveries| {
        JustificationLasts(s, t, u);
      } else if t.db.deliveries[u].triple.kind == Up {
        var triple := t.db.deliveries[u].triple;
        var after := EnqueueStmt(s.db.deliveries, step.triples, s.db.now);
        assert after[u].triple == triple;
        assert triple in step.triples && InFanout(snap.db, step.refs, step.alert, triple);
        var ref :| ref in step.refs && ref.incident == triple.incident;
        assert ref in s.justResolved;
        var d: nat :| d < |snap.db.deliveries| && snap.db.deliveries[d].triple.incident == triple.incident
                      && snap.db.deliveries[d].triple.kind == Down && snap.db.deliveries[d].status == Sent;
        assert s.db.deliveries[d].triple == snap.db.deliveries[d].triple;
        assert t.db.deliveries[d].triple == s.db.deliveries[d].triple;
        assert Announced(t, triple.incident, d);
      }
    }
  }

  lemma EnqueueKeepsAlerts(s: State, snap: State, step: Step)
    requires AlertInvariant(s) && SentRemembered(snap.db.deliveries, snap.everSent) && Precedes(snap, s)
    requires step.Enqueue? && Enabled(s, snap.db, step)
    ensures AlertInvariant(Apply(s, step))
  {
    EnqueueJustifies(s, snap, step);
    EnqueueKeepsOne(s.db.deliveries, step.triples, s.db.now);
    EnqueueAddsExactly(s.db.deliveries, step.triples, s.db.now);
    var t := Apply(s, step);
    var after := EnqueueStmt(s.db.deliveries, step.triples, s.db.now);
    forall d: nat | d < |after| && after[d].status == Sent
      ensures d in t.everSent
    {
      assert d < |s.db.deliveries| && t.db.deliveries[d] == s.db.deliveries[d];
    }
  }

  /** The statements on incidents. */
  lemma DetectionKeepsAlerts(s: State, snap: Db, step: Step)
    requires AlertInvariant(s) && Enabled(s, snap, step)
    requires step.OpenIncidents? || step.ResolveIncidents?
    ensures AlertInvariant(Apply(s, step))
  {
    var t := Apply(s, step);
    StepMovesForward(s, snap, step);
    JustificationsLast(s, t);
    if step.OpenIncidents? {
      OpenKeepsOne(s.db.incidents, step.candidates, s.db.now);
    }
    forall ref | ref in s.justOpened || ref in s.justResolved
      ensures ValidRef(t, ref)
      ensures ref in s.justResolved ==> t.db.incidents[ref.incident].resolvedAt.Some?
    {
      RefsStayValid(s, t, ref);
    }
  }

  /** No statement of a worker changes what a row is about. */
  lemma TriplesStay(before: seq<Delivery>, after: seq<Delivery>)
    requires OnePerTriple(before) && |after| == |before|
    requires forall d :: 0 <= d < |before| ==> after[d].triple == before[d].triple
    ensures OnePerTriple(after)
  {
    assert forall i, j :: 0 <= i < j < |after| ==> before[i].triple != before[j].triple;
  }

  /** What all statements of a worker have in common. */
  ghost predicate OnlyOutcomes(s: State, t: State) {
    && t.db.incidents == s.db.incidents && t.justOpened == s.justOpened && t.justResolved == s.justResolved
    && s.everSent <= t.everSent
    && |t.db.deliveries| == |s.db.deliveries|
    && forall d :: 0 <= d < |s.db.deliveries| ==> t.db.deliveries[d].triple == s.db.deliveries[d].triple
  }

  lemma OutcomesKeepAlerts(s: State, t: State)
    requires AlertInvariant(s) && OnlyOutcomes(s, t) && Precedes(s, t)
    requires SentRemembered(t.db.deliveries, t.everSent) && ClaimsValid(t)
    ensures AlertInvariant(t)
  {
    JustificationsLast(s, t);
    TriplesStay(s.db.deliveries, t.db.deliveries);
  }

  lemma ClaimChangesNoAlert(before: seq<Delivery>, ids: set<DeliveryId>, now: int, d: DeliveryId)
    requires d < |before|
    ensures var after := ClaimStmt(before, ids, now);
            |after| == |before| && after[d].triple == before[d].triple && after[d].status == before[d].status
  {
  }

  lemma NewClaimsValid(s: State, ids: seq<DeliveryId>, k: nat)
    requires ClaimsValid(s) && k < |s.claims| + |ids|
    requires forall d <- ids :: d < |s.db.deliveries|
    ensures (s.claims + NewClaims(ids, s.db.now))[k].delivery < |s.db.deliveries|
  {
    if |s.claims| <= k {
      assert ids[k - |s.claims|] in ids;
    }
  }

  lemma ClaimKeepsAlerts(s: State, snap: Db, ids: seq<DeliveryId>)
    requires AlertInvariant(s) && Enabled(s, snap, ClaimBatch(ids))
    ensures AlertInvariant(Apply(s, ClaimBatch(ids)))
  {
    var t := Apply(s, ClaimBatch(ids));
    StepMovesForward(s, snap, ClaimBatch(ids));
    forall k: nat | k < |t.claims|
      ensures t.claims[k].delivery < |t.db.deliveries|
    {
      NewClaimsValid(s, ids, k);
    }
    assert SentRemembered(t.db.deliveries, t.everSent) by {
      forall d: nat | d < |t.db.deliveries| && t.db.deliveries[d].status == Sent
        ensures d in t.everSent
      {
        ClaimChangesNoAlert(s.db.deliveries, Elements(ids), s.db.now, d);
      }
    }
    assert OnlyOutcomes(s, t) by {
      forall d | 0 <= d < |s.db.deliveries|
        ensures t.db.deliveries[d].triple == s.db.deliveries[d].triple
      {
        ClaimChangesNoAlert(s.db.deliveries, Elements(ids), s.db.now, d);
      }
    }
    OutcomesKeepAlerts(s, t);
  }

  lemma SendKeepsAlerts(s: State, snap: Db, k: nat)
    requires AlertInvariant(s) && Enabled(s, snap, Send(k))
    ensures AlertInvariant(Apply(s, Send(k)))
  {
    StepMovesForward(s, snap, Send(k));
    OutcomesKeepAlerts(s, Apply(s, Send(k)));
  }

  lemma RetryKeepsAlerts(s: State, snap: Db, k: nat)
    requires AlertInvariant(s) && Enabled(s, snap, Retry(k))
    ensures AlertInvariant(Apply(s, Retry(k)))
  {
    StepMovesForward(s, snap, Retry(k));
    OutcomesKeepAlerts(s, Apply(s, Retry(k)));
  }

  lemma RefuseKeepsAlerts(s: State, snap: Db, k: nat)
    requires AlertInvariant(s) && Enabled(s, snap, Refuse(k))
    ensures AlertInvariant(Apply(s, Refuse(k)))
  {
    StepMovesForward(s, snap, Refuse(k));
    OutcomesKeepAlerts(s, Apply(s, Refuse(k)));
  }

  lemma MarkSentKeepsAlerts(s: State, snap: Db, done: set<nat>)
    requires AlertInvariant(s) && Enabled(s, snap, MarkSent(done))
    ensures AlertInvariant(Apply(s, MarkSent(done)))
  {
    var t := Apply(s, MarkSent(done));
    StepMovesForward(s, snap, MarkSent(done));
    forall d: nat | d < |t.db.deliveries| && t.db.deliveries[d].status == Sent
      ensures d in t.everSent
    {
      if d !in Marked(s.claims, done) {
        assert s.db.deliveries[d].status == Sent;
      }
    }
    OutcomesKeepAlerts(s, t);
  }

  lemma StepKeepsAlerts(s: State, snap: State, step: Step)
    requires AlertInvariant(s) && SentRemembered(snap.db.deliveries, snap.everSent) && Precedes(snap, s)
    requires Enabled(s, snap.db, step)
    ensures AlertInvariant(Apply(s, step))
  {
    match step
    case Enqueue(_, _, _) => EnqueueKeepsAlerts(s, snap, step);
    case OpenIncidents(_) => DetectionKeepsAlerts(s, snap.db, step);
    case ResolveIncidents(_) => DetectionKeepsAlerts(s, snap.db, step);
    case ClaimBatch(ids) => ClaimKeepsAlerts(s, snap.db, ids);
    case Send(k) => SendKeepsAlerts(s, snap.db, k);
    case Retry(k) => RetryKeepsAlerts(s, snap.db, k);
    case Refuse(k) => RefuseKeepsAlerts(s, snap.db, k);
    case MarkSent(done) => MarkSentKeepsAlerts(s, snap.db, done);
    case _ =>
      StepMovesForward(s, snap.db, step);
      JustificationsLast(s, Apply(s, step));
  }

  lemma MoveGoesForward(states: seq<State>, moves: seq<Move>, i: nat)
    requires IsRun(states, moves) && i < |moves|
    ensures Precedes(states[i], states[i + 1])
  {
    assert IsMove(states, moves, i);
    StepMovesForward(states[i], states[moves[i].snapshot].db, moves[i].step);
  }

  lemma {:induction false} RunMovesForward(states: seq<State>, moves: seq<Move>, i: nat, j: nat)
    requires IsRun(states, moves) && i <= j < |states|
    ensures Precedes(states[i], states[j])
    decreases j
  {
    if i < j {
      RunMovesForward(states, moves, i, j - 1);
      MoveGoesForward(states, moves, j - 1);
      PrecedesIsTransitive(states[i], states[j - 1], states[j]);
    }
  }

  lemma {:induction false} RunKeepsAlerts(states: seq<State>, moves: seq<Move>, i: nat)
    requires IsRun(states, moves) && i < |states|
    ensures AlertInvariant(states[i])
  {
    if i > 0 {
      assert IsMove(states, moves, i - 1);
      var move := moves[i - 1];
      RunKeepsAlerts(states, moves, i - 1);
      RunKeepsAlerts(states, moves, move.snapshot);
      RunMovesForward(states, moves, move.snapshot, i - 1);
      StepKeepsAlerts(states[i - 1], states[move.snapshot], move.step);
    }
  }

  /* --------------------------------------------------------------------- results --- */

  /** In every reachable state: at most one open incident per check and one delivery per (incident, channel, kind). */
  lemma NothingIsDoubled(states: seq<State>, moves: seq<Move>, i: nat)
    requires IsRun(states, moves) && i < |states|
    ensures OneOpenPerCheck(states[i].db.incidents) && OnePerTriple(states[i].db.deliveries)
  {
    RunKeepsAlerts(states, moves, i);
  }

  /** An incident that was resolved at some instant stays so, with that instant. */
  lemma ResolvedStaysResolved(states: seq<State>, moves: seq<Move>, i: nat, j: nat, incident: IncidentId)
    requires IsRun(states, moves) && i <= j < |states|
    requires incident < |states[i].db.incidents| && states[i].db.incidents[incident].resolvedAt.Some?
    ensures incident < |states[j].db.incidents| && states[j].db.incidents[incident] == states[i].db.incidents[incident]
  {
    RunMovesForward(states, moves, i, j);
  }

  /** A recovery is queued only for an incident that is resolved and had been announced before that statement. */
  lemma RecoveriesFollowAnnouncements(states: seq<State>, moves: seq<Move>, i: nat, u: DeliveryId)
    requires IsRun(states, moves) && i < |moves|
    requires |states[i].db.deliveries| <= u < |states[i + 1].db.deliveries|
    requires states[i + 1].db.deliveries[u].triple.kind == Up
    ensures var incident := states[i + 1].db.deliveries[u].triple.incident;
            && incident < |states[i].db.incidents| && states[i].db.incidents[incident].resolvedAt.Some?
            && exists d: nat :: Announced(states[i], incident, d)
  {
    RunKeepsAlerts(states, moves, i);
    RunKeepsAlerts(states, moves, i + 1);
    assert IsMove(states, moves, i);
    var s, t := states[i], states[i + 1];
    assert RecoveryJustified(t, u);
    var incident := t.db.deliveries[u].triple.incident;
    var d: nat :| Announced(t, incident, d);
    assert moves[i].step.Enqueue? && t.everSent == s.everSent;
    assert t.db.deliveries[d] == s.db.deliveries[d];
    assert Announced(s, incident, d);
  }

  /** Once an instance queues the alerts of an incident it opened, every channel its statement saw listening has one. */
  lemma EveryChannelIsQueued(states: seq<State>, moves: seq<Move>, i: nat, j: nat, ref: Ref, channel: ChannelId)
    requires IsRun(states, moves) && i < |moves| && i < j < |states|
    requires moves[i].step.Enqueue? && moves[i].step.alert == Down && ref in moves[i].step.refs
    requires moves[i].snapshot <= i && Listening(states[moves[i].snapshot].db, ref, channel)
    ensures HasTriple(states[j].db.deliveries, Triple(ref.incident, channel, Down))
  {
    assert IsMove(states, moves, i);
    var step := moves[i].step;
    var t := Triple(ref.incident, channel, Down);
    assert InFanout(states[moves[i].snapshot].db, step.refs, Down, t);
    EnqueueAddsExactly(states[i].db.deliveries, step.triples, states[i].db.now);
    var d: nat :| d < |states[i + 1].db.deliveries| && states[i + 1].db.deliveries[d].triple == t;
    RunMovesForward(states, moves, i + 1, j);
    assert states[j].db.deliveries[d].triple == t;
  }

  /* ------------------------------------------------------- who hears of a recovery --- */

  ghost predicate ChannelTold(db: Db, incident: IncidentId, channel: ChannelId) {
    exists d :: 0 <= d < |db.deliveries| && db.deliveries[d].triple == Triple(incident, channel, Down)
                && db.deliveries[d].status == Sent
  }

  ghost predicate Listening(db: Db, ref: Ref, channel: ChannelId) {
    && ref.check in db.checks && channel in db.channels && db.channels[channel].enabled
    && db.channels[channel].project == db.checks[ref.check].project
  }

  /** Every channel that is sent the recovery of this incident was itself told about the outage. */
  ghost predicate OnlyToldChannelsHear(db: Db, ref: Ref) {
    forall t :: InFanout(db, {ref}, Up, t) ==> ChannelTold(db, ref.incident, t.channel)
  }

  /**
   * The README promises a recovery "only to people who were told about the outage". The statement asks whether
   * anybody was: the promise is kept exactly when nobody was told, or every listening channel was.
   */
  lemma RecoveryReachesOnlyTheToldWhen(db: Db, ref: Ref)
    ensures OnlyToldChannelsHear(db, ref) <==>
              || !Told(db.deliveries, ref.incident)
              || (forall channel :: Listening(db, ref, channel) ==> ChannelTold(db, ref.incident, channel))
  {
    if OnlyToldChannelsHear(db, ref) && Told(db.deliveries, ref.incident) {
      forall channel | Listening(db, ref, channel)
        ensures ChannelTold(db, ref.incident, channel)
      {
        assert InFanout(db, {ref}, Up, Triple(ref.incident, channel, Up));
        assert ChannelTold(db, ref.incident, Triple(ref.incident, channel, Up).channel);
      }
    }
    if forall channel :: Listening(db, ref, channel) ==> ChannelTold(db, ref.incident, channel) {
      forall t | InFanout(db, {ref}, Up, t)
        ensures ChannelTold(db, ref.incident, t.channel)
      {
        assert Listening(db, ref, t.channel);
      }
    }
  }
}
