/**
 * Any number of server instances running detection, delivery and heartbeat ingestion against one
 * database. A step is one SQL statement, one message sent, one edit by a person, or time passing.
 * A crash needs no step of its own: a worker that died is one that never acts again, and what it
 * alone remembered is dropped by `Forget`.
 */
module AlertMachine {
  import opened Prelude
  import opened AlertTables

  /** One row of one claimed batch, from the claim on. `recordedAt` is when its outcome reached the database. */
  datatype Claim = Claim(delivery: DeliveryId, leaseEnd: int, sent: bool, recordedAt: Option<int>)

  /**
   * `justOpened` and `justResolved` are the incidents some worker has committed and not yet queued alerts for.
   * `everSent` is history: the deliveries that were marked sent at some point, whatever became of them.
   */
  datatype State = State(
    db: Db,
    claims: seq<Claim>,
    justOpened: set<Ref>,
    justResolved: set<Ref>,
    everSent: set<DeliveryId>,
    maxAttempts: nat)

  datatype Step =
    | Wait(until: int)
    | Ingest(check: CheckId, ping: PingKind, receivedAt: int, due: Option<int>)
    /** Create, edit, pause, resume, or a pause or resume by the quota reconciler. */
    | Edit(check: CheckId, row: Check)
    | SetChannels(channels: map<ChannelId, Channel>)
    /** `at` is the start of the transaction, which is what `now()` means in it. */
    | Advance(selected: set<CheckId>, at: int)
    | OpenIncidents(candidates: seq<CheckId>)
    | ResolveIncidents(selected: set<IncidentId>)
    | Enqueue(alert: AlertKind, refs: set<Ref>, triples: seq<Triple>)
    | Forget(lostOpened: set<Ref>, lostResolved: set<Ref>)
    | ClaimBatch(ids: seq<DeliveryId>)
    | Send(claim: nat)
    | Retry(claim: nat)
    | Refuse(claim: nat)
    | MarkSent(done: set<nat>)

  predicate OpenClaim(s: State, k: nat) {
    k < |s.claims| && !s.claims[k].sent && s.claims[k].recordedAt.None?
  }

  /**
   * When a step may happen. `snap` is the database as the statement saw it, possibly older than `s.db`;
   * what a statement locks, or what a unique index guards, is read in `s.db`.
   */
  ghost predicate Enabled(s: State, snap: Db, step: Step) {
    match step
    case Wait(until) => s.db.now <= until
    case Ingest(c, _, receivedAt, _) => c in s.db.checks && receivedAt <= s.db.now
    case Edit(_, _) => true
    case SetChannels(_) => true
    case Advance(selected, at) =>
      at <= s.db.now && selected <= DueSet(s.db.checks, at)
    case OpenIncidents(candidates) =>
      forall c <- candidates ::
        && c in s.db.checks && s.db.checks[c].state == DOWN
        && !HasOpen(snap.incidents, c)
    case ResolveIncidents(selected) =>
      forall i <- selected ::
        && i < |s.db.incidents| && s.db.incidents[i].resolvedAt.None?
        && s.db.incidents[i].check in snap.checks
        && snap.checks[s.db.incidents[i].check].state in {UP, PAUSED}
    case Enqueue(kind, refs, triples) =>
      && refs <= (if kind == Down then s.justOpened else s.justResolved)
      && forall t :: t in triples <==> InFanout(snap, refs, kind, t)
    case Forget(_, _) => true
    case ClaimBatch(ids) =>
      && Distinct(ids)
      && forall d <- ids :: d < |s.db.deliveries| && Claimable(s.db.deliveries[d], s.db.now)
    case Send(k) => OpenClaim(s, k)
    case Retry(k) => OpenClaim(s, k) && s.claims[k].delivery < |s.db.deliveries|
    case Refuse(k) => OpenClaim(s, k) && s.claims[k].delivery < |s.db.deliveries|
    case MarkSent(done) =>
      forall k <- done :: k < |s.claims| && s.claims[k].sent && s.claims[k].recordedAt.None?
  }

  function Record(claims: seq<Claim>, done: set<nat>, now: int): seq<Claim> {
    seq(|claims|, k requires 0 <= k < |claims| =>
      if k in done then claims[k].(recordedAt := Some(now)) else claims[k])
  }

  function Marked(claims: seq<Claim>, done: set<nat>): set<DeliveryId> {
    set k | k in done && k < |claims| :: claims[k].delivery
  }

  function NewClaims(ids: seq<DeliveryId>, now: int): seq<Claim> {
    seq(|ids|, i requires 0 <= i < |ids| => Claim(ids[i], now + CLAIM_LEASE, false, None))
  }

  function Apply(s: State, step: Step): State
    requires step.Ingest? ==> step.check in s.db.checks
    requires step.Send? ==> step.claim < |s.claims|
    requires step.Retry? || step.Refuse? ==>
               step.claim < |s.claims| && s.claims[step.claim].delivery < |s.db.deliveries|
  {
    var db := s.db;
    match step
    case Wait(until) => s.(db := db.(now := until))
    case Ingest(c, kind, receivedAt, due) =>
      s.(db := db.(checks := db.checks[c := Ingested(db.checks[c], kind, receivedAt, due)]))
    case Edit(c, row) => s.(db := db.(checks := db.checks[c := row]))
    case SetChannels(channels) => s.(db := db.(channels := channels))
    case Advance(selected, at) => s.(db := db.(checks := AdvanceStmt(db.checks, selected, at)))
    case OpenIncidents(candidates) =>
      var after := OpenStmt(db.incidents, candidates, db.now);
      s.(db := db.(incidents := after), justOpened := s.justOpened + Inserted(db.incidents, after))
    case ResolveIncidents(selected) =>
      s.(db := db.(incidents := ResolveStmt(db.incidents, selected, db.now)),
         justResolved := s.justResolved + RefsOf(db.incidents, selected))
    case Enqueue(kind, refs, triples) =>
      s.(db := db.(deliveries := EnqueueStmt(db.deliveries, triples, db.now)),
         justOpened := if kind == Down then s.justOpened - refs else s.justOpened,
         justResolved := if kind == Down then s.justResolved else s.justResolved - refs)
    case Forget(lostOpened, lostResolved) =>
      s.(justOpened := s.justOpened - lostOpened, justResolved := s.justResolved - lostResolved)
    case ClaimBatch(ids) =>
      s.(db := db.(deliveries := ClaimStmt(db.deliveries, Elements(ids), db.now)),
         claims := s.claims + NewClaims(ids, db.now))
    case Send(k) => s.(claims := s.claims[k := s.claims[k].(sent := true)])
    case Retry(k) =>
      s.(db := db.(deliveries := RetryStmt(db.deliveries, s.claims[k].delivery, s.maxAttempts, db.now)),
         claims := s.claims[k := s.claims[k].(recordedAt := Some(db.now))])
    case Refuse(k) =>
      s.(db := db.(deliveries := RefuseStmt(db.deliveries, s.claims[k].delivery)),
         claims := s.claims[k := s.claims[k].(recordedAt := Some(db.now))])
    case MarkSent(done) =>
      s.(db := db.(deliveries := MarkSentStmt(db.deliveries, Marked(s.claims, done), db.now)),
         claims := Record(s.claims, done, db.now),
         everSent := s.everSent + Marked(s.claims, done))
  }

  /** Any checks and channels; no incident and nothing queued yet. */
  ghost predicate Init(s: State) {
    && s.db.incidents == [] && s.db.deliveries == []
    && s.claims == [] && s.justOpened == {} && s.justResolved == {} && s.everSent == {}
    && s.maxAttempts >= 1
  }

  /** A step of a run, and which earlier state its statement's snapshot was taken in. */
  datatype Move = Move(step: Step, snapshot: nat)

  ghost predicate IsRun(states: seq<State>, moves: seq<Move>) {
    && |states| == |moves| + 1
    && Init(states[0])
    && forall i :: 0 <= i < |moves| ==> IsMove(states, moves, i)
  }

  ghost predicate IsMove(states: seq<State>, moves: seq<Move>, i: nat)
    requires i < |moves| < |states|
  {
    && moves[i].snapshot <= i
    && Enabled(states[i], states[moves[i].snapshot].db, moves[i].step)
    && states[i + 1] == Apply(states[i], moves[i].step)
  }

  /** One more step, its statement seeing the database as it is. */
  lemma Extend(states: seq<State>, moves: seq<Move>, step: Step, next: State)
    returns (states': seq<State>, moves': seq<Move>)
    requires IsRun(states, moves)
    requires Enabled(states[|moves|], states[|moves|].db, step) && Apply(states[|moves|], step) == next
    ensures IsRun(states', moves')
    ensures states' == states + [next] && moves' == moves + [Move(step, |moves|)]
  {
    states', moves' := states + [next], moves + [Move(step, |moves|)];
    forall i | 0 <= i < |moves'|
      ensures IsMove(states', moves', i)
    {
      if i < |moves| {
        assert IsMove(states, moves, i);
      }
    }
  }
}
