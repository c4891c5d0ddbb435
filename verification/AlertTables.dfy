/**
 * The rows the alerting protocol shares through PostgreSQL, and its SQL statements as functions
 * from the table before to the table after. One function is one atomic statement. Instants are in
 * milliseconds. Tables only ever grow here, so the identity of an incident or of a delivery is its
 * position.
 */
module AlertTables {
  import opened Prelude

  type CheckId = nat
  type IncidentId = nat
  type DeliveryId = nat
  type ChannelId = nat
  type ProjectId = nat

  datatype CheckState = NEW | UP | LATE | DOWN | PAUSED
  datatype PingKind = Start | Success | Fail
  datatype AlertKind = Down | Up
  datatype DeliveryStatus = Pending | Sent | Failed

  datatype Check = Check(
    project: ProjectId,
    graceSeconds: nat,
    state: CheckState,
    lastPingAt: Option<int>,
    lastStartedAt: Option<int>,
    nextDueAt: Option<int>)

  datatype Channel = Channel(project: ProjectId, enabled: bool)

  datatype Incident = Incident(check: CheckId, startedAt: int, resolvedAt: Option<int>)

  /** What the unique index of the delivery table is on. */
  datatype Triple = Triple(incident: IncidentId, channel: ChannelId, kind: AlertKind)

  datatype Delivery = Delivery(
    triple: Triple,
    status: DeliveryStatus,
    attempts: nat,
    nextAttemptAt: int,
    sentAt: Option<int>)

  datatype Db = Db(
    checks: map<CheckId, Check>,
    channels: map<ChannelId, Channel>,
    incidents: seq<Incident>,
    deliveries: seq<Delivery>,
    now: int)

  /** An incident as the detection loop hands it to the queue. */
  datatype Ref = Ref(incident: IncidentId, check: CheckId)

  const CLAIM_LEASE := 300_000
  const HOUR := 3_600_000

  /* ---------------------------------------------------------------- heartbeats --- */

  /** INGEST_SQL on the row it matches. A paused row does not match and stays as it is. */
  function Ingested(c: Check, kind: PingKind, receivedAt: int, due: Option<int>): Check {
    if c.state == PAUSED then c
    else c.(
      lastPingAt := if kind == Start then c.lastPingAt else Some(receivedAt),
      lastStartedAt := if kind == Start then Some(receivedAt) else None,
      nextDueAt := if kind == Start then c.nextDueAt else due,
      state := if kind == Start then c.state else if kind == Fail then DOWN else UP)
  }

  /* ----------------------------------------------------------------- detection --- */

  function Deadline(c: Check): int
    requires c.nextDueAt.Some?
  {
    c.nextDueAt.value + c.graceSeconds * 1000
  }

  /** The WHERE clause of ADVANCE_SQL. A null deadline compares as unknown, so it never matches. */
  predicate Due(c: Check, now: int) {
    && c.nextDueAt.Some?
    && c.nextDueAt.value < now
    && c.state in {UP, NEW, LATE}
    && (c.state == LATE ==> now >= Deadline(c))
  }

  function Advanced(c: Check, now: int): Check
    requires c.nextDueAt.Some?
  {
    c.(state := if now >= Deadline(c) then DOWN else LATE)
  }

  function DueSet(checks: map<CheckId, Check>, now: int): set<CheckId> {
    set c | c in checks && Due(checks[c], now)
  }

  /** ADVANCE_SQL over the rows it locked. */
  function AdvanceStmt(checks: map<CheckId, Check>, selected: set<CheckId>, now: int): map<CheckId, Check> {
    map c | c in checks :: if c in selected && Due(checks[c], now) then Advanced(checks[c], now) else checks[c]
  }

  predicate HasOpen(incidents: seq<Incident>, c: CheckId) {
    exists i :: 0 <= i < |incidents| && incidents[i].check == c && incidents[i].resolvedAt.None?
  }

  /** The INSERT of OPEN_INCIDENTS_SQL: the partial unique index turns a second open incident into a no-op. */
  function OpenStmt(incidents: seq<Incident>, candidates: seq<CheckId>, now: int): (r: seq<Incident>)
    ensures |incidents| <= |r| && forall i :: 0 <= i < |incidents| ==> r[i] == incidents[i]
    decreases |candidates|
  {
    if candidates == [] then incidents
    else
      var c := candidates[0];
      var next := if HasOpen(incidents, c) then incidents else incidents + [Incident(c, now, None)];
      OpenStmt(next, candidates[1..], now)
  }

  /** RESOLVE_INCIDENTS_SQL over the rows it locked, `resolved_at IS NULL` being checked again under the lock. */
  function ResolveStmt(incidents: seq<Incident>, selected: set<IncidentId>, now: int): seq<Incident> {
    seq(|incidents|, i requires 0 <= i < |incidents| =>
      if i in selected && incidents[i].resolvedAt.None? then incidents[i].(resolvedAt := Some(now)) else incidents[i])
  }

  /** The rows an INSERT returned. */
  function Inserted(before: seq<Incident>, after: seq<Incident>): set<Ref>
    requires |before| <= |after|
  {
    set i | |before| <= i < |after| :: Ref(i, after[i].check)
  }

  function RefsOf(incidents: seq<Incident>, selected: set<IncidentId>): set<Ref> {
    set i | i in selected && i < |incidents| :: Ref(i, incidents[i].check)
  }

  /* --------------------------------------------------------------------- queue --- */

  /** Somebody was told about the outage: the EXISTS of ENQUEUE_SQL. It looks at the incident, not at the channel. */
  predicate Told(deliveries: seq<Delivery>, incident: IncidentId) {
    exists d :: 0 <= d < |deliveries| && deliveries[d].triple.incident == incident
                && deliveries[d].triple.kind == Down && deliveries[d].status == Sent
  }

  /** The SELECT of ENQUEUE_SQL: one row for each enabled channel of the project of each incident. */
  ghost predicate InFanout(db: Db, refs: set<Ref>, kind: AlertKind, t: Triple) {
    && t.kind == kind
    && t.channel in db.channels && db.channels[t.channel].enabled
    && (exists ref :: ref in refs && ref.incident == t.incident && ref.check in db.checks
                      && db.channels[t.channel].project == db.checks[ref.check].project)
    && (kind == Down || Told(db.deliveries, t.incident))
  }

  function Fanout(db: Db, refs: set<Ref>, kind: AlertKind): (r: set<Triple>)
    ensures forall t :: t in r <==> InFanout(db, refs, kind, t)
  {
    set ref, ch | ref in refs && ch in db.channels && db.channels[ch].enabled
                  && ref.check in db.checks && db.channels[ch].project == db.checks[ref.check].project
                  && (kind == Down || Told(db.deliveries, ref.incident))
                :: Triple(ref.incident, ch, kind)
  }

  predicate HasTriple(deliveries: seq<Delivery>, t: Triple) {
    exists d :: 0 <= d < |deliveries| && deliveries[d].triple == t
  }

  /** The INSERT of ENQUEUE_SQL: the unique index turns a row that exists into a no-op. */
  function EnqueueStmt(deliveries: seq<Delivery>, triples: seq<Triple>, now: int): (r: seq<Delivery>)
    ensures |deliveries| <= |r| && forall d :: 0 <= d < |deliveries| ==> r[d] == deliveries[d]
    decreases |triples|
  {
    if triples == [] then deliveries
    else
      var t := triples[0];
      var next := if HasTriple(deliveries, t) then deliveries
                  else deliveries + [Delivery(t, Pending, 0, now, None)];
      EnqueueStmt(next, triples[1..], now)
  }

  /** The WHERE clause of CLAIM_SQL. */
  predicate Claimable(d: Delivery, now: int) {
    d.status == Pending && d.nextAttemptAt <= now
  }

  function ClaimableSet(deliveries: seq<Delivery>, now: int): set<DeliveryId> {
    set d: nat | d < |deliveries| && Claimable(deliveries[d], now)
  }

  /** CLAIM_SQL over the rows it locked. */
  function ClaimStmt(deliveries: seq<Delivery>, ids: set<DeliveryId>, now: int): seq<Delivery> {
    seq(|deliveries|, d requires 0 <= d < |deliveries| =>
      if d in ids then deliveries[d].(attempts := deliveries[d].attempts + 1, nextAttemptAt := now + CLAIM_LEASE)
      else deliveries[d])
  }

  /** MARK_SENT_SQL: no test of the status the row has. */
  function MarkSentStmt(deliveries: seq<Delivery>, ids: set<DeliveryId>, now: int): seq<Delivery> {
    seq(|deliveries|, d requires 0 <= d < |deliveries| =>
      if d in ids then deliveries[d].(status := Sent, sentAt := Some(now)) else deliveries[d])
  }

  function Power2(n: nat): nat {
    if n == 0 then 1 else 2 * Power2(n - 1)
  }

  /** The backoff of RETRY_SQL, in milliseconds. */
  function Backoff(attempts: nat): int {
    1000 * Min(3600, 30 * Power2(Max(0, attempts - 1)))
  }

  /** RETRY_SQL: no test of the status the row has. */
  function RetryStmt(deliveries: seq<Delivery>, id: DeliveryId, maxAttempts: nat, now: int): seq<Delivery>
    requires id < |deliveries|
  {
    var d := deliveries[id];
    deliveries[id := d.(status := if d.attempts >= maxAttempts then Failed else Pending,
                        nextAttemptAt := now + Backoff(d.attempts))]
  }

  /** REFUSE_SQL: no test of the status the row has. */
  function RefuseStmt(deliveries: seq<Delivery>, id: DeliveryId): seq<Delivery>
    requires id < |deliveries|
  {
    deliveries[id := deliveries[id].(status := Failed)]
  }

  /** SENT_LAST_HOUR_SQL for one channel. */
  function SentLastHour(deliveries: seq<Delivery>, channel: ChannelId, now: int): set<DeliveryId> {
    set d: nat | d < |deliveries| && deliveries[d].triple.channel == channel && deliveries[d].status == Sent
            && deliveries[d].sentAt.Some? && deliveries[d].sentAt.value > now - HOUR
  }
}
