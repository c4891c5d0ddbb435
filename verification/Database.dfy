/** PostgreSQL as one instance sees it when no other competes for rows: each method is one statement, run at `at`. */
module Database {
  import opened Prelude
  import opened AlertTables
  import opened AlertSafety
  import opened DetectionLaws

  datatype TransitionRow = TransitionRow(id: CheckId, previous: CheckState, next: CheckState)

  ghost function RowIds(rows: seq<TransitionRow>): set<CheckId> {
    set r | r in rows :: r.id
  }

  ghost predicate UniqueRows(rows: seq<TransitionRow>) {
    forall i, j :: 0 <= i < j < |rows| ==> rows[i].id != rows[j].id
  }

  /** What RETURNING gives back for the rows ADVANCE_SQL selected. */
  ghost predicate Reports(rows: seq<TransitionRow>, before: map<CheckId, Check>, after: map<CheckId, Check>) {
    && UniqueRows(rows)
    && forall r <- rows :: r.id in before && r.id in after
                           && r.previous == before[r.id].state && r.next == after[r.id].state
  }

  /** `ORDER BY`: nothing selected comes later than something left behind. */
  ghost predicate EarliestFirst(times: map<nat, int>, selected: set<nat>, matching: set<nat>) {
    forall a, b :: a in selected && b in matching - selected && a in times && b in times ==> times[a] <= times[b]
  }

  function Deadlines(checks: map<CheckId, Check>): map<CheckId, int> {
    map c | c in checks && checks[c].nextDueAt.Some? :: checks[c].nextDueAt.value
  }

  function AttemptTimes(deliveries: seq<Delivery>): map<DeliveryId, int> {
    map d: nat | d < |deliveries| :: deliveries[d].nextAttemptAt
  }

  lemma EarliestExists(times: map<nat, int>, s: set<nat>) returns (c: nat)
    requires s != {} && s <= times.Keys
    ensures c in s && forall x <- s :: times[c] <= times[x]
    decreases |s|
  {
    c :| c in s;
    if s != {c} {
      var d := EarliestExists(times, s - {c});
      if times[d] < times[c] {
        c := d;
      }
    }
  }

  /** `ORDER BY ... LIMIT limit`. */
  method Earliest(times: map<nat, int>, matching: set<nat>, limit: nat) returns (order: seq<nat>)
    requires matching <= times.Keys
    ensures Distinct(order) && Takes(Elements(order), matching, limit)
    ensures EarliestFirst(times, Elements(order), matching)
  {
    order := [];
    var rest := matching;
    while |order| < limit && rest != {}
      invariant rest <= matching && Elements(order) == matching - rest
      invariant Distinct(order) && |order| <= limit
      invariant EarliestFirst(times, Elements(order), matching)
      decreases |rest|
    {
      ghost var least := EarliestExists(times, rest);
      var c :| c in rest && forall x <- rest :: times[c] <= times[x];
      AppendDistinct(order, c);
      order, rest := order + [c], rest - {c};
    }
    DistinctCard(order);
    SubsetCard(Elements(order), matching);
  }

  /** RETURNING of ADVANCE_SQL. */
  function Returned(checks: map<CheckId, Check>, order: seq<CheckId>, at: int): seq<TransitionRow>
    requires forall c <- order :: c in checks && checks[c].nextDueAt.Some?
  {
    seq(|order|, i requires 0 <= i < |order| =>
      TransitionRow(order[i], checks[order[i]].state, Advanced(checks[order[i]], at).state))
  }

  lemma ReturnedReports(checks: map<CheckId, Check>, order: seq<CheckId>, at: int)
    requires Distinct(order) && Elements(order) <= DueSet(checks, at)
    requires forall c <- order :: c in checks && checks[c].nextDueAt.Some?
    ensures var rows := Returned(checks, order, at);
            && RowIds(rows) == Elements(order) && |rows| == |RowIds(rows)|
            && Reports(rows, checks, AdvanceStmt(checks, Elements(order), at))
  {
    var rows := Returned(checks, order, at);
    forall c | c in order
      ensures c in RowIds(rows)
    {
      var i :| 0 <= i < |order| && order[i] == c;
      assert rows[i] in rows;
    }
    DistinctCard(order);
    assert RowIds(rows) == Elements(order);
    forall r | r in rows
      ensures r.id in Elements(order) && r.previous == checks[r.id].state && r.next == Advanced(checks[r.id], at).state
    {
    }
  }

  lemma FanoutNotThere(db: Db, refs: set<Ref>, kind: AlertKind, triples: seq<Triple>)
    requires Elements(triples) == Fanout(db, refs, kind)
    ensures NotThere(db.deliveries, triples) == set t | t in Fanout(db, refs, kind) && !HasTriple(db.deliveries, t)
  {
    assert forall t :: t in triples <==> t in Elements(triples);
  }

  class Tables {
    var db: Db

    constructor (db: Db)
      ensures this.db == db
    {
      this.db := db;
    }

    /** ADVANCE_SQL. */
    method Advance(limit: nat, at: int) returns (rows: seq<TransitionRow>)
      modifies this
      ensures Takes(RowIds(rows), DueSet(old(db.checks), at), limit)
      ensures EarliestFirst(Deadlines(old(db.checks)), RowIds(rows), DueSet(old(db.checks), at))
      ensures db == old(db).(checks := AdvanceStmt(old(db.checks), RowIds(rows), at), now := at)
      ensures Reports(rows, old(db.checks), db.checks) && |rows| == |RowIds(rows)|
    {
      var before := db.checks;
      var order := Earliest(Deadlines(before), DueSet(before, at), limit);
      assert forall c <- order :: c in Elements(order) && c in DueSet(before, at);
      rows := Returned(before, order, at);
      ReturnedReports(before, order, at);
      db := db.(checks := AdvanceStmt(before, Elements(order), at), now := at);
    }

    /** OPEN_INCIDENTS_SQL; the rows it inserted. */
    method OpenIncidents(limit: nat, at: int) returns (refs: set<Ref>, ghost candidates: seq<CheckId>)
      modifies this
      ensures Distinct(candidates) && Takes(Elements(candidates), Missing(old(db)), limit)
      ensures db == old(db).(incidents := OpenStmt(old(db.incidents), candidates, at), now := at)
      ensures refs == Inserted(old(db.incidents), db.incidents)
    {
      var selected := Limit(Missing(db), limit);
      var order := List(selected);
      candidates := order;
      var after := OpenStmt(db.incidents, order, at);
      refs := Inserted(db.incidents, after);
      db := db.(incidents := after, now := at);
    }

    /** RESOLVE_INCIDENTS_SQL; the rows it updated. */
    method ResolveIncidents(limit: nat, at: int) returns (refs: set<Ref>, ghost selected: set<IncidentId>)
      modifies this
      ensures Takes(selected, Stale(old(db)), limit)
      ensures db == old(db).(incidents := ResolveStmt(old(db.incidents), selected, at), now := at)
      ensures refs == RefsOf(old(db.incidents), selected)
    {
      var locked := Limit(Stale(db), limit);
      selected := locked;
      refs := RefsOf(db.incidents, locked);
      db := db.(incidents := ResolveStmt(db.incidents, locked, at), now := at);
    }

    /**
     * ENQUEUE_SQL: afterwards every row of the fan-out is there, nothing else was added, and `queued` is how many of
     * them were not there before.
     */
    method Enqueue(refs: set<Ref>, kind: AlertKind, at: int) returns (queued: nat, ghost triples: seq<Triple>)
      modifies this
      ensures Elements(triples) == Fanout(old(db), refs, kind)
      ensures AddedExactly(old(db.deliveries), triples, at, db.deliveries)
      ensures queued == |set t | t in Fanout(old(db), refs, kind) && !HasTriple(old(db.deliveries), t)|
      ensures db == old(db).(deliveries := EnqueueStmt(old(db.deliveries), triples, at), now := at)
    {
      var order := List(Fanout(db, refs, kind));
      triples := order;
      var after := EnqueueStmt(db.deliveries, order, at);
      queued := |after| - |db.deliveries|;
      EnqueueAddsExactly(db.deliveries, order, at);
      EnqueueCounts(db.deliveries, order, at);
      FanoutNotThere(db, refs, kind, order);
      db := db.(deliveries := after, now := at);
    }

    /** CLAIM_SQL; the rows it claimed, the ones that have waited longest. */
    method Claim(limit: nat, at: int) returns (ids: set<DeliveryId>)
      modifies this
      ensures Takes(ids, ClaimableSet(old(db.deliveries), at), limit)
      ensures EarliestFirst(AttemptTimes(old(db.deliveries)), ids, ClaimableSet(old(db.deliveries), at))
      ensures db == old(db).(deliveries := ClaimStmt(old(db.deliveries), ids, at), now := at)
    {
      var order := Earliest(AttemptTimes(db.deliveries), ClaimableSet(db.deliveries, at), limit);
      ids := Elements(order);
      db := db.(deliveries := ClaimStmt(db.deliveries, ids, at), now := at);
    }

    /**
     * SENT_LAST_HOUR_SQL: what a channel was marked sent less than 3,600,000 milliseconds ago. Channels with nothing sent
     * are not in the answer.
     */
    method CountSent(channels: set<ChannelId>, at: int) returns (totals: map<ChannelId, nat>)
      ensures forall ch <- channels ::
                (if ch in totals then totals[ch] else 0)
                == |set d: nat | d < |db.deliveries| && db.deliveries[d].triple.channel == ch
                                 && db.deliveries[d].status == Sent && db.deliveries[d].sentAt.Some?
                                 && db.deliveries[d].sentAt.value > at - 3_600_000|
    {
      var deliveries := db.deliveries;
      totals := map ch | ch in channels && SentLastHour(deliveries, ch, at) != {} :: |SentLastHour(deliveries, ch, at)|;
    }

    /** MARK_SENT_SQL. */
    method MarkSent(ids: set<DeliveryId>, at: int)
      modifies this
      ensures db == old(db).(deliveries := MarkSentStmt(old(db.deliveries), ids, at), now := at)
    {
      db := db.(deliveries := MarkSentStmt(db.deliveries, ids, at), now := at);
    }

    /** RETRY_SQL. */
    method Retry(id: DeliveryId, maxAttempts: nat, at: int)
      requires id < |db.deliveries|
      modifies this
      ensures db == old(db).(deliveries := RetryStmt(old(db.deliveries), id, maxAttempts, at), now := at)
    {
      db := db.(deliveries := RetryStmt(db.deliveries, id, maxAttempts, at), now := at);
    }

    /** REFUSE_SQL. */
    method Refuse(id: DeliveryId, at: int)
      requires id < |db.deliveries|
      modifies this
      ensures db == old(db).(deliveries := RefuseStmt(old(db.deliveries), id), now := at)
    {
      db := db.(deliveries := RefuseStmt(db.deliveries, id), now := at);
    }
  }
}
