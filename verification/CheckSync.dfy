/**
 * The sync endpoint as it runs: the payload read row by row, the plan's room, then the two statements in one
 * transaction.
 */
module CheckSync {
  import opened Prelude
  import opened Schedules
  import opened CheckSyncLaws
  import opened Declarations

  datatype UpsertedCheck = UpsertedCheck(key: string, created: bool)

  datatype Response = Response(checks: seq<UpsertedCheck>, orphaned: set<string>, skipped: seq<string>)

  /** RETURNING: one line per row written, and whether it was inserted. */
  function Returned(t: Table, project: string, environment: Option<string>, rows: seq<Row>): seq<UpsertedCheck> {
    seq(|rows|, i requires 0 <= i < |rows| => UpsertedCheck(rows[i].key, Declared(project, environment, rows[i].key) !in t))
  }

  lemma UpsertedNext(t: Table, project: string, environment: Option<string>, rows: seq<Row>, i: nat)
    requires i < |rows|
    ensures var id := Declared(project, environment, rows[i].key);
            var sofar := Upserted(t, project, environment, rows[..i]);
            Upserted(t, project, environment, rows[..i + 1]) == sofar[id := Written(At(t, id), rows[i])]
  {
    var some := rows[..i + 1];
    assert some[..|some| - 1] == rows[..i] && some[|some| - 1] == rows[i];
  }

  lemma StillNew(t: Table, project: string, environment: Option<string>, rows: seq<Row>, i: nat)
    requires i < |rows| && Distinct(Keys(rows))
    ensures var id := Declared(project, environment, rows[i].key);
            At(Upserted(t, project, environment, rows[..i]), id) == At(t, id)
  {
    var id := Declared(project, environment, rows[i].key);
    assert forall j :: 0 <= j < i ==> Keys(rows)[j] != Keys(rows)[i];
    assert !InRows(id, project, environment, rows[..i]);
    UpsertedElsewhere(t, project, environment, rows[..i], id);
  }

  /** One more row: the next table, and the next line. */
  lemma RowUpserted(t: Table, project: string, environment: Option<string>, rows: seq<Row>, i: nat)
    requires i < |rows| && Distinct(Keys(rows))
    ensures var id := Declared(project, environment, rows[i].key);
            var sofar := Upserted(t, project, environment, rows[..i]);
            && Upserted(t, project, environment, rows[..i + 1]) == sofar[id := Written(At(sofar, id), rows[i])]
            && Returned(t, project, environment, rows)[..i + 1]
               == Returned(t, project, environment, rows)[..i] + [UpsertedCheck(rows[i].key, id !in sofar)]
  {
    UpsertedNext(t, project, environment, rows, i);
    StillNew(t, project, environment, rows, i);
  }

  class CheckSyncRepository {
    var checks: Table

    constructor (rows: Table)
      ensures checks == rows
    {
      checks := rows;
    }

    /** The upsert and, when there is something to keep, the flagging of everything else, in one transaction. */
    method Upsert(project: string, environment: Option<string>, accepted: seq<Row>,
            keysToKeep: Option<seq<string>>, now: int)
      returns (upserted: seq<UpsertedCheck>, orphaned: set<string>)
      requires Distinct(Keys(accepted))
      modifies this
      ensures upserted == Returned(old(checks), project, environment, accepted)
      ensures var written := Upserted(old(checks), project, environment, accepted);
              var missing := if keysToKeep.None? then {} else Missing(written, project, environment, keysToKeep.value);
              && checks == Flagged(written, missing, now)
              && orphaned == set id | id in missing && id.Declared? :: id.key
    {
      upserted := [];
      ghost var before := checks;
      for i := 0 to |accepted|
        invariant checks == Upserted(before, project, environment, accepted[..i])
        invariant upserted == Returned(before, project, environment, accepted)[..i]
      {
        var row := accepted[i];
        var id := Declared(project, environment, row.key);
        RowUpserted(before, project, environment, accepted, i);
        upserted := upserted + [UpsertedCheck(row.key, id !in checks)];
        checks := checks[id := Written(At(checks, id), row)];
      }
      assert accepted[..|accepted|] == accepted;
      var missing := if keysToKeep.None? then {} else Missing(checks, project, environment, keysToKeep.value);
      checks := Flagged(checks, missing, now);
      orphaned := set id | id in missing && id.Declared? :: id.key;
    }
  }

  class CheckSyncService {
    const repository: CheckSyncRepository
    const cron: CronLibrary

    constructor (repository: CheckSyncRepository, cron: CronLibrary)
      ensures this.repository == repository && this.cron == cron
    {
      this.repository, this.cron := repository, cron;
    }

    /** The first key met twice, or the first schedule that cannot be evaluated, refuses the payload. */
    method ReadRows(declared: seq<Incoming>, now: int) returns (r: Result<seq<Row>>)
      ensures Reads(declared, now, cron, r)
    {
      var seen: set<string> := {};
      var rows: seq<Row> := [];
      for i := 0 to |declared|
        invariant seen == set j | 0 <= j < i :: declared[j].key
        invariant Sound(declared, i, now, cron) && AreRows(declared, i, rows, now, cron)
      {
        var incoming := declared[i];
        if incoming.key in seen {
          assert Fault(declared, i, now, cron) == Some(DuplicateKey(incoming.key));
          return Err(DuplicateKey(incoming.key));
        }
        seen := seen + {incoming.key};
        var due := NextDueAt(ScheduleOf(incoming), now, cron);
        if due.None? {
          assert Fault(declared, i, now, cron) == Some(UnusableSchedule(incoming.key));
          return Err(UnusableSchedule(incoming.key));
        }
        rows := rows + [RowOf(incoming, due.value)];
      }
      return Ok(rows);
    }

    /** `syncWithinQuota`, with the owner's lock held. A payload at fault changes nothing. */
    method Sync(scope: Scope, request: Request, now: int) returns (r: Result<Response>)
      requires scope.environment == request.environment
      modifies repository
      ensures r.Err? ==> Reads(request.checks, now, cron, Err(r.error)) && repository.checks == old(repository.checks)
      ensures r.Ok? ==>
                exists rows ::
                  && Reads(request.checks, now, cron, Ok(rows))
                  && Agrees(r.value, old(repository.checks), repository.checks, scope, rows, request.prune, now)
      ensures r.Ok? ==>
                && AllAsDeclared(old(repository.checks), repository.checks, scope, request.checks, now, cron)
                && RestAsUndeclared(old(repository.checks), repository.checks, scope, request.checks, request.prune, now)
    {
      ghost var before := repository.checks;
      var read := ReadRows(request.checks, now);
      if read.Err? {
        return Err(read.error);
      }
      var rows := read.value;
      KeysAreDistinct(request.checks, now, cron, rows);
      var skipped := HeldBack(repository.checks, scope, rows);
      var accepted := Accepted(rows, skipped);
      AcceptedDistinct(rows, skipped);
      var upserted, orphaned := repository.Upsert(scope.project, scope.environment, accepted,
                                                  if request.prune then Some(Keys(rows)) else None, now);
      r := Ok(Response(upserted, orphaned, skipped));
      SyncedAsDeclared(before, scope, request.checks, rows, request.prune, now, cron);
      SyncedAsUndeclared(before, scope, request.checks, rows, request.prune, now, cron);
      assert Agrees(r.value, old(repository.checks), repository.checks, scope, rows, request.prune, now);
    }
  }

  /** The response and the table after it are those of `Synced`. */
  ghost predicate Agrees(r: Response, before: Table, after: Table, scope: Scope, rows: seq<Row>, prune: bool,
          now: int)
  {
    var spec := Synced(before, scope, rows, prune, now);
    && after == spec.table && r.orphaned == spec.orphaned && r.skipped == spec.skipped
    && r.checks == Returned(before, scope.project, scope.environment, Accepted(rows, spec.skipped))
  }

  lemma KeysAreDistinct(declared: seq<Incoming>, now: int, cron: CronLibrary, rows: seq<Row>)
    requires Reads(declared, now, cron, Ok(rows))
    ensures Distinct(Keys(rows))
  {
    ReadTwice(declared, now, now, cron, rows, rows);
  }
}
