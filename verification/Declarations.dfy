/** What a synced payload comes to in the table, in the columns of the rows and the fields of the payload. */
module Declarations {
  import opened Prelude
  import opened Schedules
  import opened CheckSyncLaws
  import AlertTables

  /** The row has the schedule that was declared: the cron expression if there is one, and the interval if not. */
  predicate HasDeclaredSchedule(row: Check, c: Incoming) {
    && row.schedule.timezone == (if c.timezone.Some? then c.timezone.value else "UTC")
    && (c.cron.Some? ==>
          !row.schedule.isInterval && row.schedule.cronExpression == c.cron && row.schedule.periodSeconds.None?)
    && (c.cron.None? ==>
          row.schedule.isInterval && row.schedule.periodSeconds == c.intervalSeconds && row.schedule.cronExpression.None?)
  }

  /** The first deadline of a declaration: an interval after now, or when the cron library says. */
  predicate IsFirstDeadline(due: Option<int>, c: Incoming, now: int, cron: CronLibrary) {
    && due.Some?
    && (c.cron.Some? ==>
          c.cron.value != "" && due == cron(c.cron.value, if c.timezone.Some? then c.timezone.value else "UTC", now))
    && (c.cron.None? ==>
          c.intervalSeconds.Some? && c.intervalSeconds.value > 0 && due.value == now + 1000 * c.intervalSeconds.value)
  }

  /**
   * A declared check that is in the table after the sync says what was declared and is nobody's orphan. A new one is
   * marked as declared, NEW, and due a period from now; one that was there keeps what it was, and its deadline exactly
   * if the schedule is the one it had.
   */
  predicate IsAsDeclared(was: Option<Check>, row: Check, c: Incoming, now: int, cron: CronLibrary) {
    && row.name == c.name && HasDeclaredSchedule(row, c)
    && row.graceSeconds == (if c.graceSeconds.Some? then c.graceSeconds.value else 300)
    && row.tags == (if c.tags.Some? then c.tags.value else [])
    && row.orphanedAt.None?
    && (was.None? ==> row.auto && row.state == AlertTables.NEW && IsFirstDeadline(row.nextDueAt, c, now, cron))
    && (was.Some? ==>
          && row.auto == was.value.auto && row.state == was.value.state
          && (if row.schedule == was.value.schedule then row.nextDueAt == was.value.nextDueAt
              else IsFirstDeadline(row.nextDueAt, c, now, cron)))
  }

  ghost predicate AllAsDeclared(before: Table, after: Table, scope: Scope, declared: seq<Incoming>, now: int,
          cron: CronLibrary)
  {
    forall i :: 0 <= i < |declared| ==> OneAsDeclared(before, after, scope, declared[i], now, cron)
  }

  ghost predicate OneAsDeclared(before: Table, after: Table, scope: Scope, c: Incoming, now: int, cron: CronLibrary) {
    var id := Declared(scope.project, scope.environment, c.key);
    (id in before ==> id in after) && (id in after ==> IsAsDeclared(At(before, id), after[id], c, now, cron))
  }

  lemma RowsAreAsDeclared(c: Incoming, was: Option<Check>, now: int, cron: CronLibrary)
    requires NextDueAt(ScheduleOf(c), now, cron).Some?
    ensures IsAsDeclared(was, Written(was, RowOf(c, NextDueAt(ScheduleOf(c), now, cron).value)), c, now, cron)
  {
  }

  /** After a sync every declared check that is in the table is as it was declared. */
  lemma SyncedAsDeclared(t: Table, scope: Scope, declared: seq<Incoming>, rows: seq<Row>, prune: bool, now: int,
          cron: CronLibrary)
    requires Reads(declared, now, cron, Ok(rows))
    ensures AllAsDeclared(t, Synced(t, scope, rows, prune, now).table, scope, declared, now, cron)
  {
    ReadTwice(declared, now, now, cron, rows, rows);
    forall i | 0 <= i < |declared|
      ensures OneAsDeclared(t, Synced(t, scope, rows, prune, now).table, scope, declared[i], now, cron)
    {
      assert Fault(declared, i, now, cron) == None;
      assert rows[i].key == declared[i].key;
      DeclaredAreWritten(t, scope, rows, prune, now, i);
      RowsAreAsDeclared(declared[i], At(t, Declared(scope.project, scope.environment, declared[i].key)), now, cron);
    }
  }

  /**
   * What the payload does not declare: of the checks this environment once declared, those not flagged yet are flagged
   * now, and everything else is as it was.
   */
  predicate IsAsUndeclared(was: Check, row: Check, id: Ident, scope: Scope, prune: bool, now: int) {
    if prune && id.Declared? && id.project == scope.project && id.environment == scope.environment
       && was.auto && was.orphanedAt.None?
    then
      row == Check(was.name, was.schedule, was.graceSeconds, was.tags, was.auto, Some(now), was.nextDueAt, was.state)
    else row == was
  }

  ghost predicate RestAsUndeclared(before: Table, after: Table, scope: Scope, declared: seq<Incoming>,
          prune: bool, now: int)
  {
    forall id <- after ::
      (forall c <- declared :: id != Declared(scope.project, scope.environment, c.key)) ==>
        id in before && IsAsUndeclared(before[id], after[id], id, scope, prune, now)
  }

  lemma SyncedAsUndeclared(t: Table, scope: Scope, declared: seq<Incoming>, rows: seq<Row>, prune: bool, now: int,
          cron: CronLibrary)
    requires Reads(declared, now, cron, Ok(rows))
    ensures var after := Synced(t, scope, rows, prune, now).table;
            RestAsUndeclared(t, after, scope, declared, prune, now) && t.Keys <= after.Keys
  {
    var after := Synced(t, scope, rows, prune, now).table;
    forall id | id in after && forall c <- declared :: id != Declared(scope.project, scope.environment, c.key)
      ensures id in t && IsAsUndeclared(t[id], after[id], id, scope, prune, now)
    {
      NotInRows(declared, rows, scope, now, cron, id);
      UndeclaredAreFlagged(t, scope, rows, prune, now, id);
    }
    forall id | id in t
      ensures id in after
    {
      if InRows(id, scope.project, scope.environment, rows) {
        var i :| 0 <= i < |rows| && Keys(rows)[i] == id.key;
        ReadTwice(declared, now, now, cron, rows, rows);
        DeclaredAreWritten(t, scope, rows, prune, now, i);
      } else {
        UndeclaredAreFlagged(t, scope, rows, prune, now, id);
      }
    }
  }

  lemma NotInRows(declared: seq<Incoming>, rows: seq<Row>, scope: Scope, now: int, cron: CronLibrary, id: Ident)
    requires Reads(declared, now, cron, Ok(rows))
    requires forall c <- declared :: id != Declared(scope.project, scope.environment, c.key)
    ensures !InRows(id, scope.project, scope.environment, rows)
  {
    forall i | 0 <= i < |rows|
      ensures id != Declared(scope.project, scope.environment, Keys(rows)[i])
    {
      assert declared[i] in declared && declared[i].key == rows[i].key;
    }
  }

  // ---- What refuses a payload --------------------------------------------------------------------------------------

  /** No expression and no interval of a second or more, an empty expression, or one the cron library refuses. */
  predicate IsUnusable(c: Incoming, now: int, cron: CronLibrary) {
    if c.cron.Some? then
      c.cron.value == "" || cron(c.cron.value, if c.timezone.Some? then c.timezone.value else "UTC", now).None?
    else c.intervalSeconds.None? || c.intervalSeconds.value <= 0
  }

  predicate IsRepeated(checks: seq<Incoming>, i: nat)
    requires i < |checks|
  {
    exists j :: 0 <= j < i && checks[j].key == checks[i].key
  }

  ghost predicate IsAtFault(checks: seq<Incoming>, i: nat, now: int, cron: CronLibrary)
    requires i < |checks|
  {
    IsRepeated(checks, i) || IsUnusable(checks[i], now, cron)
  }

  /** The first declaration at fault is refused for its key before its schedule. */
  ghost predicate IsFirstFault(checks: seq<Incoming>, i: nat, now: int, cron: CronLibrary, error: Error) {
    && i < |checks| && IsAtFault(checks, i, now, cron)
    && (forall j :: 0 <= j < i ==> !IsAtFault(checks, j, now, cron))
    && error == (if IsRepeated(checks, i) then DuplicateKey(checks[i].key) else UnusableSchedule(checks[i].key))
  }

  /** A payload is refused exactly when it declares a key twice, or a schedule that cannot be evaluated. */
  lemma RefusedWhen(checks: seq<Incoming>, now: int, cron: CronLibrary, r: Result<seq<Row>>)
    requires Reads(checks, now, cron, r)
    ensures r.Err? <==> exists i :: 0 <= i < |checks| && IsAtFault(checks, i, now, cron)
    ensures r.Err? ==> exists i :: IsFirstFault(checks, i, now, cron, r.error)
  {
    forall i | 0 <= i < |checks|
      ensures Fault(checks, i, now, cron) == None <==> !IsAtFault(checks, i, now, cron)
    {
      assert NextDueAt(ScheduleOf(checks[i]), now, cron).None? <==> IsUnusable(checks[i], now, cron);
    }
    if r.Err? {
      var i :| 0 <= i < |checks| && Fault(checks, i, now, cron) == Some(r.error) && Sound(checks, i, now, cron);
      assert IsFirstFault(checks, i, now, cron, r.error);
    }
  }
}
