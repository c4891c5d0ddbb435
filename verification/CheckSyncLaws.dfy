/** `POST /api/v1/checks/sync`: what a declared payload does to the table of checks, and what that amounts to. */
module CheckSyncLaws {
  import opened Prelude
  import opened Schedules
  import AlertTables

  /**
   * A row's identity. Declared checks are unique per project, environment and key; the ones made by hand have no key.
   */
  datatype Ident =
    | Declared(project: string, environment: Option<string>, key: string)
    | Keyless(project: string, id: nat)

  datatype Check = Check(
    name: string,
    schedule: Schedule,
    graceSeconds: int,
    tags: seq<string>,
    auto: bool,
    orphanedAt: Option<int>,
    nextDueAt: Option<int>,
    state: AlertTables.CheckState)

  type Table = map<Ident, Check>

  datatype Incoming = Incoming(
    key: string,
    name: string,
    cron: Option<string>,
    intervalSeconds: Option<int>,
    timezone: Option<string>,
    graceSeconds: Option<int>,
    tags: Option<seq<string>>)

  datatype Request = Request(environment: Option<string>, prune: bool, checks: seq<Incoming>)

  datatype Row = Row(key: string, name: string, schedule: Schedule, graceSeconds: int, tags: seq<string>, nextDueAt: int)

  datatype Error = DuplicateKey(key: string) | UnusableSchedule(key: string)

  datatype Result<+T> = Ok(value: T) | Err(error: Error)

  const DEFAULT_GRACE_SECONDS := 300
  const DEFAULT_TIMEZONE := "UTC"

  function Or<T>(o: Option<T>, default: T): T {
    if o.Some? then o.value else default
  }

  // ---- From the payload to rows ----------------------------------------------------------------------------------

  function ScheduleOf(c: Incoming): Schedule {
    if c.cron.None? then Schedule(true, c.intervalSeconds, None, Or(c.timezone, DEFAULT_TIMEZONE))
    else Schedule(false, None, c.cron, Or(c.timezone, DEFAULT_TIMEZONE))
  }

  function RowOf(c: Incoming, dueAt: int): Row {
    Row(c.key, c.name, ScheduleOf(c), Or(c.graceSeconds, DEFAULT_GRACE_SECONDS), Or(c.tags, []), dueAt)
  }

  function Keys(rows: seq<Row>): (r: seq<string>)
    ensures |r| == |rows| && forall i :: 0 <= i < |rows| ==> r[i] == rows[i].key
  {
    seq(|rows|, i requires 0 <= i < |rows| => rows[i].key)
  }

  /** What is wrong with the `i`th declared check, given the ones before it. */
  function Fault(checks: seq<Incoming>, i: nat, now: int, cron: CronLibrary): Option<Error>
    requires i < |checks|
  {
    if exists j :: 0 <= j < i && checks[j].key == checks[i].key then Some(DuplicateKey(checks[i].key))
    else if NextDueAt(ScheduleOf(checks[i]), now, cron).None? then Some(UnusableSchedule(checks[i].key))
    else None
  }

  ghost predicate Sound(checks: seq<Incoming>, n: nat, now: int, cron: CronLibrary)
    requires n <= |checks|
  {
    forall i :: 0 <= i < n ==> Fault(checks, i, now, cron) == None
  }

  ghost predicate AreRows(checks: seq<Incoming>, n: nat, rows: seq<Row>, now: int, cron: CronLibrary)
    requires n <= |checks|
  {
    && |rows| == n
    && forall i :: 0 <= i < n ==>
         var due := NextDueAt(ScheduleOf(checks[i]), now, cron);
         due.Some? && rows[i] == RowOf(checks[i], due.value)
  }

  /** Either every declared check becomes a row, or the first one at fault refuses the whole payload. */
  ghost predicate Reads(checks: seq<Incoming>, now: int, cron: CronLibrary, r: Result<seq<Row>>) {
    match r
    case Ok(rows) => Sound(checks, |checks|, now, cron) && AreRows(checks, |checks|, rows, now, cron)
    case Err(error) => exists i :: 0 <= i < |checks| && Fault(checks, i, now, cron) == Some(error) && Sound(checks, i, now, cron)
  }

  // ---- What the plan has room for --------------------------------------------------------------------------------

  /** The keys that are not there yet, in payload order. */
  function Unknown(keys: seq<string>, known: set<string>): (r: seq<string>)
    ensures |r| <= |keys|
    ensures forall k <- r :: k in keys && k !in known
    ensures forall k <- keys :: k !in known ==> k in r
  {
    if keys == [] then []
    else
      var last := keys[|keys| - 1];
      Unknown(keys[..|keys| - 1], known) + if last in known then [] else [last]
  }

  /** `applyCheckQuota`: `None` is a plan without a ceiling on checks. */
  function Skipped(keys: seq<string>, known: set<string>, remaining: Option<nat>): seq<string> {
    if remaining.None? then []
    else
      var wouldCreate := Unknown(keys, known);
      if |wouldCreate| <= remaining.value then [] else wouldCreate[remaining.value..]
  }

  function Accepted(rows: seq<Row>, skipped: seq<string>): (r: seq<Row>)
    ensures forall row <- r :: row in rows && row.key !in skipped
    ensures forall row <- rows :: row.key !in skipped ==> row in r
  {
    if rows == [] then []
    else
      var last := rows[|rows| - 1];
      Accepted(rows[..|rows| - 1], skipped) + if last.key in skipped then [] else [last]
  }

  lemma {:induction false} UnknownPrefix(keys: seq<string>, i: nat, known: set<string>)
    requires i <= |keys|
    ensures Unknown(keys[..i], known) <= Unknown(keys, known)
    decreases |keys|
  {
    if i == |keys| {
      assert keys[..i] == keys;
    } else {
      UnknownPrefix(keys[..|keys| - 1], i, known);
      assert keys[..|keys| - 1][..i] == keys[..i];
    }
  }

  lemma {:induction false} UnknownDistinct(keys: seq<string>, known: set<string>)
    requires Distinct(keys)
    ensures Distinct(Unknown(keys, known))
  {
    if keys != [] {
      var front := keys[..|keys| - 1];
      UnknownDistinct(front, known);
      assert keys[|keys| - 1] !in front;
      assert forall k <- Unknown(front, known) :: k in front;
    }
  }

  /** A key is held back exactly when it is new and as many new keys as there is room for come before it. */
  lemma {:induction false} SkippedIsTheTail(keys: seq<string>, known: set<string>, room: nat, i: nat)
    requires Distinct(keys) && i < |keys|
    ensures keys[i] in Skipped(keys, known, Some(room)) <==>
            keys[i] !in known && |Unknown(keys[..i], known)| >= room
  {
    var all := Unknown(keys, known);
    var before := Unknown(keys[..i], known);
    UnknownDistinct(keys, known);
    if keys[i] !in known {
      assert keys[..i + 1][..i] == keys[..i];
      assert Unknown(keys[..i + 1], known) == before + [keys[i]];
      UnknownPrefix(keys, i + 1, known);
      assert all[|before|] == keys[i];
      if |before| >= room {
        assert all[room..][|before| - room] == keys[i];
      }
    }
  }

  /** No more is created than there is room for, and no room is left unused while a key is held back. */
  lemma {:induction false} RoomIsUsedUp(keys: seq<string>, known: set<string>, room: nat)
    requires Distinct(keys)
    ensures var wouldCreate := Unknown(keys, known);
            var skipped := Skipped(keys, known, Some(room));
            && |Elements(wouldCreate) - Elements(skipped)| == Min(room, |wouldCreate|)
            && (skipped != [] ==> |wouldCreate| > room)
  {
    var wouldCreate := Unknown(keys, known);
    var skipped := Skipped(keys, known, Some(room));
    UnknownDistinct(keys, known);
    var kept := wouldCreate[..Min(room, |wouldCreate|)];
    assert wouldCreate == kept + skipped;
    assert Elements(wouldCreate) - Elements(skipped) == Elements(kept);
    DistinctCard(kept);
  }

  // ---- The two statements ----------------------------------------------------------------------------------------

  /** What UPSERT_SQL leaves where a row was `was`. */
  function Written(was: Option<Check>, row: Row): Check {
    match was
    case None =>
      Check(row.name, row.schedule, row.graceSeconds, row.tags, true, None, Some(row.nextDueAt), AlertTables.NEW)
    case Some(c) =>
      c.(name := row.name, schedule := row.schedule, graceSeconds := row.graceSeconds, tags := row.tags, orphanedAt := None,
         nextDueAt := if c.schedule != row.schedule then Some(row.nextDueAt) else c.nextDueAt)
  }

  function At(t: Table, id: Ident): Option<Check> {
    if id in t then Some(t[id]) else None
  }

  function Upserted(t: Table, project: string, environment: Option<string>, rows: seq<Row>): Table {
    if rows == [] then t
    else
      var last := rows[|rows| - 1];
      var id := Declared(project, environment, last.key);
      Upserted(t, project, environment, rows[..|rows| - 1])[id := Written(At(t, id), last)]
  }

  /** ORPHAN_SQL's WHERE: `keep` is every key of the payload. */
  function Missing(t: Table, project: string, environment: Option<string>, keep: seq<string>): set<Ident> {
    set id | id in t && id.Declared? && id.project == project && id.environment == environment
             && t[id].auto && t[id].orphanedAt.None? && id.key !in keep
  }

  function Flagged(t: Table, ids: set<Ident>, now: int): Table {
    map id | id in t :: if id in ids then t[id].(orphanedAt := Some(now)) else t[id]
  }

  ghost predicate InRows(id: Ident, project: string, environment: Option<string>, rows: seq<Row>) {
    id.Declared? && id.project == project && id.environment == environment && id.key in Keys(rows)
  }

  /** A row outside the payload is as it was, and a missing one stays missing. */
  lemma {:induction false} UpsertedElsewhere(t: Table, project: string, environment: Option<string>,
          rows: seq<Row>, id: Ident)
    requires !InRows(id, project, environment, rows)
    ensures At(Upserted(t, project, environment, rows), id) == At(t, id)
  {
    if rows != [] {
      var front := rows[..|rows| - 1];
      assert Keys(front) == Keys(rows)[..|rows| - 1];
      assert rows[|rows| - 1].key == Keys(rows)[|rows| - 1];
      UpsertedElsewhere(t, project, environment, front, id);
    }
  }

  /** A row of the payload is inserted, or updated, once, from what it was before the statement. */
  lemma {:induction false} UpsertedInside(t: Table, project: string, environment: Option<string>,
          rows: seq<Row>, i: nat)
    requires Distinct(Keys(rows)) && i < |rows|
    ensures var id := Declared(project, environment, rows[i].key);
            At(Upserted(t, project, environment, rows), id) == Some(Written(At(t, id), rows[i]))
  {
    var last := |rows| - 1;
    var front := rows[..last];
    assert Keys(front) == Keys(rows)[..last];
    var id := Declared(project, environment, rows[i].key);
    if i == last {
      assert Keys(rows)[last] !in Keys(front);
      UpsertedElsewhere(t, project, environment, front, id);
    } else {
      assert Keys(rows)[i] != Keys(rows)[last];
      UpsertedInside(t, project, environment, front, i);
    }
  }

  // ---- One sync --------------------------------------------------------------------------------------------------

  function OwnedOf(ids: set<Ident>, projects: set<string>): set<Ident> {
    set id | id in ids && id.project in projects
  }

  function OwnedIn(t: Table, projects: set<string>): set<Ident> {
    OwnedOf(t.Keys, projects)
  }

  /** `remainingChecks`: counted over every project of the owner, `None` without a ceiling. */
  function Remaining(t: Table, projects: set<string>, limit: Option<nat>): Option<nat> {
    if limit.None? then None else Some(Max(0, limit.value - |OwnedIn(t, projects)|))
  }

  function Known(t: Table, project: string, environment: Option<string>, keys: seq<string>): set<string> {
    set k | k in keys && Declared(project, environment, k) in t
  }

  datatype Outcome = Outcome(table: Table, created: set<string>, orphaned: set<string>, skipped: seq<string>)

  /** Whose sync it is: the project and environment, the owner's projects and the plan's ceiling on checks. */
  datatype Scope = Scope(project: string, environment: Option<string>, projects: set<string>, limit: Option<nat>)

  function HeldBack(t: Table, scope: Scope, rows: seq<Row>): seq<string> {
    Skipped(Keys(rows), Known(t, scope.project, scope.environment, Keys(rows)), Remaining(t, scope.projects, scope.limit))
  }

  function Synced(t: Table, scope: Scope, rows: seq<Row>, prune: bool, now: int): Outcome {
    var skipped := HeldBack(t, scope, rows);
    var accepted := Accepted(rows, skipped);
    var written := Upserted(t, scope.project, scope.environment, accepted);
    var missing := if prune then Missing(written, scope.project, scope.environment, Keys(rows)) else {};
    Outcome(
      Flagged(written, missing, now),
      set row | row in accepted && Declared(scope.project, scope.environment, row.key) !in t :: row.key,
      set id | id in missing && id.Declared? :: id.key,
      skipped)
  }

  /** Room ran out before the `i`th declared check, and it is not there yet. */
  ghost predicate NoRoomFor(t: Table, scope: Scope, rows: seq<Row>, i: nat)
    requires i < |rows|
  {
    && scope.limit.Some?
    && Declared(scope.project, scope.environment, rows[i].key) !in t
    && |Unknown(Keys(rows)[..i], Known(t, scope.project, scope.environment, Keys(rows)))|
       >= Remaining(t, scope.projects, scope.limit).value
  }

  lemma {:induction false} AcceptedDistinct(rows: seq<Row>, skipped: seq<string>)
    requires Distinct(Keys(rows))
    ensures Distinct(Keys(Accepted(rows, skipped)))
  {
    if rows != [] {
      var front := rows[..|rows| - 1];
      var kept := Accepted(front, skipped);
      assert Keys(front) == Keys(rows)[..|rows| - 1];
      AcceptedDistinct(front, skipped);
      forall i | 0 <= i < |kept|
        ensures kept[i].key != rows[|rows| - 1].key
      {
        assert kept[i] in front;
        var j :| 0 <= j < |front| && front[j] == kept[i];
        assert Keys(rows)[j] != Keys(rows)[|rows| - 1];
      }
    }
  }

  lemma {:induction false} HeldBackForRoom(t: Table, scope: Scope, rows: seq<Row>, i: nat)
    requires Distinct(Keys(rows)) && i < |rows|
    ensures rows[i].key in HeldBack(t, scope, rows) <==> NoRoomFor(t, scope, rows, i)
  {
    var keys := Keys(rows);
    assert keys[i] == rows[i].key;
    if scope.limit.Some? {
      SkippedIsTheTail(keys, Known(t, scope.project, scope.environment, keys), Remaining(t, scope.projects, scope.limit).value, i);
    }
  }

  lemma {:induction false} AcceptedAreWritten(t: Table, scope: Scope, rows: seq<Row>, i: nat)
    requires Distinct(Keys(rows)) && i < |rows|
    ensures var id := Declared(scope.project, scope.environment, rows[i].key);
            At(Upserted(t, scope.project, scope.environment, Accepted(rows, HeldBack(t, scope, rows))), id)
            == (if NoRoomFor(t, scope, rows, i) then None else Some(Written(At(t, id), rows[i])))
  {
    var id := Declared(scope.project, scope.environment, rows[i].key);
    var skipped := HeldBack(t, scope, rows);
    var accepted := Accepted(rows, skipped);
    HeldBackForRoom(t, scope, rows, i);
    if rows[i].key in skipped {
      UpsertedElsewhere(t, scope.project, scope.environment, accepted, id);
    } else {
      AcceptedDistinct(rows, skipped);
      assert rows[i] in accepted;
      var j :| 0 <= j < |accepted| && accepted[j] == rows[i];
      UpsertedInside(t, scope.project, scope.environment, accepted, j);
    }
  }

  /** A declared check that exists is always updated; a new one is created exactly while there is room for it. */
  lemma {:induction false} DeclaredAreWritten(t: Table, scope: Scope, rows: seq<Row>, prune: bool, now: int, i: nat)
    requires Distinct(Keys(rows)) && i < |rows|
    ensures var id := Declared(scope.project, scope.environment, rows[i].key);
            At(Synced(t, scope, rows, prune, now).table, id)
            == (if NoRoomFor(t, scope, rows, i) then None else Some(Written(At(t, id), rows[i])))
  {
    AcceptedAreWritten(t, scope, rows, i);
    assert Keys(rows)[i] == rows[i].key;
  }

  /** What the response says of a declared check is what happened to it. */
  lemma {:induction false} TheResponseIsRight(t: Table, scope: Scope, rows: seq<Row>, prune: bool, now: int, i: nat)
    requires Distinct(Keys(rows)) && i < |rows|
    ensures var r := Synced(t, scope, rows, prune, now);
            var id := Declared(scope.project, scope.environment, rows[i].key);
            && (rows[i].key in r.created <==> id !in t && id in r.table)
            && (rows[i].key in r.skipped <==> id !in t && id !in r.table)
  {
    HeldBackForRoom(t, scope, rows, i);
    DeclaredAreWritten(t, scope, rows, prune, now, i);
  }

  /** What a sync does to a row its payload does not declare. */
  function Left(c: Check, id: Ident, scope: Scope, prune: bool, now: int): Check {
    if prune && id.Declared? && id.project == scope.project && id.environment == scope.environment && c.auto && c.orphanedAt.None?
    then c.(orphanedAt := Some(now)) else c
  }

  /**
   * Outside the payload, held back keys included in it, exactly the declared checks of that environment are flagged.
   */
  lemma {:induction false} UndeclaredAreFlagged(t: Table, scope: Scope, rows: seq<Row>, prune: bool, now: int,
          id: Ident)
    requires !InRows(id, scope.project, scope.environment, rows)
    ensures At(Synced(t, scope, rows, prune, now).table, id)
            == (if id in t then Some(Left(t[id], id, scope, prune, now)) else None)
  {
    var accepted := Accepted(rows, HeldBack(t, scope, rows));
    assert !InRows(id, scope.project, scope.environment, accepted);
    UpsertedElsewhere(t, scope.project, scope.environment, accepted, id);
  }

  /** The orphans of the response are the undeclared checks this sync flagged, and no others. */
  lemma {:induction false} OrphansAreReported(t: Table, scope: Scope, rows: seq<Row>, prune: bool, now: int,
          key: string)
    ensures var id := Declared(scope.project, scope.environment, key);
            key in Synced(t, scope, rows, prune, now).orphaned <==>
            key !in Keys(rows) && id in t && Left(t[id], id, scope, prune, now) != t[id]
  {
    var id := Declared(scope.project, scope.environment, key);
    if key !in Keys(rows) {
      var accepted := Accepted(rows, HeldBack(t, scope, rows));
      assert !InRows(id, scope.project, scope.environment, accepted);
      UpsertedElsewhere(t, scope.project, scope.environment, accepted, id);
    }
  }

  // ---- The plan's ceiling ----------------------------------------------------------------------------------------

  function Fresh(scope: Scope, keys: set<string>): set<Ident> {
    set k | k in keys :: Declared(scope.project, scope.environment, k)
  }

  lemma {:induction false} UpsertedKeys(t: Table, project: string, environment: Option<string>, rows: seq<Row>)
    ensures Upserted(t, project, environment, rows).Keys == t.Keys + Fresh(Scope(project, environment, {}, None), Elements(Keys(rows)))
  {
    if rows != [] {
      UpsertedKeys(t, project, environment, rows[..|rows| - 1]);
      assert Keys(rows) == Keys(rows[..|rows| - 1]) + [rows[|rows| - 1].key];
    }
  }

  lemma {:induction false} FreshCard(scope: Scope, keys: set<string>)
    ensures |Fresh(scope, keys)| == |keys|
  {
    if keys != {} {
      var k :| k in keys;
      FreshCard(scope, keys - {k});
      assert Fresh(scope, keys) == Fresh(scope, keys - {k}) + {Declared(scope.project, scope.environment, k)};
    }
  }

  lemma FreshAdded(ids: set<Ident>, scope: Scope, keys: set<string>, created: set<string>)
    requires forall k :: k in created <==> k in keys && Declared(scope.project, scope.environment, k) !in ids
    ensures ids + Fresh(scope, keys) == ids + Fresh(scope, created) && ids !! Fresh(scope, created)
  {
  }

  lemma {:induction false} NothingElseIsCreated(t: Table, scope: Scope, rows: seq<Row>, prune: bool, now: int)
    ensures var r := Synced(t, scope, rows, prune, now);
            r.table.Keys == t.Keys + Fresh(scope, r.created) && t.Keys !! Fresh(scope, r.created)
  {
    var r := Synced(t, scope, rows, prune, now);
    var accepted := Accepted(rows, HeldBack(t, scope, rows));
    UpsertedKeys(t, scope.project, scope.environment, accepted);
    assert r.table.Keys == Upserted(t, scope.project, scope.environment, accepted).Keys;
    forall k
      ensures k in r.created <==> k in Keys(accepted) && Declared(scope.project, scope.environment, k) !in t
    {
      if k in Keys(accepted) {
        var j :| 0 <= j < |accepted| && Keys(accepted)[j] == k;
        assert accepted[j] in accepted;
      }
    }
    FreshAdded(t.Keys, scope, Elements(Keys(accepted)), r.created);
  }

  lemma OwnedGrows(ids: set<Ident>, scope: Scope, keys: set<string>)
    requires scope.project in scope.projects && ids !! Fresh(scope, keys)
    ensures |OwnedOf(ids + Fresh(scope, keys), scope.projects)| == |OwnedOf(ids, scope.projects)| + |keys|
  {
    assert OwnedOf(ids + Fresh(scope, keys), scope.projects) == OwnedOf(ids, scope.projects) + Fresh(scope, keys);
    FreshCard(scope, keys);
    CardUnion(OwnedOf(ids, scope.projects), Fresh(scope, keys));
  }

  /** The owner's checks after a sync: the ones before it, and what it created. */
  lemma {:induction false} OnlyTheCreatedAreAdded(t: Table, scope: Scope, rows: seq<Row>, prune: bool, now: int)
    requires scope.project in scope.projects
    ensures var r := Synced(t, scope, rows, prune, now);
            |OwnedIn(r.table, scope.projects)| == |OwnedIn(t, scope.projects)| + |r.created|
  {
    NothingElseIsCreated(t, scope, rows, prune, now);
    OwnedGrows(t.Keys, scope, Synced(t, scope, rows, prune, now).created);
  }

  lemma {:induction false} CreatedAreTheKeptUnknown(t: Table, scope: Scope, rows: seq<Row>, prune: bool, now: int)
    ensures var r := Synced(t, scope, rows, prune, now);
            r.created == Elements(Unknown(Keys(rows), Known(t, scope.project, scope.environment, Keys(rows)))) - Elements(r.skipped)
  {
    var r := Synced(t, scope, rows, prune, now);
    var unknown := Unknown(Keys(rows), Known(t, scope.project, scope.environment, Keys(rows)));
    forall k
      ensures k in r.created <==> k in unknown && k !in r.skipped
    {
      if k in unknown && k !in r.skipped {
        var i :| 0 <= i < |rows| && Keys(rows)[i] == k;
        assert rows[i] in Accepted(rows, r.skipped);
      }
    }
  }

  lemma HowManyAreCreated(t: Table, scope: Scope, rows: seq<Row>, prune: bool, now: int)
    requires Distinct(Keys(rows)) && scope.limit.Some?
    ensures var r := Synced(t, scope, rows, prune, now);
            var room := Remaining(t, scope.projects, scope.limit).value;
            |r.created| <= room && (r.skipped != [] ==> |r.created| == room)
  {
    CreatedAreTheKeptUnknown(t, scope, rows, prune, now);
    RoomIsUsedUp(Keys(rows), Known(t, scope.project, scope.environment, Keys(rows)),
                 Remaining(t, scope.projects, scope.limit).value);
  }

  /** A sync creates as much as there is room for and no more, whatever it declares. */
  lemma {:induction false} SyncKeepsCeiling(t: Table, scope: Scope, rows: seq<Row>, prune: bool, now: int)
    requires Distinct(Keys(rows)) && scope.project in scope.projects && scope.limit.Some?
    ensures var r := Synced(t, scope, rows, prune, now);
            var before := |OwnedIn(t, scope.projects)|;
            var after := |OwnedIn(r.table, scope.projects)|;
            && after <= Max(scope.limit.value, before)
            && (r.skipped != [] ==> after >= scope.limit.value)
  {
    OnlyTheCreatedAreAdded(t, scope, rows, prune, now);
    HowManyAreCreated(t, scope, rows, prune, now);
  }

  // ---- The same payload again ------------------------------------------------------------------------------------

  /** The same declarations, read at another time: only the deadlines computed from them differ. */
  ghost predicate SameDeclarations(a: seq<Row>, b: seq<Row>) {
    |a| == |b| && forall i :: 0 <= i < |a| ==> a[i].(nextDueAt := 0) == b[i].(nextDueAt := 0)
  }

  lemma ReadTwice(checks: seq<Incoming>, now: int, later: int, cron: CronLibrary, a: seq<Row>, b: seq<Row>)
    requires Reads(checks, now, cron, Ok(a)) && Reads(checks, later, cron, Ok(b))
    ensures SameDeclarations(a, b) && Keys(a) == Keys(b) && Distinct(Keys(a))
  {
    assert Keys(a) == Keys(b);
    forall i, j | 0 <= i < j < |a|
      ensures Keys(a)[i] != Keys(a)[j]
    {
      assert Fault(checks, j, now, cron) == None;
      assert checks[i].key == a[i].key;
    }
  }

  /** Once all but the tail of the new keys are known, the tail is what is new. */
  lemma {:induction false} UnknownOfTheRest(keys: seq<string>, known: set<string>, again: set<string>, r: nat)
    requires Distinct(keys) && r <= |Unknown(keys, known)|
    requires forall k <- keys :: k in again <==> k !in Unknown(keys, known)[r..]
    ensures Unknown(keys, again) == Unknown(keys, known)[r..]
  {
    if keys != [] {
      var front := keys[..|keys| - 1];
      var last := keys[|keys| - 1];
      var u := Unknown(keys, known);
      var uf := Unknown(front, known);
      var tail := if last in known then [] else [last];
      assert last !in front && u == uf + tail;
      if r <= |uf| {
        AddedToTheRest(uf, tail, r, last);
        forall k <- front
          ensures k in again <==> k !in uf[r..]
        {
          assert k in again <==> k !in u[r..];
        }
        UnknownOfTheRest(front, known, again, r);
        assert last in again <==> tail == [];
      } else {
        assert u[r..] == [] == uf[|uf|..];
        UnknownOfTheRest(front, known, again, |uf|);
      }
    }
  }

  lemma AddedToTheRest(s: seq<string>, tail: seq<string>, r: nat, last: string)
    requires r <= |s| && last !in s && (tail == [] || tail == [last])
    ensures (s + tail)[r..] == s[r..] + tail
    ensures forall k :: k != last ==> (k in (s + tail)[r..] <==> k in s[r..])
    ensures last in (s + tail)[r..] <==> tail == [last]
  {
    var rest := (s + tail)[r..];
    assert rest == s[r..] + tail;
    if tail == [last] {
      assert rest[|rest| - 1] == last;
    }
  }

  lemma {:induction false} WrittenTwice(was: Option<Check>, a: Row, b: Row)
    requires a.(nextDueAt := 0) == b.(nextDueAt := 0)
    ensures Written(Some(Written(was, a)), b) == Written(was, a)
  {
  }

  lemma {:induction false} KnownAfterwards(t: Table, scope: Scope, rows: seq<Row>, prune: bool, now: int, k: string)
    requires Distinct(Keys(rows)) && k in Keys(rows)
    ensures var once := Synced(t, scope, rows, prune, now);
            k in Known(once.table, scope.project, scope.environment, Keys(rows)) <==> k !in once.skipped
  {
    var i :| 0 <= i < |rows| && Keys(rows)[i] == k;
    HeldBackForRoom(t, scope, rows, i);
    DeclaredAreWritten(t, scope, rows, prune, now, i);
  }

  /** What is new the second time is what was held back the first time, and it is held back again. */
  lemma {:induction false} HeldBackAgain(t: Table, scope: Scope, rows: seq<Row>, prune: bool, now: int)
    requires Distinct(Keys(rows)) && scope.project in scope.projects
    ensures var once := Synced(t, scope, rows, prune, now);
            && Unknown(Keys(rows), Known(once.table, scope.project, scope.environment, Keys(rows))) == once.skipped
            && HeldBack(once.table, scope, rows) == once.skipped
  {
    var once := Synced(t, scope, rows, prune, now);
    var keys := Keys(rows);
    var known := Known(t, scope.project, scope.environment, keys);
    var again := Known(once.table, scope.project, scope.environment, keys);
    var r := |Unknown(keys, known)| - |once.skipped|;
    assert once.skipped == Unknown(keys, known)[r..];
    forall k <- keys
      ensures k in again <==> k !in once.skipped
    {
      KnownAfterwards(t, scope, rows, prune, now, k);
    }
    UnknownOfTheRest(keys, known, again, r);
    NothingMoreFits(t, scope, rows, prune, now);
  }

  lemma NothingMoreFits(t: Table, scope: Scope, rows: seq<Row>, prune: bool, now: int)
    requires Distinct(Keys(rows)) && scope.project in scope.projects
    ensures var once := Synced(t, scope, rows, prune, now);
            var room := Remaining(once.table, scope.projects, scope.limit);
            once.skipped == [] || room == Some(0)
  {
    if scope.limit.Some? {
      SyncKeepsCeiling(t, scope, rows, prune, now);
    }
  }

  /**
   * Repeating a payload, read at whatever later time, creates nothing, flags nothing, moves no deadline, holds back
   * the same.
   */
  lemma {:induction false} SyncIsIdempotent(t: Table, scope: Scope, rows: seq<Row>, again: seq<Row>,
          prune: bool, now: int, later: int)
    requires Distinct(Keys(rows)) && scope.project in scope.projects && SameDeclarations(rows, again)
    ensures var once := Synced(t, scope, rows, prune, now);
            Synced(once.table, scope, again, prune, later) == Outcome(once.table, {}, {}, once.skipped)
  {
    var once := Synced(t, scope, rows, prune, now);
    var twice := Synced(once.table, scope, again, prune, later);
    assert Keys(again) == Keys(rows);
    NothingNewTheSecondTime(t, scope, rows, again, prune, now, later);
    forall key
      ensures key !in twice.orphaned
    {
      OrphansAreReported(once.table, scope, again, prune, later, key);
      UndeclaredUnlessInRows(t, scope, rows, prune, now, key);
    }
    forall id
      ensures At(twice.table, id) == At(once.table, id)
    {
      SyncedTwiceAt(t, scope, rows, again, prune, now, later, id);
    }
    SameEverywhere(twice.table, once.table);
  }

  lemma NothingNewTheSecondTime(t: Table, scope: Scope, rows: seq<Row>, again: seq<Row>, prune: bool, now: int,
          later: int)
    requires Distinct(Keys(rows)) && scope.project in scope.projects && Keys(rows) == Keys(again)
    ensures var once := Synced(t, scope, rows, prune, now);
            var twice := Synced(once.table, scope, again, prune, later);
            twice.created == {} && twice.skipped == once.skipped
  {
    var once := Synced(t, scope, rows, prune, now);
    HeldBackAgain(t, scope, rows, prune, now);
    CreatedAreTheKeptUnknown(once.table, scope, again, prune, later);
  }

  lemma {:induction false} UndeclaredUnlessInRows(t: Table, scope: Scope, rows: seq<Row>, prune: bool, now: int,
          key: string)
    ensures var id := Declared(scope.project, scope.environment, key);
            var once := Synced(t, scope, rows, prune, now).table;
            key !in Keys(rows) && id in once ==> Left(once[id], id, scope, prune, now) == once[id]
  {
    var id := Declared(scope.project, scope.environment, key);
    if key !in Keys(rows) {
      UndeclaredAreFlagged(t, scope, rows, prune, now, id);
    }
  }

  lemma {:induction false} DeclaredTwiceAt(t: Table, scope: Scope, rows: seq<Row>, again: seq<Row>, prune: bool,
          now: int, later: int, i: nat)
    requires Distinct(Keys(rows)) && scope.project in scope.projects && SameDeclarations(rows, again) && i < |rows|
    ensures var once := Synced(t, scope, rows, prune, now).table;
            var id := Declared(scope.project, scope.environment, rows[i].key);
            At(Synced(once, scope, again, prune, later).table, id) == At(once, id)
  {
    var once := Synced(t, scope, rows, prune, now);
    assert Keys(again) == Keys(rows);
    DeclaredAreWritten(t, scope, rows, prune, now, i);
    TheResponseIsRight(t, scope, rows, prune, now, i);
    DeclaredAreWritten(once.table, scope, again, prune, later, i);
    TheResponseIsRight(once.table, scope, again, prune, later, i);
    HeldBackAgain(t, scope, rows, prune, now);
    WrittenTwice(At(t, Declared(scope.project, scope.environment, rows[i].key)), rows[i], again[i]);
  }

  lemma {:induction false} SyncedTwiceAt(
      t: Table, scope: Scope, rows: seq<Row>, again: seq<Row>, prune: bool, now: int, later: int, id: Ident)
    requires Distinct(Keys(rows)) && scope.project in scope.projects && SameDeclarations(rows, again)
    ensures var once := Synced(t, scope, rows, prune, now).table;
            At(Synced(once, scope, again, prune, later).table, id) == At(once, id)
  {
    assert Keys(again) == Keys(rows);
    if InRows(id, scope.project, scope.environment, rows) {
      var i :| 0 <= i < |rows| && Keys(rows)[i] == id.key;
      DeclaredTwiceAt(t, scope, rows, again, prune, now, later, i);
    } else {
      UndeclaredAreFlagged(t, scope, rows, prune, now, id);
      UndeclaredAreFlagged(Synced(t, scope, rows, prune, now).table, scope, again, prune, later, id);
    }
  }

  lemma SameEverywhere(a: Table, b: Table)
    requires forall id :: At(a, id) == At(b, id)
    ensures a == b
  {
    forall id
      ensures id in a <==> id in b
      ensures id in a ==> a[id] == b[id]
    {
      assert At(a, id) == At(b, id);
    }
  }
}
