/**
 * One check under everything that happens to it: edits, heartbeats, detection, the quota reconciler, declarations. A
 * check that is not paused and has no deadline is watched by nobody, and this says exactly how it comes to that.
 */
module WatchHistory {
  import opened Prelude
  import opened Schedules
  import AlertTables
  import opened ChecksService
  import CheckSyncLaws
  import QuotaLaws

  datatype Event =
    /** `None` is no deadline: the schedule it came with could not be evaluated. */
    | Heartbeat(kind: AlertTables.PingKind, receivedAt: int, due: Option<int>)
    | Edit(input: Request, at: int)
    | Detection(at: int)
    | QuotaPause
    | QuotaResume
    | Sync(declared: CheckSyncLaws.Row)

  function AsAlerting(row: Row): AlertTables.Check {
    AlertTables.Check(0, Max(0, row.graceSeconds), row.state, None, None, row.nextDueAt)
  }

  function AsDeclared(row: Row): CheckSyncLaws.Check {
    CheckSyncLaws.Check(row.name, row.schedule, row.graceSeconds, row.tags, true, None, row.nextDueAt, row.state)
  }

  function WithOwned(row: Row, c: QuotaLaws.Owned): Row {
    row.(state := c.state, quotaPaused := c.quotaPaused, nextDueAt := c.nextDueAt)
  }

  function WithDeclared(row: Row, c: CheckSyncLaws.Check): Row {
    row.(name := c.name, schedule := c.schedule, graceSeconds := c.graceSeconds, tags := c.tags, nextDueAt := c.nextDueAt,
         state := c.state)
  }

  /** The row after the event; an edit that is refused, and a statement that does not match, leave it. */
  function After(row: Row, e: Event, cron: CronLibrary): Row {
    match e
    case Heartbeat(kind, receivedAt, due) =>
      var c := AlertTables.Ingested(AsAlerting(row), kind, receivedAt, due);
      row.(state := c.state, nextDueAt := c.nextDueAt)
    case Edit(input, at) => Or(Edited(row, input, at, cron), row)
    case Detection(at) =>
      if AlertTables.Due(AsAlerting(row), at) then row.(state := AlertTables.Advanced(AsAlerting(row), at).state) else row
    case QuotaPause => if row.quotaPaused then row else WithOwned(row, QuotaLaws.Stopped(AsOwned(row)))
    case QuotaResume => if row.quotaPaused then WithOwned(row, QuotaLaws.Revived(AsOwned(row))) else row
    case Sync(declared) => WithDeclared(row, CheckSyncLaws.Written(Some(AsDeclared(row)), declared))
  }

  ghost predicate IsHistory(rows: seq<Row>, events: seq<Event>, cron: CronLibrary) {
    |rows| == |events| + 1 && forall i :: 0 <= i < |events| ==> Happens(rows, events, cron, i)
  }

  ghost predicate Happens(rows: seq<Row>, events: seq<Event>, cron: CronLibrary, i: nat)
    requires i < |events| < |rows|
  {
    rows[i + 1] == After(rows[i], events[i], cron)
  }

  /** A check that is not paused has a deadline, so that detection will find it. */
  predicate IsWatched(row: Row) {
    row.state == AlertTables.PAUSED || row.nextDueAt.Some?
  }

  /** A heartbeat whose schedule gives no deadline, or a plan giving back a check that has none. */
  predicate Loses(row: Row, e: Event) {
    || (e.Heartbeat? && e.kind != AlertTables.Start && e.due.None? && row.state != AlertTables.PAUSED)
    || (e.QuotaResume? && row.quotaPaused && row.nextDueAt.None?)
  }

  predicate Accepted(row: Row, e: Event, cron: CronLibrary) {
    e.Edit? && Edited(row, e.input, e.at, cron).Some?
  }

  /** The event gives the row a deadline of its own. */
  predicate SetsDeadline(row: Row, e: Event, cron: CronLibrary) {
    || (e.Heartbeat? && e.kind != AlertTables.Start && e.due.Some? && row.state != AlertTables.PAUSED)
    || (Accepted(row, e, cron) && (e.input.schedule.Some? || Resumes(row, e.input)))
    || (e.Sync? && e.declared.schedule != row.schedule)
  }

  predicate Pauses(row: Row, e: Event, cron: CronLibrary) {
    (Accepted(row, e, cron) && e.input.paused == Some(true)) || (e.QuotaPause? && !row.quotaPaused)
  }

  lemma EventDecides(row: Row, e: Event, cron: CronLibrary)
    ensures IsWatched(After(row, e, cron)) <==>
            SetsDeadline(row, e, cron) || Pauses(row, e, cron) || (IsWatched(row) && !Loses(row, e))
  {
  }

  /** Event `k` took the deadline away, and nothing up to event `j` gave one or paused the check. */
  ghost predicate LostAt(rows: seq<Row>, events: seq<Event>, cron: CronLibrary, k: nat, j: nat)
    requires k < j <= |events| < |rows|
  {
    && Loses(rows[k], events[k])
    && forall m :: k < m < j ==> !SetsDeadline(rows[m], events[m], cron) && !Pauses(rows[m], events[m], cron)
  }

  /**
   * Over any history of a check that starts out watched: it runs without being watched exactly when some heartbeat or
   * some plan took its deadline away and nothing since gave it one or paused it.
   */
  lemma {:induction false} UnwatchedWhen(rows: seq<Row>, events: seq<Event>, cron: CronLibrary, j: nat)
    requires IsHistory(rows, events, cron) && j < |rows| && IsWatched(rows[0])
    ensures !IsWatched(rows[j]) <==> exists k :: 0 <= k < j && LostAt(rows, events, cron, k, j)
    decreases j
  {
    if j > 0 {
      UnwatchedWhen(rows, events, cron, j - 1);
      assert Happens(rows, events, cron, j - 1);
      EventDecides(rows[j - 1], events[j - 1], cron);
      if !IsWatched(rows[j]) {
        if Loses(rows[j - 1], events[j - 1]) {
          assert LostAt(rows, events, cron, j - 1, j);
        } else {
          var k :| 0 <= k < j - 1 && LostAt(rows, events, cron, k, j - 1);
          assert LostAt(rows, events, cron, k, j);
        }
      }
      forall k | 0 <= k < j && LostAt(rows, events, cron, k, j)
        ensures !IsWatched(rows[j])
      {
        assert k < j - 1 ==> LostAt(rows, events, cron, k, j - 1);
        StillLost(rows, events, cron, k, j);
      }
    }
  }

  lemma StillLost(rows: seq<Row>, events: seq<Event>, cron: CronLibrary, k: nat, j: nat)
    requires IsHistory(rows, events, cron) && k < j < |rows| && LostAt(rows, events, cron, k, j)
    requires k < j - 1 ==> !IsWatched(rows[j - 1])
    ensures !IsWatched(rows[j])
  {
    assert Happens(rows, events, cron, j - 1);
    EventDecides(rows[j - 1], events[j - 1], cron);
    if k == j - 1 {
      LosingIsNotScheduling(rows[k], events[k], cron);
    }
  }

  lemma LosingIsNotScheduling(row: Row, e: Event, cron: CronLibrary)
    requires Loses(row, e)
    ensures !SetsDeadline(row, e, cron) && !Pauses(row, e, cron)
  {
  }

  /** A pause by the plan takes the deadline, and no event but the ones that schedule brings one back. */
  lemma {:induction false} StaysWithout(rows: seq<Row>, events: seq<Event>, cron: CronLibrary, a: nat, b: nat)
    requires IsHistory(rows, events, cron) && a < b <= |events|
    requires events[a] == QuotaPause && !rows[a].quotaPaused
    requires forall m :: a < m < b ==> !SetsDeadline(rows[m], events[m], cron)
    ensures rows[b].nextDueAt.None?
    decreases b
  {
    assert Happens(rows, events, cron, b - 1);
    if a < b - 1 {
      StaysWithout(rows, events, cron, a, b - 1);
      assert !SetsDeadline(rows[b - 1], events[b - 1], cron);
    }
  }

  /**
   * So every check that a plan paused and gives back is unwatched, unless it was given a deadline in between, and it
   * stays so until it is given one or paused again.
   */
  lemma GivenBackUnwatched(rows: seq<Row>, events: seq<Event>, cron: CronLibrary, a: nat, b: nat, j: nat)
    requires IsHistory(rows, events, cron) && a < b < j <= |events| && IsWatched(rows[0])
    requires events[a] == QuotaPause && !rows[a].quotaPaused && events[b] == QuotaResume && rows[b].quotaPaused
    requires forall m :: a < m < b ==> !SetsDeadline(rows[m], events[m], cron)
    requires forall m :: b < m < j ==> !SetsDeadline(rows[m], events[m], cron) && !Pauses(rows[m], events[m], cron)
    ensures !IsWatched(rows[j])
  {
    StaysWithout(rows, events, cron, a, b);
    assert LostAt(rows, events, cron, b, j);
    UnwatchedWhen(rows, events, cron, j);
  }

  // ---- Which event the deadline and the schedule are of ------------------------------------------------------------

  /** The deadline this event writes: `None` if it writes none, `Some(None)` if it takes the deadline away. */
  ghost predicate WritesDeadline(row: Row, e: Event, cron: CronLibrary, due: Option<int>) {
    match e
    case Heartbeat(kind, _, given) => kind != AlertTables.Start && row.state != AlertTables.PAUSED && due == given
    case Edit(input, at) => StartsClock(row, input) && due.Some? && IsDeadlineAfter(due, row, input, at, cron)
    case QuotaPause => !row.quotaPaused && due == None
    case Sync(declared) => declared.schedule != row.schedule && due == Some(declared.nextDueAt)
    case _ => false
  }

  ghost predicate WritesNoDeadline(row: Row, e: Event, cron: CronLibrary) {
    forall due :: !WritesDeadline(row, e, cron, due)
  }

  lemma WritesOrKeeps(row: Row, e: Event, cron: CronLibrary)
    ensures WritesDeadline(row, e, cron, After(row, e, cron).nextDueAt) || After(row, e, cron).nextDueAt == row.nextDueAt
    ensures forall due :: WritesDeadline(row, e, cron, due) ==> After(row, e, cron).nextDueAt == due
    ensures WritesNoDeadline(row, e, cron) ==> After(row, e, cron).nextDueAt == row.nextDueAt
  {
    if e.Edit? {
      EditedAsAsked(row, e.input, e.at, cron);
    }
  }

  /** The event is the latest before row `j` that wrote a deadline. */
  ghost predicate IsLatestDeadline(rows: seq<Row>, events: seq<Event>, cron: CronLibrary, j: nat, k: nat,
          due: Option<int>)
    requires j <= |events| < |rows|
  {
    && k < j && WritesDeadline(rows[k], events[k], cron, due)
    && forall m :: k < m < j ==> WritesNoDeadline(rows[m], events[m], cron)
  }

  /** The deadline of a check is always that of the latest event that wrote one. */
  lemma {:induction false} DeadlineIsOfTheLatest(rows: seq<Row>, events: seq<Event>, cron: CronLibrary, j: nat, k: nat,
          due: Option<int>)
    requires IsHistory(rows, events, cron) && j < |rows| && IsLatestDeadline(rows, events, cron, j, k, due)
    ensures rows[j].nextDueAt == due
    decreases j
  {
    assert Happens(rows, events, cron, j - 1);
    WritesOrKeeps(rows[j - 1], events[j - 1], cron);
    if k < j - 1 {
      assert IsLatestDeadline(rows, events, cron, j - 1, k, due);
      DeadlineIsOfTheLatest(rows, events, cron, j - 1, k, due);
      assert WritesNoDeadline(rows[j - 1], events[j - 1], cron);
    }
  }

  /** The schedule this event gives the row. */
  ghost predicate GivesSchedule(row: Row, e: Event, cron: CronLibrary, schedule: Schedule) {
    match e
    case Edit(input, _) => Accepted(row, e, cron) && input.schedule.Some? && HasSchedule(schedule, input.schedule.value)
    case Sync(declared) => schedule == declared.schedule
    case _ => false
  }

  ghost predicate GivesNoSchedule(row: Row, e: Event, cron: CronLibrary) {
    forall schedule :: !GivesSchedule(row, e, cron, schedule)
  }

  ghost predicate IsLatestSchedule(rows: seq<Row>, events: seq<Event>, cron: CronLibrary, j: nat, k: nat,
          schedule: Schedule)
    requires j <= |events| < |rows|
  {
    && k < j && GivesSchedule(rows[k], events[k], cron, schedule)
    && forall m :: k < m < j ==> GivesNoSchedule(rows[m], events[m], cron)
  }

  lemma GivesOrKeeps(row: Row, e: Event, cron: CronLibrary)
    ensures forall schedule :: GivesSchedule(row, e, cron, schedule) ==> After(row, e, cron).schedule == schedule
    ensures GivesNoSchedule(row, e, cron) ==> After(row, e, cron).schedule == row.schedule
  {
    if e.Edit? {
      EditedAsAsked(row, e.input, e.at, cron);
    }
    if e.Sync? || (Accepted(row, e, cron) && e.input.schedule.Some?) {
      assert GivesSchedule(row, e, cron, After(row, e, cron).schedule);
    }
  }

  /** And its schedule that of the latest accepted edit or declaration that gave one. */
  lemma {:induction false} ScheduleIsOfTheLatest(rows: seq<Row>, events: seq<Event>, cron: CronLibrary, j: nat, k: nat,
          schedule: Schedule)
    requires IsHistory(rows, events, cron) && j < |rows| && IsLatestSchedule(rows, events, cron, j, k, schedule)
    ensures rows[j].schedule == schedule
    decreases j
  {
    assert Happens(rows, events, cron, j - 1);
    GivesOrKeeps(rows[j - 1], events[j - 1], cron);
    if k < j - 1 {
      assert IsLatestSchedule(rows, events, cron, j - 1, k, schedule);
      ScheduleIsOfTheLatest(rows, events, cron, j - 1, k, schedule);
      assert GivesNoSchedule(rows[j - 1], events[j - 1], cron);
    }
  }
}
