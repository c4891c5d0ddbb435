/** Editing a check by hand: its fields, its schedule, pausing and resuming. */
module ChecksService {
  import opened Prelude
  import opened Schedules
  import AlertTables
  import QuotaLaws

  type CheckId = nat

  datatype Row = Row(
    name: string,
    pingKey: string,
    schedule: Schedule,
    graceSeconds: int,
    environment: Option<string>,
    tags: seq<string>,
    description: Option<string>,
    state: AlertTables.CheckState,
    quotaPaused: bool,
    nextDueAt: Option<int>)

  datatype ScheduleInput = ScheduleInput(
    isCron: bool,
    periodSeconds: Option<int>,
    cronExpression: Option<string>,
    timezone: Option<string>)

  /** An absent field is left as it is; `Some(None)` sets one to null. */
  datatype Request = Request(
    name: Option<string>,
    graceSeconds: Option<int>,
    environment: Option<Option<string>>,
    tags: Option<seq<string>>,
    description: Option<Option<string>>,
    schedule: Option<ScheduleInput>,
    paused: Option<bool>)

  const RESUME := Request(None, None, None, None, None, None, Some(false))

  datatype Answer = Updated(row: Row) | NotFound | BadSchedule

  /** `toSchedule`. */
  function ToSchedule(input: ScheduleInput): Schedule {
    var zone := if input.timezone.Some? then input.timezone.value else "UTC";
    if input.isCron then Schedule(false, None, input.cronExpression, zone)
    else Schedule(true, input.periodSeconds, None, zone)
  }

  function Or<T>(o: Option<T>, otherwise: T): T {
    if o.Some? then o.value else otherwise
  }

  /** Resuming restarts the clock, of a check that is paused. */
  predicate Resumes(row: Row, input: Request) {
    input.paused == Some(false) && row.state == AlertTables.PAUSED
  }

  function ScheduleAfter(row: Row, input: Request): Schedule {
    if input.schedule.Some? then ToSchedule(input.schedule.value) else row.schedule
  }

  function StateAfter(row: Row, input: Request): AlertTables.CheckState {
    if input.paused == Some(true) then AlertTables.PAUSED
    else if Resumes(row, input) then AlertTables.NEW
    else row.state
  }

  /** The row after an edit: `None` is a schedule that cannot be evaluated. */
  function Edited(row: Row, input: Request, now: int, cron: CronLibrary): Option<Row> {
    var moves := input.schedule.Some? || Resumes(row, input);
    var due := NextDueAt(ScheduleAfter(row, input), now, cron);
    if moves && due.None? then None
    else
      Some(Row(
             Or(input.name, row.name), row.pingKey, ScheduleAfter(row, input), Or(input.graceSeconds, row.graceSeconds),
             Or(input.environment, row.environment), Or(input.tags, row.tags), Or(input.description, row.description),
             StateAfter(row, input), row.quotaPaused, if moves then due else row.nextDueAt))
  }

  // ---- In the fields of the request and the columns of the row ----------------------------------------------------

  /** The first deadline after `at`: a period later, or when the cron library says. `None` if there is none. */
  predicate IsDeadline(due: Option<int>, isCron: bool, period: Option<int>, expression: Option<string>, zone: string,
          at: int, cron: CronLibrary)
  {
    if isCron then due == if expression.None? || expression.value == "" then None else cron(expression.value, zone, at)
    else due == if period.None? || period.value <= 0 then None else Some(at + 1000 * period.value)
  }

  /** The deadline of the schedule that was asked for, or of the one the row has. */
  predicate IsDeadlineAfter(due: Option<int>, row: Row, input: Request, at: int, cron: CronLibrary) {
    match input.schedule
    case Some(s) =>
      IsDeadline(due, s.isCron, s.periodSeconds, s.cronExpression, if s.timezone.Some? then s.timezone.value else "UTC", at, cron)
    case None =>
      IsDeadline(due, !row.schedule.isInterval, row.schedule.periodSeconds, row.schedule.cronExpression, row.schedule.timezone,
                 at, cron)
  }

  /** A new schedule starts the clock, and so does resuming a check that is paused. */
  predicate StartsClock(row: Row, input: Request) {
    input.schedule.Some? || (input.paused == Some(false) && row.state == AlertTables.PAUSED)
  }

  predicate HasSchedule(schedule: Schedule, asked: ScheduleInput) {
    && schedule.isInterval == !asked.isCron
    && schedule.periodSeconds == (if asked.isCron then None else asked.periodSeconds)
    && schedule.cronExpression == (if asked.isCron then asked.cronExpression else None)
    && schedule.timezone == (if asked.timezone.Some? then asked.timezone.value else "UTC")
  }

  /** What was asked for is as asked, the rest as it was; pausing wins over everything, and resuming makes it NEW. */
  predicate IsAsAsked(was: Row, row: Row, input: Request, at: int, cron: CronLibrary) {
    && row.name == (if input.name.Some? then input.name.value else was.name)
    && row.graceSeconds == (if input.graceSeconds.Some? then input.graceSeconds.value else was.graceSeconds)
    && row.environment == (if input.environment.Some? then input.environment.value else was.environment)
    && row.tags == (if input.tags.Some? then input.tags.value else was.tags)
    && row.description == (if input.description.Some? then input.description.value else was.description)
    && row.pingKey == was.pingKey && row.quotaPaused == was.quotaPaused
    && (if input.schedule.Some? then HasSchedule(row.schedule, input.schedule.value) else row.schedule == was.schedule)
    && (if StartsClock(was, input) then row.nextDueAt.Some? && IsDeadlineAfter(row.nextDueAt, was, input, at, cron)
        else row.nextDueAt == was.nextDueAt)
    && (match input.paused
        case Some(true) => row.state == AlertTables.PAUSED
        case Some(false) => row.state == if was.state == AlertTables.PAUSED then AlertTables.NEW else was.state
        case None => row.state == was.state)
  }

  lemma EditedAsAsked(row: Row, input: Request, at: int, cron: CronLibrary)
    ensures Edited(row, input, at, cron).None? <==> StartsClock(row, input) && IsDeadlineAfter(None, row, input, at, cron)
    ensures Edited(row, input, at, cron).Some? ==> IsAsAsked(row, Edited(row, input, at, cron).value, input, at, cron)
  {
  }

  /** What the quota reconciler sees of a check. */
  function AsOwned(row: Row): QuotaLaws.Owned {
    QuotaLaws.Owned(row.name, row.state, row.quotaPaused, row.nextDueAt)
  }

  /** Resuming a check by hand is what the reconciler's laws take it to be: the reason of a quota pause stays. */
  lemma {:induction false} ResumingKeepsTheReason(row: Row, now: int, cron: CronLibrary)
    requires row.state == AlertTables.PAUSED && NextDueAt(row.schedule, now, cron).Some?
    ensures Edited(row, RESUME, now, cron).Some?
    ensures AsOwned(Edited(row, RESUME, now, cron).value)
            == QuotaLaws.ResumedByHand(AsOwned(row), NextDueAt(row.schedule, now, cron).value)
  {
  }

  // ---- The service -----------------------------------------------------------------------------------------------

  class ChecksService {
    var checks: map<CheckId, Row>
    const cron: CronLibrary
    /** The ping keys dropped from the ingestion cache, in order. */
    var invalidated: seq<string>

    constructor (checks: map<CheckId, Row>, cron: CronLibrary)
      ensures this.checks == checks && this.cron == cron && invalidated == []
    {
      this.checks, this.cron, invalidated := checks, cron, [];
    }

    /** The fields that are copied as they come. */
    method Describe(existing: Row, input: Request) returns (data: Row)
      ensures data == existing.(
                name := Or(input.name, existing.name), graceSeconds := Or(input.graceSeconds, existing.graceSeconds),
                environment := Or(input.environment, existing.environment), tags := Or(input.tags, existing.tags),
                description := Or(input.description, existing.description))
    {
      data := existing;
      if input.name.Some? {
        data := data.(name := input.name.value);
      }
      if input.graceSeconds.Some? {
        data := data.(graceSeconds := input.graceSeconds.value);
      }
      if input.environment.Some? {
        data := data.(environment := input.environment.value);
      }
      if input.tags.Some? {
        data := data.(tags := input.tags.value);
      }
      if input.description.Some? {
        data := data.(description := input.description.value);
      }
    }

    /** `update`: a request at fault writes nothing and drops nothing from the cache. */
    method Update(id: CheckId, input: Request, now: int) returns (answer: Answer)
      modifies this
      ensures answer.NotFound? <==> id !in old(checks)
      ensures answer.BadSchedule? <==> id in old(checks) && Edited(old(checks)[id], input, now, cron).None?
      ensures !answer.Updated? ==> checks == old(checks) && invalidated == old(invalidated)
      ensures answer.Updated? ==>
                && Edited(old(checks)[id], input, now, cron) == Some(answer.row)
                && checks == old(checks)[id := answer.row]
                && invalidated == old(invalidated) + [answer.row.pingKey]
      ensures answer.BadSchedule? <==>
                id in old(checks) && StartsClock(old(checks)[id], input)
                && IsDeadlineAfter(None, old(checks)[id], input, now, cron)
      ensures answer.Updated? ==> IsAsAsked(old(checks)[id], answer.row, input, now, cron)
    {
      if id !in checks {
        return NotFound;
      }
      var existing := checks[id];
      EditedAsAsked(existing, input, now, cron);
      var data := Describe(existing, input);
      if input.schedule.Some? {
        var schedule := ToSchedule(input.schedule.value);
        var due := NextDueAt(schedule, now, cron);
        if due.None? {
          return BadSchedule;
        }
        data := data.(schedule := schedule, nextDueAt := due);
      }
      if input.paused.Some? {
        if input.paused.value {
          data := data.(state := AlertTables.PAUSED);
        } else if existing.state == AlertTables.PAUSED {
          var due := NextDueAt(data.schedule, now, cron);
          if due.None? {
            return BadSchedule;
          }
          data := data.(state := AlertTables.NEW, nextDueAt := due);
        }
      }
      checks := checks[id := data];
      invalidated := invalidated + [data.pingKey];
      return Updated(data);
    }
  }
}
