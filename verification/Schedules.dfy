/** When the next heartbeat is expected. */
module Schedules {
  import opened Prelude

  /** The row's columns, nullable as they are in the table. */
  datatype Schedule = Schedule(
    isInterval: bool,
    periodSeconds: Option<int>,
    cronExpression: Option<string>,
    timezone: string)

  /** The cron library: expression, time zone, start. `None` is an expression or zone it refuses. */
  type CronLibrary = (string, string, int) -> Option<int>

  /** `None` stands for the InvalidScheduleError. Instants are in milliseconds. */
  function NextDueAt(s: Schedule, from: int, cron: CronLibrary): Option<int> {
    if s.isInterval then
      if s.periodSeconds.None? || s.periodSeconds.value <= 0 then None
      else Some(from + s.periodSeconds.value * 1000)
    else if s.cronExpression.None? || s.cronExpression.value == "" then None
    else cron(s.cronExpression.value, s.timezone, from)
  }

  function Every(periodSeconds: int): Schedule {
    Schedule(true, Some(periodSeconds), None, "UTC")
  }
}
