/** The repeating task behind detection, delivery and quota enforcement. */
module IntervalRunner {
  import opened Prelude

  /** `Settling` is the moment after the task ended and before the promise it belongs to is forgotten. */
  datatype Current = Idle | Running(startedAt: int) | Settling

  datatype Span = Span(startedAt: int, endedAt: int)

  ghost predicate OneAfterTheOther(spans: seq<Span>) {
    && (forall i :: 0 <= i < |spans| ==> spans[i].startedAt <= spans[i].endedAt)
    && (forall i, j :: 0 <= i < j < |spans| ==> spans[i].endedAt <= spans[j].startedAt)
  }

  class IntervalRunner {
    var current: Current
    var ticks: nat
    var failures: nat
    var skipped: nat
    var lastError: Option<string>
    var lastSuccessAt: Option<int>

    ghost var calls: nat
    ghost var starts: nat
    /** The ticks that ended. */
    ghost var spans: seq<Span>
    ghost var clock: int

    ghost predicate Valid()
      reads this
    {
      && calls == starts + skipped
      && starts == ticks + failures + (if current.Running? then 1 else 0)
      && |spans| == ticks + failures
      && OneAfterTheOther(spans)
      && (forall i :: 0 <= i < |spans| ==> spans[i].endedAt <= clock)
      && (current.Running? ==> current.startedAt <= clock
                               && forall i :: 0 <= i < |spans| ==> spans[i].endedAt <= current.startedAt)
    }

    constructor ()
      ensures Valid() && current == Idle && ticks == failures == skipped == calls == starts == 0 && clock == 0
    {
      current, ticks, failures, skipped, lastError, lastSuccessAt := Idle, 0, 0, 0, None, None;
      calls, starts, spans, clock := 0, 0, [], 0;
    }

    /** Starts a tick, or joins the one in flight. */
    method Run(now: int) returns (joined: bool)
      requires Valid() && clock <= now
      modifies this`current, this`skipped, this`calls, this`starts, this`clock
      ensures Valid() && clock == now && calls == old(calls) + 1
      ensures joined <==> !old(current).Idle?
      ensures joined ==> current == old(current) && starts == old(starts) && skipped == old(skipped) + 1
      ensures !joined ==> current == Running(now) && starts == old(starts) + 1 && skipped == old(skipped)
    {
      calls := calls + 1;
      clock := now;
      if !current.Idle? {
        skipped := skipped + 1;
        return true;
      }
      starts := starts + 1;
      current := Running(now);
      return false;
    }

    /** The end of `execute`: the task came back, or threw `error`. Either way the loop goes on. */
    method Complete(error: Option<string>, now: int)
      requires Valid() && current.Running? && clock <= now
      modifies this`current, this`ticks, this`failures, this`lastError, this`lastSuccessAt, this`spans, this`clock
      ensures Valid() && clock == now && current == Settling
      ensures spans == old(spans) + [Span(old(current).startedAt, now)]
      ensures error.None? ==> ticks == old(ticks) + 1 && failures == old(failures) && lastError == None && lastSuccessAt == Some(now)
      ensures error.Some? ==> ticks == old(ticks) && failures == old(failures) + 1 && lastError == error
                              && lastSuccessAt == old(lastSuccessAt)
    {
      if error.None? {
        ticks := ticks + 1;
        lastSuccessAt := Some(now);
        lastError := None;
      } else {
        failures := failures + 1;
        lastError := error;
      }
      spans := spans + [Span(current.startedAt, now)];
      current := Settling;
      clock := now;
    }

    /** The `finally` of `run`. */
    method Forget()
      requires Valid() && current.Settling?
      modifies this`current
      ensures Valid() && current == Idle
    {
      current := Idle;
    }
  }
}
