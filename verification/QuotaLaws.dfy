/** What one pass of the quota reconciler does to the checks of one owner, oldest first. */
module QuotaLaws {
  import opened Prelude
  import opened AlertTables

  /** `quotaPaused` is `paused_reason = 'quota'`, the only reason there is. */
  datatype Owned = Owned(name: string, state: CheckState, quotaPaused: bool, nextDueAt: Option<int>)

  /** `limitsFor(plan).checks`: no ceiling with quotas off, without a plan, or with a plan nobody configured. */
  function LimitFor(enabled: bool, plan: Option<string>, plans: map<string, Option<nat>>): Option<nat> {
    if !enabled || plan.None? then None
    else if plan.value in plans then plans[plan.value] else None
  }

  function Active(s: seq<Owned>): (n: nat)
    ensures n <= |s|
  {
    if s == [] then 0 else Active(s[..|s| - 1]) + if s[|s| - 1].quotaPaused then 0 else 1
  }

  function Stopped(c: Owned): Owned {
    c.(state := PAUSED, quotaPaused := true, nextDueAt := None)
  }

  /** Back to NEW, and the deadline is left as it is. */
  function Revived(c: Owned): Owned {
    c.(state := NEW, quotaPaused := false)
  }

  /** `pauseExcess`: the newest `count` checks without a reason, whatever their state. */
  function PauseNewest(s: seq<Owned>, count: nat): (r: seq<Owned>)
    ensures |r| == |s|
  {
    if s == [] || count == 0 then s
    else
      var front, last := s[..|s| - 1], s[|s| - 1];
      if last.quotaPaused then PauseNewest(front, count) + [last]
      else PauseNewest(front, count - 1) + [Stopped(last)]
  }

  /** `resume`: of those quota paused, the oldest `room`. */
  function ResumeOldest(s: seq<Owned>, room: nat): (r: seq<Owned>)
    ensures |r| == |s|
  {
    if s == [] then []
    else
      var front, last := s[..|s| - 1], s[|s| - 1];
      var older := |front| - Active(front);
      ResumeOldest(front, room) + [if last.quotaPaused && older < room then Revived(last) else last]
  }

  /** One owner's turn in `reconcile`. `None` is a plan without a ceiling on checks. */
  function Reconciled(s: seq<Owned>, limit: Option<nat>): (r: seq<Owned>)
    ensures |r| == |s|
  {
    if limit.None? then ResumeOldest(s, |s|)
    else if Active(s) > limit.value then PauseNewest(s, Active(s) - limit.value)
    else if Active(s) < |s| then ResumeOldest(s, limit.value - Active(s))
    else s
  }

  /** How many checks a plan keeps. */
  function Kept(s: seq<Owned>, limit: Option<nat>): nat {
    if limit.None? then |s| else Min(limit.value, |s|)
  }

  // ---- The count -------------------------------------------------------------------------------------------------

  lemma {:induction false} ActiveAppend(a: seq<Owned>, b: seq<Owned>)
    ensures Active(a + b) == Active(a) + Active(b)
  {
    if b == [] {
      assert a + b == a;
    } else {
      ActiveAppend(a, b[..|b| - 1]);
      assert (a + b)[..|a + b| - 1] == a + b[..|b| - 1];
    }
  }

  lemma {:induction false} PausingCounts(s: seq<Owned>, count: nat)
    requires count <= Active(s)
    ensures Active(PauseNewest(s, count)) == Active(s) - count
  {
    if s != [] && count > 0 {
      var front, last := s[..|s| - 1], s[|s| - 1];
      if last.quotaPaused {
        PausingCounts(front, count);
        ActiveAppend(PauseNewest(front, count), [last]);
      } else {
        PausingCounts(front, count - 1);
        ActiveAppend(PauseNewest(front, count - 1), [Stopped(last)]);
      }
    }
  }

  lemma OneMoreCounts(front: seq<Owned>, last: Owned)
    ensures Active(front + [last]) == Active(front) + if last.quotaPaused then 0 else 1
  {
    assert (front + [last])[..|front|] == front;
  }

  lemma ResumingOneMore(s: seq<Owned>, room: nat)
    requires s != []
    ensures var front, last := s[..|s| - 1], s[|s| - 1];
            var stays := last.quotaPaused && |front| - Active(front) >= room;
            Active(ResumeOldest(s, room)) == Active(ResumeOldest(front, room)) + if stays then 0 else 1
  {
    var front, last := s[..|s| - 1], s[|s| - 1];
    OneMoreCounts(ResumeOldest(front, room), if last.quotaPaused && |front| - Active(front) < room then Revived(last) else last);
  }

  lemma {:induction false} ResumingCounts(s: seq<Owned>, room: nat)
    ensures Active(ResumeOldest(s, room)) == Min(|s|, Active(s) + room)
  {
    if s != [] {
      ResumingCounts(s[..|s| - 1], room);
      ResumingOneMore(s, room);
    }
  }

  /** One pass leaves exactly as many checks running as the plan has room for. */
  lemma {:induction false} PassMeetsThePlan(s: seq<Owned>, limit: Option<nat>)
    ensures Active(Reconciled(s, limit)) == Kept(s, limit)
  {
    if limit.None? {
      ResumingCounts(s, |s|);
    } else if Active(s) > limit.value {
      PausingCounts(s, Active(s) - limit.value);
    } else {
      ResumingCounts(s, limit.value - Active(s));
    }
  }

  lemma {:induction false} NothingToResume(s: seq<Owned>, room: nat)
    requires Active(s) == |s| || room == 0
    ensures ResumeOldest(s, room) == s
  {
    if s != [] {
      NothingToResume(s[..|s| - 1], room);
    }
  }

  /** A pass over an account that is where its plan puts it changes nothing. */
  lemma {:induction false} NothingToDo(s: seq<Owned>, limit: Option<nat>)
    requires Active(s) == Kept(s, limit)
    ensures Reconciled(s, limit) == s
  {
    NothingToResume(s, if limit.None? then |s| else 0);
  }

  /** A second pass changes nothing. */
  lemma {:induction false} SecondPassChangesNothing(s: seq<Owned>, limit: Option<nat>)
    ensures Reconciled(Reconciled(s, limit), limit) == Reconciled(s, limit)
  {
    PassMeetsThePlan(s, limit);
    NothingToDo(Reconciled(s, limit), limit);
  }

  // ---- Which ones ------------------------------------------------------------------------------------------------

  /** Every check running is older than every one that quota paused. */
  ghost predicate OldestRun(s: seq<Owned>) {
    forall i, j :: 0 <= i < j < |s| && s[i].quotaPaused ==> s[j].quotaPaused
  }

  /** What the rule says outright: the oldest `n` run, the others do not. */
  function KeepOldest(s: seq<Owned>, n: nat): (r: seq<Owned>)
    ensures |r| == |s|
  {
    seq(|s|, i requires 0 <= i < |s| =>
      if i < n then (if s[i].quotaPaused then Revived(s[i]) else s[i])
      else (if s[i].quotaPaused then s[i] else Stopped(s[i])))
  }

  lemma {:induction false} ActiveIsAPrefix(s: seq<Owned>, i: nat)
    requires OldestRun(s) && i < |s|
    ensures s[i].quotaPaused <==> i >= Active(s)
  {
    var front, last := s[..|s| - 1], s[|s| - 1];
    if i < |front| {
      ActiveIsAPrefix(front, i);
      if !last.quotaPaused {
        assert !s[i].quotaPaused;
      }
    } else if front != [] {
      ActiveIsAPrefix(front, |front| - 1);
    }
  }

  lemma {:induction false} PausingKeepsTheOldest(s: seq<Owned>, count: nat)
    requires OldestRun(s) && count <= Active(s)
    ensures PauseNewest(s, count) == KeepOldest(s, Active(s) - count)
  {
    if count == 0 {
      forall i | 0 <= i < |s|
        ensures s[i].quotaPaused <==> i >= Active(s)
      {
        ActiveIsAPrefix(s, i);
      }
    } else {
      var front, last := s[..|s| - 1], s[|s| - 1];
      if last.quotaPaused {
        PausingKeepsTheOldest(front, count);
      } else {
        PausingKeepsTheOldest(front, count - 1);
      }
    }
  }

  lemma KeepingMoreThanAll(s: seq<Owned>, n: nat, m: nat)
    requires |s| <= n && |s| <= m
    ensures KeepOldest(s, n) == KeepOldest(s, m)
  {
  }

  lemma KeepOldestLast(s: seq<Owned>, n: nat)
    requires s != []
    ensures KeepOldest(s, n)[..|s| - 1] == KeepOldest(s[..|s| - 1], n)
  {
  }

  lemma {:induction false} ResumingTheOldest(s: seq<Owned>, room: nat)
    requires OldestRun(s)
    ensures ResumeOldest(s, room) == KeepOldest(s, Active(s) + room)
  {
    if s != [] {
      var front, last := s[..|s| - 1], s[|s| - 1];
      ResumingTheOldest(front, room);
      ActiveIsAPrefix(s, |s| - 1);
      KeepOldestLast(s, Active(s) + room);
      if !last.quotaPaused {
        KeepingMoreThanAll(front, Active(s) + room, Active(front) + room);
      }
    }
  }

  /** From a state where the oldest run, a pass is the rule itself, and leads to such a state. */
  lemma {:induction false} PassKeepsTheOldest(s: seq<Owned>, limit: Option<nat>)
    requires OldestRun(s)
    ensures Reconciled(s, limit) == KeepOldest(s, Kept(s, limit))
    ensures OldestRun(Reconciled(s, limit))
  {
    RuleInEachCase(s, limit);
    assert OldestRun(KeepOldest(s, Kept(s, limit)));
  }

  lemma RuleInEachCase(s: seq<Owned>, limit: Option<nat>)
    requires OldestRun(s)
    ensures Reconciled(s, limit) == KeepOldest(s, Kept(s, limit))
  {
    if limit.None? {
      ResumingTheOldest(s, |s|);
      KeepingMoreThanAll(s, Active(s) + |s|, |s|);
    } else if Active(s) > limit.value {
      PausingKeepsTheOldest(s, Active(s) - limit.value);
    } else {
      var room := limit.value - Active(s);
      ResumingTheOldest(s, room);
      if limit.value > |s| {
        KeepingMoreThanAll(s, limit.value, |s|);
      }
      if Active(s) == |s| {
        NothingToResume(s, room);
      }
    }
  }

  lemma {:induction false} AllActive(s: seq<Owned>, i: nat)
    requires Active(s) == |s| && i < |s|
    ensures !s[i].quotaPaused
  {
    if i < |s| - 1 {
      AllActive(s[..|s| - 1], i);
    }
  }

  /** With room for everything, a pass restores the order from any state. */
  lemma {:induction false} RoomForAllRestoresTheOldest(s: seq<Owned>, limit: Option<nat>)
    requires limit.None? || |s| <= limit.value
    ensures OldestRun(Reconciled(s, limit))
  {
    PassMeetsThePlan(s, limit);
    var after := Reconciled(s, limit);
    forall i | 0 <= i < |after|
      ensures !after[i].quotaPaused
    {
      AllActive(after, i);
    }
  }

  lemma {:induction false} PauseKeepsFirst(s: seq<Owned>, count: nat, n: nat)
    requires n <= |s| && (forall i :: 0 <= i < n ==> !s[i].quotaPaused) && n + count <= Active(s)
    ensures PauseNewest(s, count)[..n] == s[..n]
  {
    if count > 0 {
      var front, last := s[..|s| - 1], s[|s| - 1];
      PauseKeepsFirst(front, if last.quotaPaused then count else count - 1, n);
      assert front[..n] == s[..n];
    }
  }

  lemma {:induction false} ResumedAt(s: seq<Owned>, room: nat, i: nat)
    requires i < |s|
    ensures ResumeOldest(s, room)[i] == if s[i].quotaPaused && i - Active(s[..i]) < room then Revived(s[i]) else s[i]
  {
    if i < |s| - 1 {
      ResumedAt(s[..|s| - 1], room, i);
      assert s[..|s| - 1][..i] == s[..i];
    }
  }

  /** Going on, there are more quota-paused checks behind, never fewer. */
  lemma {:induction false} PausedBehind(s: seq<Owned>, i: nat, j: nat)
    requires i <= j <= |s|
    ensures i - Active(s[..i]) <= j - Active(s[..j])
  {
    if i < j {
      PausedBehind(s, i, j - 1);
      assert s[..j][..j - 1] == s[..j - 1];
    }
  }

  lemma {:induction false} OnlyFirstActive(s: seq<Owned>, n: nat)
    requires n <= |s| && forall i :: n <= i < |s| ==> s[i].quotaPaused
    ensures Active(s[..n]) == Active(s)
  {
    if n == |s| {
      assert s[..n] == s;
    } else {
      OnlyFirstActive(s[..|s| - 1], n);
      assert s[..|s| - 1][..n] == s[..n];
    }
  }

  lemma {:induction false} FirstActiveAreAll(s: seq<Owned>, n: nat)
    requires n <= |s| && Active(s) == n && forall i :: 0 <= i < n ==> !s[i].quotaPaused
    ensures OldestRun(s)
  {
    if n < |s| {
      var front, last := s[..|s| - 1], s[|s| - 1];
      if last.quotaPaused {
        FirstActiveAreAll(front, n);
      } else {
        FirstAreActive(front, n);
      }
    }
  }

  lemma {:induction false} FirstAreActive(s: seq<Owned>, n: nat)
    requires n <= |s| && forall i :: 0 <= i < n ==> !s[i].quotaPaused
    ensures Active(s) >= n
  {
    if n < |s| {
      FirstAreActive(s[..|s| - 1], n);
    } else if s != [] {
      FirstAreActive(s[..|s| - 1], |s| - 1);
    }
  }

  ghost predicate FirstRun(s: seq<Owned>, n: nat) {
    forall i :: 0 <= i < n <= |s| ==> !s[i].quotaPaused
  }

  ghost predicate RestPaused(s: seq<Owned>, n: nat) {
    forall i :: n <= i < |s| ==> s[i].quotaPaused
  }

  lemma {:induction false} PausedFromTheOldest(s: seq<Owned>, count: nat, limit: nat)
    requires OldestRun(PauseNewest(s, count)) && Active(PauseNewest(s, count)) == limit
    ensures FirstRun(s, limit)
  {
    forall i | 0 <= i < limit
      ensures !s[i].quotaPaused
    {
      ActiveIsAPrefix(PauseNewest(s, count), i);
      PauseTouchesOnlyRunning(s, count, i);
    }
  }

  lemma {:induction false} PausingLeavesTheFirst(s: seq<Owned>, limit: nat)
    requires limit < Active(s) && FirstRun(s, limit)
    ensures OldestRun(PauseNewest(s, Active(s) - limit))
  {
    var after := PauseNewest(s, Active(s) - limit);
    PausingCounts(s, Active(s) - limit);
    PauseKeepsFirst(s, Active(s) - limit, limit);
    forall i | 0 <= i < limit
      ensures !after[i].quotaPaused
    {
      assert after[i] == after[..limit][i] == s[..limit][i];
    }
    FirstActiveAreAll(after, limit);
  }

  lemma {:induction false} ResumedToTheOldest(s: seq<Owned>, room: nat, limit: nat)
    requires OldestRun(ResumeOldest(s, room)) && Active(ResumeOldest(s, room)) == limit
    ensures RestPaused(s, limit)
  {
    forall i | limit <= i < |s|
      ensures s[i].quotaPaused
    {
      ActiveIsAPrefix(ResumeOldest(s, room), i);
      ResumeTouchesOnlyQuotaPaused(s, room, i);
    }
  }

  lemma {:induction false} ResumingFillsTheFirst(s: seq<Owned>, limit: nat)
    requires Active(s) <= limit < |s| && RestPaused(s, limit)
    ensures OldestRun(ResumeOldest(s, limit - Active(s)))
  {
    var room := limit - Active(s);
    ResumingCounts(s, room);
    OnlyFirstActive(s, limit);
    FirstAreFilled(s, limit, room);
    FirstActiveAreAll(ResumeOldest(s, room), limit);
  }

  lemma FirstAreFilled(s: seq<Owned>, limit: nat, room: nat)
    requires limit <= |s| && limit - Active(s[..limit]) == room
    ensures forall i :: 0 <= i < limit ==> !ResumeOldest(s, room)[i].quotaPaused
  {
    forall i | 0 <= i < limit
      ensures !ResumeOldest(s, room)[i].quotaPaused
    {
      FilledAt(s, limit, room, i);
    }
  }

  lemma FilledAt(s: seq<Owned>, limit: nat, room: nat, i: nat)
    requires i < limit <= |s| && limit - Active(s[..limit]) == room
    ensures !ResumeOldest(s, room)[i].quotaPaused
  {
    ResumedAt(s, room, i);
    if s[i].quotaPaused {
      PausedBefore(s, i, limit);
    }
  }

  lemma PausedBefore(s: seq<Owned>, i: nat, j: nat)
    requires i < j <= |s| && s[i].quotaPaused
    ensures i - Active(s[..i]) < j - Active(s[..j])
  {
    PausedBehind(s, i + 1, j);
    ActiveNext(s, i);
  }

  lemma ActiveNext(s: seq<Owned>, i: nat)
    requires i < |s|
    ensures Active(s[..i + 1]) == Active(s[..i]) + if s[i].quotaPaused then 0 else 1
  {
    assert s[..i + 1][..i] == s[..i];
  }

  lemma {:induction false} OldestAfterPausing(s: seq<Owned>, limit: nat)
    requires limit < Active(s)
    ensures OldestRun(PauseNewest(s, Active(s) - limit)) <==> FirstRun(s, limit)
  {
    if FirstRun(s, limit) {
      PausingLeavesTheFirst(s, limit);
    } else if OldestRun(PauseNewest(s, Active(s) - limit)) {
      PausingCounts(s, Active(s) - limit);
      PausedFromTheOldest(s, Active(s) - limit, limit);
    }
  }

  lemma {:induction false} OldestAfterResuming(s: seq<Owned>, limit: nat)
    requires Active(s) <= limit < |s|
    ensures OldestRun(ResumeOldest(s, limit - Active(s))) <==> RestPaused(s, limit)
  {
    if RestPaused(s, limit) {
      ResumingFillsTheFirst(s, limit);
    } else if OldestRun(ResumeOldest(s, limit - Active(s))) {
      ResumingCounts(s, limit - Active(s));
      ResumedToTheOldest(s, limit - Active(s), limit);
    }
  }

  /** What has to hold before a pass for the oldest to run after it. */
  ghost predicate CanLeaveTheOldest(s: seq<Owned>, limit: nat) {
    |s| <= limit || if Active(s) > limit then FirstRun(s, limit) else RestPaused(s, limit)
  }

  /**
   * After a pass the oldest run exactly when everything fits, or the checks it leaves running were the oldest ones
   * already: none among them quota paused where it pauses, none past them active where it resumes.
   */
  lemma {:induction false} PassLeavesTheOldestWhen(s: seq<Owned>, limit: nat)
    ensures OldestRun(Reconciled(s, Some(limit))) <==> CanLeaveTheOldest(s, limit)
  {
    if |s| <= limit {
      RoomForAllRestoresTheOldest(s, Some(limit));
    } else if Active(s) > limit {
      OldestAfterPausing(s, limit);
    } else {
      OldestAfterResuming(s, limit);
    }
  }

  /** Two checks of which the older stays paused for ever: the count is met, and the oldest is not the one that runs. */
  lemma OutOfOrderStays(oldest: Owned, newest: Owned)
    requires oldest.quotaPaused && !newest.quotaPaused
    ensures Reconciled([oldest, newest], Some(1)) == [oldest, newest] && !OldestRun([oldest, newest])
  {
    var s := [oldest, newest];
    assert s[..1] == [oldest] && [oldest][..0] == [];
    assert Active([oldest]) == 0 && Active(s) == 1;
    assert s[0].quotaPaused && !s[1].quotaPaused;
    NothingToResume(s, 0);
  }

  // ---- What people did ---------------------------------------------------------------------------------------------

  /** Every check is left alone, stopped by quota, or given back by it. */
  lemma {:induction false} PauseTouchesOnlyRunning(s: seq<Owned>, count: nat, i: nat)
    requires i < |s|
    ensures PauseNewest(s, count)[i] == s[i] || (!s[i].quotaPaused && PauseNewest(s, count)[i] == Stopped(s[i]))
  {
    if count > 0 && i < |s| - 1 {
      var front, last := s[..|s| - 1], s[|s| - 1];
      PauseTouchesOnlyRunning(front, if last.quotaPaused then count else count - 1, i);
    }
  }

  lemma {:induction false} ResumeTouchesOnlyQuotaPaused(s: seq<Owned>, room: nat, i: nat)
    requires i < |s|
    ensures ResumeOldest(s, room)[i] == s[i] || (s[i].quotaPaused && ResumeOldest(s, room)[i] == Revived(s[i]))
  {
    if i < |s| - 1 {
      ResumeTouchesOnlyQuotaPaused(s[..|s| - 1], room, i);
    }
  }

  /** A check that people paused is never started by a pass. */
  lemma {:induction false} OnePassStartsNothingPausedByHand(s: seq<Owned>, limit: Option<nat>, i: nat)
    requires i < |s| && s[i].state == PAUSED && !s[i].quotaPaused
    ensures Reconciled(s, limit)[i].state == PAUSED
  {
    if limit.None? {
      ResumeTouchesOnlyQuotaPaused(s, |s|, i);
    } else if Active(s) > limit.value {
      PauseTouchesOnlyRunning(s, Active(s) - limit.value, i);
    } else {
      ResumeTouchesOnlyQuotaPaused(s, limit.value - Active(s), i);
    }
  }

  /** `PauseNewest` row by row: a running check is stopped when it is among the newest `count` of them. */
  lemma {:induction false} PausedAt(s: seq<Owned>, count: nat, i: nat)
    requires i < |s| && count <= Active(s)
    ensures PauseNewest(s, count)[i]
            == if !s[i].quotaPaused && Active(s) - Active(s[..i]) <= count then Stopped(s[i]) else s[i]
  {
    var front, last := s[..|s| - 1], s[|s| - 1];
    if i < |front| {
      assert front[..i] == s[..i];
      ActiveUpTo(s, i);
      if count > 0 {
        PausedAt(front, if last.quotaPaused then count else count - 1, i);
      }
    }
  }

  /** A running check counts from its own place on. */
  lemma {:induction false} ActiveUpTo(s: seq<Owned>, i: nat)
    requires i < |s|
    ensures Active(s[..i]) + (if s[i].quotaPaused then 0 else 1) <= Active(s)
  {
    var front := s[..|s| - 1];
    if i < |front| {
      assert front[..i] == s[..i];
      ActiveUpTo(front, i);
    }
  }

  /** Of the checks up to one that a pass stops, exactly `left` still run. */
  lemma {:induction false} LeftRunning(s: seq<Owned>, count: nat, left: nat, n: nat)
    requires n <= |s| && Active(s) == left + count && left <= Active(s[..n])
    ensures Active(PauseNewest(s, count)[..n]) == left
  {
    if n == |s| {
      assert s[..n] == s && PauseNewest(s, count)[..n] == PauseNewest(s, count);
      PausingCounts(s, count);
    } else if count == 0 {
      ActivePrefix(s, n);
    } else {
      var front, last := s[..|s| - 1], s[|s| - 1];
      var less := if last.quotaPaused then count else count - 1;
      assert front[..n] == s[..n];
      LeftRunning(front, less, left, n);
      assert PauseNewest(s, count)[..n] == PauseNewest(front, less)[..n];
    }
  }

  lemma {:induction false} ActivePrefix(s: seq<Owned>, n: nat)
    requires n <= |s|
    ensures Active(s[..n]) <= Active(s)
  {
    if n == |s| {
      assert s[..n] == s;
    } else {
      assert s[..|s| - 1][..n] == s[..n];
      ActivePrefix(s[..|s| - 1], n);
    }
  }

  /** The pass that lowers the plan takes over the pause of exactly the checks with `low` running ones before them. */
  lemma {:induction false} TakenOverWhen(s: seq<Owned>, low: nat, i: nat)
    requires i < |s| && !s[i].quotaPaused
    ensures Reconciled(s, Some(low))[i].quotaPaused <==> low <= Active(s[..i])
  {
    ActiveUpTo(s, i);
    var active := Active(s);
    if low < active {
      PausedAt(s, active - low, i);
    } else if active < |s| {
      ResumeTouchesOnlyQuotaPaused(s, low - active, i);
    }
  }

  lemma {:induction false} TakenOverBehind(s: seq<Owned>, low: nat, i: nat)
    requires i < |s| && !s[i].quotaPaused && low <= Active(s[..i])
    ensures Active(Reconciled(s, Some(low))) == low == Active(Reconciled(s, Some(low))[..i])
  {
    var before := Active(s[..i]);
    ActiveUpTo(s, i);
    assert before + 1 <= Active(s);
    StoppedBehind(s, Active(s) - low, low, i);
  }

  lemma StoppedBehind(s: seq<Owned>, count: nat, low: nat, i: nat)
    requires i < |s| && count > 0 && Active(s) == low + count && low <= Active(s[..i])
    ensures Active(Reconciled(s, Some(low))) == low == Active(Reconciled(s, Some(low))[..i])
  {
    LeftRunning(s, count, low, i);
    PausingCounts(s, count);
    assert Reconciled(s, Some(low)) == PauseNewest(s, count);
  }

  /** The pass that raises it gives back exactly the checks that then fit, counted from the oldest. */
  lemma {:induction false} GivenBackWhen(r: seq<Owned>, high: Option<nat>, i: nat)
    requires i < |r| && r[i].quotaPaused && r[i].state == PAUSED && Active(r) == Active(r[..i])
    ensures Reconciled(r, high)[i].state == if i < Kept(r, high) then NEW else PAUSED
  {
    ActivePrefix(r, i);
    if high.None? {
      ResumedAt(r, |r|, i);
    } else if Active(r) > high.value {
      PauseTouchesOnlyRunning(r, Active(r) - high.value, i);
      ActiveAtMost(r, i);
    } else {
      ResumedAt(r, high.value - Active(r), i);
    }
  }

  lemma ActiveAtMost(r: seq<Owned>, i: nat)
    requires i <= |r|
    ensures Active(r[..i]) <= i
  {
  }

  /**
   * Two passes can: the one that lowers the plan takes over the pause, and the one that raises it gives back what it
   * took. From any state, the checks started are exactly those with at least `low` running ones before them that fit
   * the higher plan.
   */
  lemma {:induction false} TwoPassesStartPausedByHandWhen(s: seq<Owned>, low: nat, high: Option<nat>, i: nat)
    requires i < |s| && s[i].state == PAUSED && !s[i].quotaPaused
    ensures var after := Reconciled(Reconciled(s, Some(low)), high);
            after[i].state == if low <= Active(s[..i]) && i < Kept(s, high) then NEW else PAUSED
  {
    var r := Reconciled(s, Some(low));
    TakenOverWhen(s, low, i);
    OnePassStartsNothingPausedByHand(s, Some(low), i);
    if low <= Active(s[..i]) {
      TakenOverBehind(s, low, i);
      GivenBackWhen(r, high, i);
    } else {
      OnePassStartsNothingPausedByHand(r, high, i);
    }
  }

  /** `update` with `paused: false`: the state and the deadline start again, the reason stays. */
  function ResumedByHand(c: Owned, dueAt: int): Owned {
    if c.state == PAUSED then c.(state := NEW, nextDueAt := Some(dueAt)) else c
  }

  function Watched(s: seq<Owned>): (n: nat)
    ensures n <= |s|
  {
    if s == [] then 0 else Watched(s[..|s| - 1]) + if s[|s| - 1].state == PAUSED then 0 else 1
  }

  /** What quota paused is paused. */
  ghost predicate PausesHold(s: seq<Owned>) {
    forall i :: 0 <= i < |s| && s[i].quotaPaused ==> s[i].state == PAUSED
  }

  lemma {:induction false} WatchedAreActive(s: seq<Owned>)
    requires PausesHold(s)
    ensures Watched(s) <= Active(s)
  {
    if s != [] {
      assert PausesHold(s[..|s| - 1]);
      WatchedAreActive(s[..|s| - 1]);
      assert s[|s| - 1].quotaPaused ==> s[|s| - 1].state == PAUSED;
    }
  }

  lemma {:induction false} PassKeepsPauses(s: seq<Owned>, limit: Option<nat>)
    requires PausesHold(s)
    ensures PausesHold(Reconciled(s, limit))
  {
    forall i | 0 <= i < |s| && Reconciled(s, limit)[i].quotaPaused
      ensures Reconciled(s, limit)[i].state == PAUSED
    {
      if limit.Some? && Active(s) > limit.value {
        PauseTouchesOnlyRunning(s, Active(s) - limit.value, i);
      } else {
        ResumeTouchesOnlyQuotaPaused(s, if limit.None? then |s| else limit.value - Active(s), i);
      }
    }
  }

  /** While nobody resumes a check that quota paused, a pass leaves no more checks watched than the plan includes. */
  lemma {:induction false} PlanBoundsTheWatched(s: seq<Owned>, limit: nat)
    requires PausesHold(s)
    ensures Watched(Reconciled(s, Some(limit))) <= limit && PausesHold(Reconciled(s, Some(limit)))
  {
    PassKeepsPauses(s, Some(limit));
    WatchedAreActive(Reconciled(s, Some(limit)));
    PassMeetsThePlan(s, Some(limit));
  }

  /** Whatever the plan, a pass leaves at most its ceiling watched, exactly while what quota paused is paused. */
  lemma {:induction false} PlanBoundsTheWatchedWhen(s: seq<Owned>)
    ensures (forall limit: nat :: Watched(Reconciled(s, Some(limit))) <= limit) <==> PausesHold(s)
  {
    if PausesHold(s) {
      forall limit: nat
        ensures Watched(Reconciled(s, Some(limit))) <= limit
      {
        PlanBoundsTheWatched(s, limit);
      }
    } else {
      var i :| 0 <= i < |s| && s[i].quotaPaused && s[i].state != PAUSED;
      var after := Reconciled(s, Some(0));
      if Active(s) > 0 {
        PauseTouchesOnlyRunning(s, Active(s), i);
      } else {
        NothingToResume(s, 0);
      }
      WatchedAtLeastOne(after, i);
    }
  }

  lemma {:induction false} WatchedAtLeastOne(s: seq<Owned>, i: nat)
    requires i < |s| && s[i].state != PAUSED
    ensures Watched(s) > 0
  {
    if i < |s| - 1 {
      WatchedAtLeastOne(s[..|s| - 1], i);
    }
  }

  /** A check resumed by hand keeps its reason, so it is watched without being counted, and no pass stops it. */
  lemma ResumedByHandIsNotCounted(running: Owned, paused: Owned, dueAt: int)
    requires running.state == UP && !running.quotaPaused && paused.state == PAUSED && paused.quotaPaused
    ensures var s := [running, ResumedByHand(paused, dueAt)];
            Reconciled(s, Some(1)) == s && Watched(s) == 2
  {
    var s := [running, ResumedByHand(paused, dueAt)];
    assert s[..1] == [running] && [running][..0] == [];
    assert Active([running]) == 1 && Watched([running]) == 1;
    assert Active(s) == 1;
    NothingToResume(s, 0);
  }

  // ---- What a pass leaves, in the columns of the rows ------------------------------------------------------------

  /** The checks that quota has not paused, which is what a plan counts. */
  ghost function Running(s: seq<Owned>): set<nat> {
    set i: nat | i < |s| && !s[i].quotaPaused
  }

  lemma {:induction false} ActiveCounts(s: seq<Owned>)
    ensures |Running(s)| == Active(s)
  {
    if s == [] {
      assert Running(s) == {};
    } else {
      var n := |s| - 1;
      ActiveCounts(s[..n]);
      assert Running(s) == Running(s[..n]) + if s[n].quotaPaused then {} else {n};
    }
  }

  /** A row is left alone, or stopped without a deadline, or given back as NEW with the deadline it had. */
  predicate QuotaTouches(a: Owned, b: Owned) {
    || b == a
    || (!a.quotaPaused && b == Owned(a.name, PAUSED, true, None))
    || (a.quotaPaused && b == Owned(a.name, NEW, false, a.nextDueAt))
  }

  /**
   * The number that the plan includes: `None` where there is no plan, or nobody configured it, or it has no ceiling.
   */
  ghost predicate MeetsPlan(s: seq<Owned>, t: seq<Owned>, plan: Option<string>, plans: map<string, Option<nat>>) {
    && |t| == |s|
    && (forall i :: 0 <= i < |s| ==> QuotaTouches(s[i], t[i]))
    && (plan.None? || plan.value !in plans || plans[plan.value].None? ==>
          forall i :: 0 <= i < |t| ==> !t[i].quotaPaused)
    && (plan.Some? && plan.value in plans && plans[plan.value].Some? ==>
          |Running(t)| == Min(plans[plan.value].value, |s|))
  }

  lemma {:induction false} AllRunning(s: seq<Owned>)
    requires Active(s) == |s|
    ensures forall i :: 0 <= i < |s| ==> !s[i].quotaPaused
  {
    if s != [] {
      AllRunning(s[..|s| - 1]);
    }
  }

  lemma PassTouches(s: seq<Owned>, limit: Option<nat>, i: nat)
    requires i < |s|
    ensures QuotaTouches(s[i], Reconciled(s, limit)[i])
  {
    if limit.None? {
      ResumeTouchesOnlyQuotaPaused(s, |s|, i);
    } else if Active(s) > limit.value {
      PauseTouchesOnlyRunning(s, Active(s) - limit.value, i);
    } else {
      ResumeTouchesOnlyQuotaPaused(s, limit.value - Active(s), i);
    }
  }

  /** A pass on an account with this plan leaves it where the plan puts it. */
  lemma PassMeetsItsPlan(s: seq<Owned>, plan: Option<string>, plans: map<string, Option<nat>>)
    ensures MeetsPlan(s, Reconciled(s, LimitFor(true, plan, plans)), plan, plans)
  {
    var limit := LimitFor(true, plan, plans);
    var t := Reconciled(s, limit);
    forall i | 0 <= i < |s|
      ensures QuotaTouches(s[i], t[i])
    {
      PassTouches(s, limit, i);
    }
    PassMeetsThePlan(s, limit);
    ActiveCounts(t);
    if limit.None? {
      AllRunning(t);
    }
  }

  // ---- What a pass did -------------------------------------------------------------------------------------------

  ghost function NewlyStopped(s: seq<Owned>, t: seq<Owned>): set<nat> {
    set i: nat | i < |s| && i < |t| && !s[i].quotaPaused && t[i].quotaPaused
  }

  ghost function NewlyRevived(s: seq<Owned>, t: seq<Owned>): set<nat> {
    set i: nat | i < |s| && i < |t| && s[i].quotaPaused && !t[i].quotaPaused
  }

  ghost predicate OnlyStops(s: seq<Owned>, t: seq<Owned>) {
    |t| == |s| && forall i :: 0 <= i < |s| ==> t[i] == s[i] || (!s[i].quotaPaused && t[i].quotaPaused)
  }

  ghost predicate OnlyRevives(s: seq<Owned>, t: seq<Owned>) {
    |t| == |s| && forall i :: 0 <= i < |s| ==> t[i] == s[i] || (s[i].quotaPaused && !t[i].quotaPaused)
  }

  lemma StopsCount(s: seq<Owned>, t: seq<Owned>)
    requires OnlyStops(s, t)
    ensures NewlyRevived(s, t) == {} && |NewlyStopped(s, t)| == |Running(s)| - |Running(t)|
    ensures t == s <==> NewlyStopped(s, t) == {}
  {
    assert Running(t) == Running(s) - NewlyStopped(s, t);
    CardMinus(Running(s), NewlyStopped(s, t));
    forall i | 0 <= i < |s|
      ensures t[i] == s[i] || i in NewlyStopped(s, t)
    {
    }
  }

  lemma RevivesCount(s: seq<Owned>, t: seq<Owned>)
    requires OnlyRevives(s, t)
    ensures NewlyStopped(s, t) == {} && |NewlyRevived(s, t)| == |Running(t)| - |Running(s)|
    ensures t == s <==> NewlyRevived(s, t) == {}
  {
    assert Running(t) == Running(s) + NewlyRevived(s, t);
    CardUnion(Running(s), NewlyRevived(s, t));
    forall i | 0 <= i < |s|
      ensures t[i] == s[i] || i in NewlyRevived(s, t)
    {
    }
  }

  /** So many checks were stopped and so many given back, and nothing was done exactly if both are none. */
  ghost predicate Counts(s: seq<Owned>, t: seq<Owned>, stopped: int, revived: int) {
    && |NewlyStopped(s, t)| == stopped && |NewlyRevived(s, t)| == revived
    && (t == s <==> NewlyStopped(s, t) == {} && NewlyRevived(s, t) == {})
  }

  lemma OneWayCounts(s: seq<Owned>, t: seq<Owned>, before: nat, after: nat)
    requires OnlyStops(s, t) || OnlyRevives(s, t)
    requires |Running(s)| == before && |Running(t)| == after
    ensures Counts(s, t, Max(0, before - after), Max(0, after - before))
  {
    if OnlyStops(s, t) {
      StopsCount(s, t);
    } else {
      RevivesCount(s, t);
    }
  }

  /** A pass goes one way: it stops checks, or it gives some back. */
  lemma PassGoesOneWay(s: seq<Owned>, limit: Option<nat>)
    ensures OnlyStops(s, Reconciled(s, limit)) || OnlyRevives(s, Reconciled(s, limit))
  {
    if limit.None? {
      ResumingRevives(s, |s|);
    } else if Active(s) > limit.value {
      PausingStops(s, Active(s) - limit.value);
    } else if Active(s) < |s| {
      ResumingRevives(s, limit.value - Active(s));
    }
  }

  lemma PausingStops(s: seq<Owned>, count: nat)
    ensures OnlyStops(s, PauseNewest(s, count))
  {
    forall i | 0 <= i < |s|
      ensures PauseNewest(s, count)[i] == s[i] || (!s[i].quotaPaused && PauseNewest(s, count)[i].quotaPaused)
    {
      PauseTouchesOnlyRunning(s, count, i);
    }
  }

  lemma ResumingRevives(s: seq<Owned>, room: nat)
    ensures OnlyRevives(s, ResumeOldest(s, room))
  {
    forall i | 0 <= i < |s|
      ensures ResumeOldest(s, room)[i] == s[i] || (s[i].quotaPaused && !ResumeOldest(s, room)[i].quotaPaused)
    {
      ResumeTouchesOnlyQuotaPaused(s, room, i);
    }
  }

  lemma RunningIsKept(s: seq<Owned>, limit: Option<nat>)
    ensures |Running(s)| == Active(s) && |Running(Reconciled(s, limit))| == Kept(s, limit)
  {
    PassMeetsThePlan(s, limit);
    ActiveCounts(s);
    ActiveCounts(Reconciled(s, limit));
  }

  /** How many checks a pass stopped, and how many it gave back. */
  lemma PassCounts(s: seq<Owned>, limit: Option<nat>)
    ensures Counts(s, Reconciled(s, limit), Max(0, Active(s) - Kept(s, limit)), Max(0, Kept(s, limit) - Active(s)))
  {
    RunningIsKept(s, limit);
    PassGoesOneWay(s, limit);
    OneWayCounts(s, Reconciled(s, limit), Active(s), Kept(s, limit));
  }
}
