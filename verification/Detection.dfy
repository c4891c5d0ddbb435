/** The detection loop of one instance. */
module Detection {
  import opened Prelude
  import opened AlertTables
  import opened AlertSafety
  import opened DetectionLaws
  import opened Convergence
  import opened Database

  ghost function WentTo(checks: map<CheckId, Check>, selected: set<CheckId>, now: int, state: CheckState): set<CheckId>
  {
    set c | c in selected && c in checks && Due(checks[c], now) && Advanced(checks[c], now).state == state
  }

  function CountDown(rows: seq<TransitionRow>): nat {
    if rows == [] then 0
    else CountDown(rows[..|rows| - 1]) + if rows[|rows| - 1].next == DOWN then 1 else 0
  }

  ghost function DownIds(rows: seq<TransitionRow>): set<CheckId> {
    set r | r in rows && r.next == DOWN :: r.id
  }

  lemma {:induction false} CountIsCardinality(rows: seq<TransitionRow>)
    requires UniqueRows(rows)
    ensures CountDown(rows) == |DownIds(rows)|
  {
    if rows == [] {
      assert DownIds(rows) == {};
    } else {
      var front, last := rows[..|rows| - 1], rows[|rows| - 1];
      CountIsCardinality(front);
      assert rows == front + [last];
      LastRow(front, last);
    }
  }

  lemma LastRow(front: seq<TransitionRow>, last: TransitionRow)
    requires UniqueRows(front + [last])
    ensures DownIds(front + [last]) == if last.next == DOWN then DownIds(front) + {last.id} else DownIds(front)
    ensures last.id !in DownIds(front)
  {
    var rows := front + [last];
    assert forall r :: r in rows <==> r in front || r == last;
    forall r | r in front
      ensures r.id != last.id
    {
      var i :| 0 <= i < |front| && front[i] == r;
      assert rows[i] == r && rows[|front|] == last;
    }
  }

  lemma SelectedSplit(checks: map<CheckId, Check>, selected: set<CheckId>, at: int)
    requires selected <= DueSet(checks, at)
    ensures |selected| == |WentTo(checks, selected, at, DOWN)| + |WentTo(checks, selected, at, LATE)|
    ensures |InStates(AdvanceStmt(checks, selected, at), {DOWN})|
         == |InStates(checks, {DOWN})| + |WentTo(checks, selected, at, DOWN)|
  {
    var down, late := WentTo(checks, selected, at, DOWN), WentTo(checks, selected, at, LATE);
    assert selected == down + late && down !! late;
    assert InStates(AdvanceStmt(checks, selected, at), {DOWN}) == InStates(checks, {DOWN}) + down;
  }

  /** Of the rows a batch reports, the DOWN ones are the checks that are newly DOWN, and the others went LATE. */
  lemma RowsCountTransitions(rows: seq<TransitionRow>, before: map<CheckId, Check>, at: int)
    requires RowIds(rows) <= DueSet(before, at) && |rows| == |RowIds(rows)|
    requires Reports(rows, before, AdvanceStmt(before, RowIds(rows), at))
    ensures CountDown(rows) == |WentTo(before, RowIds(rows), at, DOWN)|
    ensures |rows| - CountDown(rows) == |WentTo(before, RowIds(rows), at, LATE)|
  {
    var selected := RowIds(rows);
    CountIsCardinality(rows);
    SelectedSplit(before, selected, at);
    forall r | r in rows
      ensures r.id in selected && r.next == Advanced(before[r.id], at).state
    {
    }
    assert DownIds(rows) == WentTo(before, selected, at, DOWN);
  }

  class DetectionService {
    const tables: Tables
    const batchSize: nat
    var wentLate: nat
    var wentDown: nat
    var recovered: nat

    constructor (tables: Tables, batchSize: nat)
      requires batchSize >= 1
      ensures this.tables == tables && this.batchSize == batchSize
      ensures wentLate == wentDown == recovered == 0
    {
      this.tables, this.batchSize := tables, batchSize;
      wentLate, wentDown, recovered := 0, 0, 0;
    }

    /** Drains the overdue checks in batches, the `k`th at the instant `clock[k]`. */
    method AdvanceOverdueChecks(clock: seq<int>) returns (ghost drain: seq<Batch>)
      requires |clock| == MAX_BATCHES && batchSize >= 1
      modifies this`wentLate, this`wentDown, tables
      ensures IsDrain(old(tables.db.checks), drain, batchSize)
      ensures forall k :: 0 <= k < |drain| ==> drain[k].at == clock[k]
      ensures tables.db == old(tables.db).(checks := AfterDrain(old(tables.db.checks), drain), now := tables.db.now)
      ensures wentLate == old(wentLate) + Wents(old(tables.db.checks), drain, LATE)
      ensures wentDown == old(wentDown) + Wents(old(tables.db.checks), drain, DOWN)
    {
      ghost var start := tables.db;
      drain := [];
      var batches := 0;
      while batches < MAX_BATCHES
        invariant batches == |drain| <= MAX_BATCHES
        invariant TakesDue(start.checks, drain, batchSize)
        invariant forall k :: 0 <= k < |drain| ==> drain[k].at == clock[k] && |drain[k].selected| == batchSize
        invariant tables.db == start.(checks := AfterDrain(start.checks, drain), now := tables.db.now)
        invariant wentLate == old(wentLate) + Wents(start.checks, drain, LATE)
        invariant wentDown == old(wentDown) + Wents(start.checks, drain, DOWN)
      {
        var taken, selected := Batch(clock[batches]);
        TakesDueNext(start.checks, drain, Convergence.Batch(selected, clock[batches]), batchSize);
        drain := drain + [Convergence.Batch(selected, clock[batches])];
        batches := batches + 1;
        if taken < batchSize {
          return;
        }
      }
    }

    /** One transaction of the drain and the counting of its rows. */
    method Batch(at: int) returns (taken: nat, ghost selected: set<CheckId>)
      modifies this`wentLate, this`wentDown, tables
      ensures Takes(selected, DueSet(old(tables.db.checks), at), batchSize) && taken == |selected|
      ensures tables.db == old(tables.db).(checks := AdvanceStmt(old(tables.db.checks), selected, at), now := at)
      ensures wentDown == old(wentDown) + |WentTo(old(tables.db.checks), selected, at, DOWN)|
      ensures wentLate == old(wentLate) + |WentTo(old(tables.db.checks), selected, at, LATE)|
    {
      ghost var before := tables.db.checks;
      var rows := tables.Advance(batchSize, at);
      RowsCountTransitions(rows, before, at);
      Tally(rows);
      taken, selected := |rows|, RowIds(rows);
    }

    method Tally(rows: seq<TransitionRow>)
      modifies this`wentLate, this`wentDown
      ensures wentDown == old(wentDown) + CountDown(rows)
      ensures wentLate == old(wentLate) + (|rows| - CountDown(rows))
    {
      for i := 0 to |rows|
        invariant CountDown(rows[..i]) <= i
        invariant wentDown == old(wentDown) + CountDown(rows[..i])
        invariant wentLate == old(wentLate) + (i - CountDown(rows[..i]))
      {
        assert rows[..i + 1][..i] == rows[..i];
        if rows[i].next == DOWN {
          wentDown := wentDown + 1;
        } else {
          wentLate := wentLate + 1;
        }
      }
      assert rows[..|rows|] == rows;
    }

    /** One full pass; the instants after the drain are those of `rest`. */
    method Tick(clock: seq<int>, rest: seq<int>) returns (ghost t: WholeTick)
      requires |clock| == MAX_BATCHES && |rest| == 4 && batchSize >= 1
      modifies this, tables
      ensures IsTick(old(tables.db), t, tables.db, batchSize)
      ensures forall k :: 0 <= k < |t.drain| ==> t.drain[k].at == clock[k]
      ensures tables.db == AfterTick(Late(old(tables.db), t), t.choice).(now := tables.db.now)
      ensures wentLate == old(wentLate) + Wents(old(tables.db.checks), t.drain, LATE)
      ensures wentDown == old(wentDown) + Wents(old(tables.db.checks), t.drain, DOWN)
      ensures recovered == old(recovered) + |t.choice.resolved|
    {
      ghost var before := tables.db;
      ghost var drain := AdvanceOverdueChecks(clock);
      ghost var drained := tables.db;
      ghost var ch := AfterwardsOnly(rest);
      t := WholeTick(drain, ch);
      LateAtAnyTime(before, t, drained, batchSize);
    }

    /** What a tick does after its drain. */
    method AfterwardsOnly(rest: seq<int>) returns (ghost ch: Choice)
      requires |rest| == 4
      modifies this`recovered, tables
      ensures Alone(old(tables.db), ch, batchSize)
      ensures tables.db == AfterTick(old(tables.db), ch).(now := tables.db.now)
      ensures recovered == old(recovered) + |ch.resolved|
    {
      ghost var drained := tables.db;
      var openedRefs, candidates := tables.OpenIncidents(batchSize, rest[0]);
      ghost var afterOpen := tables.db;
      ghost var downs: seq<Triple> := [];
      if openedRefs != {} {
        var queued;
        queued, downs := tables.Enqueue(openedRefs, Down, rest[1]);
      } else {
        NoRefsNoRows(afterOpen, Down);
      }
      ghost var afterDowns := tables.db;
      var resolvedRefs, selected := tables.ResolveIncidents(batchSize, rest[2]);
      recovered := recovered + |resolvedRefs|;
      RefsCount(afterDowns.incidents, selected);
      ghost var afterResolve := tables.db;
      ghost var ups: seq<Triple> := [];
      if resolvedRefs != {} {
        var queued;
        queued, ups := tables.Enqueue(resolvedRefs, Up, rest[3]);
      } else {
        NoRefsNoRows(afterResolve, Up);
      }
      ch := Choice(candidates, rest[0], downs, rest[1], selected, rest[2], ups, rest[3]);
      assert AfterOpen(drained, ch) == afterOpen;
      assert AfterDowns(drained, ch) == afterDowns.(now := rest[1]);
      assert AfterResolve(drained, ch) == afterResolve;
    }
  }

  lemma NoRefsNoRows(db: Db, kind: AlertKind)
    ensures Fanout(db, {}, kind) == {} == Elements<Triple>([])
  {
  }

  lemma {:induction false} RefsCount(incidents: seq<Incident>, selected: set<IncidentId>)
    requires forall i <- selected :: i < |incidents|
    ensures |RefsOf(incidents, selected)| == |selected|
    decreases |selected|
  {
    if selected == {} {
      assert RefsOf(incidents, selected) == {};
    } else {
      var i :| i in selected;
      RefsCount(incidents, selected - {i});
      assert RefsOf(incidents, selected) == RefsOf(incidents, selected - {i}) + {Ref(i, incidents[i].check)};
    }
  }

  /** How many rows the batches of a drain moved to this state. */
  ghost function Wents(checks: map<CheckId, Check>, drain: seq<Batch>, state: CheckState): nat {
    if drain == [] then 0
    else
      var front, last := drain[..|drain| - 1], drain[|drain| - 1];
      Wents(checks, front, state) + |WentTo(AfterDrain(checks, front), last.selected, last.at, state)|
  }

  lemma TakesDueNext(checks: map<CheckId, Check>, drain: seq<Batch>, next: Batch, batch: nat)
    requires TakesDue(checks, drain, batch)
    requires Takes(next.selected, DueSet(AfterDrain(checks, drain), next.at), batch)
    ensures TakesDue(checks, drain + [next], batch)
    ensures (drain + [next])[..|drain|] == drain
  {
    var longer := drain + [next];
    forall k | 0 <= k < |longer|
      ensures Takes(longer[k].selected, DueSet(AfterDrain(checks, longer[..k]), longer[k].at), batch)
    {
      if k < |drain| {
        assert longer[..k] == drain[..k] && longer[k] == drain[k];
      } else {
        assert longer[..k] == drain;
      }
    }
  }

  /** Every row a drain moves is one more LATE or DOWN, and the DOWN ones are the checks that are newly DOWN. */
  lemma {:induction false} WentsAreTransitions(checks: map<CheckId, Check>, drain: seq<Batch>, batch: nat)
    requires TakesDue(checks, drain, batch)
    ensures Wents(checks, drain, DOWN) == |InStates(AfterDrain(checks, drain), {DOWN})| - |InStates(checks, {DOWN})|
    ensures Wents(checks, drain, LATE) + Wents(checks, drain, DOWN) + Weight(AfterDrain(checks, drain)) <= Weight(checks)
  {
    if drain != [] {
      var front, last := drain[..|drain| - 1], drain[|drain| - 1];
      TakesDueFront(checks, drain, batch);
      WentsAreTransitions(checks, front, batch);
      SelectedSplit(AfterDrain(checks, front), last.selected, last.at);
      AdvanceSheds(AfterDrain(checks, front), last.selected, last.at);
    }
  }

  // ---- At one instant ---------------------------------------------------------------------------------------------

  function Selected(drain: seq<Batch>): set<CheckId> {
    if drain == [] then {} else Selected(drain[..|drain| - 1]) + drain[|drain| - 1].selected
  }

  /** Batches at one instant are one batch. */
  lemma {:induction false} DrainIsOneBatch(checks: map<CheckId, Check>, drain: seq<Batch>, batch: nat, at: int)
    requires TakesDue(checks, drain, batch) && forall k :: 0 <= k < |drain| ==> drain[k].at == at
    ensures Selected(drain) <= DueSet(checks, at)
    ensures AfterDrain(checks, drain) == AdvanceStmt(checks, Selected(drain), at)
  {
    if drain == [] {
      assert AdvanceStmt(checks, {}, at) == checks;
    } else {
      var front, last := drain[..|drain| - 1], drain[|drain| - 1];
      TakesDueFront(checks, drain, batch);
      DrainIsOneBatch(checks, front, batch, at);
      BatchesAddUp(checks, Selected(front), at);
      BatchesCompose(checks, Selected(front), last.selected, at);
    }
  }

  /** At one instant a drain that ends short is the transition of all overdue checks, whatever the batch size. */
  lemma {:induction false} ShortDrainIsTheRule(checks: map<CheckId, Check>, drain: seq<Batch>, batch: nat, at: int)
    requires IsDrain(checks, drain, batch) && Drained(drain, batch) && forall k :: 0 <= k < |drain| ==> drain[k].at == at
    ensures AfterDrain(checks, drain) == AllAdvanced(checks, at)
  {
    DrainIsOneBatch(checks, drain, batch, at);
    ShortLeavesNothingDue(checks, drain, batch);
    DrainedIsDone(checks, Selected(drain), at);
  }

  lemma DrainedIsDone(start: map<CheckId, Check>, done: set<CheckId>, at: int)
    requires done <= DueSet(start, at) && DueSet(AdvanceStmt(start, done, at), at) == {}
    ensures done == DueSet(start, at)
  {
    BatchesAddUp(start, done, at);
    forall c | c in DueSet(start, at)
      ensures c in done
    {
      assert c in done || c in DueSet(start, at) - done;
    }
  }

  /** Nothing in what a tick writes depends on the clock its drain left behind. */
  lemma LateAtAnyTime(before: Db, t: WholeTick, drained: Db, batch: nat)
    requires drained == Late(before, t).(now := drained.now) && Alone(drained, t.choice, batch)
    ensures Alone(Late(before, t), t.choice, batch)
    ensures AfterTick(drained, t.choice) == AfterTick(Late(before, t), t.choice)
    ensures AfterTick(Late(before, t), t.choice).checks == Late(before, t).checks
  {
    assert AfterOpen(drained, t.choice) == AfterOpen(Late(before, t), t.choice);
  }
}
