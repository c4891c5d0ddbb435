/**
 * What the detection statements do to the backlog: overdue checks, DOWN checks without an incident, and open
 * incidents whose check is back. `selected` is always what a statement locked.
 */
module DetectionLaws {
  import opened Prelude
  import opened AlertTables
  import opened AlertSafety

  const MAX_BATCHES := 25

  /** What an undisturbed `LIMIT batch` query returns: part of what matches, and all of it when the limit allows. */
  ghost predicate Takes<T>(selected: set<T>, matching: set<T>, batch: nat) {
    selected <= matching && |selected| == Min(batch, |matching|)
  }

  ghost function InStates(checks: map<CheckId, Check>, states: set<CheckState>): set<CheckId> {
    set c | c in checks && checks[c].state in states
  }

  /* ---------------------------------------------------------------- overdue checks --- */

  /** How many transitions are left at most: two for a check that is NEW or UP, one for a LATE one. */
  ghost function Weight(checks: map<CheckId, Check>): nat {
    |InStates(checks, {NEW, UP, LATE})| + |InStates(checks, {NEW, UP})|
  }

  predicate Descends(a: CheckState, b: CheckState) {
    || (a in {NEW, UP} && b in {LATE, DOWN})
    || (a == LATE && b == DOWN)
  }

  /**
   * Every selected row goes strictly down in its state and nothing else of it changes; every other row is left alone.
   */
  lemma AdvanceDescends(checks: map<CheckId, Check>, selected: set<CheckId>, now: int)
    requires selected <= DueSet(checks, now)
    ensures var after := AdvanceStmt(checks, selected, now);
            && after.Keys == checks.Keys
            && (forall c <- selected :: Descends(checks[c].state, after[c].state)
                                        && after[c] == checks[c].(state := after[c].state))
            && (forall c <- checks.Keys - selected :: after[c] == checks[c])
  {
  }

  /** The work left shrinks at least by the size of the batch. */
  lemma AdvanceSheds(checks: map<CheckId, Check>, selected: set<CheckId>, now: int)
    requires selected <= DueSet(checks, now)
    ensures Weight(AdvanceStmt(checks, selected, now)) + |selected| <= Weight(checks)
  {
    var after := AdvanceStmt(checks, selected, now);
    UnseenLose(checks, selected, now);
    ActiveLose(checks, selected, now);
    Shed(InStates(checks, {NEW, UP, LATE}), InStates(checks, {NEW, UP}), selected,
         InStates(after, {NEW, UP, LATE}), InStates(after, {NEW, UP}));
  }

  lemma Shed<T>(active: set<T>, unseen: set<T>, selected: set<T>, active': set<T>, unseen': set<T>)
    requires unseen' == unseen - selected && selected - unseen <= active && active' <= active - (selected - unseen)
    ensures |active'| + |unseen'| + |selected| <= |active| + |unseen|
  {
    CardMinus(unseen, selected * unseen);
    assert unseen - selected == unseen - selected * unseen;
    CardMinus(active, selected - unseen);
    SubsetCard(active', active - (selected - unseen));
    CardUnion(selected * unseen, selected - unseen);
    assert selected == selected * unseen + (selected - unseen);
  }

  lemma UnseenLose(checks: map<CheckId, Check>, selected: set<CheckId>, now: int)
    requires selected <= DueSet(checks, now)
    ensures InStates(AdvanceStmt(checks, selected, now), {NEW, UP})
         == InStates(checks, {NEW, UP}) - selected
  {
  }

  lemma ActiveLose(checks: map<CheckId, Check>, selected: set<CheckId>, now: int)
    requires selected <= DueSet(checks, now)
    ensures selected - InStates(checks, {NEW, UP}) <= InStates(checks, {NEW, UP, LATE})
    ensures InStates(AdvanceStmt(checks, selected, now), {NEW, UP, LATE})
         <= InStates(checks, {NEW, UP, LATE}) - (selected - InStates(checks, {NEW, UP}))
  {
  }

  /** Running one batch after another until one is short, each at its own instant. */
  ghost predicate FullBatches(tables: seq<map<CheckId, Check>>, selected: seq<set<CheckId>>, instants: seq<int>,
          batch: nat)
  {
    && |tables| == |selected| + 1 && |instants| == |selected|
    && forall k :: 0 <= k < |selected| ==>
         && selected[k] <= DueSet(tables[k], instants[k]) && |selected[k]| == batch
         && tables[k + 1] == AdvanceStmt(tables[k], selected[k], instants[k])
  }

  /** n active checks fill at most 2n / batch batches, whenever these run: the next one is short. */
  lemma {:induction false} BacklogIsFinite(tables: seq<map<CheckId, Check>>, selected: seq<set<CheckId>>,
          instants: seq<int>, batch: nat)
    requires FullBatches(tables, selected, instants, batch)
    ensures |selected| * batch + Weight(tables[|selected|]) <= 2 * |InStates(tables[0], {NEW, UP, LATE})|
  {
    if selected == [] {
      SubsetCard(InStates(tables[0], {NEW, UP}), InStates(tables[0], {NEW, UP, LATE}));
    } else {
      var n := |selected| - 1;
      BacklogIsFinite(tables[..n + 1], selected[..n], instants[..n], batch);
      AdvanceSheds(tables[n], selected[n], instants[n]);
      assert (n + 1) * batch == n * batch + batch;
    }
  }

  /** The rule without batches: every overdue check makes its transition. */
  ghost function AllAdvanced(checks: map<CheckId, Check>, now: int): map<CheckId, Check> {
    AdvanceStmt(checks, DueSet(checks, now), now)
  }

  /** At one instant a batch leaves exactly the rest of the work, so batches add up to the unbatched rule. */
  lemma BatchesAddUp(checks: map<CheckId, Check>, selected: set<CheckId>, now: int)
    requires selected <= DueSet(checks, now)
    ensures var after := AdvanceStmt(checks, selected, now);
            && DueSet(after, now) == DueSet(checks, now) - selected
            && AllAdvanced(after, now) == AllAdvanced(checks, now)
  {
    var after := AdvanceStmt(checks, selected, now);
    assert forall c <- selected :: !Due(after[c], now);
    assert forall c <- checks.Keys - selected :: after[c] == checks[c];
    assert DueSet(after, now) == DueSet(checks, now) - selected;
  }

  /** Two batches at one instant are one. */
  lemma BatchesCompose(checks: map<CheckId, Check>, first: set<CheckId>, second: set<CheckId>, now: int)
    requires first <= DueSet(checks, now) && second <= DueSet(checks, now) - first
    ensures AdvanceStmt(AdvanceStmt(checks, first, now), second, now) == AdvanceStmt(checks, first + second, now)
  {
    var middle := AdvanceStmt(checks, first, now);
    var left, right := AdvanceStmt(middle, second, now), AdvanceStmt(checks, first + second, now);
    assert left.Keys == right.Keys;
    forall c | c in checks
      ensures left[c] == right[c]
    {
      if c in first {
        assert c !in second && middle[c] == Advanced(checks[c], now);
      } else {
        assert middle[c] == checks[c];
      }
    }
  }

  /** A check whose grace is spent is DOWN once the backlog is drained, whatever else was overdue. */
  lemma SpentGraceIsDown(checks: map<CheckId, Check>, now: int, c: CheckId)
    requires c in checks && checks[c].state in {NEW, UP, LATE}
    requires checks[c].nextDueAt.Some? && checks[c].nextDueAt.value < now && Deadline(checks[c]) <= now
    ensures AllAdvanced(checks, now)[c].state == DOWN
  {
    assert c in DueSet(checks, now);
  }

  /* ------------------------------------------------------------ state and incidents --- */

  function Missing(db: Db): set<CheckId> {
    set c | c in db.checks && db.checks[c].state == DOWN && !HasOpen(db.incidents, c)
  }

  function Stale(db: Db): set<IncidentId> {
    set i: nat | i < |db.incidents| && db.incidents[i].resolvedAt.None?
                 && db.incidents[i].check in db.checks && db.checks[db.incidents[i].check].state in {UP, PAUSED}
  }

  lemma {:induction false} OpenedAreOpen(incidents: seq<Incident>, candidates: seq<CheckId>, now: int, c: CheckId)
    ensures HasOpen(OpenStmt(incidents, candidates, now), c) <==> HasOpen(incidents, c) || c in candidates
    decreases |candidates|
  {
    if candidates != [] {
      var x := candidates[0];
      var next := if HasOpen(incidents, x) then incidents else incidents + [Incident(x, now, None)];
      assert HasOpen(next, c) <==> HasOpen(incidents, c) || c == x by {
        if next != incidents {
          assert next[|incidents|] == Incident(x, now, None);
          assert forall i :: 0 <= i < |incidents| ==> next[i] == incidents[i];
        }
      }
      OpenedAreOpen(next, candidates[1..], now, c);
    }
  }

  /** A new incident for each of these checks. */
  function NewIncidents(candidates: seq<CheckId>, now: int): (r: seq<Incident>)
    ensures |r| == |candidates| && forall k :: 0 <= k < |candidates| ==> r[k] == Incident(candidates[k], now, None)
  {
    seq(|candidates|, k requires 0 <= k < |candidates| => Incident(candidates[k], now, None))
  }

  lemma OpenOne(incidents: seq<Incident>, c: CheckId, rest: seq<CheckId>, now: int)
    requires !HasOpen(incidents, c) && c !in rest && forall x <- rest :: !HasOpen(incidents, x)
    ensures OpenStmt(incidents, [c] + rest, now) == OpenStmt(incidents + [Incident(c, now, None)], rest, now)
    ensures forall x <- rest :: !HasOpen(incidents + [Incident(c, now, None)], x)
  {
    assert ([c] + rest)[0] == c && ([c] + rest)[1..] == rest;
    forall x <- rest
      ensures !HasOpen(incidents + [Incident(c, now, None)], x)
    {
      assert !HasOpen(incidents, x) && x != c;
    }
  }

  lemma NewOne(incidents: seq<Incident>, c: CheckId, rest: seq<CheckId>, now: int)
    ensures incidents + [Incident(c, now, None)] + NewIncidents(rest, now) == incidents + NewIncidents([c] + rest, now)
  {
  }

  lemma FirstIsOther(candidates: seq<CheckId>)
    requires Distinct(candidates) && candidates != []
    ensures candidates == [candidates[0]] + candidates[1..]
    ensures candidates[0] !in candidates[1..] && Distinct(candidates[1..])
    ensures forall c <- candidates[1..] :: c in candidates
  {
  }

  /** Distinct candidates without an open incident get one each, in order. */
  lemma {:induction false} OpenAppends(incidents: seq<Incident>, candidates: seq<CheckId>, now: int)
    requires Distinct(candidates) && forall c <- candidates :: !HasOpen(incidents, c)
    ensures OpenStmt(incidents, candidates, now) == incidents + NewIncidents(candidates, now)
    decreases |candidates|
  {
    if candidates != [] {
      var c, rest := candidates[0], candidates[1..];
      FirstIsOther(candidates);
      OpenOne(incidents, c, rest, now);
      OpenAppends(incidents + [Incident(c, now, None)], rest, now);
      NewOne(incidents, c, rest, now);
    }
  }

  /** Opening closes exactly the gaps it selected and concerns no incident whose check is back. */
  lemma OpenShrinksMissing(db: Db, candidates: seq<CheckId>, at: int)
    requires Distinct(candidates) && Elements(candidates) <= Missing(db)
    ensures var after := db.(incidents := OpenStmt(db.incidents, candidates, at), now := at);
            Missing(after) == Missing(db) - Elements(candidates) && Stale(after) == Stale(db)
  {
    var after := db.(incidents := OpenStmt(db.incidents, candidates, at), now := at);
    forall c | c in candidates
      ensures c in db.checks && db.checks[c].state == DOWN && !HasOpen(db.incidents, c)
    {
      assert c in Elements(candidates);
    }
    OpenAppends(db.incidents, candidates, at);
    forall c | c in db.checks
      ensures HasOpen(after.incidents, c) <==> HasOpen(db.incidents, c) || c in candidates
    {
      OpenedAreOpen(db.incidents, candidates, at, c);
    }
    forall i: nat | |db.incidents| <= i < |after.incidents|
      ensures i !in Stale(after)
    {
      assert after.incidents[i].check in candidates;
    }
  }

  lemma ResolveShrinksStale(db: Db, selected: set<IncidentId>, at: int)
    requires selected <= Stale(db)
    ensures var after := db.(incidents := ResolveStmt(db.incidents, selected, at), now := at);
            Stale(after) == Stale(db) - selected && Missing(after) == Missing(db)
  {
    var after := db.(incidents := ResolveStmt(db.incidents, selected, at), now := at);
    forall c | c in db.checks && db.checks[c].state == DOWN
      ensures HasOpen(after.incidents, c) <==> HasOpen(db.incidents, c)
    {
      if i :| 0 <= i < |db.incidents| && db.incidents[i].check == c && db.incidents[i].resolvedAt.None? {
        assert after.incidents[i] == db.incidents[i];
      }
    }
  }

  /**
   * What one tick did after its overdue checks: what each statement locked, the rows it offered for insertion,
   * and when it ran.
   */
  datatype Choice = Choice(
    down: seq<CheckId>, openAt: int,
    downs: seq<Triple>, downsAt: int,
    resolved: set<IncidentId>, resolveAt: int,
    ups: seq<Triple>, upsAt: int)

  function AfterOpen(db: Db, ch: Choice): Db {
    db.(incidents := OpenStmt(db.incidents, ch.down, ch.openAt), now := ch.openAt)
  }

  function AfterDowns(db: Db, ch: Choice): Db {
    var next := AfterOpen(db, ch);
    next.(deliveries := EnqueueStmt(next.deliveries, ch.downs, ch.downsAt), now := ch.downsAt)
  }

  function AfterResolve(db: Db, ch: Choice): Db {
    var next := AfterDowns(db, ch);
    next.(incidents := ResolveStmt(next.incidents, ch.resolved, ch.resolveAt), now := ch.resolveAt)
  }

  function AfterTick(db: Db, ch: Choice): Db {
    var next := AfterResolve(db, ch);
    next.(deliveries := EnqueueStmt(next.deliveries, ch.ups, ch.upsAt), now := ch.upsAt)
  }

  /**
   * A tick of one instance that nothing competes with: no row is locked by another, so each LIMIT is filled if it can
   * be.
   */
  ghost predicate Alone(db: Db, ch: Choice, batch: nat) {
    && Distinct(ch.down) && Takes(Elements(ch.down), Missing(db), batch)
    && Elements(ch.downs) == Fanout(AfterOpen(db, ch), Inserted(db.incidents, AfterOpen(db, ch).incidents), Down)
    && Takes(ch.resolved, Stale(AfterDowns(db, ch)), batch)
    && Elements(ch.ups) == Fanout(AfterResolve(db, ch), RefsOf(AfterDowns(db, ch).incidents, ch.resolved), Up)
  }

  /** The statements after the drain shrink each disagreement by min(batch, backlog). */
  lemma TickConverges(db: Db, ch: Choice, batch: nat)
    requires Alone(db, ch, batch)
    ensures |Missing(AfterTick(db, ch))| == Max(0, |Missing(db)| - batch)
    ensures |Stale(AfterTick(db, ch))| == Max(0, |Stale(db)| - batch)
  {
    OpenShrinksMissing(db, ch.down, ch.openAt);
    var afterOpen, downs := AfterOpen(db, ch), AfterDowns(db, ch);
    assert Missing(downs) == Missing(afterOpen) && Stale(downs) == Stale(afterOpen);
    ResolveShrinksStale(downs, ch.resolved, ch.resolveAt);
    var resolved, after := AfterResolve(db, ch), AfterTick(db, ch);
    assert Missing(after) == Missing(resolved) && Stale(after) == Stale(resolved);
    assert |Missing(db) - Elements(ch.down)| == |Missing(db)| - |Elements(ch.down)|;
    assert |Stale(downs) - ch.resolved| == |Stale(downs)| - |ch.resolved|;
  }

  lemma OnlyChecksAndIncidentsCount(a: Db, b: Db)
    requires a.checks == b.checks && a.incidents == b.incidents
    ensures Missing(a) == Missing(b) && Stale(a) == Stale(b)
  {
  }
}
