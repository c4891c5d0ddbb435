/**
 * The detection loop is one of the workers of the protocol: a whole tick of an undisturbed instance is a run of its
 * statements, so that whatever holds in every run holds of what the ticks do.
 */
module TickRuns {
  import opened Prelude
  import opened AlertTables
  import opened AlertMachine
  import opened DetectionLaws
  import opened Convergence

  /** The second run begins with the first. */
  ghost predicate GoesOn(states: seq<State>, moves: seq<Move>, states': seq<State>, moves': seq<Move>) {
    && IsRun(states', moves')
    && |moves| + 1 == |states| <= |states'|
    && states'[..|states|] == states && moves'[..|moves|] == moves
  }

  /** And ends in these tables. */
  ghost predicate GoesOnTo(states: seq<State>, moves: seq<Move>, states': seq<State>, moves': seq<Move>, db: Db) {
    GoesOn(states, moves, states', moves') && states'[|moves'|].db == db
  }

  lemma OneStep(states: seq<State>, moves: seq<Move>, states1: seq<State>, moves1: seq<Move>, db: Db, step: Step)
    returns (states': seq<State>, moves': seq<Move>)
    requires GoesOnTo(states, moves, states1, moves1, db) && Enabled(states1[|moves1|], db, step)
    ensures GoesOnTo(states, moves, states', moves', Apply(states1[|moves1|], step).db)
    ensures |moves'| == |moves1| + 1 && states'[|moves'|] == Apply(states1[|moves1|], step)
  {
    states', moves' := Extend(states1, moves1, step, Apply(states1[|moves1|], step));
  }

  /** The clock moves on to the instant of the next statement, and the statement runs. */
  lemma StatementAt(states: seq<State>, moves: seq<Move>, states1: seq<State>, moves1: seq<Move>, db: Db,
          at: int, step: Step)
    returns (states': seq<State>, moves': seq<Move>, s: State)
    requires GoesOnTo(states, moves, states1, moves1, db) && db.now <= at && !step.Wait?
    requires Enabled(Apply(states1[|moves1|], Wait(at)), db.(now := at), step)
    ensures s == Apply(states1[|moves1|], Wait(at))
    ensures GoesOnTo(states, moves, states', moves', Apply(s, step).db) && states'[|moves'|] == Apply(s, step)
  {
    s := Apply(states1[|moves1|], Wait(at));
    states', moves' := OneStep(states, moves, states1, moves1, db, Wait(at));
    states', moves' := OneStep(states, moves, states', moves', db.(now := at), step);
  }

  /** The statements of a tick run one after the other. */
  ghost predicate InTurn(now: int, t: WholeTick) {
    && t.drain != [] && now <= t.drain[0].at
    && (forall i, j :: 0 <= i < j < |t.drain| ==> t.drain[i].at <= t.drain[j].at)
    && LastAt(t) <= t.choice.openAt <= t.choice.downsAt <= t.choice.resolveAt <= t.choice.upsAt
  }

  lemma {:induction false} DrainIsARun(states: seq<State>, moves: seq<Move>, drain: seq<Batch>, batch: nat)
    returns (states': seq<State>, moves': seq<Move>)
    requires IsRun(states, moves) && TakesDue(states[|moves|].db.checks, drain, batch)
    requires drain != [] ==> states[|moves|].db.now <= drain[0].at
    requires forall i, j :: 0 <= i < j < |drain| ==> drain[i].at <= drain[j].at
    ensures var db := states[|moves|].db;
            GoesOnTo(states, moves, states', moves',
                     db.(checks := AfterDrain(db.checks, drain), now := if drain == [] then db.now else drain[|drain| - 1].at))
    ensures states'[|moves'|] == states[|moves|].(db := states'[|moves'|].db)
  {
    states', moves' := states, moves;
    if drain != [] {
      var n, db := |drain| - 1, states[|moves|].db;
      TakesDueFront(db.checks, drain, batch);
      states', moves' := DrainIsARun(states, moves, drain[..n], batch);
      var s;
      states', moves', s := StatementAt(states, moves, states', moves', states'[|moves'|].db, drain[n].at,
                                        Advance(drain[n].selected, drain[n].at));
    }
  }

  /** Opening incidents and queueing their alerts, on a state whose drain is over. */
  lemma OpeningIsARun(states: seq<State>, moves: seq<Move>, states1: seq<State>, moves1: seq<Move>, db: Db,
          ch: Choice, batch: nat)
    returns (states': seq<State>, moves': seq<Move>)
    requires GoesOnTo(states, moves, states1, moves1, db) && Alone(db, ch, batch) && db.now <= ch.openAt <= ch.downsAt
    ensures GoesOnTo(states, moves, states', moves', AfterDowns(db, ch))
  {
    var s;
    forall c <- ch.down
      ensures c in Elements(ch.down) && c in Missing(db)
    {
    }
    states', moves', s := StatementAt(states, moves, states1, moves1, db, ch.openAt, OpenIncidents(ch.down));
    var refs := Inserted(db.incidents, AfterOpen(db, ch).incidents);
    forall triple
      ensures triple in ch.downs <==> InFanout(AfterOpen(db, ch).(now := ch.downsAt), refs, Down, triple)
    {
      assert triple in ch.downs <==> triple in Elements(ch.downs);
    }
    states', moves', s := StatementAt(states, moves, states', moves', AfterOpen(db, ch), ch.downsAt, Enqueue(Down, refs, ch.downs));
  }

  lemma ResolvingIsARun(states: seq<State>, moves: seq<Move>, states1: seq<State>, moves1: seq<Move>, db: Db,
          ch: Choice, batch: nat)
    returns (states': seq<State>, moves': seq<Move>)
    requires GoesOnTo(states, moves, states1, moves1, AfterDowns(db, ch)) && Alone(db, ch, batch)
    requires ch.downsAt <= ch.resolveAt <= ch.upsAt
    ensures GoesOnTo(states, moves, states', moves', AfterTick(db, ch))
  {
    var s, downs := states1[|moves1|], AfterDowns(db, ch);
    forall i <- ch.resolved
      ensures i in Stale(downs)
    {
    }
    states', moves', s := StatementAt(states, moves, states1, moves1, downs, ch.resolveAt, ResolveIncidents(ch.resolved));
    var refs := RefsOf(downs.incidents, ch.resolved);
    forall triple
      ensures triple in ch.ups <==> InFanout(AfterResolve(db, ch).(now := ch.upsAt), refs, Up, triple)
    {
      assert triple in ch.ups <==> triple in Elements(ch.ups);
    }
    states', moves', s := StatementAt(states, moves, states', moves', AfterResolve(db, ch), ch.upsAt, Enqueue(Up, refs, ch.ups));
  }

  /** From any state of any run, a whole tick of an undisturbed instance is more of the run, and ends in its tables. */
  lemma TickIsARun(states: seq<State>, moves: seq<Move>, t: WholeTick, batch: nat)
    returns (states': seq<State>, moves': seq<Move>)
    requires IsRun(states, moves) && InTurn(states[|moves|].db.now, t)
    requires var db := states[|moves|].db; IsDrain(db.checks, t.drain, batch) && Alone(Late(db, t), t.choice, batch)
    ensures GoesOnTo(states, moves, states', moves', AfterTick(Late(states[|moves|].db, t), t.choice))
  {
    var db := states[|moves|].db;
    states', moves' := DrainIsARun(states, moves, t.drain, batch);
    var drained := Late(db, t).(now := LastAt(t));
    assert states'[|moves'|].db == drained;
    ClockDoesNotMatter(Late(db, t), LastAt(t), t.choice, batch);
    states', moves' := OpeningIsARun(states, moves, states', moves', drained, t.choice, batch);
    states', moves' := ResolvingIsARun(states, moves, states', moves', drained, t.choice, batch);
  }

  lemma ClockDoesNotMatter(db: Db, now: int, ch: Choice, batch: nat)
    requires Alone(db, ch, batch)
    ensures Alone(db.(now := now), ch, batch) && AfterTick(db.(now := now), ch) == AfterTick(db, ch)
  {
    assert Missing(db.(now := now)) == Missing(db);
    assert AfterOpen(db.(now := now), ch) == AfterOpen(db, ch);
  }

  /**
   * What people do and what jobs send is more of a run too, at any time: an edit of any check, any set of channels, a
   * heartbeat of any kind received by now, and any worker forgetting what it alone knew.
   */
  lemma AnybodyMayAct(states: seq<State>, moves: seq<Move>, step: Step) returns (states': seq<State>, moves': seq<Move>)
    requires IsRun(states, moves)
    requires step.Edit? || step.SetChannels? || step.Forget?
             || (step.Ingest? && step.check in states[|moves|].db.checks && step.receivedAt <= states[|moves|].db.now)
    ensures GoesOn(states, moves, states', moves')
    ensures var db, after := states[|moves|].db, states'[|moves'|].db;
            match step
            case Edit(c, row) => after == db.(checks := db.checks[c := row])
            case SetChannels(channels) => after == db.(channels := channels)
            case Forget(_, _) => after == db
            case Ingest(check, _, _, _) =>
              && after == db.(checks := after.checks) && after.checks.Keys == db.checks.Keys
              && forall c <- db.checks :: c != check ==> after.checks[c] == db.checks[c]
            case _ => true
  {
    states', moves' := OneStep(states, moves, states, moves, states[|moves|].db, step);
  }
}
