/**
 * Who hears of a recovery, over runs: whenever a resolved incident that somebody was told of is queued, every channel
 * that listens gets it, and there are runs in which one of them never was told.
 */
module RecoveryReach {
  import opened Prelude
  import opened AlertTables
  import opened AlertMachine
  import opened AlertSafety

  /** The rows there were are there, and the others are pending. */
  ghost predicate OnlyQueued(before: seq<Delivery>, after: seq<Delivery>) {
    && |before| <= |after|
    && (forall d: nat :: d < |before| ==> after[d] == before[d])
    && (forall d: nat :: |before| <= d < |after| ==> after[d].status == Pending)
  }

  /** A channel that listens gets the recovery of an incident that anybody was told of. */
  lemma {:induction false} ListeningChannelHears(states: seq<State>, moves: seq<Move>, ref: Ref, channel: ChannelId)
    returns (next: State, step: Step)
    requires IsRun(states, moves)
    requires var s := states[|moves|];
             ref in s.justResolved && Told(s.db.deliveries, ref.incident) && Listening(s.db, ref, channel)
    ensures IsRun(states + [next], moves + [Move(step, |moves|)])
    ensures HasTriple(next.db.deliveries, Triple(ref.incident, channel, Up))
    ensures OnlyQueued(states[|moves|].db.deliveries, next.db.deliveries)
  {
    var s := states[|moves|];
    var triples := Listed(Fanout(s.db, {ref}, Up));
    assert forall t :: t in triples <==> t in Elements(triples);
    step := Enqueue(Up, {ref}, triples);
    next := Apply(s, step);
    var longer, more := Extend(states, moves, step, next);
    EnqueueAddsExactly(s.db.deliveries, triples, s.db.now);
    assert InFanout(s.db, {ref}, Up, Triple(ref.incident, channel, Up));
    assert Triple(ref.incident, channel, Up) in triples;
    forall d: nat | |s.db.deliveries| <= d < |next.db.deliveries|
      ensures next.db.deliveries[d].status == Pending
    {
      assert NewRow(s.db.deliveries, triples, s.db.now, next.db.deliveries[d]);
    }
  }

  // ---- A run with a channel that was never told --------------------------------------------------------------------

  /** A check that is DOWN, or back since its heartbeat. */
  function Row(back: bool): Check {
    if back then Check(0, 0, UP, Some(0), None, Some(60_000)) else Check(0, 0, DOWN, None, None, Some(-1))
  }

  /** One check with one incident, and two channels of its project. */
  function Scene(back: bool, resolvedAt: Option<int>, deliveries: seq<Delivery>, claims: seq<Claim>): State {
    State(Db(map[0 := Row(back)], map[0 := Channel(0, true), 1 := Channel(0, true)],
             [Incident(0, 0, resolvedAt)], deliveries, 0),
          claims, {}, {}, {}, 6)
  }

  function Alert(channel: ChannelId, status: DeliveryStatus, attempts: nat, next: int, sentAt: Option<int>): Delivery {
    Delivery(Triple(0, channel, Down), status, attempts, next, sentAt)
  }

  function Queued(): State {
    Scene(false, None, [Alert(0, Pending, 0, 0, None), Alert(1, Pending, 0, 0, None)], [])
  }

  function Claimed(sent: bool): State {
    Scene(false, None, [Alert(0, Pending, 1, CLAIM_LEASE, None), Alert(1, Pending, 1, CLAIM_LEASE, None)],
          [Claim(0, CLAIM_LEASE, sent, None), Claim(1, CLAIM_LEASE, false, None)])
  }

  function Refused(): State {
    Scene(false, None, [Alert(0, Pending, 1, CLAIM_LEASE, None), Alert(1, Failed, 1, CLAIM_LEASE, None)],
          [Claim(0, CLAIM_LEASE, true, None), Claim(1, CLAIM_LEASE, false, Some(0))])
  }

  function Marked(back: bool, resolvedAt: Option<int>): State {
    Scene(back, resolvedAt, [Alert(0, Sent, 1, CLAIM_LEASE, Some(0)), Alert(1, Failed, 1, CLAIM_LEASE, None)],
          [Claim(0, CLAIM_LEASE, true, Some(0)), Claim(1, CLAIM_LEASE, false, Some(0))]).(everSent := {0})
  }

  lemma IncidentOpened() returns (states: seq<State>, moves: seq<Move>)
    ensures IsRun(states, moves)
    ensures states[|moves|] == Scene(false, None, [], []).(justOpened := {Ref(0, 0)})
  {
    var start := Scene(false, None, [], []);
    start := start.(db := start.db.(incidents := []));
    states, moves := [start], [];
    assert OpenStmt([], [0], 0) == [Incident(0, 0, None)];
    assert Inserted([], [Incident(0, 0, None)]) == {Ref(0, 0)};
    states, moves := Extend(states, moves, OpenIncidents([0]), Scene(false, None, [], []).(justOpened := {Ref(0, 0)}));
  }

  lemma BothInFanout(t: Triple)
    ensures InFanout(Scene(false, None, [], []).db, {Ref(0, 0)}, Down, t) <==> t in [Triple(0, 0, Down), Triple(0, 1, Down)]
  {
    if t in [Triple(0, 0, Down), Triple(0, 1, Down)] {
      assert Ref(0, 0) in {Ref(0, 0)};
    }
  }

  lemma BothQueued() returns (states: seq<State>, moves: seq<Move>)
    ensures IsRun(states, moves) && states[|moves|] == Queued()
  {
    states, moves := IncidentOpened();
    var both := [Triple(0, 0, Down), Triple(0, 1, Down)];
    forall t
      ensures InFanout(states[|moves|].db, {Ref(0, 0)}, Down, t) <==> t in both
    {
      BothInFanout(t);
    }
    EnqueueBoth();
    states, moves := Extend(states, moves, Enqueue(Down, {Ref(0, 0)}, both), Queued());
  }

  lemma EnqueueBoth()
    ensures EnqueueStmt([], [Triple(0, 0, Down), Triple(0, 1, Down)], 0)
         == [Alert(0, Pending, 0, 0, None), Alert(1, Pending, 0, 0, None)]
  {
    var first := [Alert(0, Pending, 0, 0, None)];
    assert [Triple(0, 0, Down), Triple(0, 1, Down)][1..] == [Triple(0, 1, Down)];
    assert EnqueueStmt(first, [Triple(0, 1, Down)], 0) == EnqueueStmt(first + [Alert(1, Pending, 0, 0, None)], [], 0);
  }

  lemma BothClaimed() returns (states: seq<State>, moves: seq<Move>)
    ensures IsRun(states, moves) && states[|moves|] == Claimed(false)
  {
    states, moves := BothQueued();
    assert Elements([0, 1]) == {0, 1};
    states, moves := Extend(states, moves, ClaimBatch([0, 1]), Claimed(false));
  }

  lemma OneRefused() returns (states: seq<State>, moves: seq<Move>)
    ensures IsRun(states, moves) && states[|moves|] == Refused()
  {
    states, moves := BothClaimed();
    states, moves := Extend(states, moves, Send(0), Claimed(true));
    states, moves := Extend(states, moves, Refuse(1), Refused());
  }

  lemma OneMarked() returns (states: seq<State>, moves: seq<Move>)
    ensures IsRun(states, moves) && states[|moves|] == Marked(false, None)
  {
    states, moves := OneRefused();
    assert AlertMachine.Marked(Refused().claims, {0}) == {0};
    states, moves := Extend(states, moves, MarkSent({0}), Marked(false, None));
  }

  lemma OneBack() returns (states: seq<State>, moves: seq<Move>)
    ensures IsRun(states, moves) && states[|moves|] == Marked(true, None)
  {
    states, moves := OneMarked();
    states, moves := Extend(states, moves, Ingest(0, Success, 0, Some(60_000)), Marked(true, None));
  }

  lemma OneTold() returns (states: seq<State>, moves: seq<Move>)
    ensures IsRun(states, moves) && states[|moves|] == Marked(true, Some(0)).(justResolved := {Ref(0, 0)})
  {
    states, moves := OneBack();
    assert RefsOf([Incident(0, 0, None)], {0}) == {Ref(0, 0)};
    assert ResolveStmt([Incident(0, 0, None)], {0}, 0) == [Incident(0, 0, Some(0))];
    states, moves := Extend(states, moves, ResolveIncidents({0}), Marked(true, Some(0)).(justResolved := {Ref(0, 0)}));
  }

  /**
   * A run in which one channel's alert is sent and the other's is refused, and both are told that the check is back.
   */
  lemma RecoveryCanReachTheUntold() returns (states: seq<State>, moves: seq<Move>)
    ensures IsRun(states, moves)
    ensures var db := states[|moves|].db;
            HasTriple(db.deliveries, Triple(0, 1, Up)) && !ChannelTold(db, 0, 1)
  {
    states, moves := OneTold();
    var s := states[|moves|];
    assert s.db.deliveries[0].status == Sent;
    assert Listening(s.db, Ref(0, 0), 1);
    var next, step := ListeningChannelHears(states, moves, Ref(0, 0), 1);
    states, moves := states + [next], moves + [Move(step, |moves|)];
    forall d: nat | d < |next.db.deliveries| && next.db.deliveries[d].triple == Triple(0, 1, Down)
      ensures next.db.deliveries[d].status != Sent
    {
      assert d < |s.db.deliveries| ==> next.db.deliveries[d] == s.db.deliveries[d];
    }
  }
}
