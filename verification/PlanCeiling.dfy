/**
 * The plan's ceiling on checks under concurrency. One owner, who owns the same projects throughout; any number of
 * requests creating, syncing and deleting, of which the advisory lock lets one at a time count and write.
 */
module PlanCeiling {
  import opened Prelude
  import opened CheckSyncLaws

  /** A sync with its scope and its keys, in payload order. */
  datatype Payload = Payload(project: string, environment: Option<string>, keys: seq<string>)

  /** What holds the owner's lock, and how far it is. `counted` is what the COUNT saw; the code keeps how many. */
  datatype Holder =
    | Nobody
    | Creating
    | MayCreate(counted: set<Ident>)
    | Created(id: Ident)
    | Syncing(payload: Payload)
    | HasRoom(payload: Payload, counted: set<Ident>)
    | Knows(payload: Payload, counted: set<Ident>, known: set<string>)
    | SyncedUp

  /** `writing` holds the syncs that go on after their transaction, and the lock with it, timed out. */
  datatype State = State(owned: set<Ident>, holder: Holder, writing: set<set<Ident>>)

  datatype Step =
    | TakeLockToCreate
    | TakeLockToSync(payload: Payload)
    | Count
    | Insert(id: Ident)
    | FindExisting
    | Upsert
    | Release
    | Abort
    | Delete(id: Ident)
    | TimeOut
    | WriteLate(ids: set<Ident>)

  function Room(counted: set<Ident>, limit: nat): nat {
    Max(0, limit - |counted|)
  }

  function IdentsOf(p: Payload, keys: set<string>): set<Ident> {
    set k | k in keys :: Declared(p.project, p.environment, k)
  }

  /** What the upsert of a sync leaves in the table: the accepted keys of its payload, the known ones included. */
  function Kept(p: Payload, known: set<string>, room: nat): set<string> {
    Elements(p.keys) - Elements(Skipped(p.keys, known, Some(room)))
  }

  ghost predicate Enabled(s: State, step: Step, projects: set<string>, limit: nat) {
    match step
    case TakeLockToCreate => s.holder.Nobody?
    case TakeLockToSync(p) => s.holder.Nobody? && p.project in projects && Distinct(p.keys)
    case Count => s.holder.Creating? || s.holder.Syncing?
    // Past the ceiling the request is refused instead: its transaction aborts.
    case Insert(id) => s.holder.MayCreate? && |s.holder.counted| + 1 <= limit && id.Keyless? && id.project in projects
    case FindExisting => s.holder.HasRoom?
    case Upsert => s.holder.Knows?
    case Release => s.holder.Created? || s.holder.SyncedUp?
    case Abort => !s.holder.Nobody?
    case Delete(id) => true
    case TimeOut => s.holder.Knows?
    case WriteLate(ids) => ids in s.writing
  }

  function Written(holder: Holder, limit: nat): set<Ident>
    requires holder.Knows?
  {
    IdentsOf(holder.payload, Kept(holder.payload, holder.known, Room(holder.counted, limit)))
  }

  ghost function Apply(s: State, step: Step, projects: set<string>, limit: nat): State
    requires Enabled(s, step, projects, limit)
  {
    match step
    case TakeLockToCreate => s.(holder := Creating)
    case TakeLockToSync(p) => s.(holder := Syncing(p))
    case Count => s.(holder := if s.holder.Creating? then MayCreate(s.owned) else HasRoom(s.holder.payload, s.owned))
    case Insert(id) => s.(holder := Created(id))
    case FindExisting =>
      var p := s.holder.payload;
      s.(holder := Knows(p, s.holder.counted, set k | k in p.keys && Declared(p.project, p.environment, k) in s.owned))
    // On a connection of its own: committed at once, while the lock is still held.
    case Upsert => s.(owned := s.owned + Written(s.holder, limit), holder := SyncedUp)
    // A check created through the locking transaction appears with its commit.
    case Release => s.(owned := s.owned + (if s.holder.Created? then {s.holder.id} else {}), holder := Nobody)
    case Abort => s.(holder := Nobody)
    case Delete(id) => s.(owned := s.owned - {id})
    case TimeOut => s.(holder := Nobody, writing := s.writing + {Written(s.holder, limit)})
    case WriteLate(ids) => s.(owned := s.owned + ids, writing := s.writing - {ids})
  }

  ghost predicate IsRun(run: seq<State>, steps: seq<Step>, projects: set<string>, limit: nat) {
    && |run| == |steps| + 1
    && run[0].holder == Nobody && run[0].writing == {}
    && forall i :: 0 <= i < |steps| ==> IsStep(run, steps, projects, limit, i)
  }

  ghost predicate IsStep(run: seq<State>, steps: seq<Step>, projects: set<string>, limit: nat, i: nat)
    requires i < |steps| < |run|
  {
    Enabled(run[i], steps[i], projects, limit) && run[i + 1] == Apply(run[i], steps[i], projects, limit)
  }

  /** No sync outlives the transaction that holds its lock. */
  ghost predicate InTime(steps: seq<Step>) {
    forall i :: 0 <= i < |steps| ==> !steps[i].TimeOut?
  }

  // ---- Safety ----------------------------------------------------------------------------------------------------

  /** What syncs wrote after their transaction had timed out, in the first i steps. */
  ghost function Late(steps: seq<Step>, i: nat): set<Ident>
    requires i <= |steps|
  {
    if i == 0 then {} else Late(steps, i - 1) + if steps[i - 1].WriteLate? then steps[i - 1].ids else {}
  }

  /**
   * But for what was written late: what was counted can only have shrunk while the lock is held, and it was within
   * bounds when it was counted.
   */
  ghost predicate Bounded(s: State, bound: nat, late: set<Ident>) {
    && |s.owned - late| <= bound
    && (s.holder.MayCreate? || s.holder.HasRoom? || s.holder.Knows? ==>
          s.owned - late <= s.holder.counted && |s.holder.counted - late| <= bound)
    && (s.holder.Knows? ==>
          Distinct(s.holder.payload.keys) && IdentsOf(s.holder.payload, s.holder.known) <= s.holder.counted + late)
    && (s.holder.Created? ==> |s.owned - late| + 1 <= bound)
    && ((s.holder.Syncing? || s.holder.HasRoom?) ==> Distinct(s.holder.payload.keys))
  }

  lemma {:induction false} IdentsCard(p: Payload, keys: set<string>)
    ensures |IdentsOf(p, keys)| == |keys|
  {
    if keys != {} {
      var k :| k in keys;
      IdentsCard(p, keys - {k});
      assert IdentsOf(p, keys) == IdentsOf(p, keys - {k}) + {Declared(p.project, p.environment, k)};
    }
  }

  lemma SplitIdents(p: Payload, keys: set<string>, a: set<string>, b: set<string>)
    requires keys <= a + b
    ensures IdentsOf(p, keys) <= IdentsOf(p, a) + IdentsOf(p, b)
  {
  }

  lemma AtMostMore<T>(base: set<T>, more: set<T>, written: set<T>)
    requires written <= base + more
    ensures |base + written| <= |base| + |more|
  {
    assert base + more == base + (more - base);
    CardUnion(base, more - base);
    SubsetCard(more - base, more);
    SubsetCard(base + written, base + more);
  }

  lemma AtMostBesides<T>(all: set<T>, some: set<T>)
    ensures |all| <= |all - some| + |some|
  {
    AtMostMore(all - some, some, all * some);
    assert all - some + all * some == all;
  }

  lemma MinusSome<T>(base: set<T>, more: set<T>, added: set<T>, some: set<T>)
    requires more - some <= base - some + added
    ensures |base + more - some| <= |base - some| + |added|
  {
    AtMostMore(base - some, added, more - some);
    assert base + more - some == base - some + (more - some);
  }

  /**
   * A sync adds to what was counted no more than there was room for, even if some of it was deleted meanwhile, and
   * some of what it takes for existing was written late.
   */
  lemma {:induction false} UpsertFits(p: Payload, counted: set<Ident>, known: set<string>, late: set<Ident>, limit: nat)
    requires Distinct(p.keys) && IdentsOf(p, known) <= counted + late
    ensures |counted + IdentsOf(p, Kept(p, known, Room(counted, limit))) - late| <= Max(limit, |counted - late|)
  {
    var room := Room(counted, limit);
    var kept := Kept(p, known, room);
    var added := Elements(Unknown(p.keys, known)) - Elements(Skipped(p.keys, known, Some(room)));
    RoomIsUsedUp(p.keys, known, room);
    SplitIdents(p, kept, known, added);
    IdentsCard(p, added);
    MinusSome(counted, IdentsOf(p, kept), IdentsOf(p, added), late);
    SubsetCard(counted - late, counted);
  }

  lemma WritingIsBounded(s: State, limit: nat, bound: nat, late: set<Ident>)
    requires s.holder.Knows? && Bounded(s, bound, late) && limit <= bound
    ensures |s.owned + Written(s.holder, limit) - late| <= bound
  {
    var h := s.holder;
    UpsertFits(h.payload, h.counted, h.known, late, limit);
    SubsetCard(s.owned + Written(h, limit) - late, h.counted + Written(h, limit) - late);
  }

  /** What is owned besides what was written late only shrinks. */
  lemma ShrinkingIsBounded(s: State, s': State, bound: nat, late: set<Ident>, late': set<Ident>)
    requires Bounded(s, bound, late) && late <= late'
    requires s'.owned - late' <= s.owned - late && s'.holder == s.holder
    ensures Bounded(s', bound, late')
  {
    SubsetCard(s'.owned - late', s.owned - late);
    if s.holder.MayCreate? || s.holder.HasRoom? || s.holder.Knows? {
      SubsetCard(s.holder.counted - late', s.holder.counted - late);
    }
  }

  lemma FindingIsBounded(s: State, projects: set<string>, limit: nat, bound: nat, late: set<Ident>)
    requires s.holder.HasRoom? && Bounded(s, bound, late)
    ensures Bounded(Apply(s, FindExisting, projects, limit), bound, late)
  {
    var p := s.holder.payload;
    var known := set k | k in p.keys && Declared(p.project, p.environment, k) in s.owned;
    assert IdentsOf(p, known) <= s.owned;
  }

  lemma CreatingIsBounded(s: State, id: Ident, projects: set<string>, limit: nat, bound: nat, late: set<Ident>)
    requires Enabled(s, Insert(id), projects, limit) && Bounded(s, bound, late) && limit <= bound
    ensures Bounded(Apply(s, Insert(id), projects, limit), bound, late)
  {
    SubsetCard(s.owned - late, s.holder.counted);
  }

  lemma ReleasingIsBounded(s: State, projects: set<string>, limit: nat, bound: nat, late: set<Ident>)
    requires Enabled(s, Release, projects, limit) && Bounded(s, bound, late)
    ensures Bounded(Apply(s, Release, projects, limit), bound, late)
  {
    if s.holder.Created? {
      var one := {s.holder.id};
      AtMostMore(s.owned - late, one, one - late);
      assert s.owned + one - late == s.owned - late + (one - late);
    }
  }

  lemma {:induction false} StepIsBounded(s: State, step: Step, projects: set<string>, limit: nat, bound: nat,
          late: set<Ident>)
    requires Enabled(s, step, projects, limit) && Bounded(s, bound, late) && limit <= bound
    ensures Bounded(Apply(s, step, projects, limit), bound, late + if step.WriteLate? then step.ids else {})
  {
    match step
    case Insert(id) => CreatingIsBounded(s, id, projects, limit, bound, late);
    case FindExisting => FindingIsBounded(s, projects, limit, bound, late);
    case Upsert => WritingIsBounded(s, limit, bound, late);
    case Release => ReleasingIsBounded(s, projects, limit, bound, late);
    case Delete(id) => ShrinkingIsBounded(s, Apply(s, step, projects, limit), bound, late, late);
    case WriteLate(ids) => ShrinkingIsBounded(s, Apply(s, step, projects, limit), bound, late, late + ids);
    case _ =>
  }

  /**
   * In any interleaving, whatever times out, an owner's checks never number more than the limit, or than there were to
   * begin with, besides those that were written late.
   */
  lemma {:induction false} OnlyLateWritesExceed(run: seq<State>, steps: seq<Step>, projects: set<string>,
          limit: nat, i: nat)
    requires IsRun(run, steps, projects, limit) && i < |run|
    ensures Bounded(run[i], Max(limit, |run[0].owned|), Late(steps, i))
    ensures |run[i].owned| <= Max(limit, |run[0].owned|) + |Late(steps, i)|
  {
    if i > 0 {
      OnlyLateWritesExceed(run, steps, projects, limit, i - 1);
      assert IsStep(run, steps, projects, limit, i - 1);
      StepIsBounded(run[i - 1], steps[i - 1], projects, limit, Max(limit, |run[0].owned|), Late(steps, i - 1));
    } else {
      assert run[0].owned - {} == run[0].owned;
    }
    AtMostBesides(run[i].owned, Late(steps, i));
  }

  lemma {:induction false} NothingIsLate(run: seq<State>, steps: seq<Step>, projects: set<string>, limit: nat, i: nat)
    requires IsRun(run, steps, projects, limit) && InTime(steps) && i < |run|
    ensures run[i].writing == {} && Late(steps, i) == {}
  {
    if i > 0 {
      NothingIsLate(run, steps, projects, limit, i - 1);
      assert IsStep(run, steps, projects, limit, i - 1);
    }
  }

  /** The ceiling: when every sync ends in time, they never number more than the limit, or than there were. */
  lemma CeilingHolds(run: seq<State>, steps: seq<Step>, projects: set<string>, limit: nat, i: nat)
    requires IsRun(run, steps, projects, limit) && InTime(steps) && i < |run|
    ensures |run[i].owned| <= Max(limit, |run[0].owned|)
  {
    OnlyLateWritesExceed(run, steps, projects, limit, i);
    NothingIsLate(run, steps, projects, limit, i);
  }

  // ---- Syncs that time out ---------------------------------------------------------------------------------------

  datatype Account = Account(projects: set<string>, limit: nat, start: set<Ident>)

  ghost predicate Reaches(run: seq<State>, steps: seq<Step>, a: Account, s: State, late: set<Ident>) {
    && IsRun(run, steps, a.projects, a.limit) && run[0].owned == a.start
    && run[|steps|] == s && Late(steps, |steps|) == late
  }

  lemma {:induction false} LateAgrees(a: seq<Step>, b: seq<Step>, i: nat)
    requires i <= |a| && i <= |b| && a[..i] == b[..i]
    ensures Late(a, i) == Late(b, i)
  {
    if i > 0 {
      assert a[i - 1] == a[..i][i - 1] == b[..i][i - 1] == b[i - 1];
      assert a[..i - 1] == a[..i][..i - 1] == b[..i][..i - 1] == b[..i - 1];
      LateAgrees(a, b, i - 1);
    }
  }

  lemma OneMore(run: seq<State>, steps: seq<Step>, a: Account, s: State, late: set<Ident>, step: Step)
    returns (r: seq<State>, t: seq<Step>)
    requires Reaches(run, steps, a, s, late) && Enabled(s, step, a.projects, a.limit)
    ensures Reaches(r, t, a, Apply(s, step, a.projects, a.limit), late + if step.WriteLate? then step.ids else {})
    ensures t == steps + [step]
  {
    r, t := run + [Apply(s, step, a.projects, a.limit)], steps + [step];
    forall i | 0 <= i < |t|
      ensures IsStep(r, t, a.projects, a.limit, i)
    {
      if i < |steps| {
        assert IsStep(run, steps, a.projects, a.limit, i);
      }
    }
    LateAgrees(t, steps, |steps|);
  }

  /** A sync that declares only new keys, for which there is room when it counts. */
  ghost predicate Fits(p: Payload, owned: set<Ident>, a: Account) {
    && p.project in a.projects && Distinct(p.keys)
    && |owned| + |p.keys| <= a.limit
    && Idents(p) !! owned
  }

  ghost function Idents(p: Payload): set<Ident> {
    IdentsOf(p, Elements(p.keys))
  }

  lemma AllIsWritten(p: Payload, owned: set<Ident>, a: Account)
    requires Fits(p, owned, a)
    ensures Written(Knows(p, owned, {}), a.limit) == Idents(p)
    ensures (set k | k in p.keys && Declared(p.project, p.environment, k) in owned) == {}
  {
    assert Skipped(p.keys, {}, Some(Room(owned, a.limit))) == [];
    NoElements(Skipped(p.keys, {}, Some(Room(owned, a.limit))));
    forall k <- p.keys
      ensures Declared(p.project, p.environment, k) !in owned
    {
      assert Declared(p.project, p.environment, k) in Idents(p);
    }
  }

  lemma SyncStarts(run: seq<State>, steps: seq<Step>, a: Account, s: State, late: set<Ident>, p: Payload)
    returns (r: seq<State>, t: seq<Step>)
    requires Reaches(run, steps, a, s, late) && s.holder == Nobody && Fits(p, s.owned, a)
    ensures Reaches(r, t, a, s.(holder := Knows(p, s.owned, {})), late)
  {
    AllIsWritten(p, s.owned, a);
    r, t := OneMore(run, steps, a, s, late, TakeLockToSync(p));
    r, t := OneMore(r, t, a, s.(holder := Syncing(p)), late, Count);
    r, t := OneMore(r, t, a, s.(holder := HasRoom(p, s.owned)), late, FindExisting);
  }

  lemma SyncTimesOut(run: seq<State>, steps: seq<Step>, a: Account, s: State, late: set<Ident>, p: Payload)
    returns (r: seq<State>, t: seq<Step>)
    requires Reaches(run, steps, a, s, late) && s.holder == Nobody && Fits(p, s.owned, a)
    ensures Reaches(r, t, a, s.(writing := s.writing + {Idents(p)}), late)
  {
    r, t := SyncStarts(run, steps, a, s, late, p);
    AllIsWritten(p, s.owned, a);
    r, t := OneMore(r, t, a, s.(holder := Knows(p, s.owned, {})), late, TimeOut);
  }

  lemma SyncInTime(run: seq<State>, steps: seq<Step>, a: Account, s: State, late: set<Ident>, p: Payload)
    returns (r: seq<State>, t: seq<Step>)
    requires Reaches(run, steps, a, s, late) && s.holder == Nobody && Fits(p, s.owned, a)
    ensures Reaches(r, t, a, s.(owned := s.owned + Idents(p)), late)
  {
    r, t := SyncStarts(run, steps, a, s, late, p);
    AllIsWritten(p, s.owned, a);
    r, t := OneMore(r, t, a, s.(holder := Knows(p, s.owned, {})), late, Upsert);
    var up := s.(owned := s.owned + Idents(p), holder := SyncedUp);
    r, t := OneMore(r, t, a, up, late, Release);
    assert up.owned + {} == up.owned;
  }

  ghost function AllIdents(ps: seq<Payload>): set<set<Ident>> {
    set i | 0 <= i < |ps| :: Idents(ps[i])
  }

  ghost function Union(sets: set<set<Ident>>): set<Ident> {
    set ids, x | ids in sets && x in ids :: x
  }

  lemma AppendIdents(ps: seq<Payload>, p: Payload)
    ensures AllIdents(ps + [p]) == AllIdents(ps) + {Idents(p)}
  {
    forall ids
      ensures ids in AllIdents(ps + [p]) <==> ids in AllIdents(ps) || ids == Idents(p)
    {
      if ids in AllIdents(ps) {
        var i :| 0 <= i < |ps| && ids == Idents(ps[i]);
        assert (ps + [p])[i] == ps[i];
      }
      assert (ps + [p])[|ps|] == p;
    }
  }

  lemma UnionAppend(sets: set<set<Ident>>, ids: set<Ident>)
    ensures Union(sets + {ids}) == Union(sets) + ids
  {
  }

  lemma {:induction false} AllTimeOut(run: seq<State>, steps: seq<Step>, a: Account, owned: set<Ident>,
          ps: seq<Payload>)
    returns (r: seq<State>, t: seq<Step>)
    requires Reaches(run, steps, a, State(owned, Nobody, {}), {})
    requires forall p <- ps :: Fits(p, owned, a)
    ensures Reaches(r, t, a, State(owned, Nobody, AllIdents(ps)), {})
  {
    r, t := run, steps;
    if ps == [] {
      assert AllIdents(ps) == {};
    } else {
      var front, p := ps[..|ps| - 1], ps[|ps| - 1];
      r, t := AllTimeOut(run, steps, a, owned, front);
      assert p in ps && ps == front + [p];
      AppendIdents(front, p);
      r, t := SyncTimesOut(r, t, a, State(owned, Nobody, AllIdents(front)), {}, p);
    }
  }

  lemma {:induction false} AllWriteLate(run: seq<State>, steps: seq<Step>, a: Account, s: State, late: set<Ident>)
    returns (r: seq<State>, t: seq<Step>)
    requires Reaches(run, steps, a, s, late)
    ensures Reaches(r, t, a, State(s.owned + Union(s.writing), s.holder, {}), late + Union(s.writing))
    decreases s.writing
  {
    r, t := run, steps;
    if s.writing == {} {
      assert s.owned + Union({}) == s.owned && late + Union({}) == late;
    } else {
      var ids :| ids in s.writing;
      var next := State(s.owned + ids, s.holder, s.writing - {ids});
      r, t := OneMore(run, steps, a, s, late, WriteLate(ids));
      r, t := AllWriteLate(r, t, a, next, late + ids);
      UnionAppend(next.writing, ids);
      assert next.writing + {ids} == s.writing;
      assert next.owned + Union(next.writing) == s.owned + Union(s.writing);
      assert late + ids + Union(next.writing) == late + Union(s.writing);
    }
  }

  /**
   * Why no sync may outlive its transaction. Any syncs that each fit by themselves can time out one after the other,
   * another one uses up the room, and then all of them write, on connections the time-outs do not reach: the bound of
   * `OnlyLateWritesExceed` is met.
   */
  lemma LateSyncsBreakTheCeiling(a: Account, ps: seq<Payload>, p: Payload) returns (run: seq<State>, steps: seq<Step>)
    requires Fits(p, a.start, a) && |a.start| + |p.keys| == a.limit
    requires forall q <- ps :: Fits(q, a.start, a) && Idents(q) !! Idents(p)
    ensures IsRun(run, steps, a.projects, a.limit) && run[0].owned == a.start
    ensures Late(steps, |steps|) == Union(AllIdents(ps))
    ensures |run[|steps|].owned| == a.limit + |Late(steps, |steps|)|
  {
    var all := Union(AllIdents(ps));
    run, steps := [State(a.start, Nobody, {})], [];
    run, steps := AllTimeOut(run, steps, a, a.start, ps);
    run, steps := SyncInTime(run, steps, a, State(a.start, Nobody, AllIdents(ps)), {}, p);
    run, steps := AllWriteLate(run, steps, a, State(a.start + Idents(p), Nobody, AllIdents(ps)), {});
    assert {} + all == all;
    DistinctCard(p.keys);
    IdentsCard(p, Elements(p.keys));
    CardUnion(a.start, Idents(p));
    AllApart(a.start + Idents(p), ps);
    CardUnion(a.start + Idents(p), all);
  }

  lemma AllApart(others: set<Ident>, ps: seq<Payload>)
    requires forall q <- ps :: Idents(q) !! others
    ensures Union(AllIdents(ps)) !! others
  {
    forall x <- Union(AllIdents(ps))
      ensures x !in others
    {
      var ids :| ids in AllIdents(ps) && x in ids;
      var i :| 0 <= i < |ps| && ids == Idents(ps[i]);
      assert ps[i] in ps;
    }
  }

  // ---- Room is used ----------------------------------------------------------------------------------------------

  lemma CreationSucceeds(run: seq<State>, steps: seq<Step>, a: Account, s: State, late: set<Ident>, id: Ident)
    returns (r: seq<State>, t: seq<Step>)
    requires Reaches(run, steps, a, s, late) && s.holder == Nobody && |s.owned| < a.limit
    requires id.Keyless? && id.project in a.projects
    ensures Reaches(r, t, a, s.(owned := s.owned + {id}), late)
    ensures t == steps + [TakeLockToCreate, Count, Insert(id), Release]
  {
    r, t := OneMore(run, steps, a, s, late, TakeLockToCreate);
    r, t := OneMore(r, t, a, s.(holder := Creating), late, Count);
    r, t := OneMore(r, t, a, s.(holder := MayCreate(s.owned)), late, Insert(id));
    r, t := OneMore(r, t, a, s.(holder := Created(id)), late, Release);
  }

  /** A request past the ceiling is refused: its transaction aborts, and nothing has changed. */
  lemma CreationIsRefused(run: seq<State>, steps: seq<Step>, a: Account, s: State, late: set<Ident>, id: Ident)
    returns (r: seq<State>, t: seq<Step>)
    requires Reaches(run, steps, a, s, late) && s.holder == Nobody && |s.owned| >= a.limit
    ensures !Enabled(s.(holder := MayCreate(s.owned)), Insert(id), a.projects, a.limit)
    ensures Reaches(r, t, a, s, late) && t == steps + [TakeLockToCreate, Count, Abort]
  {
    r, t := OneMore(run, steps, a, s, late, TakeLockToCreate);
    r, t := OneMore(r, t, a, s.(holder := Creating), late, Count);
    r, t := OneMore(r, t, a, s.(holder := MayCreate(s.owned)), late, Abort);
  }

  lemma {:induction false} IdsBelow(project: string, owned: set<Ident>) returns (n: nat)
    ensures forall k: nat :: Keyless(project, k) in owned ==> k < n
  {
    n := 0;
    if owned != {} {
      var x :| x in owned;
      n := IdsBelow(project, owned - {x});
      if x.Keyless? && x.id >= n {
        n := x.id + 1;
      }
    }
  }

  /** The ceiling is no lower than the plan says: from any start below it, creations alone reach it. */
  lemma {:induction false} CeilingIsReached(run: seq<State>, steps: seq<Step>, a: Account, s: State, late: set<Ident>,
          project: string)
    returns (r: seq<State>, t: seq<Step>, full: set<Ident>)
    requires Reaches(run, steps, a, s, late) && s.holder == Nobody && |s.owned| <= a.limit && project in a.projects
    ensures Reaches(r, t, a, s.(owned := full), late) && s.owned <= full && |full| == a.limit
    decreases a.limit - |s.owned|
  {
    r, t, full := run, steps, s.owned;
    if |s.owned| < a.limit {
      var n := IdsBelow(project, s.owned);
      var id := Keyless(project, n);
      assert id !in s.owned;
      r, t := CreationSucceeds(run, steps, a, s, late, id);
      r, t, full := CeilingIsReached(r, t, a, s.(owned := s.owned + {id}), late, project);
    }
  }

  // ---- When time-outs are harmless -------------------------------------------------------------------------------

  /** Nothing is there, counted, known or being written that was not there at the start. */
  ghost predicate Closed(s: State, start: set<Ident>) {
    && s.owned <= start && (forall ids <- s.writing :: ids <= start)
    && !s.holder.Created?
    && (s.holder.Knows? ==> IdentsOf(s.holder.payload, s.holder.known) <= start)
  }

  lemma NoRoomNothingNew(p: Payload, known: set<string>)
    ensures Kept(p, known, 0) <= known
  {
  }

  lemma StepStaysClosed(s: State, step: Step, projects: set<string>, start: set<Ident>)
    requires Enabled(s, step, projects, 0) && Closed(s, start)
    ensures Closed(Apply(s, step, projects, 0), start)
  {
    if s.holder.Knows? {
      NoRoomNothingNew(s.holder.payload, s.holder.known);
      SplitIdents(s.holder.payload, Kept(s.holder.payload, s.holder.known, 0), s.holder.known, {});
      assert IdentsOf(s.holder.payload, {}) == {};
    } else if step.FindExisting? {
      var p := s.holder.payload;
      var known := set k | k in p.keys && Declared(p.project, p.environment, k) in s.owned;
      assert IdentsOf(p, known) <= s.owned;
    }
  }

  lemma {:induction false} StaysClosed(run: seq<State>, steps: seq<Step>, projects: set<string>, i: nat)
    requires IsRun(run, steps, projects, 0) && i < |run|
    ensures Closed(run[i], run[0].owned)
  {
    if i > 0 {
      StaysClosed(run, steps, projects, i - 1);
      assert IsStep(run, steps, projects, 0, i - 1);
      StepStaysClosed(run[i - 1], steps[i - 1], projects, run[0].owned);
    }
  }

  /** In every run that starts with these checks the ceiling holds, whatever times out. */
  ghost predicate AlwaysHolds(start: set<Ident>, projects: set<string>, limit: nat) {
    forall run: seq<State>, steps, i :: IsRun(run, steps, projects, limit) && run[0].owned == start && 0 <= i < |run| ==>
      |run[i].owned| <= Max(limit, |start|)
  }

  lemma {:induction false} DeleteAll(run: seq<State>, steps: seq<Step>, a: Account, owned: set<Ident>)
    returns (r: seq<State>, t: seq<Step>)
    requires Reaches(run, steps, a, State(owned, Nobody, {}), {})
    ensures Reaches(r, t, a, State({}, Nobody, {}), {})
    decreases owned
  {
    r, t := run, steps;
    if owned != {} {
      var id :| id in owned;
      r, t := OneMore(run, steps, a, State(owned, Nobody, {}), {}, Delete(id));
      r, t := DeleteAll(r, t, a, owned - {id});
    }
  }

  /** Keys that differ in length. */
  function Key(n: nat): string {
    seq(n, i => 'k')
  }

  function Singles(project: string, n: nat): seq<Payload> {
    seq(n, i requires 0 <= i < n => Payload(project, None, [Key(i)]))
  }

  lemma {:induction false} SinglesAddUp(project: string, n: nat)
    ensures var all := Union(AllIdents(Singles(project, n)));
            |all| == n && forall x <- all :: x.Declared? && |x.key| < n
  {
    if n == 0 {
      assert AllIdents(Singles(project, 0)) == {};
      assert Union({}) == {};
    } else {
      SinglesAddUp(project, n - 1);
      var fewer, last := Singles(project, n - 1), Payload(project, None, [Key(n - 1)]);
      assert Idents(last) == {Declared(project, None, Key(n - 1))};
      assert Singles(project, n) == fewer + [last];
      AppendIdents(fewer, last);
      UnionAppend(AllIdents(fewer), Idents(last));
    }
  }

  /** From any start, enough syncs of one new key each. */
  lemma BreaksFrom(a: Account, project: string, n: nat) returns (run: seq<State>, steps: seq<Step>)
    requires project in a.projects && a.limit >= 1
    ensures IsRun(run, steps, a.projects, a.limit) && run[0].owned == a.start && |run[|steps|].owned| == n
  {
    var ps := Singles(project, n);
    run, steps := [State(a.start, Nobody, {})], [];
    run, steps := DeleteAll(run, steps, a, a.start);
    run, steps := AllTimeOut(run, steps, a, {}, ps);
    run, steps := AllWriteLate(run, steps, a, State({}, Nobody, AllIdents(ps)), {});
    SinglesAddUp(project, n);
    assert {} + Union(AllIdents(ps)) == Union(AllIdents(ps));
  }

  /** The ceiling holds whatever times out exactly under a plan of no checks at all. */
  lemma TimeOutsAreHarmlessWhen(start: set<Ident>, projects: set<string>, limit: nat)
    requires projects != {}
    ensures AlwaysHolds(start, projects, limit) <==> limit == 0
  {
    if limit == 0 {
      forall run: seq<State>, steps, i | IsRun(run, steps, projects, limit) && run[0].owned == start && 0 <= i < |run|
        ensures |run[i].owned| <= Max(limit, |start|)
      {
        StaysClosed(run, steps, projects, i);
        SubsetCard(run[i].owned, start);
      }
    } else {
      var project :| project in projects;
      var run, steps := BreaksFrom(Account(projects, limit, start), project, Max(limit, |start|) + 1);
      assert |run[|steps|].owned| > Max(limit, |start|);
    }
  }
}
