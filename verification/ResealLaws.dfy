/**
 * Bringing every configuration under the current key, with any number of instances doing it and people editing
 * meanwhile.
 */
module ResealLaws {
  import opened Prelude
  import opened ChannelConfigVault

  /** The vault the server runs with, and the one it ran with before, if SECRET_KEY was changed. */
  datatype Keys = Keys(current: Vault, previous: Option<Vault>)

  datatype Kind = ToSeal | ToReseal | Unchanged | Failed

  /** What `one` finds a row to be. */
  function KindOf(keys: Keys, id: ChannelId, stored: Stored): Kind {
    if !IsSealed(stored) then ToSeal
    else if Open(keys.current, id, stored).Opened? then Unchanged
    else if keys.previous.None? then Failed
    else if Open(keys.previous.value, id, stored).Opened? then ToReseal
    else Failed
  }

  /** What a row means to a server that has these keys: `None` is a configuration nobody can read. */
  function Meaning(keys: Keys, id: ChannelId, stored: Stored): Option<Config> {
    match Open(keys.current, id, stored)
    case Opened(c) => Some(c)
    case Refused(_) =>
      if keys.previous.None? then None
      else
        match Open(keys.previous.value, id, stored)
        case Opened(c) => Some(c)
        case Refused(_) => None
  }

  /** What `one` writes over a row it read, if it writes. */
  function Rewritten(keys: Keys, id: ChannelId, stored: Stored, nonce: nat): Stored {
    match KindOf(keys, id, stored)
    case ToSeal => Seal(keys.current, id, stored.config, nonce)
    case ToReseal => Seal(keys.current, id, Open(keys.previous.value, id, stored).config, nonce)
    case _ => stored
  }

  /**
   * What kind a row is: plain ones are sealed; of the sealed ones, what opens under the current key is left, what only
   * opens under the one before is sealed again, and the rest, which nobody can read, has failed.
   */
  lemma KindSays(keys: Keys, id: ChannelId, stored: Stored)
    ensures KindOf(keys, id, stored) == ToSeal <==> stored.Plain?
    ensures KindOf(keys, id, stored) == Unchanged <==> !stored.Plain? && Open(keys.current, id, stored).Opened?
    ensures KindOf(keys, id, stored) == ToReseal <==>
            !stored.Plain? && Open(keys.current, id, stored).Refused? && Meaning(keys, id, stored).Some?
    ensures KindOf(keys, id, stored) == Failed <==> Meaning(keys, id, stored).None?
  {
  }

  /** Before and after one visit: `after` is `before` written once, or left. */
  ghost predicate Visited(keys: Keys, id: ChannelId, before: Stored, after: Stored) {
    exists nonce: nat :: after == Rewritten(keys, id, before, nonce)
  }

  /**
   * A visit keeps what a row means. It leaves it opening under the current key exactly when anyone could read it, and a
   * row nobody can read, or that needs nothing, is left as it is.
   */
  lemma {:induction false} VisitKeepsMeaning(keys: Keys, id: ChannelId, before: Stored, after: Stored)
    requires Visited(keys, id, before, after)
    ensures Meaning(keys, id, after) == Meaning(keys, id, before)
    ensures Meaning(keys, id, before).Some? <==> Open(keys.current, id, after).Opened?
    ensures KindOf(keys, id, before) in {Unchanged, Failed} ==> after == before
    ensures IsSealed(after) || before == after
    ensures KindOf(keys, id, before) in {ToSeal, ToReseal} ==> IsSealed(after) && after != before
  {
    if KindOf(keys, id, before).ToReseal? {
      assert Open(keys.current, id, before).Refused?;
    }
  }

  /** A second visit writes nothing. */
  lemma {:induction false} SecondVisitWritesNothing(keys: Keys, id: ChannelId, before: Stored, after: Stored,
          again: Stored)
    requires Visited(keys, id, before, after) && Visited(keys, id, after, again)
    ensures again == after && KindOf(keys, id, after) in {Unchanged, Failed}
  {
    VisitKeepsMeaning(keys, id, before, after);
  }

  // ---- Any interleaving ------------------------------------------------------------------------------------------

  type Instance = nat
  type Table = map<ChannelId, Stored>

  datatype Read = Read(id: ChannelId, stored: Stored)

  /**
   * `seen` is what each instance has read and not yet acted on; `said` what was last said of each channel, and by
   * whom else.
   */
  datatype State = State(table: Table, seen: map<Instance, Read>, said: map<ChannelId, Option<Config>>)

  datatype Step =
    /** An instance reads a row of its batch. */
    | Look(instance: Instance, id: ChannelId)
    /** It writes, if the row is still what it read. */
    | Swap(instance: Instance, nonce: nat)
    /** Anyone else writes a configuration, sealed or not, under whatever key. */
    | Put(id: ChannelId, stored: Stored)
    | Remove(id: ChannelId)

  ghost predicate Enabled(s: State, step: Step) {
    match step
    case Look(w, id) => id in s.table
    case Swap(w, nonce) => w in s.seen
    case Put(id, stored) => true
    case Remove(id) => true
  }

  /** What an instance writes over a row it has read: only a row that is still as it was. */
  ghost function Swapped(keys: Keys, t: Table, id: ChannelId, stored: Stored, nonce: nat): Table {
    if id in t && t[id] == stored then t[id := Rewritten(keys, id, stored, nonce)] else t
  }

  ghost function Apply(s: State, step: Step, keys: Keys): State
    requires Enabled(s, step)
  {
    match step
    case Look(w, id) => s.(seen := s.seen[w := Read(id, s.table[id])])
    case Swap(w, nonce) =>
      s.(seen := s.seen - {w}, table := Swapped(keys, s.table, s.seen[w].id, s.seen[w].stored, nonce))
    case Put(id, stored) => s.(table := s.table[id := stored], said := s.said[id := Meaning(keys, id, stored)])
    case Remove(id) => s.(table := s.table - {id}, said := s.said - {id})
  }

  ghost predicate IsRun(run: seq<State>, steps: seq<Step>, keys: Keys) {
    && |run| == |steps| + 1
    && MeansWhatWasSaid(run[0], keys)
    && forall i :: 0 <= i < |steps| ==> Enabled(run[i], steps[i]) && run[i + 1] == Apply(run[i], steps[i], keys)
  }

  /** Every row means what was last said of it. */
  ghost predicate MeansWhatWasSaid(s: State, keys: Keys) {
    s.table.Keys == s.said.Keys && forall id <- s.table :: Meaning(keys, id, s.table[id]) == s.said[id]
  }

  lemma {:induction false} StepKeepsMeaning(s: State, step: Step, keys: Keys)
    requires Enabled(s, step) && MeansWhatWasSaid(s, keys)
    ensures MeansWhatWasSaid(Apply(s, step, keys), keys)
  {
    if step.Swap? {
      var read := s.seen[step.instance];
      assert Visited(keys, read.id, read.stored, Rewritten(keys, read.id, read.stored, step.nonce));
      VisitKeepsMeaning(keys, read.id, read.stored, Rewritten(keys, read.id, read.stored, step.nonce));
    }
  }

  /** Whatever the interleaving, no instance changes what a row opens to, or undoes what somebody wrote. */
  lemma {:induction false} MeaningIsKept(run: seq<State>, steps: seq<Step>, keys: Keys, i: nat)
    requires IsRun(run, steps, keys) && i < |run|
    ensures MeansWhatWasSaid(run[i], keys)
  {
    if i > 0 {
      MeaningIsKept(run, steps, keys, i - 1);
      StepKeepsMeaning(run[i - 1], steps[i - 1], keys);
    }
  }

  /** Resealers alone: every channel opens, for ever, to what it opened to at the start. */
  lemma {:induction false} ResealersAloneChangeNoMeaning(run: seq<State>, steps: seq<Step>, keys: Keys, i: nat,
          id: ChannelId)
    requires IsRun(run, steps, keys) && i < |run| && id in run[0].table
    requires forall j :: 0 <= j < |steps| ==> steps[j].Look? || steps[j].Swap?
    ensures id in run[i].table && Meaning(keys, id, run[i].table[id]) == Meaning(keys, id, run[0].table[id])
  {
    SaidIsUntouched(run, steps, keys, i);
    MeaningIsKept(run, steps, keys, i);
  }

  /** What an instance has read stays what it acts on until it acts or reads again. */
  ghost predicate KeepsReading(steps: seq<Step>, w: Instance, i: nat, j: nat)
    requires j <= |steps|
  {
    forall m :: i <= m < j ==> ReadsNothing(steps[m], w)
  }

  predicate ReadsNothing(step: Step, w: Instance) {
    (step.Look? ==> step.instance != w) && (step.Swap? ==> step.instance != w)
  }

  lemma {:induction false} SeenStays(run: seq<State>, steps: seq<Step>, keys: Keys, w: Instance, i: nat, j: nat)
    requires IsRun(run, steps, keys) && i <= j < |run| && KeepsReading(steps, w, i, j) && w in run[i].seen
    ensures w in run[j].seen && run[j].seen[w] == run[i].seen[w]
    decreases j
  {
    if i < j {
      SeenStays(run, steps, keys, w, i, j - 1);
      assert ReadsNothing(steps[j - 1], w);
    }
  }

  /**
   * An instance that reads a row and comes to write it leaves it under the current key if anybody can read it, provided
   * nobody wrote it in between; and otherwise leaves it alone.
   */
  lemma VisitReseals(run: seq<State>, steps: seq<Step>, keys: Keys, w: Instance, i: nat, j: nat, nonce: nat,
          id: ChannelId)
    requires IsRun(run, steps, keys) && i < j < |steps| && KeepsReading(steps, w, i + 1, j)
    requires steps[i] == Look(w, id) && steps[j] == Swap(w, nonce)
    ensures id in run[i].table
    ensures if id in run[j].table && run[j].table[id] == run[i].table[id] then
              && id in run[j + 1].table
              && (Open(keys.current, id, run[j + 1].table[id]).Opened? <==> Meaning(keys, id, run[i].table[id]).Some?)
              && Meaning(keys, id, run[j + 1].table[id]) == Meaning(keys, id, run[i].table[id])
              && (Meaning(keys, id, run[i].table[id]).Some? ==> IsSealed(run[j + 1].table[id]))
              && forall other <- run[j].table :: other != id ==>
                   other in run[j + 1].table && run[j + 1].table[other] == run[j].table[other]
            else run[j + 1].table == run[j].table
  {
    SeenStays(run, steps, keys, w, i + 1, j);
    var stored := run[i].table[id];
    assert run[j].seen[w] == Read(id, stored);
    assert Visited(keys, id, stored, Rewritten(keys, id, stored, nonce));
    VisitKeepsMeaning(keys, id, stored, Rewritten(keys, id, stored, nonce));
  }

  lemma {:induction false} SaidIsUntouched(run: seq<State>, steps: seq<Step>, keys: Keys, i: nat)
    requires IsRun(run, steps, keys) && i < |run|
    requires forall j :: 0 <= j < |steps| ==> steps[j].Look? || steps[j].Swap?
    ensures run[i].said == run[0].said
  {
    if i > 0 {
      SaidIsUntouched(run, steps, keys, i - 1);
      assert steps[i - 1].Look? || steps[i - 1].Swap?;
    }
  }

  // ---- Counting --------------------------------------------------------------------------------------------------

  function OfKind(keys: Keys, t: Table, ids: set<ChannelId>, kind: Kind): set<ChannelId> {
    set id | id in ids && id in t && KindOf(keys, id, t[id]) == kind
  }

  lemma {:induction false} OneMoreOfKind(keys: Keys, t: Table, ids: set<ChannelId>, id: ChannelId, kind: Kind)
    requires id in t && id !in ids
    ensures |OfKind(keys, t, ids + {id}, kind)|
            == |OfKind(keys, t, ids, kind)| + if KindOf(keys, id, t[id]) == kind then 1 else 0
  {
    if KindOf(keys, id, t[id]) == kind {
      assert OfKind(keys, t, ids + {id}, kind) == OfKind(keys, t, ids, kind) + {id};
    } else {
      assert OfKind(keys, t, ids + {id}, kind) == OfKind(keys, t, ids, kind);
    }
  }

  /** Every row is of one kind. */
  lemma {:induction false} KindsAddUp(keys: Keys, t: Table, ids: set<ChannelId>)
    requires ids <= t.Keys
    ensures |ids| == |OfKind(keys, t, ids, ToSeal)| + |OfKind(keys, t, ids, ToReseal)|
                     + |OfKind(keys, t, ids, Unchanged)| + |OfKind(keys, t, ids, Failed)|
  {
    if ids == {} {
      assert forall kind :: OfKind(keys, t, {}, kind) == {};
    } else {
      var id :| id in ids;
      KindsAddUp(keys, t, ids - {id});
      assert ids == (ids - {id}) + {id};
      OneMoreOfKind(keys, t, ids - {id}, id, ToSeal);
      OneMoreOfKind(keys, t, ids - {id}, id, ToReseal);
      OneMoreOfKind(keys, t, ids - {id}, id, Unchanged);
      OneMoreOfKind(keys, t, ids - {id}, id, Failed);
    }
  }
}
