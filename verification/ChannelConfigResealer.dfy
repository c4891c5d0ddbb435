/** The walk over the table, batch by batch, with nobody else writing. */
module ChannelConfigResealer {
  import opened Prelude
  import opened ChannelConfigVault
  import opened ResealLaws

  datatype ResealCounts = ResealCounts(sealed: nat, resealed: nat, untouched: nat, failed: nat)

  const BATCH := 200
  const NIL_UUID: ChannelId := 0

  function Past(t: Table, after: ChannelId): set<ChannelId> {
    set id | id in t && id > after
  }

  /** The rows the walk has behind it: the nil UUID is no row's id. */
  function UpTo(t: Table, last: ChannelId): set<ChannelId> {
    set id | id in t && NIL_UUID < id <= last
  }

  function LastOf(ids: seq<ChannelId>, after: ChannelId): ChannelId {
    if ids == [] then after else ids[|ids| - 1]
  }

  /** At most two hundred rows, and fewer only at the end of the table. */
  ghost predicate IsBatch(t: Table, after: ChannelId, ids: seq<ChannelId>) {
    && |ids| <= 200
    && (|ids| < 200 ==> Past(t, LastOf(ids, after)) == {})
    && IsStretch(t, after, ids)
  }

  /** The rows that follow `after`, in order and with no gap. */
  ghost predicate IsStretch(t: Table, after: ChannelId, ids: seq<ChannelId>) {
    && (forall i, j :: 0 <= i < j < |ids| ==> ids[i] < ids[j])
    && (forall id <- ids :: id in t && id > after)
    && (forall id <- t :: after < id && ids != [] && id <= ids[|ids| - 1] ==> id in ids)
  }

  /** The counts of the walk so far. */
  ghost predicate Counted(keys: Keys, t: Table, ids: set<ChannelId>, c: ResealCounts) {
    && c.sealed == |OfKind(keys, t, ids, ToSeal)| && c.resealed == |OfKind(keys, t, ids, ToReseal)|
    && c.untouched == |OfKind(keys, t, ids, Unchanged)| && c.failed == |OfKind(keys, t, ids, Failed)|
  }

  function Tick(c: ResealCounts, kind: Kind): ResealCounts {
    match kind
    case ToSeal => c.(sealed := c.sealed + 1)
    case ToReseal => c.(resealed := c.resealed + 1)
    case Unchanged => c.(untouched := c.untouched + 1)
    case Failed => c.(failed := c.failed + 1)
  }

  lemma CountOne(keys: Keys, t: Table, ids: set<ChannelId>, c: ResealCounts, id: ChannelId)
    requires Counted(keys, t, ids, c) && id in t && id !in ids
    ensures Counted(keys, t, ids + {id}, Tick(c, KindOf(keys, id, t[id])))
  {
    OneMoreOfKind(keys, t, ids, id, ToSeal);
    OneMoreOfKind(keys, t, ids, id, ToReseal);
    OneMoreOfKind(keys, t, ids, id, Unchanged);
    OneMoreOfKind(keys, t, ids, id, Failed);
  }

  /** The rows up to `last` were visited once, the others not yet. */
  ghost predicate Walked(keys: Keys, before: Table, now: Table, last: ChannelId) {
    && now.Keys == before.Keys
    && forall id <- before :: if NIL_UUID < id <= last then Visited(keys, id, before[id], now[id]) else now[id] == before[id]
  }

  /** `id` is the next row after `last`. */
  ghost predicate IsNext(t: Table, last: ChannelId, id: ChannelId) {
    id in t && last < id && forall other <- t :: last < other ==> id <= other
  }

  lemma WalkedFurther(keys: Keys, before: Table, now: Table, last: ChannelId, id: ChannelId, next: Table,
          c: ResealCounts)
    requires Walked(keys, before, now, last) && IsNext(before, last, id)
    requires exists nonce: nat :: next == Swapped(keys, now, id, now[id], nonce)
    requires Counted(keys, before, UpTo(before, last), c)
    ensures Walked(keys, before, next, id)
    ensures Counted(keys, before, UpTo(before, id), Tick(c, KindOf(keys, id, now[id])))
  {
    assert now[id] == before[id];
    var nonce: nat :| next == Swapped(keys, now, id, now[id], nonce);
    assert next[id] == Rewritten(keys, id, before[id], nonce);
    assert UpTo(before, id) == UpTo(before, last) + {id} && id !in UpTo(before, last);
    CountOne(keys, before, UpTo(before, last), c, id);
    assert Visited(keys, id, before[id], next[id]);
  }

  /** Nothing lies between one row of a batch and the next, nor before the first one. */
  lemma NextInBatch(t: Table, after: ChannelId, ids: seq<ChannelId>, i: nat)
    requires IsStretch(t, after, ids) && i < |ids|
    ensures IsNext(t, LastOf(ids[..i], after), ids[i])
  {
    assert ids[i] in ids && (i > 0 ==> ids[i - 1] in ids);
    forall other <- t | LastOf(ids[..i], after) < other
      ensures ids[i] <= other
    {
      if other <= ids[|ids| - 1] {
        assert other in ids;
        var j :| 0 <= j < |ids| && ids[j] == other;
        assert j >= i;
      }
    }
  }

  /** The rows of a batch so far. */
  ghost predicate Gathered(t: Table, after: ChannelId, ids: seq<ChannelId>) {
    && (forall i, j :: 0 <= i < j < |ids| ==> ids[i] < ids[j])
    && (forall id <- ids :: id in t && after < id <= LastOf(ids, after))
    && (forall id <- t :: after < id <= LastOf(ids, after) ==> id in ids)
  }

  lemma GatheredOneMore(t: Table, after: ChannelId, ids: seq<ChannelId>, id: ChannelId)
    requires Gathered(t, after, ids) && after <= LastOf(ids, after) && IsNext(t, LastOf(ids, after), id)
    ensures Gathered(t, after, ids + [id])
  {
    assert forall i :: 0 <= i < |ids| ==> ids[i] in ids;
    assert forall x <- ids + [id] :: x in ids || x == id;
  }

  lemma PastTheNext(t: Table, last: ChannelId, id: ChannelId)
    requires IsNext(t, last, id)
    ensures Past(t, id) == Past(t, last) - {id}
  {
  }

  method Smallest(s: set<ChannelId>) returns (m: ChannelId)
    requires s != {}
    ensures m in s && forall x <- s :: m <= x
  {
    m :| m in s;
    var rest := s - {m};
    while rest != {}
      invariant rest <= s && m in s && m !in rest
      invariant forall x <- s :: x in rest || m <= x
      decreases |rest|
    {
      var x :| x in rest;
      rest := rest - {x};
      if x < m {
        m := x;
      }
    }
  }

  class ChannelConfigResealer {
    const vault: Vault
    const previous: Option<Vault>
    var table: Table
    /** How many nonces were drawn. */
    var drawn: nat
    const random: nat -> nat

    ghost function Keyring(): Keys {
      Keys(vault, previous)
    }

    constructor (vault: Vault, previous: Option<Vault>, table: Table, random: nat -> nat)
      ensures this.vault == vault && this.previous == previous && this.table == table
    {
      this.vault, this.previous, this.table, this.random, drawn := vault, previous, table, random, 0;
    }

    /** `WHERE id > after ORDER BY id LIMIT 200`. */
    method NextBatch(after: ChannelId) returns (ids: seq<ChannelId>)
      ensures IsBatch(table, after, ids)
    {
      ids := [];
      var rest := Past(table, after);
      while |ids| < BATCH && rest != {}
        invariant |ids| <= BATCH && after <= LastOf(ids, after) && Gathered(table, after, ids)
        invariant rest == Past(table, LastOf(ids, after))
        decreases BATCH - |ids|
      {
        var id := Smallest(rest);
        assert forall other <- table :: LastOf(ids, after) < other ==> other in rest;
        GatheredOneMore(table, after, ids, id);
        PastTheNext(table, LastOf(ids, after), id);
        ids := ids + [id];
        rest := rest - {id};
      }
    }

    /**
     * What was read of a row is written back under the current key, if the row is still that; a row that changed or
     * vanished meanwhile is left, and counted as nothing.
     */
    method One(id: ChannelId, stored: Stored, counts: ResealCounts) returns (after: ResealCounts)
      modifies this`table, this`drawn
      ensures exists nonce: nat :: table == Swapped(Keyring(), old(table), id, stored, nonce)
      ensures after == var kind := KindOf(Keyring(), id, stored);
                       if kind in {ToSeal, ToReseal} && (id !in old(table) || old(table)[id] != stored) then counts
                       else Tick(counts, kind)
    {
      var config: Config;
      var outcome: Kind;
      ghost var keys := Keyring();
      assert id in table && table[id] == stored ==> table[id := stored] == table;
      if !IsSealed(stored) {
        config, outcome := stored.config, ToSeal;
      } else {
        var answer := Open(vault, id, stored);
        if answer.Opened? {
          assert table == Swapped(keys, old(table), id, stored, 0);
          return counts.(untouched := counts.untouched + 1);
        }
        if previous.None? {
          assert table == Swapped(keys, old(table), id, stored, 0);
          return counts.(failed := counts.failed + 1);
        }
        answer := Open(previous.value, id, stored);
        if answer.Refused? {
          assert table == Swapped(keys, old(table), id, stored, 0);
          return counts.(failed := counts.failed + 1);
        }
        config, outcome := answer.config, ToReseal;
      }
      var nonce := random(drawn);
      drawn := drawn + 1;
      var written := 0;
      if id in table && table[id] == stored {
        table := table[id := Seal(vault, id, config, nonce)];
        written := 1;
      }
      assert table == Swapped(keys, old(table), id, stored, nonce);
      after := counts;
      if written > 0 {
        after := if outcome == ToSeal then counts.(sealed := counts.sealed + 1) else counts.(resealed := counts.resealed + 1);
      }
    }

    /** Every row but that of the nil UUID is visited once, and counted as what it was found to be. */
    method Run() returns (counts: ResealCounts)
      modifies this`table, this`drawn
      ensures Ran(Keyring(), old(table), table)
      ensures Counted(Keyring(), old(table), Past(old(table), NIL_UUID), counts)
      ensures counts.sealed + counts.resealed + counts.untouched + counts.failed == |Past(old(table), NIL_UUID)|
      ensures counts.sealed == |set id | id in old(table) && id > 0 && old(table)[id].Plain?|
      ensures counts.untouched
           == |set id | id in old(table) && id > 0 && !old(table)[id].Plain? && Open(vault, id, old(table)[id]).Opened?|
      ensures counts.failed == |set id | id in old(table) && id > 0 && Meaning(Keyring(), id, old(table)[id]).None?|
    {
      counts := ResealCounts(0, 0, 0, 0);
      var after := NIL_UUID;
      ghost var before := table;
      assert UpTo(before, NIL_UUID) == {};
      while true
        invariant Walked(Keyring(), before, table, after)
        invariant Counted(Keyring(), before, UpTo(before, after), counts)
        decreases |Past(before, after)|
      {
        var ids := NextBatch(after);
        assert Past(before, after) == Past(table, after);
        if ids == [] {
          break;
        }
        counts := Batch(ids, after, counts, before);
        FurtherOn(before, after, ids);
        after := ids[|ids| - 1];
      }
      WalkedToTheEnd(Keyring(), before, table, after);
      KindsAddUp(Keyring(), before, Past(before, NIL_UUID));
      KindsFound(Keyring(), before);
    }

    method Batch(ids: seq<ChannelId>, after: ChannelId, sofar: ResealCounts, ghost before: Table)
      returns (counts: ResealCounts)
      requires ids != [] && IsStretch(table, after, ids) && Walked(Keyring(), before, table, after)
      requires Counted(Keyring(), before, UpTo(before, after), sofar)
      modifies this`table, this`drawn
      ensures Walked(Keyring(), before, table, ids[|ids| - 1])
      ensures Counted(Keyring(), before, UpTo(before, ids[|ids| - 1]), counts)
    {
      counts := sofar;
      assert IsStretch(before, after, ids);
      for i := 0 to |ids|
        invariant Walked(Keyring(), before, table, LastOf(ids[..i], after))
        invariant Counted(Keyring(), before, UpTo(before, LastOf(ids[..i], after)), counts)
      {
        NextInBatch(before, after, ids, i);
        ghost var now, prior := table, counts;
        counts := One(ids[i], table[ids[i]], counts);
        WalkedFurther(Keyring(), before, now, LastOf(ids[..i], after), ids[i], table, prior);
        assert LastOf(ids[..i + 1], after) == ids[i];
      }
      assert ids[..|ids|] == ids;
    }
  }

  lemma WalkedToTheEnd(keys: Keys, before: Table, now: Table, after: ChannelId)
    requires Walked(keys, before, now, after) && Past(before, after) == {}
    ensures Ran(keys, before, now) && UpTo(before, after) == Past(before, NIL_UUID)
  {
    forall id <- before
      ensures id <= after
    {
      assert id !in Past(before, after);
    }
  }

  lemma KindsFound(keys: Keys, t: Table)
    ensures OfKind(keys, t, Past(t, NIL_UUID), ToSeal) == set id | id in t && id > 0 && t[id].Plain?
    ensures OfKind(keys, t, Past(t, NIL_UUID), Unchanged)
         == set id | id in t && id > 0 && !t[id].Plain? && Open(keys.current, id, t[id]).Opened?
    ensures OfKind(keys, t, Past(t, NIL_UUID), Failed) == set id | id in t && id > 0 && Meaning(keys, id, t[id]).None?
  {
    forall id <- t
      ensures KindOf(keys, id, t[id]) == ToSeal <==> t[id].Plain?
      ensures KindOf(keys, id, t[id]) == Unchanged <==> !t[id].Plain? && Open(keys.current, id, t[id]).Opened?
      ensures KindOf(keys, id, t[id]) == Failed <==> Meaning(keys, id, t[id]).None?
    {
      KindSays(keys, id, t[id]);
    }
  }

  lemma FurtherOn(t: Table, after: ChannelId, ids: seq<ChannelId>)
    requires IsStretch(t, after, ids) && ids != []
    ensures |Past(t, ids[|ids| - 1])| < |Past(t, after)|
  {
    var last := ids[|ids| - 1];
    assert last in ids;
    assert last in Past(t, after) && last !in Past(t, last);
    SubsetCard(Past(t, last), Past(t, after));
  }

  /** What a run that nobody disturbs leaves. */
  ghost predicate Ran(keys: Keys, before: Table, after: Table) {
    && after.Keys == before.Keys
    && forall id <- after :: if id > NIL_UUID then Visited(keys, id, before[id], after[id]) else after[id] == before[id]
  }

  /** A second run writes nothing, and every row anybody could read opens under the current key. */
  lemma {:induction false} SecondRunWritesNothing(keys: Keys, before: Table, once: Table, twice: Table)
    requires Ran(keys, before, once) && Ran(keys, once, twice)
    ensures twice == once
    ensures forall id <- once :: id > NIL_UUID ==>
              && (Meaning(keys, id, before[id]).Some? <==> Open(keys.current, id, once[id]).Opened?)
              && KindOf(keys, id, once[id]) in {Unchanged, Failed}
  {
    forall id <- once | id > NIL_UUID
      ensures twice[id] == once[id] && KindOf(keys, id, once[id]) in {Unchanged, Failed}
      ensures Meaning(keys, id, before[id]).Some? <==> Open(keys.current, id, once[id]).Opened?
    {
      VisitKeepsMeaning(keys, id, before[id], once[id]);
      SecondVisitWritesNothing(keys, id, before[id], once[id], twice[id]);
    }
  }
}
