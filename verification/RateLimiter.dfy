/** The fixed-window limiter with a bounded number of keys. */
module RateLimiter {
  import opened Prelude
  import opened OrderedMap
  import opened FixedWindow

  type Windows = OrderedMap<string, Window>

  function ExpiredKeys(windows: Windows, now: int): set<string> {
    set k | k in windows.entries && Expired(windows.entries[k], now)
  }

  /**
   * How many windows `evict` drops when dropping the expired ones was not enough: a tenth of the bound is free then.
   */
  function Excess(size: nat, maxKeys: nat): int {
    size - maxKeys * 9 / 10
  }

  /**
   * The keys that lose a window that is still open: the ones whose window was created first, and none unless it is
   * needed.
   */
  function Forced(windows: Windows, maxKeys: nat, now: int): set<string> {
    var live := windows.Without(ExpiredKeys(windows, now));
    if live.Size() < maxKeys then {}
    else Elements(live.keys[..Min(live.Size(), Max(0, Excess(live.Size(), maxKeys)))])
  }

  function Evicted(windows: Windows, maxKeys: nat, now: int): Windows {
    windows.Without(ExpiredKeys(windows, now) + Forced(windows, maxKeys, now))
  }

  predicate Starts(windows: Windows, key: string, now: int) {
    windows.Get(key).None? || Expired(windows.Get(key).value, now)
  }

  /** The limiter after a hit: a hit that starts a window puts its key last, after making room if there is none. */
  function AfterHit(windows: Windows, key: string, limit: nat, windowMs: nat, maxKeys: nat, now: int): Windows {
    var window := Strike(windows.Get(key), limit, windowMs, now).window;
    if Starts(windows, key, now) then
      (if windows.Size() < maxKeys then windows else Evicted(windows, maxKeys, now)).Delete(key).Set(key, window)
    else windows.Set(key, window)
  }

  function NewlyForced(windows: Windows, key: string, maxKeys: nat, now: int): set<string> {
    if Starts(windows, key, now) && windows.Size() >= maxKeys then Forced(windows, maxKeys, now) else {}
  }

  ghost function ExpiredAmong(m: Windows, keys: seq<string>, now: int): set<string> {
    set k | k in keys && k in m.entries && Expired(m.entries[k], now)
  }

  lemma ExpiredStep(m: Windows, i: nat, now: int)
    requires m.Valid() && i < m.Size()
    ensures var key, gone := m.keys[i], ExpiredAmong(m, m.keys[..i], now);
            && key in m.entries && key in m.Without(gone).entries && m.Without(gone).entries[key] == m.entries[key]
            && ExpiredAmong(m, m.keys[..i + 1], now) == if Expired(m.entries[key], now) then gone + {key} else gone
  {
    NextKey(m.keys, i);
    assert m.keys[..i + 1] == m.keys[..i] + [m.keys[i]];
  }

  lemma ExpiredAll(m: Windows, now: int)
    requires m.Valid()
    ensures ExpiredAmong(m, m.keys, now) == ExpiredKeys(m, now)
  {
    assert forall k :: k in m.entries ==> k in Elements(m.keys);
  }

  /** Eviction always makes room. */
  lemma EvictedHasRoom(windows: Windows, maxKeys: nat, now: int)
    requires windows.Valid() && maxKeys > 0
    ensures Evicted(windows, maxKeys, now).Valid() && Evicted(windows, maxKeys, now).Size() < maxKeys
  {
    EvictedInTwo(windows, maxKeys, now);
    var live := windows.Without(ExpiredKeys(windows, now));
    windows.WithoutValid(ExpiredKeys(windows, now));
    if live.Size() >= maxKeys {
      DropFirst(live, Excess(live.Size(), maxKeys));
    }
  }

  /**
   * A full limiter loses exactly the windows that have expired, or, if that frees nothing, the ones created first, until
   * nine tenths of its bound are left; what is left stays in its order.
   */
  lemma EvictionIsExact(windows: Windows, maxKeys: nat, now: int)
    requires windows.Valid() && windows.Size() == maxKeys > 0
    ensures var kept := Evicted(windows, maxKeys, now).keys;
            if exists k <- windows.entries :: windows.entries[k].resetAt <= now then
              kept == Filter(windows.keys, set k | k in windows.entries && windows.entries[k].resetAt <= now)
            else |kept| == maxKeys * 9 / 10 && kept == windows.keys[|windows.keys| - |kept|..]
  {
    EvictedInTwo(windows, maxKeys, now);
    if k :| k in windows.entries && windows.entries[k].resetAt <= now {
      ExpiredGo(windows, maxKeys, now, k);
    } else {
      assert ExpiredKeys(windows, now) == {};
      windows.WithoutNothing();
      OldestGo(windows, maxKeys);
    }
  }

  lemma ExpiredGo(windows: Windows, maxKeys: nat, now: int, k: string)
    requires windows.Valid() && windows.Size() == maxKeys > 0 && k in windows.entries && Expired(windows.entries[k], now)
    ensures EvictedInSteps(windows.Without(ExpiredKeys(windows, now)), maxKeys).keys
         == Filter(windows.keys, set x | x in windows.entries && windows.entries[x].resetAt <= now)
  {
    var gone := ExpiredKeys(windows, now);
    assert gone == set x | x in windows.entries && windows.entries[x].resetAt <= now;
    assert k in gone && gone <= windows.entries.Keys;
    windows.WithoutValid(gone);
    SubsetCard({k}, gone);
  }

  lemma OldestGo(windows: Windows, maxKeys: nat)
    requires windows.Valid() && windows.Size() == maxKeys > 0
    ensures var kept := EvictedInSteps(windows, maxKeys).keys;
            |kept| == maxKeys * 9 / 10 && kept == windows.keys[|windows.keys| - |kept|..]
  {
    FilterFirst(windows.keys, Excess(maxKeys, maxKeys));
  }

  function EvictedInSteps(live: Windows, maxKeys: nat): Windows
    requires maxKeys > 0
  {
    if live.Size() < maxKeys then live else live.Without(Elements(live.keys[..Excess(live.Size(), maxKeys)]))
  }

  lemma EvictedInTwo(windows: Windows, maxKeys: nat, now: int)
    requires maxKeys > 0
    ensures Evicted(windows, maxKeys, now) == EvictedInSteps(windows.Without(ExpiredKeys(windows, now)), maxKeys)
  {
    var gone := ExpiredKeys(windows, now);
    windows.WithoutTwice(gone, Forced(windows, maxKeys, now));
    if windows.Without(gone).Size() < maxKeys {
      assert gone + {} == gone;
    }
  }

  lemma HitKeepsBound(windows: Windows, key: string, limit: nat, windowMs: nat, maxKeys: nat, now: int)
    requires windows.Valid() && windows.Size() <= maxKeys && maxKeys > 0
    ensures var after := AfterHit(windows, key, limit, windowMs, maxKeys, now);
            after.Valid() && after.Size() <= maxKeys
  {
    var window := Strike(windows.Get(key), limit, windowMs, now).window;
    if Starts(windows, key, now) {
      if windows.Size() >= maxKeys {
        EvictedHasRoom(windows, maxKeys, now);
      }
      var roomy := if windows.Size() < maxKeys then windows else Evicted(windows, maxKeys, now);
      roomy.WithoutValid({key});
      roomy.WithoutValid(if key in roomy.entries then {key} else {});
      FilterShrinks(roomy.keys, {key});
      roomy.Delete(key).SetValid(key, window);
    } else {
      windows.SetValid(key, window);
    }
  }

  /** The other keys keep their window or lose it to the eviction. */
  lemma HitOnOthers(windows: Windows, key: string, limit: nat, windowMs: nat, maxKeys: nat, now: int, k: string)
    requires k != key
    ensures var after := AfterHit(windows, key, limit, windowMs, maxKeys, now);
            if Starts(windows, key, now) && windows.Size() >= maxKeys
               && k in ExpiredKeys(windows, now) + Forced(windows, maxKeys, now)
            then after.Get(k).None? else after.Get(k) == windows.Get(k)
  {
  }

  function Lookup(m: map<string, Window>, k: string): Option<Window> {
    if k in m then Some(m[k]) else None
  }

  /** Every key but the lost ones has the window of the unbounded limiter, or neither has one that is still open. */
  ghost predicate AgreesBut(windows: Windows, ideal: map<string, Window>, lost: set<string>, now: int) {
    forall k :: k !in lost ==> Agrees(windows.Get(k), Lookup(ideal, k), now)
  }

  function IdealAfter(ideal: map<string, Window>, key: string, limit: nat, windowMs: nat, now: int): map<string, Window>
  {
    ideal[key := Strike(Lookup(ideal, key), limit, windowMs, now).window]
  }

  /**
   * A key is lost when its open window is evicted, and is not any more once both limiters hold the same window for
   * it.
   */
  function LostAfter(windows: Windows, ideal: map<string, Window>, lost: set<string>, key: string,
                     limit: nat, windowMs: nat, maxKeys: nat, now: int): set<string> {
    var same := Strike(windows.Get(key), limit, windowMs, now).window == Strike(Lookup(ideal, key), limit, windowMs, now).window;
    lost + NewlyForced(windows, key, maxKeys, now) - (if same then {key} else {})
  }

  /** Agreement with the unbounded limiter survives a hit, except for the keys that lost an open window. */
  lemma HitAgrees(windows: Windows, ideal: map<string, Window>, lost: set<string>, key: string,
                  limit: nat, windowMs: nat, maxKeys: nat, clock: int, now: int)
    requires clock <= now && AgreesBut(windows, ideal, lost, clock)
    ensures key !in lost ==> Strike(windows.Get(key), limit, windowMs, now) == Strike(Lookup(ideal, key), limit, windowMs, now)
    ensures AgreesBut(AfterHit(windows, key, limit, windowMs, maxKeys, now), IdealAfter(ideal, key, limit, windowMs, now),
                      LostAfter(windows, ideal, lost, key, limit, windowMs, maxKeys, now), now)
  {
    var after, ideal' := AfterHit(windows, key, limit, windowMs, maxKeys, now), IdealAfter(ideal, key, limit, windowMs, now);
    if key !in lost {
      AgreeingWindowsAnswerAlike(windows.Get(key), Lookup(ideal, key), limit, windowMs, now);
    }
    forall k | k !in LostAfter(windows, ideal, lost, key, limit, windowMs, maxKeys, now)
      ensures Agrees(after.Get(k), Lookup(ideal', k), now)
    {
      if k != key {
        HitOnOthers(windows, key, limit, windowMs, maxKeys, now, k);
      }
    }
  }

  // ---- Runs of hits ------------------------------------------------------------------------------------------------

  datatype Call = Call(key: string, at: int)

  datatype Limiter = Limiter(windows: Windows, ideal: map<string, Window>, lost: set<string>)

  function AfterCall(l: Limiter, c: Call, limit: nat, windowMs: nat, maxKeys: nat): Limiter {
    Limiter(AfterHit(l.windows, c.key, limit, windowMs, maxKeys, c.at),
            IdealAfter(l.ideal, c.key, limit, windowMs, c.at),
            LostAfter(l.windows, l.ideal, l.lost, c.key, limit, windowMs, maxKeys, c.at))
  }

  ghost predicate InOrder(calls: seq<Call>, clock: int)
    decreases |calls|
  {
    calls != [] ==> clock <= calls[0].at && InOrder(calls[1..], calls[0].at)
  }

  ghost predicate NeverLost(l: Limiter, calls: seq<Call>, key: string, limit: nat, windowMs: nat, maxKeys: nat)
    decreases |calls|
  {
    key !in l.lost
    && (calls != [] ==> NeverLost(AfterCall(l, calls[0], limit, windowMs, maxKeys), calls[1..], key, limit, windowMs, maxKeys))
  }

  /** The calls of one key that the bounded limiter allows in the span of one window length that starts at `from`. */
  function AllowedTo(l: Limiter, calls: seq<Call>, key: string, limit: nat, windowMs: nat, maxKeys: nat, from: int): nat
    decreases |calls|
  {
    if calls == [] then 0
    else
      var c := calls[0];
      var delay := Strike(l.windows.Get(c.key), limit, windowMs, c.at).delay;
      (if c.key == key && delay == 0 && from <= c.at < from + windowMs then 1 else 0)
      + AllowedTo(AfterCall(l, c, limit, windowMs, maxKeys), calls[1..], key, limit, windowMs, maxKeys, from)
  }

  function TimesOf(calls: seq<Call>, key: string): seq<int>
    decreases |calls|
  {
    if calls == [] then []
    else (if calls[0].key == key then [calls[0].at] else []) + TimesOf(calls[1..], key)
  }

  lemma {:induction false} TimesAreInOrder(calls: seq<Call>, clock: int, key: string)
    requires InOrder(calls, clock)
    ensures Nondecreasing(TimesOf(calls, key))
    ensures forall i :: 0 <= i < |TimesOf(calls, key)| ==> clock <= TimesOf(calls, key)[i]
    decreases |calls|
  {
    if calls != [] {
      TimesAreInOrder(calls[1..], calls[0].at, key);
    }
  }

  lemma FirstAllowed(w: Option<Window>, now: int, rest: seq<int>, limit: nat, windowMs: nat, from: int)
    ensures var strike := Strike(w, limit, windowMs, now);
            var one := if strike.delay == 0 && from <= now < from + windowMs then 1 else 0;
            AllowedWithin(w, [now] + rest, limit, windowMs, from)
              == one + AllowedWithin(Some(strike.window), rest, limit, windowMs, from)
  {
    assert ([now] + rest)[1..] == rest;
  }

  lemma CallAgrees(l: Limiter, c: Call, key: string, limit: nat, windowMs: nat, maxKeys: nat, clock: int)
    requires AgreesBut(l.windows, l.ideal, l.lost, clock) && clock <= c.at && key !in l.lost
    ensures var next := AfterCall(l, c, limit, windowMs, maxKeys);
            && AgreesBut(next.windows, next.ideal, next.lost, c.at)
            && Lookup(next.ideal, key)
            == if c.key == key then Some(Strike(Lookup(l.ideal, key), limit, windowMs, c.at).window) else Lookup(l.ideal, key)
    ensures c.key == key ==>
              Strike(l.windows.Get(key), limit, windowMs, c.at).delay == Strike(Lookup(l.ideal, key), limit, windowMs, c.at).delay
  {
    HitAgrees(l.windows, l.ideal, l.lost, c.key, limit, windowMs, maxKeys, clock, c.at);
  }

  /** A key that loses no open window is allowed exactly what the unbounded limiter allows it. */
  lemma {:induction false} AllowedAsIdeal(l: Limiter, calls: seq<Call>, key: string, limit: nat, windowMs: nat,
          maxKeys: nat, from: int, clock: int)
    requires AgreesBut(l.windows, l.ideal, l.lost, clock) && InOrder(calls, clock)
    requires NeverLost(l, calls, key, limit, windowMs, maxKeys)
    ensures AllowedTo(l, calls, key, limit, windowMs, maxKeys, from)
         == AllowedWithin(Lookup(l.ideal, key), TimesOf(calls, key), limit, windowMs, from)
    decreases |calls|
  {
    if calls != [] {
      var c := calls[0];
      CallAgrees(l, c, key, limit, windowMs, maxKeys, clock);
      AllowedAsIdeal(AfterCall(l, c, limit, windowMs, maxKeys), calls[1..], key, limit, windowMs, maxKeys, from, c.at);
      if c.key == key {
        assert TimesOf(calls, key) == [c.at] + TimesOf(calls[1..], key);
        FirstAllowed(Lookup(l.ideal, key), c.at, TimesOf(calls[1..], key), limit, windowMs, from);
      } else {
        assert TimesOf(calls, key) == TimesOf(calls[1..], key);
      }
    }
  }

  /** In any run from a new limiter, less than twice the limit in any span of a window's length. */
  lemma SpansAreBounded(calls: seq<Call>, key: string, limit: nat, windowMs: nat, maxKeys: nat, from: int, clock: int)
    requires windowMs > 0 && InOrder(calls, clock)
    requires NeverLost(Limiter(OrderedMap([], map[]), map[], {}), calls, key, limit, windowMs, maxKeys)
    ensures AllowedTo(Limiter(OrderedMap([], map[]), map[], {}), calls, key, limit, windowMs, maxKeys, from)
         <= 2 * Max(1, limit) - 1
  {
    AllowedAsIdeal(Limiter(OrderedMap([], map[]), map[], {}), calls, key, limit, windowMs, maxKeys, from, clock);
    TimesAreInOrder(calls, clock, key);
    LessThanTwiceTheLimit(None, TimesOf(calls, key), limit, windowMs, from);
  }

  /** While no more keys have called than are kept, no key loses a window. */
  lemma {:induction false} FewKeysLoseNothing(l: Limiter, calls: seq<Call>, keys: set<string>, key: string,
          limit: nat, windowMs: nat, maxKeys: nat)
    requires l.windows.Valid() && l.lost == {} && l.windows.Size() <= maxKeys && maxKeys > 0
    requires l.windows.entries.Keys <= keys && |keys| <= maxKeys && forall c <- calls :: c.key in keys
    ensures NeverLost(l, calls, key, limit, windowMs, maxKeys)
    decreases |calls|
  {
    if calls != [] {
      var c := calls[0];
      var next := AfterCall(l, c, limit, windowMs, maxKeys);
      HitKeepsBound(l.windows, c.key, limit, windowMs, maxKeys, c.at);
      NoneIsForced(l.windows, c.key, keys, maxKeys, c.at);
      forall k | k in next.windows.entries
        ensures k in keys
      {
        if k != c.key {
          HitOnOthers(l.windows, c.key, limit, windowMs, maxKeys, c.at, k);
        } else {
          assert c in calls;
        }
      }
      FewKeysLoseNothing(next, calls[1..], keys, key, limit, windowMs, maxKeys);
    }
  }

  lemma NoneIsForced(windows: Windows, key: string, keys: set<string>, maxKeys: nat, now: int)
    requires windows.Valid() && windows.Size() <= maxKeys
    requires windows.entries.Keys <= keys && |keys| <= maxKeys && key in keys
    ensures NewlyForced(windows, key, maxKeys, now) == {}
  {
    if Starts(windows, key, now) && windows.Size() >= maxKeys {
      DistinctCard(windows.keys);
      SubsetCard(windows.entries.Keys, keys);
      var gone := ExpiredKeys(windows, now);
      assert key in gone;
      windows.WithoutValid(gone);
      SubsetCard({key}, gone);
    }
  }

  class RateLimiter {
    const limit: nat
    const windowMs: nat
    const maxKeys: nat
    var windows: Windows

    /**
     * The same hits on a limiter that never drops a window, and the keys that lost one and may be answered
     * differently.
     */
    ghost var ideal: map<string, Window>
    ghost var lost: set<string>
    ghost var clock: int

    ghost predicate Valid()
      reads this
    {
      && windowMs > 0 && maxKeys > 0
      && windows.Valid()
      && windows.Size() <= maxKeys
      && AgreesBut(windows, ideal, lost, clock)
    }

    constructor (limit: nat, windowMs: nat, maxKeys: nat)
      requires windowMs > 0 && maxKeys > 0
      ensures Valid() && windows.Size() == 0 && ideal == map[] && lost == {}
      ensures this.limit == limit && this.windowMs == windowMs && this.maxKeys == maxKeys
    {
      this.limit, this.windowMs, this.maxKeys := limit, windowMs, maxKeys;
      windows, ideal, lost, clock := OrderedMap([], map[]), map[], {}, 0;
    }

    /**
     * Records a hit. 0 when it is allowed, or the seconds to wait. A key that has lost no window is told what the
     * unbounded limiter would tell it, and one that has is again once both limiters hold the same window for it.
     */
    method Hit(key: string, now: int) returns (delay: int)
      requires Valid() && clock <= now
      modifies this
      ensures Valid() && clock == now
      ensures delay == Strike(old(windows.Get(key)), limit, windowMs, now).delay
      ensures windows == AfterHit(old(windows), key, limit, windowMs, maxKeys, now)
      ensures ideal == IdealAfter(old(ideal), key, limit, windowMs, now)
      ensures key !in old(lost) ==> delay == Strike(Lookup(old(ideal), key), limit, windowMs, now).delay
      ensures lost == LostAfter(old(windows), old(ideal), old(lost), key, limit, windowMs, maxKeys, now)
    {
      ghost var before := windows;
      var entry := windows.Get(key);
      if entry.None? || entry.value.resetAt <= now {
        if windows.Size() >= maxKeys {
          Evict(now);
        }
        windows := windows.Delete(key).Set(key, Window(1, now + windowMs));
        delay := 0;
      } else if entry.value.count >= limit {
        delay := Max(1, (entry.value.resetAt - now + 999) / 1000);
      } else {
        windows := windows.Set(key, Window(entry.value.count + 1, entry.value.resetAt));
        delay := 0;
      }
      assert windows == AfterHit(before, key, limit, windowMs, maxKeys, now);
      HitKeepsBound(before, key, limit, windowMs, maxKeys, now);
      HitAgrees(before, ideal, lost, key, limit, windowMs, maxKeys, clock, now);
      lost := LostAfter(before, ideal, lost, key, limit, windowMs, maxKeys, now);
      ideal := IdealAfter(ideal, key, limit, windowMs, now);
      clock := now;
    }

    /** Whether the next hit would be refused; nothing is counted. */
    method Exceeded(key: string, now: int) returns (r: bool)
      requires Valid()
      ensures r <==> Strike(windows.Get(key), limit, windowMs, now).delay > 0
    {
      var entry := windows.Get(key);
      SpentIsRefused(entry, limit, windowMs, now);
      r := entry.Some? && entry.value.resetAt > now && entry.value.count >= limit;
    }

    /** Drops the expired windows, and if that frees nothing the ones created first. */
    method Evict(now: int)
      requires windows.Valid() && maxKeys > 0
      modifies this`windows
      ensures windows == Evicted(old(windows), maxKeys, now)
    {
      ghost var before := windows;
      DropExpired(now);
      before.WithoutValid(ExpiredKeys(before, now));
      if windows.Size() >= maxKeys {
        before.WithoutTwice(ExpiredKeys(before, now), Elements(windows.keys[..Excess(windows.Size(), maxKeys)]));
        DropOldest(Excess(windows.Size(), maxKeys));
      }
    }

    /** The first loop of `evict`. */
    method DropExpired(now: int)
      requires windows.Valid()
      modifies this`windows
      ensures windows == old(windows).Without(ExpiredKeys(old(windows), now))
    {
      ghost var before := windows;
      var order := windows.keys;
      before.WithoutNothing();
      ghost var gone: set<string> := {};
      for i := 0 to |order|
        invariant gone == ExpiredAmong(before, order[..i], now)
        invariant windows == before.Without(gone)
      {
        var key := order[i];
        ExpiredStep(before, i, now);
        if windows.entries[key].resetAt <= now {
          DeleteOne(before, gone, key);
          windows := windows.Delete(key);
          gone := gone + {key};
        }
      }
      assert order[..|order|] == order;
      ExpiredAll(before, now);
    }

    /** The second loop of `evict`. */
    method DropOldest(excess: int)
      requires windows.Valid() && 1 <= excess <= windows.Size()
      modifies this`windows
      ensures windows == old(windows).Without(Elements(old(windows).keys[..excess]))
    {
      ghost var before := windows;
      var order := windows.keys;
      var dropped := 0;
      ghost var gone: set<string> := {};
      before.WithoutNothing();
      NoElements(order[..0]);
      while true
        invariant 0 <= dropped < excess
        invariant gone == Elements(order[..dropped]) && windows == before.Without(gone)
        decreases excess - dropped
      {
        var key := order[dropped];
        NextKey(order, dropped);
        DeleteOne(before, gone, key);
        windows := windows.Delete(key);
        gone := gone + {key};
        dropped := dropped + 1;
        if dropped >= excess {
          break;
        }
      }
      assert dropped == excess;
    }
  }
}
