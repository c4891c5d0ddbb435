/**
 * The ingestion cache: what it answers was true in the database at a known, recent instant. `rows` is the table over
 * time: the row of a ping key at an instant, or none.
 */
module MetadataCache {
  import opened Prelude
  import opened OrderedMap
  import opened Schedules

  datatype Metadata = Metadata(id: string, schedule: Schedule)

  datatype Entry = Entry(metadata: Option<Metadata>, expiresAt: int)

  type Entries = OrderedMap<string, Entry>

  /** A lookup that has started, and the entry it ended in. */
  datatype Span = Span(startedAt: int, storedAt: int)

  datatype Answer = Cached(metadata: Option<Metadata>) | Joined | Started

  const POSITIVE_TTL := 300_000
  const NEGATIVE_TTL := 5_000

  function Ttl(metadata: Option<Metadata>): int {
    if metadata.None? then NEGATIVE_TTL else POSITIVE_TTL
  }

  /** At some instant between these two the row was this. */
  ghost predicate WasTrue(rows: (string, int) -> Option<Metadata>, key: string, metadata: Option<Metadata>,
          from: int, to: int)
  {
    exists at :: from <= at <= to && rows(key, at) == metadata
  }

  /**
   * An entry says what was read during its lookup, and expires 300,000 milliseconds after it was stored, or 5,000 if
   * there was no such row.
   */
  ghost predicate EntryHolds(rows: (string, int) -> Option<Metadata>, key: string, e: Entry, span: Span) {
    && WasTrue(rows, key, e.metadata, span.startedAt, span.storedAt)
    && e.expiresAt == span.storedAt + (if e.metadata.None? then 5_000 else 300_000)
  }

  /**
   * What happened so far: the lookup behind each entry, when the lookups in flight began, and when a key was last
   * invalidated with no lookup of it in flight.
   */
  datatype Past = Past(spans: map<string, Span>, started: map<string, int>, cleared: map<string, int>, clock: int)

  ghost predicate EntriesHonest(rows: (string, int) -> Option<Metadata>, entries: map<string, Entry>, p: Past) {
    forall k <- entries :: k in p.spans && EntryHolds(rows, k, entries[k], p.spans[k]) && p.spans[k].storedAt <= p.clock
  }

  ghost predicate LookupsHonest(p: Past) {
    forall k <- p.started :: p.started[k] <= p.clock
  }

  /** Nothing that is cached, or about to be, was read before the key was cleared. */
  ghost predicate ClearedHonest(entries: map<string, Entry>, p: Past) {
    forall k <- p.cleared ::
      && p.cleared[k] <= p.clock
      && (k in p.started ==> p.cleared[k] <= p.started[k])
      && (k in entries && k in p.spans ==> p.cleared[k] <= p.spans[k].startedAt)
  }

  ghost predicate Honest(rows: (string, int) -> Option<Metadata>, entries: map<string, Entry>, p: Past) {
    EntriesHonest(rows, entries, p) && LookupsHonest(p) && ClearedHonest(entries, p)
  }

  lemma StartIsHonest(rows: (string, int) -> Option<Metadata>, entries: map<string, Entry>, p: Past,
          key: string, now: int)
    requires Honest(rows, entries, p) && p.clock <= now && key !in p.started
    ensures Honest(rows, entries, p.(started := p.started[key := now], clock := now))
  {
  }

  lemma LaterIsHonest(rows: (string, int) -> Option<Metadata>, entries: map<string, Entry>, p: Past, now: int)
    requires Honest(rows, entries, p) && p.clock <= now
    ensures Honest(rows, entries, p.(clock := now))
  {
  }

  lemma FewerIsHonest(rows: (string, int) -> Option<Metadata>, entries: map<string, Entry>,
          fewer: map<string, Entry>, p: Past)
    requires Honest(rows, entries, p)
    requires forall k <- fewer :: k in entries && fewer[k] == entries[k]
    ensures Honest(rows, fewer, p)
  {
  }

  lemma SettledIsHonest(rows: (string, int) -> Option<Metadata>, entries: map<string, Entry>, p: Past, key: string)
    requires Honest(rows, entries, p)
    ensures Honest(rows, entries, p.(started := p.started - {key}))
  {
  }

  lemma ClearedIsHonest(rows: (string, int) -> Option<Metadata>, entries: map<string, Entry>, p: Past,
          key: string, now: int)
    requires Honest(rows, entries, p) && p.clock <= now && key !in p.started
    ensures Honest(rows, entries - {key}, p.(cleared := p.cleared[key := now], clock := now))
  {
  }

  lemma StoredIsHonest(rows: (string, int) -> Option<Metadata>, entries: map<string, Entry>, after: map<string, Entry>,
                       p: Past, key: string, metadata: Option<Metadata>, readAt: int, now: int)
    requires Honest(rows, entries, p) && p.clock <= now && key in p.started
    requires p.started[key] <= readAt <= now && metadata == rows(key, readAt)
    requires key in after && after[key] == Entry(metadata, now + Ttl(metadata))
    requires forall k <- after :: k != key ==> k in entries && after[k] == entries[k]
    ensures Honest(rows, after, p.(spans := p.spans[key := Span(p.started[key], now)], started := p.started - {key}, clock := now))
  {
    assert WasTrue(rows, key, metadata, p.started[key], now);
  }

  function Stale(entries: Entries, now: int): set<string> {
    set k | k in entries.entries && entries.entries[k].expiresAt <= now
  }

  function Tenth(maxEntries: nat): nat {
    (maxEntries + 9) / 10
  }

  function Evicted(entries: Entries, maxEntries: nat, now: int): Entries {
    var live := entries.Without(Stale(entries, now));
    if live.Size() < maxEntries then live
    else live.Without(Elements(live.keys[..Min(live.Size(), Tenth(maxEntries))]))
  }

  function Stored(entries: Entries, key: string, e: Entry, maxEntries: nat, now: int): Entries {
    (if entries.Size() < maxEntries then entries else Evicted(entries, maxEntries, now)).Set(key, e)
  }

  lemma StoringKeepsBound(entries: Entries, key: string, e: Entry, maxEntries: nat, now: int)
    requires entries.Valid() && entries.Size() <= maxEntries && maxEntries > 0
    ensures Stored(entries, key, e, maxEntries, now).Valid() && Stored(entries, key, e, maxEntries, now).Size() <= maxEntries
    ensures Stored(entries, key, e, maxEntries, now).entries[key] == e
    ensures forall k <- Stored(entries, key, e, maxEntries, now).entries :: k != key ==>
              k in entries.entries && Stored(entries, key, e, maxEntries, now).entries[k] == entries.entries[k]
  {
    if entries.Size() < maxEntries {
      entries.SetValid(key, e);
    } else {
      EvictedHasRoom(entries, maxEntries, now);
      Evicted(entries, maxEntries, now).SetValid(key, e);
    }
  }

  lemma EvictedHasRoom(entries: Entries, maxEntries: nat, now: int)
    requires entries.Valid() && entries.Size() <= maxEntries && maxEntries > 0
    ensures Evicted(entries, maxEntries, now).Valid() && Evicted(entries, maxEntries, now).Size() < maxEntries
    ensures forall k <- Evicted(entries, maxEntries, now).entries ::
              k in entries.entries && Evicted(entries, maxEntries, now).entries[k] == entries.entries[k]
  {
    var live := entries.Without(Stale(entries, now));
    entries.WithoutValid(Stale(entries, now));
    FilterShrinks(entries.keys, Stale(entries, now));
    if live.Size() >= maxEntries {
      DropFirst(live, Tenth(maxEntries));
    }
  }

  /**
   * A full cache loses exactly what has expired, or, if that frees nothing, the oldest tenth of its bound, rounded up;
   * what is left stays in its order.
   */
  lemma EvictionIsExact(entries: Entries, maxEntries: nat, now: int)
    requires entries.Valid() && entries.Size() == maxEntries > 0
    ensures var kept := Evicted(entries, maxEntries, now).keys;
            if exists k <- entries.entries :: entries.entries[k].expiresAt <= now then
              kept == Filter(entries.keys, set k | k in entries.entries && entries.entries[k].expiresAt <= now)
            else
              exists n: nat :: 10 * (n - 1) < maxEntries <= 10 * n && n <= maxEntries && kept == entries.keys[n..]
  {
    if k :| k in entries.entries && entries.entries[k].expiresAt <= now {
      StaleGo(entries, maxEntries, now, k);
    } else {
      OldestGo(entries, maxEntries, now);
      var n := Tenth(maxEntries);
      assert 10 * (n - 1) < maxEntries <= 10 * n && n <= maxEntries;
    }
  }

  lemma OldestGo(entries: Entries, maxEntries: nat, now: int)
    requires entries.Valid() && entries.Size() == maxEntries > 0
    requires forall k <- entries.entries :: entries.entries[k].expiresAt > now
    ensures Tenth(maxEntries) <= |entries.keys|
    ensures Evicted(entries, maxEntries, now).keys == entries.keys[Tenth(maxEntries)..]
  {
    assert Stale(entries, now) == {};
    entries.WithoutNothing();
    FilterFirst(entries.keys, Tenth(maxEntries));
  }

  lemma StaleGo(entries: Entries, maxEntries: nat, now: int, k: string)
    requires entries.Valid() && entries.Size() == maxEntries > 0
    requires k in entries.entries && entries.entries[k].expiresAt <= now
    ensures Evicted(entries, maxEntries, now).keys
         == Filter(entries.keys, set x | x in entries.entries && entries.entries[x].expiresAt <= now)
  {
    var stale := Stale(entries, now);
    assert stale == set x | x in entries.entries && entries.entries[x].expiresAt <= now;
    assert k in stale && stale <= entries.entries.Keys;
    entries.WithoutValid(stale);
    SubsetCard({k}, stale);
  }

  /**
   * An answer that was true during its lookup, stored less than 300,000 milliseconds before `now`, or 5,000 if there was
   * no such row, and not from before a clearing.
   */
  ghost predicate Recent(rows: (string, int) -> Option<Metadata>, key: string, metadata: Option<Metadata>,
          p: Past, now: int)
  {
    && key in p.spans
    && WasTrue(rows, key, metadata, p.spans[key].startedAt, p.spans[key].storedAt)
    && p.spans[key].storedAt <= now < p.spans[key].storedAt + (if metadata.None? then 5_000 else 300_000)
    && (key in p.cleared ==> p.cleared[key] <= p.spans[key].startedAt)
  }

  function Answered(entries: map<string, Entry>, inFlight: set<string>, key: string, now: int): Answer {
    if key in entries && now < entries[key].expiresAt then Cached(entries[key].metadata)
    else if key in inFlight then Joined
    else Started
  }

  lemma CachedIsRecent(rows: (string, int) -> Option<Metadata>, entries: map<string, Entry>, p: Past,
          key: string, now: int)
    requires Honest(rows, entries, p) && p.clock <= now && key in entries && now < entries[key].expiresAt
    ensures Honest(rows, entries, p.(clock := now)) && Recent(rows, key, entries[key].metadata, p.(clock := now), now)
  {
    assert EntryHolds(rows, key, entries[key], p.spans[key]);
  }

  lemma StartedKeys(started: map<string, int>, key: string, now: int)
    requires key !in started
    ensures started[key := now].Keys == started.Keys + {key}
    ensures multiset(started[key := now].Keys) == multiset(started.Keys) + multiset{key}
  {
    assert started[key := now].Keys == started.Keys + {key};
  }

  lemma SettledKeys(started: map<string, int>, key: string)
    requires key in started
    ensures (started - {key}).Keys == started.Keys - {key}
    ensures multiset((started - {key}).Keys) == multiset(started.Keys) - multiset{key}
  {
    assert (started - {key}).Keys == started.Keys - {key};
  }

  // ---- The cache as a machine --------------------------------------------------------------------------------------

  datatype Cache = Cache(entries: Entries, past: Past, maxEntries: nat) {
    ghost predicate Sound() {
      maxEntries > 0 && entries.Valid() && entries.Size() <= maxEntries
    }
  }

  /** A call of `get`, a lookup that read the row at `readAt` and lands, a lookup that fails, an invalidation. */
  datatype Operation =
    | Ask(key: string, at: int)
    | Land(key: string, readAt: int, at: int)
    | Lose(key: string)
    | Clear(key: string, at: int)

  ghost predicate Possible(c: Cache, op: Operation) {
    match op
    case Ask(_, at) => c.past.clock <= at
    case Land(key, readAt, at) => key in c.past.started && c.past.started[key] <= readAt <= at && c.past.clock <= at
    case Lose(key) => key in c.past.started
    case Clear(_, at) => c.past.clock <= at
  }

  ghost function After(rows: (string, int) -> Option<Metadata>, c: Cache, op: Operation): Cache
    requires Possible(c, op)
  {
    var p := c.past;
    match op
    case Ask(key, at) =>
      var starts := Answered(c.entries.entries, p.started.Keys, key, at).Started?;
      c.(past := p.(started := if starts then p.started[key := at] else p.started, clock := at))
    case Land(key, readAt, at) =>
      var metadata := rows(key, readAt);
      Cache(Stored(c.entries, key, Entry(metadata, at + Ttl(metadata)), c.maxEntries, at),
            p.(spans := p.spans[key := Span(p.started[key], at)], started := p.started - {key}, clock := at),
            c.maxEntries)
    case Lose(key) => c.(past := p.(started := p.started - {key}))
    case Clear(key, at) =>
      Cache(c.entries.Delete(key),
            p.(cleared := if key in p.started then p.cleared else p.cleared[key := at], clock := at),
            c.maxEntries)
  }

  ghost predicate Sincere(rows: (string, int) -> Option<Metadata>, c: Cache) {
    c.Sound() && Honest(rows, c.entries.entries, c.past)
  }

  lemma LandIsSound(rows: (string, int) -> Option<Metadata>, c: Cache, key: string, readAt: int, now: int)
    requires c.Sound() && Possible(c, Land(key, readAt, now))
    ensures var next, metadata := After(rows, c, Land(key, readAt, now)), rows(key, readAt);
            && next.Sound() && key in next.entries.entries
            && next.entries.entries[key] == Entry(metadata, now + Ttl(metadata))
            && forall k <- next.entries.entries :: k != key ==>
                 k in c.entries.entries && next.entries.entries[k] == c.entries.entries[k]
  {
    var metadata := rows(key, readAt);
    StoringKeepsBound(c.entries, key, Entry(metadata, now + Ttl(metadata)), c.maxEntries, now);
  }

  lemma LandIsHonest(rows: (string, int) -> Option<Metadata>, c: Cache, key: string, readAt: int, now: int)
    requires Sincere(rows, c) && Possible(c, Land(key, readAt, now))
    ensures Sincere(rows, After(rows, c, Land(key, readAt, now)))
  {
    var next := After(rows, c, Land(key, readAt, now));
    LandIsSound(rows, c, key, readAt, now);
    StoredIsHonest(rows, c.entries.entries, next.entries.entries, c.past, key, rows(key, readAt), readAt, now);
    assert Honest(rows, next.entries.entries, next.past);
  }

  lemma ClearIsHonest(rows: (string, int) -> Option<Metadata>, c: Cache, key: string, now: int)
    requires Sincere(rows, c) && Possible(c, Clear(key, now))
    ensures Sincere(rows, After(rows, c, Clear(key, now)))
  {
    c.entries.WithoutValid({key});
    FilterShrinks(c.entries.keys, {key});
    if key in c.past.started {
      LaterIsHonest(rows, c.entries.entries, c.past, now);
      FewerIsHonest(rows, c.entries.entries, c.entries.Delete(key).entries, c.past.(clock := now));
    } else {
      ClearedIsHonest(rows, c.entries.entries, c.past, key, now);
    }
  }

  /** The operations can happen one after the other, and leave the second cache. */
  ghost predicate Leads(rows: (string, int) -> Option<Metadata>, c: Cache, ops: seq<Operation>, end: Cache)
    decreases |ops|
  {
    if ops == [] then c == end else Possible(c, ops[0]) && Leads(rows, After(rows, c, ops[0]), ops[1..], end)
  }

  /** An answer that the row has not been at any instant from `since` to `now`. */
  ghost predicate Outdated(rows: (string, int) -> Option<Metadata>, key: string, a: Answer, since: int, now: int) {
    a.Cached? && forall at :: since <= at <= now ==> rows(key, at) != a.metadata
  }

  /** Some run of the cache ends in an answer that was outdated by `since`. */
  ghost predicate CanServeOutdated(rows: (string, int) -> Option<Metadata>, c: Cache, key: string, since: int) {
    exists ops, end: Cache, now :: Leads(rows, c, ops, end) && end.past.clock <= now
      && Outdated(rows, key, Answered(end.entries.entries, end.past.started.Keys, key, now), since, now)
  }

  /** The lookup of the key in flight, if any, can only read what the row is at `since` or later. */
  ghost predicate ReadsSince(rows: (string, int) -> Option<Metadata>, p: Past, key: string, since: int) {
    key in p.started ==> forall at :: p.started[key] <= at < since ==> rows(key, at) == rows(key, since)
  }

  ghost predicate CachedSince(rows: (string, int) -> Option<Metadata>, c: Cache, key: string, since: int) {
    && since <= c.past.clock
    && ReadsSince(rows, c.past, key, since)
    && (key in c.entries.entries ==> WasTrue(rows, key, c.entries.entries[key].metadata, since, c.past.clock))
  }

  lemma LandKeepsSince(rows: (string, int) -> Option<Metadata>, c: Cache, op: Operation, key: string, since: int)
    requires c.Sound() && op.Land? && Possible(c, op) && CachedSince(rows, c, key, since)
    ensures After(rows, c, op).Sound() && CachedSince(rows, After(rows, c, op), key, since)
  {
    LandIsSound(rows, c, op.key, op.readAt, op.at);
    if op.key == key {
      assert rows(key, Max(op.readAt, since)) == rows(key, op.readAt);
      assert WasTrue(rows, key, rows(key, op.readAt), since, op.at);
    } else if key in After(rows, c, op).entries.entries {
      LaterStillTrue(rows, key, c.entries.entries[key].metadata, since, c.past.clock, op.at);
    }
  }

  lemma LaterStillTrue(rows: (string, int) -> Option<Metadata>, key: string, metadata: Option<Metadata>,
          from: int, to: int, later: int)
    requires WasTrue(rows, key, metadata, from, to) && to <= later
    ensures WasTrue(rows, key, metadata, from, later)
  {
  }

  lemma OperationKeepsSince(rows: (string, int) -> Option<Metadata>, c: Cache, op: Operation, key: string, since: int)
    requires c.Sound() && Possible(c, op) && CachedSince(rows, c, key, since)
    ensures After(rows, c, op).Sound() && CachedSince(rows, After(rows, c, op), key, since)
  {
    if op.Land? {
      LandKeepsSince(rows, c, op, key, since);
    } else {
      if op.Clear? {
        c.entries.WithoutValid({op.key});
        FilterShrinks(c.entries.keys, {op.key});
      }
      var next := After(rows, c, op);
      if key in next.entries.entries {
        LaterStillTrue(rows, key, c.entries.entries[key].metadata, since, c.past.clock, next.past.clock);
      }
    }
  }

  lemma {:induction false} OperationsKeepSince(rows: (string, int) -> Option<Metadata>, c: Cache, ops: seq<Operation>,
          end: Cache, key: string, since: int)
    requires c.Sound() && Leads(rows, c, ops, end) && CachedSince(rows, c, key, since)
    ensures CachedSince(rows, end, key, since)
    decreases |ops|
  {
    if ops != [] {
      OperationKeepsSince(rows, c, ops[0], key, since);
      OperationsKeepSince(rows, After(rows, c, ops[0]), ops[1..], end, key, since);
    }
  }

  /** A lookup that was in flight lands with what it had read before the invalidation. */
  lemma LookupUndoesClear(rows: (string, int) -> Option<Metadata>, c: Cache, key: string, readAt: int, now: int)
    requires c.Sound() && c.past.clock <= now
    requires key in c.past.started && c.past.started[key] <= readAt <= now
    ensures var cleared := After(rows, c, Clear(key, now));
            Possible(cleared, Land(key, readAt, now))
            && var end := After(rows, cleared, Land(key, readAt, now));
               Answered(end.entries.entries, end.past.started.Keys, key, now) == Cached(rows(key, readAt))
  {
    var cleared := After(rows, c, Clear(key, now));
    c.entries.WithoutValid({key});
    FilterShrinks(c.entries.keys, {key});
    LandIsSound(rows, cleared, key, readAt, now);
  }

  ghost predicate ChangedInFlight(rows: (string, int) -> Option<Metadata>, p: Past, key: string, now: int) {
    key in p.started && exists at :: p.started[key] <= at < now && rows(key, at) != rows(key, now)
  }

  lemma OutdatedNeedsALookup(rows: (string, int) -> Option<Metadata>, c: Cache, key: string, now: int,
          ops: seq<Operation>, end: Cache, later: int)
    requires c.Sound() && c.past.clock <= now && !ChangedInFlight(rows, c.past, key, now)
    requires Leads(rows, After(rows, c, Clear(key, now)), ops, end) && end.past.clock <= later
    ensures !Outdated(rows, key, Answered(end.entries.entries, end.past.started.Keys, key, later), now, later)
  {
    c.entries.WithoutValid({key});
    FilterShrinks(c.entries.keys, {key});
    OperationsKeepSince(rows, After(rows, c, Clear(key, now)), ops, end, key, now);
  }

  lemma ChangedInFlightIsServed(rows: (string, int) -> Option<Metadata>, c: Cache, key: string, now: int)
    requires c.Sound() && c.past.clock <= now && ChangedInFlight(rows, c.past, key, now)
    ensures CanServeOutdated(rows, After(rows, c, Clear(key, now)), key, now)
  {
    var cleared := After(rows, c, Clear(key, now));
    var at :| c.past.started[key] <= at < now && rows(key, at) != rows(key, now);
    LookupUndoesClear(rows, c, key, at, now);
    var ops := [Land(key, at, now)];
    var end := After(rows, cleared, ops[0]);
    assert Leads(rows, end, ops[1..], end);
    assert Leads(rows, cleared, ops, end);
    assert Outdated(rows, key, Answered(end.entries.entries, end.past.started.Keys, key, now), now, now);
  }

  /**
   * An edit can be lost exactly when, at the invalidation, a lookup of the key is in flight and the row has been
   * something else since that lookup began.
   */
  lemma EditIsLostWhen(rows: (string, int) -> Option<Metadata>, c: Cache, key: string, now: int)
    requires c.Sound() && c.past.clock <= now
    ensures CanServeOutdated(rows, After(rows, c, Clear(key, now)), key, now) <==> ChangedInFlight(rows, c.past, key, now)
  {
    if ChangedInFlight(rows, c.past, key, now) {
      ChangedInFlightIsServed(rows, c, key, now);
    } else {
      forall ops, end: Cache, later | Leads(rows, After(rows, c, Clear(key, now)), ops, end) && end.past.clock <= later
        ensures !Outdated(rows, key, Answered(end.entries.entries, end.past.started.Keys, key, later), now, later)
      {
        OutdatedNeedsALookup(rows, c, key, now, ops, end, later);
      }
    }
  }

  class CheckMetadataCache {
    ghost const rows: (string, int) -> Option<Metadata>
    const maxEntries: nat
    var entries: Entries
    var inFlight: set<string>
    var hits: nat
    var misses: nat

    ghost var past: Past
    /** The lookups the database is running. */
    ghost var running: multiset<string>

    ghost predicate Valid()
      reads this
    {
      && Sincere(rows, View())
      && inFlight == past.started.Keys && running == multiset(inFlight)
    }

    ghost function View(): Cache
      reads this
    {
      Cache(entries, past, maxEntries)
    }

    constructor (ghost rows: (string, int) -> Option<Metadata>, maxEntries: nat)
      requires maxEntries > 0
      ensures Valid() && entries == OrderedMap([], map[]) && inFlight == {} && past == Past(map[], map[], map[], 0)
      ensures this.rows == rows && this.maxEntries == maxEntries
    {
      this.rows, this.maxEntries := rows, maxEntries;
      entries, inFlight, hits, misses := OrderedMap([], map[]), {}, 0, 0;
      past, running := Past(map[], map[], map[], 0), multiset{};
    }

    /**
     * The start of `get`. A cached answer was the row at an instant after its lookup began, was stored less than its
     * time to live ago, and is no older than the last invalidation that found no lookup in flight. A lookup starts
     * only when the database is running none for the key.
     */
    method Get(key: string, now: int) returns (a: Answer)
      requires Valid() && past.clock <= now
      modifies this`hits, this`misses, this`inFlight, this`past, this`running
      ensures Valid()
      ensures a == Answered(entries.entries, old(inFlight), key, now)
      ensures a.Cached? ==> Recent(rows, key, a.metadata, past, now)
      ensures a.Joined? ==> old(running)[key] == 1
      ensures a.Started? ==> old(running)[key] == 0
      ensures View() == After(rows, old(View()), Ask(key, now))
      ensures running == if a.Started? then old(running) + multiset{key} else old(running)
      ensures hits == old(hits) + (if a.Cached? then 1 else 0) && misses == old(misses) + (if a.Cached? then 0 else 1)
    {
      var entry := entries.Get(key);
      if entry.Some? && entry.value.expiresAt > now {
        hits := hits + 1;
        CachedIsRecent(rows, entries.entries, past, key, now);
        past := past.(clock := now);
        a := Cached(entry.value.metadata);
      } else {
        misses := misses + 1;
        if key in inFlight {
          LaterIsHonest(rows, entries.entries, past, now);
          past := past.(clock := now);
          a := Joined;
        } else {
          StartLookup(key, now);
          a := Started;
        }
      }
    }

    method StartLookup(key: string, now: int)
      requires Valid() && past.clock <= now && key !in inFlight
      modifies this`inFlight, this`past, this`running
      ensures Valid() && past == old(past).(started := old(past).started[key := now], clock := now)
      ensures running == old(running) + multiset{key}
    {
      StartIsHonest(rows, entries.entries, past, key, now);
      StartedKeys(past.started, key, now);
      inFlight := inFlight + {key};
      past := past.(started := past.started[key := now], clock := now);
      running := running + multiset{key};
    }

    /** A fresh positive answer without a query, or null. */
    method Peek(key: string, now: int) returns (r: Option<Metadata>)
      requires Valid()
      ensures r == if key in entries.entries && now < entries.entries[key].expiresAt then entries.entries[key].metadata else None
    {
      var entry := entries.Get(key);
      return if entry.Some? && entry.value.expiresAt > now then entry.value.metadata else None;
    }

    /** The query of a lookup has read `metadata`, at the instant `readAt`, and the answer is stored. */
    method Finish(key: string, metadata: Option<Metadata>, ghost readAt: int, now: int)
      requires Valid() && past.clock <= now
      requires key in inFlight && past.started[key] <= readAt <= now && metadata == rows(key, readAt)
      modifies this`entries, this`inFlight, this`past, this`running
      ensures Valid()
      ensures View() == After(rows, old(View()), Land(key, readAt, now))
      ensures running == old(running) - multiset{key}
    {
      ghost var next := After(rows, View(), Land(key, readAt, now));
      assert next.entries == Stored(entries, key, Entry(metadata, now + Ttl(metadata)), maxEntries, now);
      LandIsHonest(rows, View(), key, readAt, now);
      SettledKeys(past.started, key);
      Store(key, metadata, now);
      assert entries == next.entries;
      past := next.past;
      inFlight := inFlight - {key};
      running := running - multiset{key};
      assert View() == next;
      assert Sincere(rows, next);
    }

    method Store(key: string, metadata: Option<Metadata>, now: int)
      requires maxEntries > 0 && entries.Valid() && entries.Size() <= maxEntries
      modifies this`entries
      ensures entries == Stored(old(entries), key, Entry(metadata, now + Ttl(metadata)), maxEntries, now)
    {
      if entries.Size() >= maxEntries {
        Evict(now);
      }
      entries := entries.Set(key, Entry(metadata, now + Ttl(metadata)));
    }

    /** The query failed: nothing is stored and the next caller tries again. */
    method Fail(key: string)
      requires Valid() && key in inFlight
      modifies this`inFlight, this`past, this`running
      ensures Valid() && View() == After(rows, old(View()), Lose(key))
      ensures running == old(running) - multiset{key}
    {
      SettledIsHonest(rows, entries.entries, past, key);
      SettledKeys(past.started, key);
      past := past.(started := past.started - {key});
      inFlight := inFlight - {key};
      running := running - multiset{key};
    }

    /** An edit or a notification. With no lookup in flight, what is answered from now on is read after this instant. */
    method Invalidate(key: string, now: int)
      requires Valid() && past.clock <= now
      modifies this`entries, this`past
      ensures Valid()
      ensures View() == After(rows, old(View()), Clear(key, now)) && key !in entries.entries
      ensures key !in inFlight ==> key in past.cleared && past.cleared[key] == now
    {
      ghost var next := After(rows, View(), Clear(key, now));
      ClearIsHonest(rows, View(), key, now);
      past := next.past;
      entries := entries.Delete(key);
    }

    method Evict(now: int)
      requires entries.Valid() && 0 < maxEntries == entries.Size()
      modifies this`entries
      ensures entries == Evicted(old(entries), maxEntries, now)
    {
      ghost var before := entries;
      var order := entries.keys;
      ghost var gone: set<string> := {};
      before.WithoutNothing();
      for i := 0 to |order|
        invariant gone == StaleAmong(before, order[..i], now)
        invariant entries == before.Without(gone)
      {
        var key := order[i];
        StaleStep(before, i, now);
        if entries.entries[key].expiresAt <= now {
          DeleteOne(before, gone, key);
          entries := entries.Delete(key);
          gone := gone + {key};
        }
      }
      assert order[..|order|] == order;
      StaleAll(before, now);
      before.WithoutValid(gone);
      FilterShrinks(before.keys, gone);
      if entries.Size() < maxEntries {
        return;
      }
      DropOldest(Tenth(maxEntries));
    }

    /** The second loop of `evict`. */
    method DropOldest(excess: nat)
      requires entries.Valid() && 1 <= excess <= entries.Size()
      modifies this`entries
      ensures entries == old(entries).Without(Elements(old(entries).keys[..excess]))
    {
      ghost var before := entries;
      var order := entries.keys;
      var dropped := 0;
      ghost var gone: set<string> := {};
      before.WithoutNothing();
      NoElements(order[..0]);
      while true
        invariant 0 <= dropped < excess
        invariant gone == Elements(order[..dropped]) && entries == before.Without(gone)
        decreases excess - dropped
      {
        var key := order[dropped];
        NextKey(order, dropped);
        DeleteOne(before, gone, key);
        entries := entries.Delete(key);
        gone := gone + {key};
        dropped := dropped + 1;
        if dropped >= excess {
          break;
        }
      }
      assert dropped == excess;
    }
  }

  ghost function StaleAmong(m: Entries, keys: seq<string>, now: int): set<string> {
    set k | k in keys && k in m.entries && m.entries[k].expiresAt <= now
  }

  lemma StaleStep(m: Entries, i: nat, now: int)
    requires m.Valid() && i < m.Size()
    ensures var key, gone := m.keys[i], StaleAmong(m, m.keys[..i], now);
            && key in m.entries && key in m.Without(gone).entries && m.Without(gone).entries[key] == m.entries[key]
            && StaleAmong(m, m.keys[..i + 1], now) == if m.entries[key].expiresAt <= now then gone + {key} else gone
  {
    NextKey(m.keys, i);
    assert m.keys[..i + 1] == m.keys[..i] + [m.keys[i]];
  }

  lemma StaleAll(m: Entries, now: int)
    requires m.Valid()
    ensures StaleAmong(m, m.keys, now) == Stale(m, now)
  {
    assert forall k :: k in m.entries ==> k in Elements(m.keys);
  }
}
