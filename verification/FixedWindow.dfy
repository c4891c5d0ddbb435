/**
 * The rate limiter without its bound on memory: one fixed window per key, never dropped. It is what the limiter
 * in `RateLimiter` is compared with.
 */
module FixedWindow {
  import opened Prelude

  datatype Window = Window(count: nat, resetAt: int)

  predicate Expired(w: Window, now: int) {
    w.resetAt <= now
  }

  /** Seconds to wait, rounded up, at least one. */
  function Delay(w: Window, now: int): int {
    Max(1, (w.resetAt - now + 999) / 1000)
  }

  datatype Hit = Hit(window: Window, delay: int)

  /** One hit: an expired window counts as none, a spent one refuses, and otherwise the hit is counted. */
  function Strike(w: Option<Window>, limit: nat, windowMs: nat, now: int): Hit {
    if w.None? || Expired(w.value, now) then Hit(Window(1, now + windowMs), 0)
    else if w.value.count >= limit then Hit(w.value, Delay(w.value, now))
    else Hit(Window(w.value.count + 1, w.value.resetAt), 0)
  }

  predicate Spent(w: Option<Window>, limit: nat, now: int) {
    w.Some? && w.value.resetAt > now && w.value.count >= limit
  }

  /** Asking first tells exactly what a hit would be told. */
  lemma SpentIsRefused(w: Option<Window>, limit: nat, windowMs: nat, now: int)
    ensures Spent(w, limit, now) <==> Strike(w, limit, windowMs, now).delay > 0
    ensures Strike(w, limit, windowMs, now).delay > 0 ==> Strike(w, limit, windowMs, now).window == w.value
  {
  }

  /** Waiting the delay is enough, and a whole second less is not unless the delay is a single second. */
  lemma DelayIsEnough(w: Window, limit: nat, windowMs: nat, now: int, later: int)
    requires w.count >= limit && now < w.resetAt
    ensures now + 1000 * Delay(w, now) <= later ==> Strike(Some(w), limit, windowMs, later).delay == 0
    ensures Delay(w, now) > 1 && now <= later <= now + 1000 * (Delay(w, now) - 1)
            ==> Strike(Some(w), limit, windowMs, later).delay > 0
  {
  }

  /** A window that was dropped after it expired is as good as kept. */
  predicate Agrees(bounded: Option<Window>, ideal: Option<Window>, now: int) {
    bounded == ideal || (bounded.None? && ideal.Some? && Expired(ideal.value, now))
  }

  lemma AgreeingWindowsAnswerAlike(bounded: Option<Window>, ideal: Option<Window>, limit: nat, windowMs: nat, now: int)
    requires Agrees(bounded, ideal, now)
    ensures Strike(bounded, limit, windowMs, now) == Strike(ideal, limit, windowMs, now)
    ensures Spent(bounded, limit, now) == Spent(ideal, limit, now)
  {
  }

  /** The hits at these instants that are allowed in the span of one window length that starts at `from`. */
  function AllowedWithin(w: Option<Window>, hits: seq<int>, limit: nat, windowMs: nat, from: int): nat
    decreases |hits|
  {
    if hits == [] then 0
    else
      var now := hits[0];
      var strike := Strike(w, limit, windowMs, now);
      (if strike.delay == 0 && from <= now < from + windowMs then 1 else 0)
      + AllowedWithin(Some(strike.window), hits[1..], limit, windowMs, from)
  }

  ghost predicate Nondecreasing(s: seq<int>) {
    forall i, j :: 0 <= i < j < |s| ==> s[i] <= s[j]
  }

  /**
   * What can still be allowed within the span: the rest of a window that covers its end, the rest of one that ends in
   * it and a full window more, or, with none open, the same once a first hit has been spent on a window before it.
   */
  function Room(w: Option<Window>, limit: nat, windowMs: nat, from: int): int {
    var full := Max(1, limit);
    if w.None? || w.value.resetAt < from then 2 * full - 1
    else if w.value.resetAt < from + windowMs then Max(0, full - w.value.count) + full
    else Max(0, full - w.value.count)
  }

  /**
   * Two windows meet any span of one window's length, and the hit that opened the first one was before it: less than
   * twice the limit is allowed in it. The first hit of a window is allowed even if the limit is none.
   */
  lemma {:induction false} LessThanTwiceTheLimit(w: Option<Window>, hits: seq<int>, limit: nat, windowMs: nat,
          from: int)
    requires windowMs > 0 && Nondecreasing(hits)
    requires w.Some? ==> w.value.count >= 1
    ensures AllowedWithin(w, hits, limit, windowMs, from) <= Room(w, limit, windowMs, from) <= 2 * Max(1, limit) - 1
    decreases |hits|
  {
    if hits != [] {
      var now := hits[0];
      var strike := Strike(w, limit, windowMs, now);
      LessThanTwiceTheLimit(Some(strike.window), hits[1..], limit, windowMs, from);
      if from + windowMs <= now {
        NothingAfter(Some(strike.window), hits[1..], limit, windowMs, from);
      }
    }
  }

  lemma {:induction false} NothingAfter(w: Option<Window>, hits: seq<int>, limit: nat, windowMs: nat, from: int)
    requires forall i :: 0 <= i < |hits| ==> from + windowMs <= hits[i]
    ensures AllowedWithin(w, hits, limit, windowMs, from) == 0
    decreases |hits|
  {
    if hits != [] {
      NothingAfter(Some(Strike(w, limit, windowMs, hits[0]).window), hits[1..], limit, windowMs, from);
    }
  }

  function Repeat(now: int, n: nat): seq<int> {
    seq(n, i => now)
  }

  /** Hits at one instant that an open window still has room for are all allowed. */
  lemma {:induction false} AllAllowed(w: Window, n: nat, rest: seq<int>, limit: nat, windowMs: nat, from: int, now: int)
    requires from <= now < from + windowMs && now < w.resetAt && w.count + n <= limit
    ensures AllowedWithin(Some(w), Repeat(now, n) + rest, limit, windowMs, from)
         == n + AllowedWithin(Some(Window(w.count + n, w.resetAt)), rest, limit, windowMs, from)
    decreases n
  {
    var hits := Repeat(now, n) + rest;
    if n == 0 {
      assert hits == rest;
    } else {
      assert hits[1..] == Repeat(now, n - 1) + rest;
      AllAllowed(Window(w.count + 1, w.resetAt), n - 1, rest, limit, windowMs, from, now);
    }
  }

  /**
   * The bound is met, whatever the limit: one hit opens a window, the rest of it is used just before it ends, and the
   * next one is used up at once.
   */
  lemma TheBoundIsReached(limit: nat, windowMs: nat) returns (hits: seq<int>)
    requires windowMs >= 2
    ensures Nondecreasing(hits)
    ensures AllowedWithin(None, hits, limit, windowMs, 1) == 2 * Max(1, limit) - 1
  {
    var full := Max(1, limit);
    var last := [windowMs] + Repeat(windowMs, full - 1);
    var rest := Repeat(windowMs - 1, full - 1) + last;
    hits := [0] + rest;
    assert hits[1..] == rest;
    assert AllowedWithin(None, hits, limit, windowMs, 1) == AllowedWithin(Some(Window(1, windowMs)), rest, limit, windowMs, 1);
    assert AllowedWithin(Some(Window(1, windowMs)), rest, limit, windowMs, 1)
        == full - 1 + AllowedWithin(Some(Window(full, windowMs)), last, limit, windowMs, 1) by {
      AllAllowedOf(Window(1, windowMs), full - 1, last, limit, windowMs, windowMs - 1);
    }
    NextWindow(Window(full, windowMs), limit, windowMs);
  }

  lemma NextWindow(w: Window, limit: nat, windowMs: nat)
    requires w.resetAt == windowMs >= 1
    ensures AllowedWithin(Some(w), [windowMs] + Repeat(windowMs, Max(1, limit) - 1), limit, windowMs, 1) == Max(1, limit)
  {
    var n := Max(1, limit) - 1;
    var last := [windowMs] + Repeat(windowMs, n);
    assert last[1..] == Repeat(windowMs, n) + [];
    AllAllowedOf(Window(1, 2 * windowMs), n, [], limit, windowMs, windowMs);
  }

  /** The rest of a window, for a limit that may be none. */
  lemma AllAllowedOf(w: Window, n: nat, rest: seq<int>, limit: nat, windowMs: nat, now: int)
    requires 1 <= now <= windowMs && now < w.resetAt && w.count == 1 && n == Max(1, limit) - 1
    ensures AllowedWithin(Some(w), Repeat(now, n) + rest, limit, windowMs, 1)
         == n + AllowedWithin(Some(Window(1 + n, w.resetAt)), rest, limit, windowMs, 1)
  {
    if n == 0 {
      assert Repeat(now, n) + rest == rest;
    } else {
      AllAllowed(w, n, rest, limit, windowMs, 1, now);
    }
  }
}
