/** Stripe delivers each event at least once and in no particular order. What a whole history of deliveries comes to. */
module BillingLaws {
  import opened Prelude
  import opened StripeEvents

  type UserId = nat

  datatype Subscription = Subscription(
    user: UserId,
    id: Option<string>,
    plan: Option<string>,
    status: string,
    currentPeriodEnd: Option<int>,
    cancelAtPeriodEnd: bool,
    lastEventAt: Option<int>)

  /** `subscriptions` is indexed by Stripe's customer, `plans` by account. */
  datatype State = State(handled: set<string>, subscriptions: map<string, Subscription>, plans: map<UserId, Option<string>>)

  /** A subscription event, read. */
  datatype Event = Event(id: string, created: int, change: Change)

  datatype Terms = Terms(plans: Plans, default: Option<string>)

  datatype Outcome =
    | Duplicate
    | UnknownCustomer
    | Stale
    | OtherSubscription
    | Applied(user: UserId, from: Option<string>, to: Option<string>, status: string, unknownPrice: bool)

  ghost predicate Valid(s: State) {
    && (forall c <- s.subscriptions :: s.subscriptions[c].user in s.plans)
    && (forall c <- s.subscriptions, d <- s.subscriptions :: s.subscriptions[c].user == s.subscriptions[d].user ==> c == d)
  }

  function IsStale(row: Subscription, e: Event): bool {
    row.lastEventAt.Some? && e.created < row.lastEventAt.value
  }

  /** The row is about another subscription, which is still running. */
  function IsOther(row: Subscription, e: Event): bool {
    row.id.Some? && row.id.value != e.change.subscription && row.status in LIVE_STATUSES
  }

  function Judge(s: State, e: Event, terms: Terms): Outcome
    requires Valid(s)
  {
    if e.id in s.handled then Duplicate
    else if e.change.customer !in s.subscriptions then UnknownCustomer
    else
      var row := s.subscriptions[e.change.customer];
      if IsStale(row, e) then Stale
      else if IsOther(row, e) then OtherSubscription
      else
        var decision := DecidePlan(e.change, terms.plans);
        Applied(row.user, s.plans[row.user], Decided(s.plans[row.user], decision, terms.default), e.change.status, decision == Keep(true))
  }

  /** The account's plan after a decision: an ended subscription leaves the plan everyone starts on. */
  function Decided(plan: Option<string>, decision: Decision, ended: Option<string>): Option<string> {
    match decision
    case Grant(p) => Some(p)
    case End => ended
    case Keep(_) => plan
  }

  function Written(row: Subscription, e: Event, terms: Terms): Subscription {
    Subscription(row.user, Some(e.change.subscription), Decided(row.plan, DecidePlan(e.change, terms.plans), None), e.change.status,
                 e.change.currentPeriodEnd, e.change.cancelAtPeriodEnd, Some(e.created))
  }

  function Apply(s: State, e: Event, terms: Terms): (r: State)
    requires Valid(s)
    ensures Valid(r)
  {
    var outcome := Judge(s, e, terms);
    if outcome.Duplicate? then s
    else if !outcome.Applied? then s.(handled := s.handled + {e.id})
    else
      var row := s.subscriptions[e.change.customer];
      State(s.handled + {e.id}, s.subscriptions[e.change.customer := Written(row, e, terms)], s.plans[row.user := outcome.to])
  }

  function ApplyAll(s: State, events: seq<Event>, terms: Terms): (r: State)
    requires Valid(s)
    ensures Valid(r)
  {
    if events == [] then s else Apply(ApplyAll(s, events[..|events| - 1], terms), events[|events| - 1], terms)
  }

  lemma {:induction false} ApplyAllAppend(s: State, a: seq<Event>, b: seq<Event>, terms: Terms)
    requires Valid(s)
    ensures ApplyAll(s, a + b, terms) == ApplyAll(ApplyAll(s, a, terms), b, terms)
  {
    if b == [] {
      assert a + b == a;
    } else {
      ApplyAllAppend(s, a, b[..|b| - 1], terms);
      assert (a + b)[..|a + b| - 1] == a + b[..|b| - 1];
    }
  }

  // ---- Once ------------------------------------------------------------------------------------------------------

  /** The deliveries without those of an event handled before, here or earlier in the sequence. */
  function Once(events: seq<Event>, handled: set<string>): seq<Event> {
    if events == [] then []
    else
      var front, last := Once(events[..|events| - 1], handled), events[|events| - 1];
      if last.id in handled || exists e <- front :: e.id == last.id then front else front + [last]
  }

  lemma {:induction false} HandledGrows(s: State, events: seq<Event>, terms: Terms)
    requires Valid(s)
    ensures ApplyAll(s, events, terms).handled == s.handled + set e | e in events :: e.id
  {
    if events != [] {
      HandledGrows(s, events[..|events| - 1], terms);
      assert events == events[..|events| - 1] + [events[|events| - 1]];
    }
  }

  /** Any sequence of deliveries with repeats does what it does without them. */
  lemma {:induction false} RepeatsAreHarmless(s: State, events: seq<Event>, terms: Terms)
    requires Valid(s)
    ensures ApplyAll(s, events, terms) == ApplyAll(s, Once(events, s.handled), terms)
  {
    if events != [] {
      var front, last := events[..|events| - 1], events[|events| - 1];
      RepeatsAreHarmless(s, front, terms);
      HandledGrows(s, Once(front, s.handled), terms);
    }
  }

  /** Of an event delivered again, nothing is left to do. */
  lemma {:induction false} AgainIsNothing(s: State, events: seq<Event>, terms: Terms, i: nat)
    requires Valid(s) && i < |events|
    ensures Apply(ApplyAll(s, events, terms), events[i], terms) == ApplyAll(s, events, terms)
    ensures Judge(ApplyAll(s, events, terms), events[i], terms) == Duplicate
  {
    HandledGrows(s, events, terms);
  }

  // ---- In any order ------------------------------------------------------------------------------------------------

  function Time(row: Subscription): int
    requires row.lastEventAt.Some?
  {
    row.lastEventAt.value
  }

  /** A row never goes back in time, and never disappears. */
  lemma {:induction false} TimeNeverGoesBack(s: State, events: seq<Event>, terms: Terms, customer: string)
    requires Valid(s) && customer in s.subscriptions
    ensures var after := ApplyAll(s, events, terms).subscriptions;
            && customer in after
            && after[customer].user == s.subscriptions[customer].user
            && (s.subscriptions[customer].lastEventAt.Some? ==>
                  after[customer].lastEventAt.Some? && Time(s.subscriptions[customer]) <= Time(after[customer]))
  {
    if events != [] {
      TimeNeverGoesBack(s, events[..|events| - 1], terms, customer);
    }
  }

  /** One event puts another subscription in a row only when the one there is over. */
  lemma {:induction false} ReplacedOnlyWhenOver(s: State, e: Event, terms: Terms, customer: string)
    requires Valid(s) && customer in s.subscriptions && s.subscriptions[customer].id.Some?
    ensures customer in Apply(s, e, terms).subscriptions
    ensures Apply(s, e, terms).subscriptions[customer].id != s.subscriptions[customer].id ==>
              s.subscriptions[customer].status !in LIVE_STATUSES
  {
  }

  /** What a customer's row says about a live subscription stands until that one is over. */
  lemma {:induction false} LiveIsNotReplaced(s: State, events: seq<Event>, terms: Terms, customer: string)
    requires Valid(s) && customer in s.subscriptions
    requires s.subscriptions[customer].id.Some? && s.subscriptions[customer].status in LIVE_STATUSES
    ensures customer in ApplyAll(s, events, terms).subscriptions
    ensures ApplyAll(s, events, terms).subscriptions[customer].id != s.subscriptions[customer].id ==>
              exists n :: 0 <= n < |events| && OverAt(s, events, terms, customer, n)
  {
    if events != [] {
      var n := |events| - 1;
      var front := events[..n];
      LiveIsNotReplaced(s, front, terms, customer);
      if ApplyAll(s, front, terms).subscriptions[customer].id != s.subscriptions[customer].id {
        var k :| 0 <= k < |front| && OverAt(s, front, terms, customer, k);
        assert events[..k] == front[..k];
        assert OverAt(s, events, terms, customer, k);
      } else {
        ReplacedOnlyWhenOver(ApplyAll(s, front, terms), events[n], terms, customer);
        assert OverAt(s, events, terms, customer, n) || ApplyAll(s, front, terms).subscriptions[customer].status in LIVE_STATUSES;
      }
    }
  }

  /** After `n` events the row was still about the subscription it started with, which was no longer live. */
  ghost predicate OverAt(s: State, events: seq<Event>, terms: Terms, customer: string, n: nat)
    requires Valid(s) && n <= |events| && customer in s.subscriptions
  {
    var at := ApplyAll(s, events[..n], terms).subscriptions;
    customer in at && at[customer].id == s.subscriptions[customer].id && at[customer].status !in LIVE_STATUSES
  }

  /** A subscription that is over grants no plan. */
  ghost predicate EndedGrantsNothing(s: State) {
    forall c <- s.subscriptions :: s.subscriptions[c].status in ENDED_STATUSES ==> s.subscriptions[c].plan == None
  }

  lemma {:induction false} EndedNeverGrants(s: State, events: seq<Event>, terms: Terms)
    requires Valid(s) && EndedGrantsNothing(s)
    ensures EndedGrantsNothing(ApplyAll(s, events, terms))
  {
    if events != [] {
      EndedNeverGrants(s, events[..|events| - 1], terms);
    }
  }

  /** Deleting the subscription, once it is applied, leaves no paid plan and the account on the default one. */
  lemma {:induction false} DeletionTakesThePlanAway(s: State, raw: StripeEvent, terms: Terms)
    requires Valid(s) && raw.kind == "customer.subscription.deleted" && ReadSubscriptionEvent(raw).Some?
    requires Judge(s, Event(raw.id, raw.created, ReadSubscriptionEvent(raw).value), terms).Applied?
    ensures var e := Event(raw.id, raw.created, ReadSubscriptionEvent(raw).value);
            var after := Apply(s, e, terms);
            && after.subscriptions[e.change.customer].plan == None
            && after.plans[after.subscriptions[e.change.customer].user] == terms.default
  {
    DeletedMeansEnded(raw, terms.plans);
  }

  // ---- One subscription -------------------------------------------------------------------------------------------

  /** Events of one subscription of one customer, none handled yet, with distinct ids and creation times. */
  ghost predicate OfOne(s: State, events: seq<Event>, customer: string, subscription: string) {
    && (forall e <- events :: e.change.customer == customer && e.change.subscription == subscription && e.id !in s.handled)
    && (forall i, j :: 0 <= i < j < |events| ==> events[i].id != events[j].id && events[i].created != events[j].created)
    && customer in s.subscriptions
    && !(s.subscriptions[customer].id.Some? && s.subscriptions[customer].id.value != subscription
         && s.subscriptions[customer].status in LIVE_STATUSES)
  }

  /** The newest of the events that are not older than the row, if any. */
  ghost predicate IsNewest(row: Subscription, events: seq<Event>, k: nat) {
    k < |events| && !IsStale(row, events[k]) && forall e <- events :: e.created <= events[k].created
  }

  /** What the row says of the subscription itself. */
  function Fields(row: Subscription): (Option<string>, string, Option<int>, bool, Option<int>) {
    (row.id, row.status, row.currentPeriodEnd, row.cancelAtPeriodEnd, row.lastEventAt)
  }

  function SaidBy(e: Event): (Option<string>, string, Option<int>, bool, Option<int>) {
    (Some(e.change.subscription), e.change.status, e.change.currentPeriodEnd, e.change.cancelAtPeriodEnd, Some(e.created))
  }

  /** The account's and the subscription's plan. */
  function PlansOf(s: State, customer: string): (Option<string>, Option<string>)
    requires Valid(s) && customer in s.subscriptions
  {
    (s.subscriptions[customer].plan, s.plans[s.subscriptions[customer].user])
  }

  function After(s: State, events: seq<Event>, terms: Terms, customer: string): (row: Subscription)
    requires Valid(s) && customer in s.subscriptions
  {
    TimeNeverGoesBack(s, events, terms, customer);
    ApplyAll(s, events, terms).subscriptions[customer]
  }

  lemma FrontIsOther(events: seq<Event>)
    requires events != [] && forall i, j :: 0 <= i < j < |events| ==> events[i].id != events[j].id
    ensures forall e <- events[..|events| - 1] :: e in events && e.id != events[|events| - 1].id
  {
    forall e <- events[..|events| - 1]
      ensures e in events && e.id != events[|events| - 1].id
    {
      var i :| 0 <= i < |events| - 1 && events[..|events| - 1][i] == e;
      assert events[i] == e;
    }
  }

  /** One delivery: an event newer than the row is applied, an older one is not. */
  lemma {:induction false} NextOfOne(s: State, events: seq<Event>, terms: Terms, customer: string, subscription: string)
    requires Valid(s) && events != [] && OfOne(s, events, customer, subscription)
    ensures var front, last := events[..|events| - 1], events[|events| - 1];
            && OfOne(s, front, customer, subscription)
            && last.id !in ApplyAll(s, front, terms).handled
  {
    var front := events[..|events| - 1];
    assert events[|events| - 1] in events;
    FrontIsOther(events);
    HandledGrows(s, front, terms);
  }

  /** Without an event that is new, nothing about the customer changes. */
  ghost predicate AllStale(row: Subscription, events: seq<Event>) {
    forall e <- events :: IsStale(row, e)
  }

  lemma {:induction false} StaleChangesNothing(s: State, events: seq<Event>, terms: Terms, customer: string,
          subscription: string)
    requires Valid(s) && OfOne(s, events, customer, subscription) && AllStale(s.subscriptions[customer], events)
    ensures var r := ApplyAll(s, events, terms);
            r.subscriptions == s.subscriptions && r.plans == s.plans
  {
    if events != [] {
      NextOfOne(s, events, terms, customer, subscription);
      assert forall e <- events[..|events| - 1] :: e in events;
      StaleChangesNothing(s, events[..|events| - 1], terms, customer, subscription);
    }
  }

  /** Whatever the order, the row ends with what the newest event says. */
  lemma {:induction false} NewestWins(s: State, events: seq<Event>, terms: Terms, customer: string,
          subscription: string, k: nat)
    requires Valid(s) && OfOne(s, events, customer, subscription) && IsNewest(s.subscriptions[customer], events, k)
    ensures Fields(After(s, events, terms, customer)) == SaidBy(events[k])
  {
    var front, last := events[..|events| - 1], events[|events| - 1];
    NextOfOne(s, events, terms, customer, subscription);
    RowIsOfOne(s, front, terms, customer, subscription);
    if k < |front| {
      NewestWins(s, front, terms, customer, subscription, k);
      assert last in events && last.created != events[k].created;
    } else {
      TimeNeverGoesBack(s, front, terms, customer);
      assert events[k] == last;
      NoneIsNewer(s, front, terms, customer, subscription, last.created);
    }
  }

  /** The row stays about that subscription, or as it was. */
  lemma {:induction false} RowIsOfOne(s: State, events: seq<Event>, terms: Terms, customer: string,
          subscription: string)
    requires Valid(s) && OfOne(s, events, customer, subscription)
    ensures var row := After(s, events, terms, customer);
            row.id == Some(subscription) || row == s.subscriptions[customer]
  {
    if events != [] {
      NextOfOne(s, events, terms, customer, subscription);
      RowIsOfOne(s, events[..|events| - 1], terms, customer, subscription);
      assert events[|events| - 1] in events;
    }
  }

  lemma {:induction false} NoneIsNewer(s: State, events: seq<Event>, terms: Terms, customer: string,
          subscription: string, bound: int)
    requires Valid(s) && OfOne(s, events, customer, subscription)
    requires forall e <- events :: e.created <= bound
    requires s.subscriptions[customer].lastEventAt.Some? ==> s.subscriptions[customer].lastEventAt.value <= bound
    ensures var row := After(s, events, terms, customer);
            row.lastEventAt.Some? ==> row.lastEventAt.value <= bound
  {
    if events != [] {
      NextOfOne(s, events, terms, customer, subscription);
      assert forall e <- events[..|events| - 1] :: e in events;
      NoneIsNewer(s, events[..|events| - 1], terms, customer, subscription, bound);
      assert events[|events| - 1] in events;
    }
  }

  /** Two orders of the same events leave the same row, plan apart. */
  lemma {:induction false} OrderDoesNotMatter(
      s: State, events: seq<Event>, others: seq<Event>, terms: Terms, customer: string, subscription: string)
    requires Valid(s) && OfOne(s, events, customer, subscription) && OfOne(s, others, customer, subscription)
    requires multiset(events) == multiset(others)
    ensures Fields(After(s, events, terms, customer)) == Fields(After(s, others, terms, customer))
  {
    var row := s.subscriptions[customer];
    assert forall e :: e in events <==> e in multiset(events);
    assert forall e :: e in others <==> e in multiset(others);
    if AllStale(row, events) {
      StaleChangesNothing(s, events, terms, customer, subscription);
      StaleChangesNothing(s, others, terms, customer, subscription);
    } else {
      var k := Newest(events);
      var m := Newest(others);
      assert events[k] in events && events[k] in others && others[m] in others && others[m] in events;
      assert events[k] == others[m] by {
        assert events[k].created == others[m].created;
        var i :| 0 <= i < |events| && events[i] == others[m];
      }
      NewestWins(s, events, terms, customer, subscription, k);
      NewestWins(s, others, terms, customer, subscription, m);
    }
  }

  lemma {:induction false} Newest(events: seq<Event>) returns (k: nat)
    requires events != []
    ensures k < |events| && forall e <- events :: e.created <= events[k].created
  {
    var last := |events| - 1;
    k := last;
    if last > 0 {
      var m := Newest(events[..last]);
      if events[m].created > events[last].created {
        k := m;
      }
      assert events == events[..last] + [events[last]];
    }
  }

  // ---- The plan, in any order -------------------------------------------------------------------------------------

  function Decides(e: Event, terms: Terms): bool {
    !DecidePlan(e.change, terms.plans).Keep?
  }

  /** The plans an event leaves, whatever they were. */
  function PlansBy(e: Event, terms: Terms): (Option<string>, Option<string>)
    requires Decides(e, terms)
  {
    var decision := DecidePlan(e.change, terms.plans);
    (Decided(None, decision, None), Decided(None, decision, terms.default))
  }

  /** When the newest event grants or ends, the plans are what it says. */
  lemma {:induction false} NewestDecides(s: State, events: seq<Event>, terms: Terms, customer: string,
          subscription: string, k: nat)
    requires Valid(s) && OfOne(s, events, customer, subscription) && IsNewest(s.subscriptions[customer], events, k)
    requires Decides(events[k], terms)
    ensures customer in ApplyAll(s, events, terms).subscriptions
    ensures PlansOf(ApplyAll(s, events, terms), customer) == PlansBy(events[k], terms)
  {
    var front, last := events[..|events| - 1], events[|events| - 1];
    NextOfOne(s, events, terms, customer, subscription);
    TimeNeverGoesBack(s, events, terms, customer);
    RowIsOfOne(s, front, terms, customer, subscription);
    if k < |front| {
      NewestDecides(s, front, terms, customer, subscription, k);
      NewestWins(s, front, terms, customer, subscription, k);
      assert last in events && last.created != events[k].created;
    } else {
      NoneIsNewer(s, front, terms, customer, subscription, last.created);
    }
  }

  /** When no event that is new says anything else than what the plans already are, they stay. */
  lemma {:induction false} NothingElseSaid(s: State, events: seq<Event>, terms: Terms, customer: string,
          subscription: string)
    requires Valid(s) && OfOne(s, events, customer, subscription)
    requires forall e <- events :: Says(s, e, terms, customer)
    ensures customer in ApplyAll(s, events, terms).subscriptions
    ensures PlansOf(ApplyAll(s, events, terms), customer) == PlansOf(s, customer)
  {
    TimeNeverGoesBack(s, events, terms, customer);
    if events != [] {
      var front, last := events[..|events| - 1], events[|events| - 1];
      NextOfOne(s, events, terms, customer, subscription);
      TimeNeverGoesBack(s, front, terms, customer);
      assert forall e <- front :: e in events;
      NothingElseSaid(s, front, terms, customer, subscription);
      assert Says(s, last, terms, customer);
    }
  }

  /** A stale event, one that says nothing of the plan, or one that says what the plans are. */
  ghost predicate Says(s: State, e: Event, terms: Terms, customer: string)
    requires Valid(s) && customer in s.subscriptions
  {
    IsStale(s.subscriptions[customer], e) || !Decides(e, terms) || PlansBy(e, terms) == PlansOf(s, customer)
  }

  /** Every order of the events leaves these plans. */
  ghost predicate AnyOrderLeaves(
      s: State, events: seq<Event>, terms: Terms, customer: string, subscription: string, plans: (Option<string>, Option<string>))
    requires Valid(s) && OfOne(s, events, customer, subscription)
  {
    forall others :: multiset(others) == multiset(events) ==> LeavesPlans(s, others, terms, customer, plans)
  }

  ghost predicate LeavesPlans(s: State, events: seq<Event>, terms: Terms, customer: string,
          plans: (Option<string>, Option<string>))
    requires Valid(s)
  {
    var after := ApplyAll(s, events, terms);
    customer in after.subscriptions && PlansOf(after, customer) == plans
  }

  lemma {:induction false} SameEvents(s: State, events: seq<Event>, others: seq<Event>, customer: string,
          subscription: string)
    requires OfOne(s, events, customer, subscription) && multiset(others) == multiset(events)
    ensures OfOne(s, others, customer, subscription)
    ensures forall e :: e in others <==> e in events
  {
    assert forall e :: e in events <==> e in multiset(events);
    assert forall e :: e in others <==> e in multiset(others);
    forall i, j | 0 <= i < j < |others|
      ensures others[i].id != others[j].id && others[i].created != others[j].created
    {
      if others[i] == others[j] {
        TwiceInOrder(others, i, j);
        TwiceIn(events, others[i]);
      }
      var a :| 0 <= a < |events| && events[a] == others[i];
      var b :| 0 <= b < |events| && events[b] == others[j];
    }
  }

  lemma {:induction false} TwiceInOrder(events: seq<Event>, i: nat, j: nat)
    requires i < j < |events| && events[i] == events[j]
    ensures multiset(events)[events[i]] >= 2
  {
    assert events == events[..j] + events[j..];
    assert events[i] in events[..j] && events[i] in events[j..];
    assert multiset(events) == multiset(events[..j]) + multiset(events[j..]);
  }

  lemma {:induction false} TwiceIn(events: seq<Event>, e: Event)
    requires multiset(events)[e] >= 2
    ensures exists i, j :: 0 <= i < j < |events| && events[i] == events[j] == e
  {
    var n := |events| - 1;
    assert events == events[..n] + [events[n]];
    assert multiset(events) == multiset(events[..n]) + multiset{events[n]};
    if events[n] == e {
      assert e in events[..n];
      var i :| 0 <= i < n && events[..n][i] == e;
      assert events[i] == events[n] == e;
    } else {
      TwiceIn(events[..n], e);
      var i, j :| 0 <= i < j < n && events[..n][i] == events[..n][j] == e;
      assert events[i] == events[j] == e;
    }
  }

  /** The newest event grants or ends, or no event says anything else than what the plans already are. */
  ghost predicate Settled(s: State, events: seq<Event>, terms: Terms, customer: string)
    requires Valid(s) && customer in s.subscriptions
  {
    || (exists k: nat :: IsNewest(s.subscriptions[customer], events, k) && Decides(events[k], terms))
    || (forall e <- events :: Says(s, e, terms, customer))
  }

  lemma {:induction false} SettledInAnyOrder(s: State, events: seq<Event>, others: seq<Event>, terms: Terms,
          customer: string, subscription: string)
    returns (plans: (Option<string>, Option<string>))
    requires Valid(s) && OfOne(s, events, customer, subscription) && Settled(s, events, terms, customer)
    requires multiset(others) == multiset(events)
    ensures LeavesPlans(s, others, terms, customer, plans) && LeavesPlans(s, events, terms, customer, plans)
  {
    var row := s.subscriptions[customer];
    SameEvents(s, events, others, customer, subscription);
    if k: nat :| IsNewest(row, events, k) && Decides(events[k], terms) {
      plans := PlansBy(events[k], terms);
      assert events[k] in others;
      var m :| 0 <= m < |others| && others[m] == events[k];
      NewestDecides(s, events, terms, customer, subscription, k);
      NewestDecides(s, others, terms, customer, subscription, m);
    } else {
      plans := PlansOf(s, customer);
      NothingElseSaid(s, events, terms, customer, subscription);
      NothingElseSaid(s, others, terms, customer, subscription);
    }
  }

  /** The first delivery of an event that is not stale. */
  lemma {:induction false} FirstOfOne(s: State, first: Event, rest: seq<Event>, terms: Terms, customer: string,
          subscription: string)
    requires Valid(s) && OfOne(s, [first] + rest, customer, subscription) && !IsStale(s.subscriptions[customer], first)
    ensures var after := Apply(s, first, terms);
            && OfOne(after, rest, customer, subscription)
            && after.subscriptions[customer].lastEventAt == Some(first.created)
            && PlansOf(after, customer) == (if Decides(first, terms) then PlansBy(first, terms) else PlansOf(s, customer))
  {
    var all := [first] + rest;
    assert all[0] == first && first in all;
    forall e <- rest
      ensures e in all && e.id != first.id
    {
      var i :| 0 <= i < |rest| && rest[i] == e;
      assert all[i + 1] == e;
    }
    forall i, j | 0 <= i < j < |rest|
      ensures rest[i].id != rest[j].id && rest[i].created != rest[j].created
    {
      assert all[i + 1] == rest[i] && all[j + 1] == rest[j];
    }
  }

  /** Delivered newest first, the others change nothing. */
  lemma {:induction false} NewestFirst(s: State, newest: Event, rest: seq<Event>, terms: Terms,
          customer: string, subscription: string)
    requires Valid(s) && OfOne(s, [newest] + rest, customer, subscription) && !IsStale(s.subscriptions[customer], newest)
    requires forall e <- rest :: e.created <= newest.created
    ensures LeavesPlans(s, [newest] + rest, terms, customer,
                        if Decides(newest, terms) then PlansBy(newest, terms) else PlansOf(s, customer))
  {
    var after := Apply(s, newest, terms);
    FirstOfOne(s, newest, rest, terms, customer, subscription);
    forall e <- rest
      ensures IsStale(after.subscriptions[customer], e)
    {
      var i :| 0 <= i < |rest| && rest[i] == e;
      assert ([newest] + rest)[i + 1] == e && ([newest] + rest)[0] == newest;
    }
    StaleChangesNothing(after, rest, terms, customer, subscription);
    ApplyAllAppend(s, [newest], rest, terms);
    assert ApplyAll(s, [newest], terms) == after by {
      assert [newest][..0] == [];
    }
  }

  lemma {:induction false} ThenNewest(s: State, first: Event, newest: Event, rest: seq<Event>, terms: Terms,
          customer: string, subscription: string)
    requires Valid(s) && OfOne(s, [first] + ([newest] + rest), customer, subscription) && !IsStale(s.subscriptions[customer], first)
    requires first.created <= newest.created && forall e <- rest :: e.created <= newest.created
    requires Decides(first, terms) && !Decides(newest, terms)
    ensures LeavesPlans(s, [first] + ([newest] + rest), terms, customer, PlansBy(first, terms))
  {
    FirstOfOne(s, first, [newest] + rest, terms, customer, subscription);
    NewestFirst(Apply(s, first, terms), newest, rest, terms, customer, subscription);
    ApplyAllAppend(s, [first], [newest] + rest, terms);
    assert ApplyAll(s, [first], terms) == Apply(s, first, terms) by {
      assert [first][..0] == [];
    }
  }

  lemma {:induction false} TakeOut(events: seq<Event>, k: nat) returns (rest: seq<Event>)
    requires k < |events|
    ensures multiset([events[k]] + rest) == multiset(events)
    ensures forall e <- rest :: e in events
    ensures forall e <- events :: e == events[k] || e in rest
  {
    rest := events[..k] + events[k + 1..];
    assert events == events[..k] + [events[k]] + events[k + 1..];
  }

  lemma Swapped(x: Event, y: Event, others: seq<Event>, rest: seq<Event>)
    requires multiset([y] + others) == multiset(rest)
    ensures multiset([y] + ([x] + others)) == multiset([x] + rest)
  {
    assert [y] + ([x] + others) == [y] + [x] + others;
    assert multiset([x] + rest) == multiset{x} + multiset(rest);
  }

  /** Two orders of the same events that leave different plans, when neither condition holds. */
  lemma {:induction false} UnsettledInSomeOrder(s: State, events: seq<Event>, terms: Terms, customer: string,
          subscription: string)
    returns (a: seq<Event>, b: seq<Event>, pa: (Option<string>, Option<string>), pb: (Option<string>, Option<string>))
    requires Valid(s) && OfOne(s, events, customer, subscription) && !Settled(s, events, terms, customer)
    ensures multiset(a) == multiset(events) && multiset(b) == multiset(events) && pa != pb
    ensures LeavesPlans(s, a, terms, customer, pa) && LeavesPlans(s, b, terms, customer, pb)
  {
    var row := s.subscriptions[customer];
    var e :| e in events && !Says(s, e, terms, customer);
    var k := Newest(events);
    assert IsNewest(row, events, k) by {
      assert e.created <= events[k].created;
    }
    var newest := events[k];
    var rest := TakeOut(events, k);
    a, pa := [newest] + rest, PlansOf(s, customer);
    SameEvents(s, events, a, customer, subscription);
    NewestFirst(s, newest, rest, terms, customer, subscription);
    assert e in rest;
    var j :| 0 <= j < |rest| && rest[j] == e;
    var others := TakeOut(rest, j);
    b, pb := [e] + ([newest] + others), PlansBy(e, terms);
    Swapped(newest, e, others, rest);
    SameEvents(s, events, b, customer, subscription);
    ThenNewest(s, e, newest, others, terms, customer, subscription);
  }

  /**
   * The plan does not depend on the order exactly when the newest event grants or ends, or no event that is new says
   * anything else than what the plans already are.
   */
  lemma {:induction false} PlanIsOrderIndependentWhen(
      s: State, events: seq<Event>, terms: Terms, customer: string, subscription: string)
    requires Valid(s) && OfOne(s, events, customer, subscription)
    ensures Settled(s, events, terms, customer) <==>
            exists plans :: AnyOrderLeaves(s, events, terms, customer, subscription, plans)
  {
    if Settled(s, events, terms, customer) {
      var plans := SettledInAnyOrder(s, events, events, terms, customer, subscription);
      forall others | multiset(others) == multiset(events)
        ensures LeavesPlans(s, others, terms, customer, plans)
      {
        var same := SettledInAnyOrder(s, events, others, terms, customer, subscription);
      }
      assert AnyOrderLeaves(s, events, terms, customer, subscription, plans);
    } else {
      var a, b, pa, pb := UnsettledInSomeOrder(s, events, terms, customer, subscription);
      forall plans
        ensures !AnyOrderLeaves(s, events, terms, customer, subscription, plans)
      {
        assert !LeavesPlans(s, a, terms, customer, plans) || !LeavesPlans(s, b, terms, customer, plans);
      }
    }
  }
}
