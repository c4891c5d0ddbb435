/** Where subscription events are applied: the event, the subscription row and the account's plan in one transaction. */
module BillingRepository {
  import opened Prelude
  import opened StripeEvents
  import opened BillingLaws

  class BillingRepository {
    var handled: set<string>
    var subscriptions: map<string, Subscription>
    var plans: map<UserId, Option<string>>

    ghost function Rows(): State
      reads this
    {
      State(handled, subscriptions, plans)
    }

    constructor (rows: State)
      requires BillingLaws.Valid(rows)
      ensures Rows() == rows
    {
      handled, subscriptions, plans := rows.handled, rows.subscriptions, rows.plans;
    }

    method Apply(event: Event, terms: Terms) returns (outcome: Outcome)
      requires BillingLaws.Valid(Rows())
      modifies this
      ensures Rows() == BillingLaws.Apply(old(Rows()), event, terms) && BillingLaws.Valid(Rows())
      ensures outcome == Judge(old(Rows()), event, terms)
    {
      if event.id in handled {
        return Duplicate;
      }
      handled := handled + {event.id};
      var change := event.change;
      if change.customer !in subscriptions {
        return UnknownCustomer;
      }
      var row := subscriptions[change.customer];
      if row.lastEventAt.Some? && event.created < row.lastEventAt.value {
        return Stale;
      }
      if row.id.Some? && row.id.value != change.subscription && row.status in LIVE_STATUSES {
        return OtherSubscription;
      }
      var decision := DecidePlan(change, terms.plans);
      var plan, userPlan := row.plan, plans[row.user];
      match decision {
        case Grant(p) => plan, userPlan := Some(p), Some(p);
        case End => plan, userPlan := None, terms.default;
        case Keep(_) =>
      }
      assert plans[row.user := plans[row.user]] == plans;
      outcome := Applied(row.user, plans[row.user], userPlan, change.status, decision == Keep(true));
      subscriptions := subscriptions[change.customer :=
        Subscription(row.user, Some(change.subscription), plan, change.status, change.currentPeriodEnd, change.cancelAtPeriodEnd,
                     Some(event.created))];
      if userPlan != plans[row.user] {
        plans := plans[row.user := userPlan];
      }
    }

    /** Deliveries one after the other, whatever Stripe repeats or reorders. */
    method Deliver(events: seq<Event>, terms: Terms)
      requires BillingLaws.Valid(Rows())
      modifies this
      ensures BillingLaws.Valid(Rows())
      ensures Rows() == ApplyAll(old(Rows()), Once(events, old(handled)), terms)
    {
      ghost var before := Rows();
      for i := 0 to |events|
        invariant BillingLaws.Valid(Rows()) && Rows() == ApplyAll(before, events[..i], terms)
      {
        assert events[..i + 1][..i] == events[..i];
        var outcome := Apply(events[i], terms);
      }
      assert events[..|events|] == events;
      RepeatsAreHarmless(before, events, terms);
    }
  }
}
