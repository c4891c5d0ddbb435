/** What a Stripe subscription event says, and what that means for the account's plan. */
module StripeEvents {
  import opened Prelude

  /** What JSON.parse returns. `Undefined` is a property that is not there. */
  datatype Json =
    | Undefined
    | Null
    | Bool(b: bool)
    | Number(n: int)
    | String(s: string)
    | Array(items: seq<Json>)
    | Object(fields: map<string, Json>)

  /** `value?.field`. */
  function Field(v: Json, name: string): Json {
    if v.Object? && name in v.fields then v.fields[name] else Undefined
  }

  datatype StripeEvent = StripeEvent(id: string, kind: string, created: int, subscription: Json)

  /** `currentPeriodEnd` is in milliseconds, `created` in seconds. */
  datatype Change = Change(
    customer: string,
    subscription: string,
    status: string,
    price: Option<string>,
    currentPeriodEnd: Option<int>,
    cancelAtPeriodEnd: bool)

  const LIVE_STATUSES := {"active", "trialing", "past_due"}
  const ENDED_STATUSES := {"canceled", "unpaid", "incomplete_expired", "paused"}
  const SUBSCRIPTION_EVENTS := {
    "customer.subscription.created",
    "customer.subscription.updated",
    "customer.subscription.deleted",
    "customer.subscription.paused",
    "customer.subscription.resumed"}

  function AsString(v: Json): Option<string> {
    if v.String? && v.s != "" then Some(v.s) else None
  }

  /** The id of an object that Stripe sends either bare or expanded. */
  function IdOf(v: Json): Option<string> {
    if AsString(v).Some? then AsString(v) else AsString(Field(v, "id"))
  }

  function FirstItem(subscription: Json): Json {
    var data := Field(Field(subscription, "items"), "data");
    if data.Array? && data.items != [] then data.items[0] else Undefined
  }

  function PeriodEnd(subscription: Json): Option<int> {
    var own := Field(subscription, "current_period_end");
    var end := if own.Undefined? || own.Null? then Field(FirstItem(subscription), "current_period_end") else own;
    if end.Number? then Some(end.n * 1000) else None
  }

  function StatusOf(event: StripeEvent): string {
    if event.kind == "customer.subscription.deleted" then "canceled"
    else
      var said := AsString(Field(event.subscription, "status"));
      if said.Some? then said.value else "incomplete"
  }

  /** `None` is an event this application has no use for. */
  function ReadSubscriptionEvent(event: StripeEvent): Option<Change> {
    var customer := IdOf(Field(event.subscription, "customer"));
    var id := AsString(Field(event.subscription, "id"));
    if event.kind !in SUBSCRIPTION_EVENTS || customer.None? || id.None? then None
    else
      Some(Change(
             customer.value,
             id.value,
             StatusOf(event),
             IdOf(Field(FirstItem(event.subscription), "price")),
             PeriodEnd(event.subscription),
             Field(event.subscription, "cancel_at_period_end") == Bool(true)))
  }

  datatype Decision = Grant(plan: string) | End | Keep(unknownPrice: bool)

  /** STRIPE_PLANS, in the order they are listed. */
  type Plans = seq<(string, string)>

  /** `Object.entries(plans).find(price)?.[0]`. */
  function PlanOf(plans: Plans, price: string): Option<string>
    decreases |plans|
  {
    if plans == [] then None
    else if plans[0].1 == price then Some(plans[0].0)
    else PlanOf(plans[1..], price)
  }

  /** The first plan listed at that price. */
  ghost predicate IsFirst(plans: Plans, price: string, i: nat) {
    i < |plans| && plans[i].1 == price && forall j :: 0 <= j < i ==> plans[j].1 != price
  }

  lemma {:induction false} PlanOfIsFirst(plans: Plans, price: string, i: nat)
    requires IsFirst(plans, price, i)
    ensures PlanOf(plans, price) == Some(plans[i].0)
    decreases |plans|
  {
    if i > 0 {
      assert plans[0].1 != price;
      PlanOfIsFirst(plans[1..], price, i - 1);
    }
  }

  lemma {:induction false} FindFirst(plans: Plans, price: string) returns (i: nat)
    requires PlanOf(plans, price).Some?
    ensures IsFirst(plans, price, i)
    decreases |plans|
  {
    i := 0;
    if plans[0].1 != price {
      i := FindFirst(plans[1..], price);
      i := i + 1;
    }
  }

  function DecidePlan(change: Change, plans: Plans): Decision {
    if change.status in ENDED_STATUSES then End
    else if change.status !in LIVE_STATUSES then Keep(false)
    else
      var plan := if change.price.None? then None else PlanOf(plans, change.price.value);
      if plan.None? then Keep(true) else Grant(plan.value)
  }

  /** Sending an object bare or expanded comes to the same. */
  lemma BareOrExpanded(id: string, others: map<string, Json>)
    ensures IdOf(String(id)) == IdOf(Object(others["id" := String(id)]))
  {
  }

  /** Deleting a subscription ends it, whatever the event says its status is. */
  lemma DeletedMeansEnded(event: StripeEvent, plans: Plans)
    requires event.kind == "customer.subscription.deleted" && ReadSubscriptionEvent(event).Some?
    ensures DecidePlan(ReadSubscriptionEvent(event).value, plans) == End
  {
  }

  /** A plan is granted exactly by a live subscription at one of its prices, and by the first plan that has it. */
  lemma GrantedWhen(change: Change, plans: Plans, plan: string)
    ensures DecidePlan(change, plans) == Grant(plan) <==>
            && change.status in LIVE_STATUSES && change.price.Some?
            && exists i: nat :: IsFirst(plans, change.price.value, i) && plans[i].0 == plan
  {
    if change.status in LIVE_STATUSES && change.price.Some? {
      var price := change.price.value;
      forall i: nat | IsFirst(plans, price, i)
        ensures PlanOf(plans, price) == Some(plans[i].0)
      {
        PlanOfIsFirst(plans, price, i);
      }
      if PlanOf(plans, price).Some? {
        var i := FindFirst(plans, price);
        assert IsFirst(plans, price, i);
      }
    }
  }
}
