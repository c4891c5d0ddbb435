/**
 * Subscription events as Stripe writes them: references bare or expanded, the end of the period on the subscription or
 * on its first item, other properties among them. Reading such an event gives back what was written.
 */
module StripeWire {
  import opened Prelude
  import opened StripeEvents

  /** Where the end of the paid period is written. */
  datatype PeriodPlace = OnSubscription | OnItem | OnItemBesideNull

  /** What Stripe says. `seconds` is the end of the period. */
  datatype Said = Said(
    customer: Option<string>,
    id: Option<string>,
    status: Option<string>,
    price: Option<string>,
    seconds: Option<int>,
    cancels: Option<bool>)

  /** How it is written. `more` are properties this application does not read. */
  datatype Form = Form(customerExpanded: bool, priceExpanded: bool, period: PeriodPlace, more: map<string, Json>)

  function Reference(id: string, expanded: bool, more: map<string, Json>): Json {
    if expanded then Object(more["id" := String(id)]) else String(id)
  }

  /** Without these names, which are written or left out on purpose. */
  function Others(more: map<string, Json>): map<string, Json> {
    more - {"customer", "id", "status", "items", "current_period_end", "cancel_at_period_end", "price"}
  }

  function Maybe(fields: map<string, Json>, name: string, v: Option<Json>): map<string, Json> {
    if v.Some? then fields[name := v.value] else fields
  }

  function Item(s: Said, f: Form): Json {
    var priced := Maybe(Others(f.more), "price",
                        if s.price.None? then None else Some(Reference(s.price.value, f.priceExpanded, f.more)));
    Object(Maybe(priced, "current_period_end",
                 if s.seconds.None? || f.period == OnSubscription then None else Some(Number(s.seconds.value))))
  }

  /** The object of the event, its items after the first one being `rest`. */
  function Wire(s: Said, f: Form, rest: seq<Json>): Json {
    var named := Maybe(Maybe(Maybe(Others(f.more), "customer",
                                   if s.customer.None? then None
                                   else Some(Reference(s.customer.value, f.customerExpanded, f.more))),
                             "id", if s.id.None? then None else Some(String(s.id.value))),
                       "status", if s.status.None? then None else Some(String(s.status.value)));
    var billed := Maybe(named["items" := Object(map["data" := Array([Item(s, f)] + rest)])], "cancel_at_period_end",
                        if s.cancels.None? then None else Some(Bool(s.cancels.value)));
    Object(Maybe(billed, "current_period_end",
                 if f.period == OnItemBesideNull then Some(Null)
                 else if s.seconds.None? || f.period != OnSubscription then None
                 else Some(Number(s.seconds.value))))
  }

  /** No name or id is the empty string. */
  predicate Proper(s: Said) {
    s.customer != Some("") && s.id != Some("") && s.status != Some("") && s.price != Some("")
  }

  /** Events about a subscription. */
  predicate IsAboutSubscriptions(kind: string) {
    || kind == "customer.subscription.created" || kind == "customer.subscription.updated"
    || kind == "customer.subscription.deleted" || kind == "customer.subscription.paused"
    || kind == "customer.subscription.resumed"
  }

  lemma ItemReads(s: Said, f: Form, rest: seq<Json>)
    requires Proper(s)
    ensures FirstItem(Wire(s, f, rest)) == Item(s, f)
    ensures IdOf(Field(Item(s, f), "price")) == s.price
  {
  }

  lemma PeriodReads(s: Said, f: Form, rest: seq<Json>)
    ensures PeriodEnd(Wire(s, f, rest)) == if s.seconds.None? then None else Some(1000 * s.seconds.value)
  {
    assert FirstItem(Wire(s, f, rest)) == Item(s, f);
  }

  lemma NamesRead(s: Said, f: Form, rest: seq<Json>)
    requires Proper(s)
    ensures AsString(Field(Wire(s, f, rest), "id")) == s.id
    ensures AsString(Field(Wire(s, f, rest), "status")) == s.status
  {
  }

  lemma CustomerReads(s: Said, f: Form, rest: seq<Json>)
    requires Proper(s)
    ensures IdOf(Field(Wire(s, f, rest), "customer")) == s.customer
  {
  }

  lemma CancelReads(s: Said, f: Form, rest: seq<Json>)
    ensures Field(Wire(s, f, rest), "cancel_at_period_end") == Bool(true) <==> s.cancels == Some(true)
  {
  }

  /**
   * However an event is written, reading it gives back what it says, with the time in milliseconds; a deletion says
   * canceled whatever its status. An event is of no use exactly if it is about something else, or names no customer or
   * no subscription.
   */
  lemma ReadingGivesBack(id: string, kind: string, created: int, s: Said, f: Form, rest: seq<Json>)
    requires Proper(s)
    ensures ReadSubscriptionEvent(StripeEvent(id, kind, created, Wire(s, f, rest)))
         == if !IsAboutSubscriptions(kind) || s.customer.None? || s.id.None? then None
            else
              Some(Change(s.customer.value, s.id.value,
                          if kind == "customer.subscription.deleted" then "canceled"
                          else if s.status.None? then "incomplete" else s.status.value,
                          s.price, if s.seconds.None? then None else Some(1000 * s.seconds.value), s.cancels == Some(true)))
  {
    ItemReads(s, f, rest);
    PeriodReads(s, f, rest);
    NamesRead(s, f, rest);
    CustomerReads(s, f, rest);
    CancelReads(s, f, rest);
  }

  // ---- Statuses ----------------------------------------------------------------------------------------------------

  /** The subscription is paid for, or about to be. */
  predicate Lives(status: string) {
    status == "active" || status == "trialing" || status == "past_due"
  }

  predicate Ends(status: string) {
    status == "canceled" || status == "unpaid" || status == "incomplete_expired" || status == "paused"
  }

  /**
   * An ended subscription takes the plan away; a live one grants the first plan listed at its price, and says that the
   * price is unknown if there is none; every other status decides nothing.
   */
  lemma StatusDecides(change: Change, plans: Plans)
    ensures DecidePlan(change, plans) == End <==> Ends(change.status)
    ensures DecidePlan(change, plans) == Keep(false) <==> !Ends(change.status) && !Lives(change.status)
    ensures DecidePlan(change, plans) == Keep(true) <==>
            Lives(change.status) && (change.price.None? || forall p <- plans :: p.1 != change.price.value)
    ensures DecidePlan(change, plans).Grant? <==>
            exists i: nat :: Lives(change.status) && change.price.Some? && IsFirst(plans, change.price.value, i)
                             && DecidePlan(change, plans) == Grant(plans[i].0)
  {
    if Lives(change.status) && change.price.Some? {
      var price := change.price.value;
      forall i: nat | IsFirst(plans, price, i)
        ensures PlanOf(plans, price) == Some(plans[i].0) && plans[i] in plans
      {
        PlanOfIsFirst(plans, price, i);
      }
      if PlanOf(plans, price).Some? {
        var i := FindFirst(plans, price);
        assert plans[i] in plans;
      } else {
        NoneListed(plans, price);
      }
    }
  }

  lemma {:induction false} NoneListed(plans: Plans, price: string)
    requires PlanOf(plans, price).None?
    ensures forall p <- plans :: p.1 != price
    decreases |plans|
  {
    if plans != [] {
      NoneListed(plans[1..], price);
      assert plans == [plans[0]] + plans[1..];
    }
  }
}
