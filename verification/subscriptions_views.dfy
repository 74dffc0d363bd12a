/** The subscription API actions and listings (subscriptions/views.py):
    `cancel`, `renew` and `process_payment` with their guards, and which
    plans, subscriptions, transactions and bonuses a requester sees. */
module SubscriptionViews {
  import opened Collections
  import opened SubscriptionModels
  import opened SubscriptionSignals
  import opened Users

  /** A rejected request (HTTP 400) and its message. */
  datatype ApiError = BadRequest(message: string)

  /** `cancel`: only an active subscription can be cancelled; it becomes
      cancelled and nothing else about it changes. */
  function Cancel(s: Subscription): (r: Result<Subscription, ApiError>)
    ensures r.Ok? <==> s.status == Active
    ensures r.Ok? ==> r.value == s.(status := Cancelled)
    ensures r.Err? ==> r.error == BadRequest("Only active subscriptions can be cancelled")
  {
    if s.status != Active then Err(BadRequest("Only active subscriptions can be cancelled"))
    else Ok(s.(status := Cancelled))
  }

  /** `renew`: only an expired or cancelled subscription can be renewed; it
      becomes active and nothing else about it changes. */
  function Renew(s: Subscription): (r: Result<Subscription, ApiError>)
    ensures r.Ok? <==> s.status == Expired || s.status == Cancelled
    ensures r.Ok? ==> r.value == s.(status := Active)
    ensures r.Err? ==> r.error == BadRequest("Only expired or cancelled subscriptions can be renewed")
  {
    if s.status !in {Expired, Cancelled} then Err(BadRequest("Only expired or cancelled subscriptions can be renewed"))
    else Ok(s.(status := Active))
  }

  /** The view's status writes undo each other: renewing undoes cancelling,
      and cancelling undoes renewing a cancelled subscription.  This is the
      status write alone, before the pre-save hook; `CancelRenewThroughHook`
      states what the saves make of it. */
  lemma CancelRenewRoundTrip(s: Subscription)
    ensures Cancel(s).Ok? ==> Renew(Cancel(s).value) == Ok(s)
    ensures s.status == Cancelled ==> Renew(s).Ok? && Cancel(Renew(s).value) == Ok(s)
  {
  }

  /** Cancelling and then renewing an active subscription through the
      pre-save hook: cancelling keeps both dates, but renewing recomputes the
      end date from the start, so any days a referral bonus had added to the
      end are lost.  The record comes back unchanged exactly when its end
      date was already the plan's. */
  lemma CancelRenewThroughHook(s: Subscription, cancelDay: int, renewDay: int)
    requires s.status == Active && !Unsaved(s)
    requires s.startDate.Some? && s.plan.durationMonths > 0
    ensures var cancelled := UpdateSubscriptionDates(Cancel(s).value, Some(s), cancelDay);
            var renewed := UpdateSubscriptionDates(Renew(cancelled).value, Some(cancelled), renewDay);
            && cancelled == s.(status := Cancelled)
            && renewed == s.(endDate := Some(s.startDate.value + 30 * s.plan.durationMonths))
            && (renewed == s <==> s.endDate == Some(s.startDate.value + 30 * s.plan.durationMonths))
  {
  }

  /** A one-month subscription from day 0 whose end a six-month bonus moved
      to day 210, cancelled on day 50 and renewed on day 60, ends on day 30
      again. */
  lemma BonusLostOnCancelRenew(user: nat, plan: Plan)
    requires plan.durationMonths == 1
    ensures var s := Subscription(Some(1), user, plan, Active, Some(0), Some(210), false, 0);
            var cancelled := UpdateSubscriptionDates(Cancel(s).value, Some(s), 50);
            var renewed := UpdateSubscriptionDates(Renew(cancelled).value, Some(cancelled), 60);
            && cancelled.endDate == Some(210)
            && renewed.status == Active && renewed.endDate == Some(30)
  {
    CancelRenewThroughHook(Subscription(Some(1), user, plan, Active, Some(0), Some(210), false, 0), 50, 60);
  }

  /** `process_payment`: only a pending transaction can be processed; it
      becomes completed, and the subscription it pays for, if any, becomes
      active. */
  function ProcessPayment(tx: Transaction): (r: Result<Transaction, ApiError>)
    ensures r.Ok? <==> tx.status == TxPending
    ensures r.Err? ==> r.error == BadRequest("Only pending transactions can be processed")
    ensures r.Ok? ==> r.value.status == Completed
    ensures r.Ok? ==> (r.value.subscription.None? <==> tx.subscription.None?)
    ensures r.Ok? && tx.subscription.Some? ==> r.value.subscription.value == tx.subscription.value.(status := Active)
    ensures r.Ok? ==> r.value == tx.(status := Completed, subscription := r.value.subscription)
  {
    if tx.status != TxPending then Err(BadRequest("Only pending transactions can be processed"))
    else
      var s := if tx.subscription.Some? then Some(tx.subscription.value.(status := Active)) else None;
      Ok(tx.(status := Completed, subscription := s))
  }

  /** A transaction as first created can be processed. */
  lemma NewTransactionIsPayable(id: nat, user: nat, subscription: Option<Subscription>, currency: Option<string>,
                                pm: PaymentMethod)
    ensures ProcessPayment(NewTransaction(id, user, subscription, currency, pm)).Ok?
  {
  }

  /** What a payment does to its subscription once the save hooks have run:
      saving the completed transaction activates the subscription from
      today (its own save re-derives the same dates), and the view then
      marks it active again, which its save leaves alone.  A subscription
      that was already active is not touched; any other starts today and
      ends thirty days per plan month later. */
  lemma PaymentSettlesSubscription(tx: Transaction, today: int)
    requires tx.status == TxPending && tx.subscription.Some?
    requires !Unsaved(tx.subscription.value)
    ensures var s := tx.subscription.value;
            var saved := tx.(status := Completed);
            var afterHook := OnTransactionSaved(saved, false, today).value;
            var stored := UpdateSubscriptionDates(afterHook, Some(s), today);
            var final := UpdateSubscriptionDates(stored.(status := Active), Some(stored), today);
            && final.status == Active
            && (s.status == Active ==> final == s)
            && (s.status != Active ==>
                  final == s.(status := Active, startDate := Some(today), endDate := PlanEnd(s, today)))
  {
  }

  /** What a renewal does once the pre-save hook has run: the subscription
      becomes active, an existing start date is kept rather than moved to
      today, and the end date is computed from that start, thirty days per
      plan month (kept for a plan without duration).  Nothing else changes. */
  lemma RenewSettlesSubscription(s: Subscription, today: int)
    requires s.status == Expired || s.status == Cancelled
    requires !Unsaved(s)
    ensures var final := UpdateSubscriptionDates(Renew(s).value, Some(s), today);
            && final.status == Active
            && final.startDate == (if s.startDate.Some? then s.startDate else Some(today))
            && (s.plan.durationMonths > 0 ==> final.endDate == Some(final.startDate.value + 30 * s.plan.durationMonths))
            && (s.plan.durationMonths == 0 ==> final.endDate == s.endDate)
            && final == s.(status := Active, startDate := final.startDate, endDate := final.endDate)
  {
  }

  /** Because the old start date is kept, renewing a long-lapsed
      subscription can leave it active but already ended: a one-month
      subscription that started on day 0, renewed on day 100, ends on day 30
      and does not count as a subscription on day 100. */
  lemma RenewLapsedExample(user: nat, plan: Plan)
    requires plan.durationMonths == 1
    ensures var s := Subscription(Some(1), user, plan, Expired, Some(0), Some(30), false, 0);
            var final := UpdateSubscriptionDates(Renew(s).value, Some(s), 100);
            && final.status == Active && final.endDate == Some(30) && !Counts(final, 100)
  {
  }

  /** `SubscriptionPlanViewSet.get_queryset`: admins see every plan, anyone
      else only the active ones. */
  function VisiblePlans(plans: seq<Plan>, requester: Account): (r: seq<Plan>)
    ensures IsSubseq(r, plans)
    ensures requester.role == Admin ==> r == plans
    ensures requester.role != Admin ==> forall p | p in r :: p in plans && p.isActive
    ensures requester.role != Admin ==> forall p | p in plans && p.isActive :: p in r
    ensures requester.role != Admin ==>
              forall p :: multiset(r)[p] == if p.isActive then multiset(plans)[p] else 0
  {
    if requester.role == Admin then
      SubseqRefl(plans);
      plans
    else
      var keep := (p: Plan) => p.isActive;
      FilterSubseq(plans, keep);
      FilterCounts(plans, keep);
      Filter(plans, keep)
  }

  /** `SubscriptionViewSet.get_queryset`: admins see every subscription,
      anyone else only their own. */
  function VisibleSubscriptions(subs: seq<Subscription>, requester: Account): (r: seq<Subscription>)
    ensures IsSubseq(r, subs)
    ensures requester.role == Admin ==> r == subs
    ensures requester.role != Admin ==> forall s | s in r :: s in subs && s.user == requester.id
    ensures requester.role != Admin ==> forall s | s in subs && s.user == requester.id :: s in r
    ensures requester.role != Admin ==>
              forall s :: multiset(r)[s] == if s.user == requester.id then multiset(subs)[s] else 0
  {
    if requester.role == Admin then
      SubseqRefl(subs);
      subs
    else
      var keep := (s: Subscription) => s.user == requester.id;
      FilterSubseq(subs, keep);
      FilterCounts(subs, keep);
      Filter(subs, keep)
  }

  /** `TransactionViewSet.get_queryset`: admins see every transaction,
      anyone else only their own. */
  function VisibleTransactions(txs: seq<Transaction>, requester: Account): (r: seq<Transaction>)
    ensures IsSubseq(r, txs)
    ensures requester.role == Admin ==> r == txs
    ensures requester.role != Admin ==> forall t | t in r :: t in txs && t.user == requester.id
    ensures requester.role != Admin ==> forall t | t in txs && t.user == requester.id :: t in r
    ensures requester.role != Admin ==>
              forall t :: multiset(r)[t] == if t.user == requester.id then multiset(txs)[t] else 0
  {
    if requester.role == Admin then
      SubseqRefl(txs);
      txs
    else
      var keep := (t: Transaction) => t.user == requester.id;
      FilterSubseq(txs, keep);
      FilterCounts(txs, keep);
      Filter(txs, keep)
  }

  /** `ReferralBonusViewSet.get_queryset`: admins see every bonus, anyone
      else only the bonuses they earned as referrer. */
  function VisibleBonuses(bonuses: seq<ReferralBonus>, requester: Account): (r: seq<ReferralBonus>)
    ensures IsSubseq(r, bonuses)
    ensures requester.role == Admin ==> r == bonuses
    ensures requester.role != Admin ==> forall b | b in r :: b in bonuses && b.referrer == requester.id
    ensures requester.role != Admin ==> forall b | b in bonuses && b.referrer == requester.id :: b in r
    ensures requester.role != Admin ==>
              forall b :: multiset(r)[b] == if b.referrer == requester.id then multiset(bonuses)[b] else 0
  {
    if requester.role == Admin then
      SubseqRefl(bonuses);
      bonuses
    else
      var keep := (b: ReferralBonus) => b.referrer == requester.id;
      FilterSubseq(bonuses, keep);
      FilterCounts(bonuses, keep);
      Filter(bonuses, keep)
  }
}
