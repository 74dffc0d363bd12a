/** The date and status effects of the subscription signal handlers
    (subscriptions/signals.py).  Each handler is a standalone function of
    the record being saved, the stored copy where the handler reads one,
    and today's day number. */
module SubscriptionSignals {
  import opened Collections
  import opened SubscriptionModels

  /** `not instance.pk`: no key yet, or the key 0, which Python treats as
      false. */
  predicate Unsaved(s: Subscription)
  {
    s.pk.None? || s.pk.value == 0
  }

  /** The end date an activation computes: `start + 30 * months` when the
      plan has a duration, otherwise the end date is left as it is. */
  function PlanEnd(s: Subscription, start: int): (end: Option<int>)
    ensures s.plan.durationMonths > 0 ==> end == Some(start + MonthsToDays(s.plan.durationMonths))
    ensures s.plan.durationMonths == 0 ==> end == s.endDate
  {
    if s.plan.durationMonths > 0 then Some(start + MonthsToDays(s.plan.durationMonths)) else s.endDate
  }

  /** `update_subscription_dates` (pre-save).  `stored` is the copy in the
      database under the same key, `None` when there is none.

      - A subscription without a key, or without a stored copy, is saved
        as it is.
      - Becoming active keeps an existing start date or starts today, and
        sets the end date from the plan's duration.
      - Becoming cancelled changes no date.
      - Becoming expired ends today.
      - With an unchanged status, nothing changes. */
  function UpdateSubscriptionDates(instance: Subscription, stored: Option<Subscription>, today: int): (r: Subscription)
    ensures r.status == instance.status && r.plan == instance.plan && r.pk == instance.pk
    ensures r.user == instance.user && r.isAutoRenew == instance.isAutoRenew && r.createdAt == instance.createdAt
    ensures Unsaved(instance) || stored.None? ==> r == instance
    ensures stored.Some? && stored.value.status == instance.status ==> r == instance
  {
    if Unsaved(instance) || stored.None? then instance
    else
      var prior := stored.value;
      if instance.status == Active && prior.status != Active then
        var start := if instance.startDate.Some? then instance.startDate.value else today;
        instance.(startDate := Some(start), endDate := PlanEnd(instance, start))
      else if instance.status == Cancelled && prior.status != Cancelled then
        instance
      else if instance.status == Expired && prior.status != Expired then
        instance.(endDate := Some(today))
      else
        instance
  }

  /** Becoming active: an existing start date is kept, otherwise the
      subscription starts today; the end date is thirty days per plan month
      after the start, or unchanged for a plan without duration. */
  lemma ActivationDates(instance: Subscription, stored: Subscription, today: int)
    requires !Unsaved(instance)
    requires instance.status == Active && stored.status != Active
    ensures var r := UpdateSubscriptionDates(instance, Some(stored), today);
            && r.startDate == (if instance.startDate.Some? then instance.startDate else Some(today))
            && (instance.plan.durationMonths > 0 ==>
                  r.endDate == Some(r.startDate.value + 30 * instance.plan.durationMonths))
            && (instance.plan.durationMonths == 0 ==> r.endDate == instance.endDate)
  {
  }

  /** Becoming cancelled keeps both dates; becoming expired keeps the start
      and ends today. */
  lemma CancelExpireDates(instance: Subscription, stored: Subscription, today: int)
    requires !Unsaved(instance)
    ensures instance.status == Cancelled && stored.status != Cancelled ==>
              UpdateSubscriptionDates(instance, Some(stored), today) == instance
    ensures instance.status == Expired && stored.status != Expired ==>
              var r := UpdateSubscriptionDates(instance, Some(stored), today);
              r.startDate == instance.startDate && r.endDate == Some(today)
  {
  }

  /** Saving twice in a row changes nothing the second time: once the stored
      copy carries the new status, the handler is the identity. */
  lemma UpdateDatesSettles(instance: Subscription, stored: Option<Subscription>, today: int, later: int)
    ensures var once := UpdateSubscriptionDates(instance, stored, today);
            UpdateSubscriptionDates(once, Some(once), later) == once
  {
  }

  /** `update_subscription_on_transaction_completion` (post-save of a
      transaction).  When a transaction that was not just created is saved
      as completed and pays for a subscription, a pending, expired or
      cancelled subscription becomes active, starting today and ending
      thirty days per plan month later (the end is kept for a plan without
      duration).  The result is the subscription as the handler leaves it;
      `None` when the transaction pays for none. */
  function OnTransactionSaved(tx: Transaction, created: bool, today: int): (r: Option<Subscription>)
    ensures r == tx.subscription
            || (&& !created && tx.status == Completed && tx.subscription.Some?
                && tx.subscription.value.status != Active)
    ensures r.None? <==> tx.subscription.None?
    ensures r.Some? && tx.subscription.value.status == Active ==> r == tx.subscription
  {
    if !created && tx.status == Completed && tx.subscription.Some? then
      var s := tx.subscription.value;
      if s.status in {Pending, Expired, Cancelled} then
        Some(s.(status := Active, startDate := Some(today), endDate := PlanEnd(s, today)))
      else tx.subscription
    else tx.subscription
  }

  /** A completed payment activates its subscription from today. */
  lemma CompletionActivates(tx: Transaction, today: int)
    requires tx.status == Completed && tx.subscription.Some?
    requires tx.subscription.value.status != Active
    ensures var r := OnTransactionSaved(tx, false, today).value;
            var s := tx.subscription.value;
            && r.status == Active && r.startDate == Some(today)
            && r.endDate == (if s.plan.durationMonths > 0 then Some(today + 30 * s.plan.durationMonths) else s.endDate)
            && r == s.(status := Active, startDate := r.startDate, endDate := r.endDate)
  {
  }

  /** `apply_referral_bonus` (post-save of a bonus).  A newly created,
      unapplied bonus for an active subscription with an end date pushes
      that end date back by thirty days per bonus month and is marked
      applied.  The result is the bonus and its subscription as the handler
      leaves them. */
  function OnReferralBonusSaved(bonus: ReferralBonus, created: bool): (r: ReferralBonus)
    ensures r.referrer == bonus.referrer && r.referral == bonus.referral && r.bonusMonths == bonus.bonusMonths
    ensures r.isApplied <==> bonus.isApplied || (r != bonus)
    ensures r.subscription.Some? <==> bonus.subscription.Some?
  {
    if created && bonus.subscription.Some? && !bonus.isApplied then
      var s := bonus.subscription.value;
      if s.status == Active && s.endDate.Some? then
        bonus.(subscription := Some(s.(endDate := Some(s.endDate.value + MonthsToDays(bonus.bonusMonths)))),
               isApplied := true)
      else bonus
    else bonus
  }

  /** The bonus is applied exactly when it is new, unapplied, and its
      subscription is active with an end date; then only the end date moves,
      by thirty days per bonus month.  Otherwise nothing changes. */
  lemma BonusApplication(bonus: ReferralBonus, created: bool)
    ensures var r := OnReferralBonusSaved(bonus, created);
            var applies := && created && !bonus.isApplied && bonus.subscription.Some?
                           && bonus.subscription.value.status == Active
                           && bonus.subscription.value.endDate.Some?;
            && (applies ==>
                  (&& r.isApplied
                   && r.subscription.value == bonus.subscription.value.(
                        endDate := Some(bonus.subscription.value.endDate.value + 30 * bonus.bonusMonths))))
            && (!applies ==> r == bonus)
  {
  }

  /** A bonus with the default of six months extends the end by 180 days. */
  lemma DefaultBonusExtends(referrer: nat, referral: nat, s: Subscription)
    requires s.status == Active && s.endDate.Some?
    ensures var r := OnReferralBonusSaved(NewReferralBonus(referrer, referral, Some(s), None), true);
            r.isApplied && r.subscription.value.endDate == Some(s.endDate.value + 180)
  {
  }
}
