/** Subscription plans, subscriptions, payment transactions and referral
    bonuses (subscriptions/models.py): the status and payment-method choices
    with their stored codes, and the defaults a new record gets.  Dates are
    whole day numbers. */
module SubscriptionModels {
  import opened Collections

  /** `Subscription.STATUS_CHOICES`. */
  datatype SubStatus = Active | Expired | Cancelled | Pending

  /** `Transaction.STATUS_CHOICES`. */
  datatype TxStatus = TxPending | Completed | Failed | Refunded

  /** `Transaction.PAYMENT_METHOD_CHOICES`. */
  datatype PaymentMethod = CreditCard | DebitCard | Upi | NetBanking | Wallet

  /** The code stored for a subscription status. */
  function SubStatusCode(s: SubStatus): (code: string)
    ensures 0 < |code| <= 20
  {
    match s
    case Active => "active"
    case Expired => "expired"
    case Cancelled => "cancelled"
    case Pending => "pending"
  }

  /** The status a stored code stands for; anything else is not a valid
      choice. */
  function ParseSubStatus(code: string): (r: Option<SubStatus>)
    ensures r.Some? ==> SubStatusCode(r.value) == code
  {
    if code == "active" then Some(Active)
    else if code == "expired" then Some(Expired)
    else if code == "cancelled" then Some(Cancelled)
    else if code == "pending" then Some(Pending)
    else None
  }

  /** Codes and statuses correspond one to one. */
  lemma SubStatusCodes(s: SubStatus, code: string)
    ensures ParseSubStatus(SubStatusCode(s)) == Some(s)
    ensures ParseSubStatus(code) == Some(s) <==> SubStatusCode(s) == code
  {
  }

  /** The code stored for a transaction status. */
  function TxStatusCode(s: TxStatus): (code: string)
    ensures 0 < |code| <= 20
  {
    match s
    case TxPending => "pending"
    case Completed => "completed"
    case Failed => "failed"
    case Refunded => "refunded"
  }

  function ParseTxStatus(code: string): (r: Option<TxStatus>)
    ensures r.Some? ==> TxStatusCode(r.value) == code
  {
    if code == "pending" then Some(TxPending)
    else if code == "completed" then Some(Completed)
    else if code == "failed" then Some(Failed)
    else if code == "refunded" then Some(Refunded)
    else None
  }

  lemma TxStatusCodes(s: TxStatus, code: string)
    ensures ParseTxStatus(TxStatusCode(s)) == Some(s)
    ensures ParseTxStatus(code) == Some(s) <==> TxStatusCode(s) == code
  {
  }

  /** The code stored for a payment method. */
  function PaymentMethodCode(m: PaymentMethod): (code: string)
    ensures 0 < |code| <= 20
  {
    match m
    case CreditCard => "credit_card"
    case DebitCard => "debit_card"
    case Upi => "upi"
    case NetBanking => "net_banking"
    case Wallet => "wallet"
  }

  function ParsePaymentMethod(code: string): (r: Option<PaymentMethod>)
    ensures r.Some? ==> PaymentMethodCode(r.value) == code
  {
    if code == "credit_card" then Some(CreditCard)
    else if code == "debit_card" then Some(DebitCard)
    else if code == "upi" then Some(Upi)
    else if code == "net_banking" then Some(NetBanking)
    else if code == "wallet" then Some(Wallet)
    else None
  }

  lemma PaymentMethodCodes(m: PaymentMethod, code: string)
    ensures ParsePaymentMethod(PaymentMethodCode(m)) == Some(m)
    ensures ParsePaymentMethod(code) == Some(m) <==> PaymentMethodCode(m) == code
  {
  }

  /** A subscription plan.  The duration is a non-negative number of
      months; zero is allowed. */
  datatype Plan = Plan(id: nat, name: string, durationMonths: nat, isActive: bool)

  /** A subscription.  `pk` is the primary key, missing until the record is
      first saved; the plan is always present. */
  datatype Subscription = Subscription(
    pk: Option<nat>, user: nat, plan: Plan, status: SubStatus,
    startDate: Option<int>, endDate: Option<int>, isAutoRenew: bool, createdAt: int)

  /** A payment transaction, with the subscription it pays for, if any. */
  datatype Transaction = Transaction(
    id: nat, user: nat, subscription: Option<Subscription>, currency: string,
    paymentMethod: PaymentMethod, status: TxStatus)

  /** A bonus granted to a referrer, to be added to a subscription. */
  datatype ReferralBonus = ReferralBonus(
    referrer: nat, referral: nat, subscription: Option<Subscription>, bonusMonths: nat, isApplied: bool)

  /** A subscription as first created: pending, without dates, not yet
      saved, and not renewing automatically unless asked to. */
  function NewSubscription(user: nat, plan: Plan, isAutoRenew: Option<bool>, createdAt: int): (s: Subscription)
    ensures s.status == Pending && s.startDate.None? && s.endDate.None? && s.pk.None?
    ensures s.user == user && s.plan == plan && s.createdAt == createdAt
    ensures s.isAutoRenew == (if isAutoRenew.Some? then isAutoRenew.value else false)
  {
    Subscription(None, user, plan, Pending, None, None,
                 if isAutoRenew.Some? then isAutoRenew.value else false, createdAt)
  }

  /** A transaction as first created: pending, in rupees unless another
      currency is given. */
  function NewTransaction(id: nat, user: nat, subscription: Option<Subscription>, currency: Option<string>,
                          paymentMethod: PaymentMethod): (t: Transaction)
    ensures t.status == TxPending
    ensures t.currency == (if currency.Some? then currency.value else "INR")
    ensures t.subscription == subscription && t.paymentMethod == paymentMethod
  {
    Transaction(id, user, subscription, if currency.Some? then currency.value else "INR", paymentMethod, TxPending)
  }

  /** A referral bonus as first created: six months unless given, not yet
      applied. */
  function NewReferralBonus(referrer: nat, referral: nat, subscription: Option<Subscription>,
                            bonusMonths: Option<nat>): (b: ReferralBonus)
    ensures !b.isApplied
    ensures b.bonusMonths == (if bonusMonths.Some? then bonusMonths.value else 6)
    ensures b.subscription == subscription
  {
    ReferralBonus(referrer, referral, subscription, if bonusMonths.Some? then bonusMonths.value else 6, false)
  }

  /** `timedelta(days=30 * months)`: a month counts as thirty days. */
  function MonthsToDays(months: nat): (days: nat)
    ensures days % 30 == 0 && days / 30 == months
  {
    30 * months
  }
}
