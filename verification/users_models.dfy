/** Users and their subscription standing (users/models.py): the role
    choice, `is_subscribed`, `current_subscription` and
    `get_subscription_status`.  A user's subscriptions are given as the
    sequence the database returns, newest first. */
module Users {
  import opened Collections
  import opened SubscriptionModels

  /** `User.ROLE_CHOICES`. */
  datatype Role = Admin | User

  /** The role a new account gets. */
  const DefaultRole: Role := User

  function RoleCode(r: Role): (code: string)
    ensures 0 < |code| <= 10
  {
    match r
    case Admin => "admin"
    case User => "user"
  }

  function ParseRole(code: string): (r: Option<Role>)
    ensures r.Some? ==> RoleCode(r.value) == code
  {
    if code == "admin" then Some(Admin)
    else if code == "user" then Some(User)
    else None
  }

  /** Codes and roles correspond one to one. */
  lemma RoleCodes(r: Role, code: string)
    ensures ParseRole(RoleCode(r)) == Some(r)
    ensures ParseRole(code) == Some(r) <==> RoleCode(r) == code
  {
  }

  /** An account: its key, e-mail address and role. */
  datatype Account = Account(id: nat, email: string, role: Role)

  /** A subscription that counts today: active, with an end date that is
      not yet past.  A missing end date never counts (`end_date >= today`
      is false for a null column). */
  predicate Counts(s: Subscription, today: int)
  {
    s.status == Active && s.endDate.Some? && s.endDate.value >= today
  }

  /** `is_subscribed`: some subscription counts today. */
  predicate IsSubscribed(subs: seq<Subscription>, today: int)
  {
    exists i :: 0 <= i < |subs| && Counts(subs[i], today)
  }

  /** `current_subscription`: the first subscription, in the order given,
      that counts today; `None` exactly when the user is not subscribed. */
  function CurrentSubscription(subs: seq<Subscription>, today: int): (r: Option<Subscription>)
    ensures r.None? <==> !IsSubscribed(subs, today)
    ensures r.Some? ==> Counts(r.value, today) && r.value in subs
    ensures r.Some? ==> exists i :: (&& 0 <= i < |subs| && subs[i] == r.value
                                     && forall j :: 0 <= j < i ==> !Counts(subs[j], today))
    decreases |subs|
  {
    if |subs| == 0 then None
    else if Counts(subs[0], today) then Some(subs[0])
    else
      var r := CurrentSubscription(subs[1..], today);
      assert IsSubscribed(subs, today) ==> IsSubscribed(subs[1..], today) by {
        if IsSubscribed(subs, today) {
          var i :| 0 <= i < |subs| && Counts(subs[i], today);
          assert subs[1..][i - 1] == subs[i];
        }
      }
      assert r.Some? ==> exists i :: (&& 0 <= i < |subs| && subs[i] == r.value
                                      && forall j :: 0 <= j < i ==> !Counts(subs[j], today)) by {
        if r.Some? {
          var i :| && 0 <= i < |subs[1..]| && subs[1..][i] == r.value
                   && forall j :: 0 <= j < i ==> !Counts(subs[1..][j], today);
          assert subs[i + 1] == r.value;
          assert forall j :: 1 <= j < i + 1 ==> subs[j] == subs[1..][j - 1];
        }
      }
      r
  }

  /** Newest first: creation times never increase along the sequence. */
  predicate NewestFirst(subs: seq<Subscription>)
  {
    forall i, j :: 0 <= i < j < |subs| ==> subs[i].createdAt >= subs[j].createdAt
  }

  /** With the subscriptions newest first, the current subscription is the
      most recently created one that counts. */
  lemma CurrentIsNewest(subs: seq<Subscription>, today: int)
    requires NewestFirst(subs)
    requires IsSubscribed(subs, today)
    ensures forall s | s in subs && Counts(s, today) :: s.createdAt <= CurrentSubscription(subs, today).value.createdAt
  {
    var c := CurrentSubscription(subs, today).value;
    var i :| && 0 <= i < |subs| && subs[i] == c
             && forall j :: 0 <= j < i ==> !Counts(subs[j], today);
    forall s | s in subs && Counts(s, today)
      ensures s.createdAt <= c.createdAt
    {
      var k :| 0 <= k < |subs| && subs[k] == s;
      assert i <= k;
      if i < k {
        assert subs[i].createdAt >= subs[k].createdAt;
      }
    }
  }

  /** A subscription as first created never counts. */
  lemma NewSubscriptionDoesNotCount(user: nat, plan: Plan, isAutoRenew: Option<bool>, createdAt: int, today: int)
    ensures !Counts(NewSubscription(user, plan, isAutoRenew, createdAt), today)
  {
  }

  /** The dictionary `get_subscription_status` returns. */
  datatype SubscriptionStatus = SubscriptionStatus(
    isSubscribed: bool, subscriptionId: Option<nat>, planName: Option<string>, status: Option<SubStatus>,
    startDate: Option<int>, endDate: Option<int>, daysRemaining: int, isAutoRenew: bool)

  /** `get_subscription_status`: the current subscription's details and the
      days left until its end, or the empty status when there is none. */
  function GetSubscriptionStatus(subs: seq<Subscription>, today: int): (r: SubscriptionStatus)
    ensures r.isSubscribed == IsSubscribed(subs, today)
    ensures r.daysRemaining >= 0
    ensures !r.isSubscribed ==> r == SubscriptionStatus(false, None, None, None, None, None, 0, false)
    ensures r.isSubscribed ==> r.status == Some(Active) && r.endDate.Some?
                               && r.daysRemaining == r.endDate.value - today
  {
    match CurrentSubscription(subs, today)
    case None => SubscriptionStatus(false, None, None, None, None, None, 0, false)
    case Some(s) =>
      SubscriptionStatus(true, s.pk, Some(s.plan.name), Some(s.status), s.startDate, s.endDate,
                         if s.endDate.Some? then s.endDate.value - today else 0, s.isAutoRenew)
  }

  /** The status describes the current subscription. */
  lemma StatusDescribesCurrent(subs: seq<Subscription>, today: int)
    requires IsSubscribed(subs, today)
    ensures var c := CurrentSubscription(subs, today).value;
            var r := GetSubscriptionStatus(subs, today);
            && r.subscriptionId == c.pk && r.planName == Some(c.plan.name)
            && r.startDate == c.startDate && r.endDate == c.endDate && r.isAutoRenew == c.isAutoRenew
  {
  }
}
