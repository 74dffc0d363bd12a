/** Crediting a referral when an account registers
    (users/signals.py, `check_referral_on_registration`). */
module Referrals {
  import opened Collections
  import opened Users

  /** A referral: who referred, whom it was used by (if anyone yet), its
      code and whether it has succeeded.  The code column is never null. */
  datatype Referral = Referral(id: nat, referrer: nat, referred: Option<nat>, code: string, isSuccessful: bool)

  /** A referral still waiting for someone to use it: not successful and
      not yet used. */
  predicate Open(r: Referral)
  {
    !r.isSuccessful && r.referred.None?
  }

  /** The first open referral, in the order the database lists them. */
  function FirstOpen(refs: seq<Referral>): (r: Option<nat>)
    ensures r.Some? ==> r.value < |refs| && Open(refs[r.value])
    ensures r.Some? ==> forall j :: 0 <= j < r.value ==> !Open(refs[j])
    ensures r.None? ==> forall j :: 0 <= j < |refs| ==> !Open(refs[j])
    decreases |refs|
  {
    if |refs| == 0 then None
    else if Open(refs[0]) then Some(0)
    else
      var r := FirstOpen(refs[1..]);
      assert forall j :: 1 <= j < |refs| ==> refs[j] == refs[1..][j - 1];
      if r.Some? then Some(r.value + 1) else None
  }

  /** `check_referral_on_registration`: when a new account with a non-empty
      e-mail address is saved, the first open referral is credited to it
      (used by the account and successful); every other referral stays as
      it was.  Nothing happens for an existing account or an empty
      address. */
  function CheckReferralOnRegistration(account: Account, created: bool, refs: seq<Referral>): (r: seq<Referral>)
    ensures |r| == |refs|
    ensures !created || |account.email| == 0 ==> r == refs
  {
    if created && |account.email| > 0 then
      match FirstOpen(refs)
      case None => refs
      case Some(i) => refs[i := refs[i].(referred := Some(account.id), isSuccessful := true)]
    else refs
  }

  /** At most one referral changes.  If one does, it is the first open one,
      and it now records the new account as referred and is successful;
      any other field is kept.  If none is open, nothing changes. */
  lemma CreditsFirstOpen(account: Account, refs: seq<Referral>)
    requires |account.email| > 0
    ensures var r := CheckReferralOnRegistration(account, true, refs);
            && (forall i, j :: 0 <= i < j < |refs| && r[i] != refs[i] ==> r[j] == refs[j])
            && (forall i :: 0 <= i < |refs| && r[i] != refs[i] ==>
                  && Open(refs[i]) && (forall j :: 0 <= j < i ==> !Open(refs[j]))
                  && r[i] == refs[i].(referred := Some(account.id), isSuccessful := true))
            && ((forall j :: 0 <= j < |refs| ==> !Open(refs[j])) ==> r == refs)
            && ((exists j :: 0 <= j < |refs| && Open(refs[j])) ==> r != refs)
  {
    var r := CheckReferralOnRegistration(account, true, refs);
    match FirstOpen(refs)
    case None =>
    case Some(k) =>
      assert r[k] != refs[k];
  }

  /** Which referral is credited does not depend on the address itself,
      only on it being non-empty. */
  lemma IndependentOfEmail(a: Account, b: Account, refs: seq<Referral>)
    requires a.id == b.id && |a.email| > 0 && |b.email| > 0
    ensures CheckReferralOnRegistration(a, true, refs) == CheckReferralOnRegistration(b, true, refs)
  {
  }

  /** Registering credits at most one referral: the number of open
      referrals drops by one when some was open and stays the same
      otherwise. */
  lemma OneReferralPerRegistration(account: Account, created: bool, refs: seq<Referral>)
    ensures var r := CheckReferralOnRegistration(account, created, refs);
            && OpenCount(r) <= OpenCount(refs) <= OpenCount(r) + 1
  {
    var r := CheckReferralOnRegistration(account, created, refs);
    if created && |account.email| > 0 {
      match FirstOpen(refs)
      case None =>
      case Some(k) =>
        OpenCountUpdate(refs, k, r[k]);
    }
  }

  /** Number of open referrals. */
  function OpenCount(refs: seq<Referral>): nat
    decreases |refs|
  {
    if |refs| == 0 then 0 else (if Open(refs[0]) then 1 else 0) + OpenCount(refs[1..])
  }

  /** Replacing an open referral by a closed one lowers the count by one. */
  lemma {:induction false} OpenCountUpdate(refs: seq<Referral>, k: nat, x: Referral)
    requires k < |refs| && Open(refs[k]) && !Open(x)
    ensures OpenCount(refs[k := x]) + 1 == OpenCount(refs)
    decreases |refs|
  {
    if k > 0 {
      assert refs[k := x][1..] == refs[1..][k - 1 := x];
      OpenCountUpdate(refs[1..], k - 1, x);
    } else {
      assert refs[k := x][1..] == refs[1..];
    }
  }
}
