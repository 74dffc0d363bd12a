/** The two permission classes of users/permissions.py.  Evaluating them
    for an anonymous requester can fail: the anonymous user has no role, so
    reading it raises. */
module Permissions {
  import opened Collections
  import opened Users

  /** Who makes the request: nobody, the anonymous user (which is a truthy
      object but not authenticated), or a signed-in account. */
  datatype Principal = NoUser | Anonymous | Member(account: Account)

  /** Reading `role` on a requester that has none. */
  datatype PermissionError = NoRoleAttribute

  /** The object a permission is checked against.  `user` is present when
      the object has a `user` attribute, and holds the key it refers to (or
      `None` for an empty link); `account` is present when the object is
      itself an account, and holds that account's key. */
  datatype Target = Target(user: Option<Option<nat>>, account: Option<nat>)

  /** `IsAdminUser.has_permission`: granted exactly to admins; nobody at all
      is refused, and the anonymous user makes the role lookup fail. */
  function IsAdminUser(p: Principal): (r: Result<bool, PermissionError>)
    ensures r.Err? <==> p.Anonymous?
    ensures r == Ok(true) <==> p.Member? && p.account.role == Admin
  {
    match p
    case NoUser => Ok(false)
    case Anonymous => Err(NoRoleAttribute)
    case Member(a) => Ok(a.role == Admin)
  }

  /** `IsOwnerOrAdmin.has_permission`: granted exactly to signed-in
      accounts. */
  function IsOwnerOrAdminView(p: Principal): (r: bool)
    ensures r <==> p.Member?
  {
    match p
    case Member(_) => true
    case _ => false
  }

  /** `IsOwnerOrAdmin.has_object_permission`.  Admins may act on anything.
      Otherwise an object with a `user` link is allowed exactly when it
      links to the requester, an account object exactly when it is the
      requester, and anything else is refused.  The link is checked before
      the account test. */
  function IsOwnerOrAdminObject(p: Principal, obj: Target): (r: Result<bool, PermissionError>)
    ensures r.Err? <==> !p.Member?
    ensures p.Member? && p.account.role == Admin ==> r == Ok(true)
    ensures p.Member? && p.account.role != Admin && obj.user.Some? ==>
              r == Ok(obj.user.value == Some(p.account.id))
    ensures p.Member? && p.account.role != Admin && obj.user.None? && obj.account.Some? ==>
              r == Ok(obj.account.value == p.account.id)
    ensures p.Member? && p.account.role != Admin && obj.user.None? && obj.account.None? ==> r == Ok(false)
  {
    match p
    case Member(a) =>
      if a.role == Admin then Ok(true)
      else if obj.user.Some? then Ok(obj.user.value == Some(a.id))
      else if obj.account.Some? then Ok(obj.account.value == a.id)
      else Ok(false)
    case _ => Err(NoRoleAttribute)
  }

  /** A non-admin is allowed on an object only if it is linked to them or
      is their own account; an object linked to nobody is refused. */
  lemma NonAdminNeedsOwnership(p: Principal, obj: Target)
    requires p.Member? && p.account.role == User
    ensures IsOwnerOrAdminObject(p, obj) == Ok(true) ==>
              obj.user == Some(Some(p.account.id)) || (obj.user.None? && obj.account == Some(p.account.id))
    ensures obj.user == Some(None) ==> IsOwnerOrAdminObject(p, obj) == Ok(false)
  {
  }

  /** Every request the object check grants for a non-admin has passed the
      view check, and the admin check grants nothing the object check
      refuses. */
  lemma AdminImpliesObjectAccess(p: Principal, obj: Target)
    ensures IsAdminUser(p) == Ok(true) ==> IsOwnerOrAdminView(p) && IsOwnerOrAdminObject(p, obj) == Ok(true)
    ensures IsOwnerOrAdminObject(p, obj).Ok? <==> IsOwnerOrAdminView(p)
  {
  }
}
