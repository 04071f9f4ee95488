/** The two object-level access rules of drive/permissions.py.  Both are pure:
    they read the object's owner and, for files, the Permission table, and
    nothing else: in particular no Sharing row is ever consulted. */
module Permissions {
  import opened Wrappers
  import opened Models

  datatype HttpMethod = GET | HEAD | OPTIONS | POST | PUT | PATCH | DELETE

  /** The framework's SAFE_METHODS. */
  predicate IsSafe(m: HttpMethod)
  {
    m == GET || m == HEAD || m == OPTIONS
  }

  /** `Permission.objects.filter(file=..., user=..., permission__in=kinds).exists()`. */
  predicate HasGrant(perms: map<PermissionId, Permission>, file: FileId, user: UserId, kinds: set<PermissionKind>)
  {
    exists p :: p in perms && perms[p].file == file && perms[p].user == user && perms[p].kind in kinds
  }

  /** IsOwnerOrReadOnly.has_object_permission: anyone may use a safe method,
      only the owner anything else. */
  function IsOwnerOrReadOnly(m: HttpMethod, requester: UserId, owner: UserId): (allowed: bool)
    ensures IsSafe(m) ==> allowed
    ensures !IsSafe(m) ==> (allowed <==> requester == owner)
  {
    if IsSafe(m) then true else owner == requester
  }

  /** IsOwnerOrCheckPermission.has_object_permission.  The Python method ends
      without a return for every case its three tests miss; that `None` is
      falsy and the framework denies, so the model answers false there. */
  function IsOwnerOrCheckPermission(m: HttpMethod, requester: UserId, file: FileId, owner: UserId,
                                    perms: map<PermissionId, Permission>): (allowed: bool)
    ensures requester == owner ==> allowed
    ensures requester != owner && IsSafe(m) ==> (allowed <==> HasGrant(perms, file, requester, {Read, Change}))
    ensures requester != owner && m == PUT ==> (allowed <==> HasGrant(perms, file, requester, {Change}))
    ensures requester != owner && !IsSafe(m) && m != PUT ==> !allowed
  {
    if owner == requester then true
    else if IsSafe(m) && HasGrant(perms, file, requester, {Read, Change}) then true
    else if m == PUT && HasGrant(perms, file, requester, {Change}) then true
    else false
  }

  /** The kind of the grant for (file, user), if there is one. */
  ghost function GrantOf(perms: map<PermissionId, Permission>, file: FileId, user: UserId): Option<PermissionKind>
  {
    if exists p :: p in perms && perms[p].file == file && perms[p].user == user then
      var p :| p in perms && perms[p].file == file && perms[p].user == user;
      Some(perms[p].kind)
    else
      None
  }

  /** The access table of the file rules, written per grant rather than per query:
      the owner may do anything, a read grant allows the safe methods, a change
      grant the safe methods and PUT, and nothing else is allowed. */
  function GrantTable(m: HttpMethod, isOwner: bool, grant: Option<PermissionKind>): bool
  {
    if isOwner then true
    else match grant
      case None => false
      case Some(Read) => IsSafe(m)
      case Some(Change) => IsSafe(m) || m == PUT
  }

  /** With at most one grant per (file, user), the `exists()` query asks
      whether the pair's one grant has one of the wanted kinds. */
  lemma {:induction false} HasGrantMatchesGrantOf(perms: map<PermissionId, Permission>, file: FileId, user: UserId,
                                                  kinds: set<PermissionKind>)
    requires UniqueGrants(perms)
    ensures HasGrant(perms, file, user, kinds) <==>
              GrantOf(perms, file, user).Some? && GrantOf(perms, file, user).value in kinds
  {
    if HasGrant(perms, file, user, kinds) {
      var q :| q in perms && perms[q].file == file && perms[q].user == user && perms[q].kind in kinds;
      var p :| p in perms && perms[p].file == file && perms[p].user == user
               && GrantOf(perms, file, user) == Some(perms[p].kind);
      assert q == p;
    }
  }

  /** With at most one grant per (file, user), the predicate's two queries agree
      with the table above. */
  lemma {:induction false} CheckPermissionMatchesGrantTable(m: HttpMethod, requester: UserId, file: FileId,
                                                            owner: UserId, perms: map<PermissionId, Permission>)
    requires UniqueGrants(perms)
    ensures IsOwnerOrCheckPermission(m, requester, file, owner, perms)
            == GrantTable(m, requester == owner, GrantOf(perms, file, requester))
  {
    HasGrantMatchesGrantOf(perms, file, requester, {Read, Change});
    HasGrantMatchesGrantOf(perms, file, requester, {Change});
  }

  /** A requester who is neither the owner nor holds any grant is refused every method. */
  lemma NoGrantNoAccess(m: HttpMethod, requester: UserId, file: FileId, owner: UserId,
                        perms: map<PermissionId, Permission>)
    requires requester != owner
    requires forall p :: p in perms && perms[p].file == file ==> perms[p].user != requester
    ensures !IsOwnerOrCheckPermission(m, requester, file, owner, perms)
  {
  }

  /** A read grant alone never allows PUT. */
  lemma ReadGrantNeverAllowsPut(requester: UserId, file: FileId, owner: UserId,
                                perms: map<PermissionId, Permission>)
    requires requester != owner
    requires forall p :: p in perms && perms[p].file == file && perms[p].user == requester ==> perms[p].kind == Read
    ensures !IsOwnerOrCheckPermission(PUT, requester, file, owner, perms)
  {
  }

  /** Only the owner of a file may DELETE it, whatever grants exist. */
  lemma OnlyOwnerMayDelete(requester: UserId, file: FileId, owner: UserId, perms: map<PermissionId, Permission>)
    requires IsOwnerOrCheckPermission(DELETE, requester, file, owner, perms)
    ensures requester == owner
  {
  }

  /** Adding grant rows never turns an allow into a deny. */
  lemma {:induction false} GrantsOnlyWiden(m: HttpMethod, requester: UserId, file: FileId, owner: UserId,
                                           perms: map<PermissionId, Permission>, more: map<PermissionId, Permission>)
    requires forall p :: p in perms ==> p in more && more[p] == perms[p]
    requires IsOwnerOrCheckPermission(m, requester, file, owner, perms)
    ensures IsOwnerOrCheckPermission(m, requester, file, owner, more)
  {
    if requester != owner {
      var kinds: set<PermissionKind> := if IsSafe(m) then {Read, Change} else {Change};
      var p :| p in perms && perms[p].file == file && perms[p].user == requester && perms[p].kind in kinds;
      assert more[p] == perms[p];
    }
  }
}
