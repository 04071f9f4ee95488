/** The request handlers of drive/views.py as operations on the store.  Every
    handler runs the framework's fixed order as explicit branches: refuse an
    anonymous requester (401), load the object (404), check the object
    permission (403), validate the body (400), and only then write and answer
    200, 201 or 204.  The requester is the already-resolved user of the
    request's token, or None when there is none. */
module Views {
  import opened Wrappers
  import opened Models
  import opened Permissions
  import opened Serializers
  import opened Store

  /** The response statuses the handlers give: 200, 201, 204, 400, 401, 403 and 404. */
  datatype Status = Ok | Created | NoContent | BadRequest | Unauthorized | Forbidden | NotFound

  /** A token resolves only to an existing account. */
  ghost predicate Resolved(db: Db, requester: Option<UserId>)
  {
    requester.Some? ==> requester.value in db.users
  }

  /** What a by-id file handler answers before doing its own work:
      401 for an anonymous request, then 404 for an unknown id (before any
      permission check), then 403 when IsOwnerOrCheckPermission refuses;
      None means the handler proceeds. */
  function FileGate(db: Db, requester: Option<UserId>, m: HttpMethod, fileId: FileId): (r: Option<Status>)
    ensures r.None? <==> requester.Some? && fileId in db.files
                         && IsOwnerOrCheckPermission(m, requester.value, fileId, db.files[fileId].owner, db.permissions)
    ensures requester.None? ==> r == Some(Unauthorized)
    ensures requester.Some? && fileId !in db.files ==> r == Some(NotFound)
    ensures requester.Some? && fileId in db.files && r.Some? ==> r == Some(Forbidden)
  {
    if requester.None? then Some(Unauthorized)
    else if fileId !in db.files then Some(NotFound)
    else if !IsOwnerOrCheckPermission(m, requester.value, fileId, db.files[fileId].owner, db.permissions) then Some(Forbidden)
    else None
  }

  /** The same steps for a by-id group handler, whose object rule is IsOwnerOrReadOnly. */
  function GroupGate(db: Db, requester: Option<UserId>, m: HttpMethod, groupId: GroupId): (r: Option<Status>)
    ensures r.None? <==> requester.Some? && groupId in db.groups
                         && IsOwnerOrReadOnly(m, requester.value, db.groups[groupId].owner)
    ensures requester.None? ==> r == Some(Unauthorized)
    ensures requester.Some? && groupId !in db.groups ==> r == Some(NotFound)
    ensures requester.Some? && groupId in db.groups && r.Some? ==> r == Some(Forbidden)
  {
    if requester.None? then Some(Unauthorized)
    else if groupId !in db.groups then Some(NotFound)
    else if !IsOwnerOrReadOnly(m, requester.value, db.groups[groupId].owner) then Some(Forbidden)
    else None
  }

  /** Sharing rows only ever change the sharings table, and the file gate never
      reads it: a share cannot change any later access decision. */
  lemma SharingsConferNoAccess(db: Db, sharings: map<SharingId, Sharing>, requester: Option<UserId>,
                               m: HttpMethod, fileId: FileId)
    ensures FileGate(db.(sharings := sharings), requester, m, fileId) == FileGate(db, requester, m, fileId)
  {
  }

  /** `User.objects.filter(id__in=ids)`: the distinct existing users named in
      `ids`, each once (here in order of first mention). */
  function Recipients(ids: seq<int>, users: set<UserId>): (r: seq<UserId>)
    ensures forall u :: u in r <==> u in ids && u in users
    ensures forall i, j :: 0 <= i < j < |r| ==> r[i] != r[j]
    decreases |ids|
  {
    if ids == [] then []
    else
      var rest := Recipients(ids[..|ids| - 1], users);
      var last := ids[|ids| - 1];
      assert ids == ids[..|ids| - 1] + [last];
      if last >= 0 && last in users && last !in rest then rest + [last as UserId] else rest
  }

  /** The list comprehension of FileShareAPIView.post: one unsaved Sharing per recipient. */
  function ShareRows(file: FileId, sharer: UserId, recipients: seq<UserId>): seq<Sharing>
  {
    seq(|recipients|, i requires 0 <= i < |recipients| => Sharing(file, recipients[i], sharer))
  }

  /** What one share adds to the sharings table: exactly one row per distinct
      existing user named in `ids`, each for this file and made by the
      requester; every row already there stays. */
  lemma {:induction false} ShareAddsOneRowPerRecipient(table: map<SharingId, Sharing>, next: nat, file: FileId,
                                                       sharer: UserId, ids: seq<int>, users: set<UserId>)
    requires forall k :: k in table ==> k < next
    ensures var r := Appended(table, next, ShareRows(file, sharer, Recipients(ids, users)));
            && (forall k :: k in table ==> k in r && r[k] == table[k])
            && (forall k :: k in r && k !in table ==>
                  r[k].sharedFile == file && r[k].sharedBy == sharer && r[k].sharedWith in users && r[k].sharedWith in ids)
            && (forall u :: u in users && u in ids ==> exists k :: k in r && k !in table && r[k].sharedWith == u)
            && (forall k1, k2 :: (k1 in r && k2 in r && k1 !in table && k2 !in table
                                  && r[k1].sharedWith == r[k2].sharedWith) ==> k1 == k2)
  {
    var recipients := Recipients(ids, users);
    var rows := ShareRows(file, sharer, recipients);
    var r := Appended(table, next, rows);
    forall k | k in r && k !in table
      ensures r[k].sharedFile == file && r[k].sharedBy == sharer && r[k].sharedWith in users && r[k].sharedWith in ids
    {
      assert r[next + (k - next)] == rows[k - next];
      assert recipients[k - next] in recipients;
    }
    forall u | u in users && u in ids
      ensures exists k :: k in r && k !in table && r[k].sharedWith == u
    {
      assert u in recipients;
      var i :| 0 <= i < |recipients| && recipients[i] == u;
      assert r[next + i] == rows[i];
    }
    forall k1, k2 | k1 in r && k2 in r && k1 !in table && k2 !in table && r[k1].sharedWith == r[k2].sharedWith
      ensures k1 == k2
    {
      assert r[next + (k1 - next)] == rows[k1 - next];
      assert r[next + (k2 - next)] == rows[k2 - next];
    }
  }

  /** `after` holds at least two new rows, beyond `before`, equal to `row`. */
  ghost predicate TwoNewRows(before: map<SharingId, Sharing>, after: map<SharingId, Sharing>, row: Sharing)
  {
    exists k1, k2 :: k1 in after && k2 in after && k1 != k2 && k1 !in before && k2 !in before
                     && after[k1] == row && after[k2] == row
  }

  /** Sharing has no unique constraint: the same share made twice leaves two
      rows for each recipient `u`. */
  lemma {:induction false} RepeatedShareDuplicates(table: map<SharingId, Sharing>, next: nat, file: FileId,
                                                   sharer: UserId, ids: seq<int>, users: set<UserId>,
                                                   rows: seq<Sharing>, u: UserId)
    requires forall k :: k in table ==> k < next
    requires rows == ShareRows(file, sharer, Recipients(ids, users))
    requires u in users && u in ids
    ensures TwoNewRows(table, Appended(Appended(table, next, rows), next + |rows|, rows), Sharing(file, u, sharer))
  {
    var recipients := Recipients(ids, users);
    var i :| 0 <= i < |recipients| && recipients[i] == u;
    AppendedTwice(table, next, rows, i);
    assert rows[i] == Sharing(file, u, sharer);
  }

  // ---------------------------------------------------------------- files

  /** FileListUploadAPIView.get: exactly the requester's own files; a file that
      was only shared with or granted to the requester is never listed. */
  method ListFiles(drive: Drive, requester: Option<UserId>) returns (status: Status, body: set<FileView>)
    requires drive.Valid() && Resolved(drive.db, requester)
    ensures status == (if requester.None? then Unauthorized else Ok)
    ensures status == Ok ==> forall v :: v in body <==>
              v.id in drive.db.files && drive.db.files[v.id].owner == requester.value
              && v == FileRepresentation(v.id, drive.db.files[v.id])
    ensures status != Ok ==> body == {}
  {
    if requester.None? {
      return Unauthorized, {};
    }
    var files := drive.db.files;
    body := set f | f in files && files[f].owner == requester.value :: FileRepresentation(f, files[f]);
    status := Ok;
  }

  /** FileListUploadAPIView.post: a valid body creates a file owned by the
      requester, whatever owner or id the body names; an invalid one stores nothing. */
  method UploadFile(drive: Drive, requester: Option<UserId>, input: FileInput) returns (status: Status, body: Option<FileView>)
    requires drive.Valid() && Resolved(drive.db, requester)
    modifies drive
    ensures drive.Valid()
    ensures requester.None? ==> status == Unauthorized
    ensures requester.Some? && ValidateFile(input, false).None? ==> status == BadRequest
    ensures requester.Some? && ValidateFile(input, false).Some? ==> status == Created
    ensures status != Created ==> drive.db == old(drive.db) && drive.next == old(drive.next) && body.None?
    ensures status == Created ==>
              var id := old(drive.next.file);
              && id !in old(drive.db.files)
              && drive.db == old(drive.db).(files := old(drive.db.files)[id := File(Trim(input.name.value), input.file.value, requester.value)])
              && drive.next == old(drive.next).(file := id + 1)
              && body == Some(FileRepresentation(id, drive.db.files[id]))
  {
    if requester.None? {
      return Unauthorized, None;
    }
    var changes := ValidateFile(input, false);
    if changes.None? {
      return BadRequest, None;
    }
    var f := File(changes.value.name.value, changes.value.file.value, requester.value);
    var id := drive.InsertFile(f);
    status, body := Created, Some(FileRepresentation(id, f));
  }

  /** FileRetrieveUpdateDeleteAPIView.get. */
  method RetrieveFile(drive: Drive, requester: Option<UserId>, fileId: FileId) returns (status: Status, body: Option<FileView>)
    requires drive.Valid() && Resolved(drive.db, requester)
    ensures var gate := FileGate(drive.db, requester, GET, fileId);
            && (gate.Some? ==> status == gate.value && body.None?)
            && (gate.None? ==> status == Ok && body == Some(FileRepresentation(fileId, drive.db.files[fileId])))
    ensures status == Ok ==> fileId in drive.db.files
                             && (requester.value == drive.db.files[fileId].owner
                                 || HasGrant(drive.db.permissions, fileId, requester.value, {Read, Change}))
  {
    var gate := FileGate(drive.db, requester, GET, fileId);
    if gate.Some? {
      return gate.value, None;
    }
    status, body := Ok, Some(FileRepresentation(fileId, drive.db.files[fileId]));
  }

  /** FileRetrieveUpdateDeleteAPIView.put: a partial update of name and file
      only; owner and id never change. */
  method UpdateFile(drive: Drive, requester: Option<UserId>, fileId: FileId, input: FileInput)
    returns (status: Status, body: Option<FileView>)
    requires drive.Valid() && Resolved(drive.db, requester)
    modifies drive
    ensures drive.Valid()
    ensures var gate := FileGate(old(drive.db), requester, PUT, fileId);
            && (gate.Some? ==> status == gate.value)
            && (gate.None? && ValidateFile(input, true).None? ==> status == BadRequest)
            && (gate.None? && ValidateFile(input, true).Some? ==> status == Ok)
    ensures status != Ok ==> drive.db == old(drive.db) && body.None?
    ensures drive.next == old(drive.next)
    ensures status == Ok ==>
              && fileId in old(drive.db.files)
              && var updated := ApplyFileChanges(old(drive.db.files[fileId]), ValidateFile(input, true).value);
              && drive.db == old(drive.db).(files := old(drive.db.files)[fileId := updated])
              && updated.owner == old(drive.db.files[fileId].owner)
              && body == Some(FileRepresentation(fileId, updated))
    ensures status == Ok ==> requester.value == old(drive.db.files[fileId].owner)
                             || HasGrant(old(drive.db.permissions), fileId, requester.value, {Change})
  {
    var gate := FileGate(drive.db, requester, PUT, fileId);
    if gate.Some? {
      return gate.value, None;
    }
    var changes := ValidateFile(input, true);
    if changes.None? {
      return BadRequest, None;
    }
    var updated := ApplyFileChanges(drive.db.files[fileId], changes.value);
    drive.SaveFile(fileId, updated);
    status, body := Ok, Some(FileRepresentation(fileId, updated));
  }

  /** FileRetrieveUpdateDeleteAPIView.delete: only the owner gets past the gate,
      and the file goes with its cascade. */
  method DestroyFile(drive: Drive, requester: Option<UserId>, fileId: FileId) returns (status: Status)
    requires drive.Valid() && Resolved(drive.db, requester)
    modifies drive
    ensures drive.Valid()
    ensures var gate := FileGate(old(drive.db), requester, DELETE, fileId);
            && (gate.Some? ==> status == gate.value && drive.db == old(drive.db))
            && (gate.None? ==> status == NoContent && drive.db == DeleteFileCascade(old(drive.db), fileId))
    ensures status == NoContent ==> fileId in old(drive.db.files) && requester == Some(old(drive.db.files[fileId].owner))
    ensures drive.next == old(drive.next)
  {
    var gate := FileGate(drive.db, requester, DELETE, fileId);
    if gate.Some? {
      return gate.value;
    }
    OnlyOwnerMayDelete(requester.value, fileId, drive.db.files[fileId].owner, drive.db.permissions);
    drive.DeleteFile(fileId);
    status := NoContent;
  }

  /** FileShareAPIView.post.  The gate runs with POST, which no grant covers, so
      only the owner may share.  One Sharing row is added per distinct existing
      user in `user_ids`; unknown ids are skipped and a repeated share adds
      rows again.  No Permission row is written. */
  method ShareFile(drive: Drive, requester: Option<UserId>, fileId: FileId, userIds: Option<seq<JsonValue>>)
    returns (status: Status)
    requires drive.Valid() && Resolved(drive.db, requester)
    modifies drive
    ensures drive.Valid()
    ensures var gate := FileGate(old(drive.db), requester, POST, fileId);
            && (gate.Some? ==> status == gate.value)
            && (gate.None? && ParseUserIds(userIds).None? ==> status == BadRequest)
            && (gate.None? && ParseUserIds(userIds).Some? ==> status == Created)
    ensures status != Created ==> drive.db == old(drive.db) && drive.next == old(drive.next)
    ensures status == Created ==>
              && fileId in old(drive.db.files) && requester == Some(old(drive.db.files[fileId].owner))
              && var added := |Recipients(ParseUserIds(userIds).value, old(drive.db.users.Keys))|;
              && drive.next == old(drive.next).(sharing := old(drive.next.sharing) + added)
              && drive.db == old(drive.db).(sharings := Appended(old(drive.db.sharings), old(drive.next.sharing),
                   ShareRows(fileId, requester.value, Recipients(ParseUserIds(userIds).value, old(drive.db.users.Keys)))))
  {
    var gate := FileGate(drive.db, requester, POST, fileId);
    if gate.Some? {
      return gate.value;
    }
    var ids := ParseUserIds(userIds);
    if ids.None? {
      return BadRequest;
    }
    var users := Recipients(ids.value, drive.db.users.Keys);
    var rows := ShareRows(fileId, requester.value, users);
    drive.BulkCreateSharings(rows);
    status := Created;
  }

  // --------------------------------------------------------------- groups

  /** GroupListCreateAPIView.get: the requester's own groups, each with its files. */
  method ListGroups(drive: Drive, requester: Option<UserId>) returns (status: Status, body: set<GroupView>)
    requires drive.Valid() && Resolved(drive.db, requester)
    ensures status == (if requester.None? then Unauthorized else Ok)
    ensures status == Ok ==> forall v :: v in body <==>
              v.id in drive.db.groups && drive.db.groups[v.id].owner == requester.value
              && v == GroupRepresentation(drive.db, v.id)
    ensures status != Ok ==> body == {}
  {
    if requester.None? {
      return Unauthorized, {};
    }
    var db := drive.db;
    body := set g | g in db.groups && db.groups[g].owner == requester.value :: GroupRepresentation(db, g);
    status := Ok;
  }

  /** The files of a sequence, as a set of join rows. */
  function Elements(fs: seq<FileId>): set<FileId>
  {
    set f | f in fs
  }

  /** GroupListCreateAPIView.post with GroupSerializer.create: of the requested
      files, only those the requester owns are joined to the new group. */
  method CreateGroup(drive: Drive, requester: Option<UserId>, input: GroupInput) returns (status: Status, body: Option<GroupView>)
    requires drive.Valid() && Resolved(drive.db, requester)
    modifies drive
    ensures drive.Valid()
    ensures requester.None? ==> status == Unauthorized
    ensures requester.Some? && ValidateGroup(input, false, old(drive.db.files.Keys)).None? ==> status == BadRequest
    ensures requester.Some? && ValidateGroup(input, false, old(drive.db.files.Keys)).Some? ==> status == Created
    ensures status != Created ==> drive.db == old(drive.db) && drive.next == old(drive.next) && body.None?
    ensures status == Created ==>
              var id := old(drive.next.group);
              && id !in old(drive.db.groups) && id in drive.db.groups
              && drive.db == old(drive.db).(groups := old(drive.db.groups)[id := drive.db.groups[id]])
              && drive.next == old(drive.next).(group := id + 1)
              && drive.db.groups[id].name == Trim(input.name.value) && drive.db.groups[id].owner == requester.value
              && (forall f :: f in drive.db.groups[id].files <==>
                    f in input.files.value && old(drive.db.files[f].owner) == requester.value)
              && body == Some(GroupRepresentation(drive.db, id))
  {
    if requester.None? {
      return Unauthorized, None;
    }
    var changes := ValidateGroup(input, false, drive.db.files.Keys);
    if changes.None? {
      return BadRequest, None;
    }
    var kept := KeepOwned(changes.value.files.value, drive.db.files, requester.value);
    var id := drive.InsertGroup(Group(changes.value.name.value, requester.value, Elements(kept)));
    status, body := Created, Some(GroupRepresentation(drive.db, id));
  }

  /** GroupRetrieveUpdateDeleteAPIView.get: any signed-in user may read any group. */
  method RetrieveGroup(drive: Drive, requester: Option<UserId>, groupId: GroupId) returns (status: Status, body: Option<GroupView>)
    requires drive.Valid() && Resolved(drive.db, requester)
    ensures requester.None? ==> status == Unauthorized && body.None?
    ensures requester.Some? && groupId !in drive.db.groups ==> status == NotFound && body.None?
    ensures requester.Some? && groupId in drive.db.groups ==>
              status == Ok && body == Some(GroupRepresentation(drive.db, groupId))
  {
    var gate := GroupGate(drive.db, requester, GET, groupId);
    if gate.Some? {
      return gate.value, None;
    }
    status, body := Ok, Some(GroupRepresentation(drive.db, groupId));
  }

  /** GroupRetrieveUpdateDeleteAPIView.put: the owner only.  The supplied file
      list replaces the group's files as it is, with no owner filter. */
  method UpdateGroup(drive: Drive, requester: Option<UserId>, groupId: GroupId, input: GroupInput)
    returns (status: Status, body: Option<GroupView>)
    requires drive.Valid() && Resolved(drive.db, requester)
    modifies drive
    ensures drive.Valid()
    ensures var gate := GroupGate(old(drive.db), requester, PUT, groupId);
            && (gate.Some? ==> status == gate.value)
            && (gate.None? && ValidateGroup(input, true, old(drive.db.files.Keys)).None? ==> status == BadRequest)
            && (gate.None? && ValidateGroup(input, true, old(drive.db.files.Keys)).Some? ==> status == Ok)
    ensures status != Ok ==> drive.db == old(drive.db) && body.None?
    ensures drive.next == old(drive.next)
    ensures status == Ok ==>
              && groupId in old(drive.db.groups) && requester == Some(old(drive.db.groups[groupId].owner))
              && var g := old(drive.db.groups[groupId]);
              && drive.db == old(drive.db).(groups := old(drive.db.groups)[groupId :=
                   Group(if input.name.Some? then Trim(input.name.value) else g.name,
                         g.owner,
                         if input.files.Some? then Elements(input.files.value) else g.files)])
              && body == Some(GroupRepresentation(drive.db, groupId))
  {
    var gate := GroupGate(drive.db, requester, PUT, groupId);
    if gate.Some? {
      return gate.value, None;
    }
    var changes := ValidateGroup(input, true, drive.db.files.Keys);
    if changes.None? {
      return BadRequest, None;
    }
    var g := drive.db.groups[groupId];
    var updated := Group(if changes.value.name.Some? then changes.value.name.value else g.name,
                         g.owner,
                         if changes.value.files.Some? then Elements(changes.value.files.value) else g.files);
    drive.SaveGroup(groupId, updated);
    status, body := Ok, Some(GroupRepresentation(drive.db, groupId));
  }

  /** GroupRetrieveUpdateDeleteAPIView.delete: the owner only; the files stay. */
  method DestroyGroup(drive: Drive, requester: Option<UserId>, groupId: GroupId) returns (status: Status)
    requires drive.Valid() && Resolved(drive.db, requester)
    modifies drive
    ensures drive.Valid()
    ensures var gate := GroupGate(old(drive.db), requester, DELETE, groupId);
            && (gate.Some? ==> status == gate.value && drive.db == old(drive.db))
            && (gate.None? ==> status == NoContent && drive.db == old(drive.db).(groups := old(drive.db.groups) - {groupId}))
    ensures status == NoContent ==> groupId in old(drive.db.groups) && requester == Some(old(drive.db.groups[groupId].owner))
    ensures drive.next == old(drive.next)
  {
    var gate := GroupGate(drive.db, requester, DELETE, groupId);
    if gate.Some? {
      return gate.value;
    }
    drive.DeleteGroup(groupId);
    status := NoContent;
  }

  // ------------------------------------------------------------- accounts

  /** UserRegistrationAPIView.post: field checks on the trimmed fields, then
      the password check, then the account and its token.  A new account has
      no token yet, so the key returned is the freshly generated one. */
  method Register(drive: Drive, input: RegistrationInput, freshKey: TokenKey) returns (status: Status, token: Option<TokenKey>)
    requires drive.Valid()
    modifies drive
    ensures drive.Valid()
    ensures var cleaned := CleanRegistration(input, old(drive.db.users));
            status == BadRequest <==> cleaned.None? || Validate(cleaned.value).Failure?
    ensures status != BadRequest ==> status == Created
    ensures status == BadRequest ==> drive.db == old(drive.db) && drive.next == old(drive.next) && token.None?
    ensures status == Created ==>
              var id := old(drive.next.user);
              && id !in old(drive.db.users)
              && drive.db == old(drive.db).(users := old(drive.db.users)[id := NewUser(CleanRegistration(input, old(drive.db.users)).value)],
                                            tokens := old(drive.db.tokens)[id := freshKey])
              && drive.next == old(drive.next).(user := id + 1)
              && token == Some(freshKey)
  {
    var cleaned := CleanRegistration(input, drive.db.users);
    if cleaned.None? || Validate(cleaned.value).Failure? {
      return BadRequest, None;
    }
    var id := drive.CreateUser(NewUser(cleaned.value));
    var key := drive.GetOrCreateToken(id, freshKey);
    status, token := Created, Some(key);
  }

  /** The account a username and password identify, if any. */
  predicate Authenticates(users: map<UserId, User>, u: UserId, username: string, password: string)
  {
    u in users && users[u].username == username && users[u].password == password
  }

  /** Usernames are unique, so a username and password identify at most one account. */
  lemma CredentialsIdentifyOneAccount(users: map<UserId, User>, u: UserId, v: UserId, username: string, password: string)
    requires UniqueUsernames(users)
    requires Authenticates(users, u, username, password) && Authenticates(users, v, username, password)
    ensures u == v
  {
  }

  /** UserLoginAPIView.post with the token library's login serializer: the
      username is trimmed and the password is not, both must be filled, and
      the credentials must identify an account; its existing token is
      returned, or one is created. */
  method Login(drive: Drive, username: string, password: string, freshKey: TokenKey)
    returns (status: Status, token: Option<TokenKey>, ghost account: Option<UserId>)
    requires drive.Valid()
    modifies drive
    ensures drive.Valid()
    ensures status == Ok || status == BadRequest
    ensures status == Ok <==> FilledText(Trim(username)) && FilledText(password)
                              && exists u :: Authenticates(old(drive.db.users), u, Trim(username), password)
    ensures status == BadRequest ==> drive.db == old(drive.db) && token.None?
    ensures drive.next == old(drive.next)
    ensures status == Ok ==>
              && account.Some? && Authenticates(old(drive.db.users), account.value, Trim(username), password)
              && (account.value in old(drive.db.tokens) ==>
                    token == Some(old(drive.db.tokens[account.value])) && drive.db == old(drive.db))
              && (account.value !in old(drive.db.tokens) ==>
                    token == Some(freshKey)
                    && drive.db == old(drive.db).(tokens := old(drive.db.tokens)[account.value := freshKey]))
  {
    account := None;
    var name := Trim(username);
    if !FilledText(name) || !FilledText(password) {
      return BadRequest, None, None;
    }
    if !exists u :: u in drive.db.users && Authenticates(drive.db.users, u, name, password) {
      return BadRequest, None, None;
    }
    var u :| u in drive.db.users && Authenticates(drive.db.users, u, name, password);
    var key := drive.GetOrCreateToken(u, freshKey);
    status, token, account := Ok, Some(key), Some(u);
  }
}
