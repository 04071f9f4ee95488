/** The tables of the file-sharing store (drive/models.py) as values:
    users, files, groups with their many-to-many file set, permission grants,
    sharing records and the users' authentication tokens.  A `Db` is one
    snapshot of all tables; `Consistent` is what the database's foreign keys
    and unique constraints guarantee of every snapshot, and the two cascade
    functions say what deleting a file or a user leaves behind. */
module Models {
  import opened Wrappers

  type UserId = nat
  type FileId = nat
  type GroupId = nat
  type PermissionId = nat
  type SharingId = nat

  /** A reference to uploaded content; the storage behind FileField is not modelled. */
  type ContentRef = nat

  /** A token key; keys are generated at random by the token library. */
  type TokenKey = string

  /** max_length of File.name and Group.name. */
  const MaxNameLength: nat := 255

  /** The account fields the core reads; `password` stands for the stored credential. */
  datatype User = User(username: string, email: string, password: string)

  datatype File = File(name: string, content: ContentRef, owner: UserId)

  /** `files` is the many-to-many relation: the join rows of this group. */
  datatype Group = Group(name: string, owner: UserId, files: set<FileId>)

  /** The two PERMISSION_CHOICES, the only values the field's `choices`
      validator accepts. */
  datatype PermissionKind = Read | Change

  datatype Permission = Permission(file: FileId, user: UserId, kind: PermissionKind)

  datatype Sharing = Sharing(sharedFile: FileId, sharedWith: UserId, sharedBy: UserId)

  /** The stored value of each choice. */
  function KindText(k: PermissionKind): string
  {
    match k
    case Read => "read"
    case Change => "change"
  }

  /** The `choices` validator of Permission.permission: only the two choice values are accepted. */
  function ParseKind(s: string): (r: Option<PermissionKind>)
    ensures r.Some? <==> (s == "read" || s == "change")
    ensures r.Some? ==> KindText(r.value) == s
  {
    if s == "read" then Some(Read)
    else if s == "change" then Some(Change)
    else None
  }

  lemma ParseKindInvertsKindText(k: PermissionKind)
    ensures ParseKind(KindText(k)) == Some(k)
  {
  }

  /** Permission.__str__: "<file name> - <kind>". */
  function PermissionStr(fileName: string, k: PermissionKind): (r: string)
    ensures |r| == |fileName| + 3 + |KindText(k)|
    ensures r[..|fileName|] == fileName
    ensures r[|fileName|..|fileName| + 3] == " - "
    ensures r[|fileName| + 3..] == KindText(k)
  {
    fileName + " - " + KindText(k)
  }

  /** Two grants render alike only when they name the same file and kind:
      "read" ends in 'd' and "change" in 'e', so the rendering is unambiguous. */
  lemma {:induction false} PermissionStrUnambiguous(n1: string, k1: PermissionKind, n2: string, k2: PermissionKind)
    requires PermissionStr(n1, k1) == PermissionStr(n2, k2)
    ensures n1 == n2 && k1 == k2
  {
    var s1, s2 := PermissionStr(n1, k1), PermissionStr(n2, k2);
    assert s1[|s1| - 1] == (if k1 == Read then 'd' else 'e');
    assert s2[|s2| - 1] == (if k2 == Read then 'd' else 'e');
    assert k1 == k2;
    assert |n1| == |n2|;
    assert n1 == s1[..|n1|];
    assert n2 == s2[..|n2|];
  }

  /** Sharing.__str__: "<file name> shared with <recipient> by <grantor>". */
  function SharingStr(fileName: string, recipient: string, grantor: string): (r: string)
    ensures |r| == |fileName| + |recipient| + |grantor| + 17
    ensures r[..|fileName|] == fileName
    ensures r[|r| - |grantor|..] == grantor
    ensures r[|fileName|..|fileName| + 13] == " shared with "
    ensures r[|fileName| + 13..|fileName| + 13 + |recipient|] == recipient
    ensures r[|fileName| + 13 + |recipient|..|r| - |grantor|] == " by "
  {
    fileName + " shared with " + recipient + " by " + grantor
  }

  /** One snapshot of every table. */
  datatype Db = Db(
    users: map<UserId, User>,
    files: map<FileId, File>,
    groups: map<GroupId, Group>,
    permissions: map<PermissionId, Permission>,
    sharings: map<SharingId, Sharing>,
    tokens: map<UserId, TokenKey>)

  /** unique_together = ("file", "user"): at most one grant per pair. */
  predicate UniqueGrants(perms: map<PermissionId, Permission>)
  {
    forall p, q :: p in perms && q in perms && p != q ==>
      perms[p].file != perms[q].file || perms[p].user != perms[q].user
  }

  /** User.username is unique. */
  predicate UniqueUsernames(users: map<UserId, User>)
  {
    forall u, v :: u in users && v in users && u != v ==> users[u].username != users[v].username
  }

  /** Every file has an existing owner and a name that fits its column. */
  ghost predicate FilesValid(db: Db)
  {
    forall f :: f in db.files ==> db.files[f].owner in db.users && |db.files[f].name| <= MaxNameLength
  }

  /** Every group has an existing owner, a fitting name and join rows to existing files only. */
  ghost predicate GroupsValid(db: Db)
  {
    forall g :: g in db.groups ==>
      db.groups[g].owner in db.users && db.groups[g].files <= db.files.Keys
      && |db.groups[g].name| <= MaxNameLength
  }

  /** Every grant names an existing file and user, and no pair is granted twice. */
  ghost predicate GrantsValid(db: Db)
  {
    && (forall p :: p in db.permissions ==>
          db.permissions[p].file in db.files && db.permissions[p].user in db.users)
    && UniqueGrants(db.permissions)
  }

  /** Every sharing names an existing file, recipient and grantor. */
  ghost predicate SharingsValid(db: Db)
  {
    forall s :: s in db.sharings ==>
      db.sharings[s].sharedFile in db.files
      && db.sharings[s].sharedWith in db.users && db.sharings[s].sharedBy in db.users
  }

  /** What the schema guarantees of every snapshot: every foreign key names an
      existing row, the unique constraints hold, and names fit their columns. */
  ghost predicate Consistent(db: Db)
  {
    && UniqueUsernames(db.users)
    && FilesValid(db)
    && GroupsValid(db)
    && GrantsValid(db)
    && SharingsValid(db)
    && db.tokens.Keys <= db.users.Keys
  }

  /** Some row still points at file `f`. */
  ghost predicate ReferencesFile(db: Db, f: FileId)
  {
    || (exists p :: p in db.permissions && db.permissions[p].file == f)
    || (exists s :: s in db.sharings && db.sharings[s].sharedFile == f)
    || (exists g :: g in db.groups && f in db.groups[g].files)
  }

  /** Some row still points at user `u`. */
  ghost predicate ReferencesUser(db: Db, u: UserId)
  {
    || (exists f :: f in db.files && db.files[f].owner == u)
    || (exists g :: g in db.groups && db.groups[g].owner == u)
    || (exists p :: p in db.permissions && db.permissions[p].user == u)
    || (exists s :: s in db.sharings && (db.sharings[s].sharedWith == u || db.sharings[s].sharedBy == u))
    || u in db.tokens
  }

  /** Deleting a file: the ForeignKey(File, on_delete=CASCADE) columns of
      Permission and Sharing take their rows with it, and the group join rows go too.
      Only rows that reference the file are removed. */
  function DeleteFileCascade(db: Db, f: FileId): (r: Db)
    ensures f !in r.files && r.files.Keys == db.files.Keys - {f}
    ensures r.users == db.users && r.tokens == db.tokens && r.groups.Keys == db.groups.Keys
    ensures forall g :: g in r.groups ==>
              r.groups[g] == db.groups[g].(files := db.groups[g].files - {f})
    ensures forall p :: p in r.permissions <==> p in db.permissions && db.permissions[p].file != f
    ensures forall s :: s in r.sharings <==> s in db.sharings && db.sharings[s].sharedFile != f
    ensures forall g :: g in r.files ==> r.files[g] == db.files[g]
    ensures forall p :: p in r.permissions ==> r.permissions[p] == db.permissions[p]
    ensures forall s :: s in r.sharings ==> r.sharings[s] == db.sharings[s]
  {
    db.(files := db.files - {f},
        groups := map g | g in db.groups :: db.groups[g].(files := db.groups[g].files - {f}),
        permissions := map p | p in db.permissions && db.permissions[p].file != f :: db.permissions[p],
        sharings := map s | s in db.sharings && db.sharings[s].sharedFile != f :: db.sharings[s])
  }

  /** After a file is deleted nothing points at it any more. */
  lemma DeleteFileLeavesNoReference(db: Db, f: FileId)
    ensures !ReferencesFile(DeleteFileCascade(db, f), f)
  {
    var r := DeleteFileCascade(db, f);
    forall p | p in r.permissions ensures r.permissions[p].file != f {
      assert r.permissions[p] == db.permissions[p];
    }
    forall s | s in r.sharings ensures r.sharings[s].sharedFile != f {
      assert r.sharings[s] == db.sharings[s];
    }
  }

  /** Deleting a file keeps every foreign key and unique constraint intact. */
  lemma DeleteFileKeepsConsistent(db: Db, f: FileId)
    requires Consistent(db)
    ensures Consistent(DeleteFileCascade(db, f))
  {
    DeleteFileKeepsGrants(db, f);
    DeleteFileKeepsSharings(db, f);
    var r := DeleteFileCascade(db, f);
    assert FilesValid(r) && GroupsValid(r);
  }

  lemma DeleteFileKeepsGrants(db: Db, f: FileId)
    requires GrantsValid(db)
    ensures GrantsValid(DeleteFileCascade(db, f))
  {
    var r := DeleteFileCascade(db, f);
    forall p | p in r.permissions
      ensures r.permissions[p].file in r.files && r.permissions[p].user in r.users
    {
      assert r.permissions[p] == db.permissions[p];
    }
    forall p, q | p in r.permissions && q in r.permissions && p != q
      ensures r.permissions[p].file != r.permissions[q].file || r.permissions[p].user != r.permissions[q].user
    {
      assert r.permissions[p] == db.permissions[p] && r.permissions[q] == db.permissions[q];
    }
  }

  lemma DeleteFileKeepsSharings(db: Db, f: FileId)
    requires SharingsValid(db)
    ensures SharingsValid(DeleteFileCascade(db, f))
  {
    var r := DeleteFileCascade(db, f);
    forall s | s in r.sharings
      ensures r.sharings[s].sharedFile in r.files
      ensures r.sharings[s].sharedWith in r.users && r.sharings[s].sharedBy in r.users
    {
      assert r.sharings[s] == db.sharings[s];
    }
  }

  /** The files a user owns. */
  function OwnedFiles(db: Db, u: UserId): set<FileId>
  {
    set f | f in db.files && db.files[f].owner == u
  }

  /** Deleting a user: their files and groups (owner columns), the grants naming
      them, the sharings they received or made and their token go, and so does
      every row hanging off one of their files.  Only those rows are removed. */
  function DeleteUserCascade(db: Db, u: UserId): (r: Db)
    ensures r.users.Keys == db.users.Keys - {u} && r.tokens.Keys == db.tokens.Keys - {u}
    ensures forall v :: v in r.users ==> r.users[v] == db.users[v]
    ensures forall f :: f in r.files <==> f in db.files && db.files[f].owner != u
    ensures forall g :: g in r.groups <==> g in db.groups && db.groups[g].owner != u
    ensures forall g :: g in r.groups ==>
              r.groups[g] == db.groups[g].(files := db.groups[g].files - OwnedFiles(db, u))
    ensures forall p :: p in r.permissions <==>
              p in db.permissions && db.permissions[p].user != u && db.permissions[p].file !in OwnedFiles(db, u)
    ensures forall s :: s in r.sharings <==>
              s in db.sharings && db.sharings[s].sharedWith != u && db.sharings[s].sharedBy != u
              && db.sharings[s].sharedFile !in OwnedFiles(db, u)
    ensures forall f :: f in r.files ==> r.files[f] == db.files[f]
    ensures forall p :: p in r.permissions ==> r.permissions[p] == db.permissions[p]
    ensures forall s :: s in r.sharings ==> r.sharings[s] == db.sharings[s]
    ensures forall v :: v in r.tokens ==> r.tokens[v] == db.tokens[v]
  {
    var gone := OwnedFiles(db, u);
    Db(db.users - {u},
       db.files - gone,
       map g | g in db.groups && db.groups[g].owner != u :: db.groups[g].(files := db.groups[g].files - gone),
       map p | p in db.permissions && db.permissions[p].user != u && db.permissions[p].file !in gone
             :: db.permissions[p],
       map s | s in db.sharings && db.sharings[s].sharedWith != u && db.sharings[s].sharedBy != u
                 && db.sharings[s].sharedFile !in gone
             :: db.sharings[s],
       db.tokens - {u})
  }

  /** After a user is deleted nothing points at the user or at any file the user owned. */
  lemma DeleteUserLeavesNoReference(db: Db, u: UserId)
    ensures !ReferencesUser(DeleteUserCascade(db, u), u)
    ensures forall f :: f in OwnedFiles(db, u) ==> !ReferencesFile(DeleteUserCascade(db, u), f)
  {
    var r := DeleteUserCascade(db, u);
    var gone := OwnedFiles(db, u);
    forall f | f in r.files ensures r.files[f].owner != u {
      assert r.files[f] == db.files[f];
    }
    forall p | p in r.permissions ensures r.permissions[p].user != u && r.permissions[p].file !in gone {
      assert r.permissions[p] == db.permissions[p];
    }
    forall s | s in r.sharings
      ensures r.sharings[s].sharedWith != u && r.sharings[s].sharedBy != u && r.sharings[s].sharedFile !in gone
    {
      assert r.sharings[s] == db.sharings[s];
    }
  }

  /** Deleting a user keeps every foreign key and unique constraint intact. */
  lemma DeleteUserKeepsConsistent(db: Db, u: UserId)
    requires Consistent(db)
    ensures Consistent(DeleteUserCascade(db, u))
  {
    var r := DeleteUserCascade(db, u);
    DeleteUserKeepsFilesAndGroups(db, u);
    DeleteUserKeepsGrants(db, u);
    DeleteUserKeepsSharings(db, u);
    assert UniqueUsernames(r.users);
  }

  lemma DeleteUserKeepsFilesAndGroups(db: Db, u: UserId)
    requires FilesValid(db) && GroupsValid(db)
    ensures FilesValid(DeleteUserCascade(db, u)) && GroupsValid(DeleteUserCascade(db, u))
  {
    var r := DeleteUserCascade(db, u);
    var gone := OwnedFiles(db, u);
    forall f | f in r.files ensures r.files[f].owner in r.users && |r.files[f].name| <= MaxNameLength {
      assert r.files[f] == db.files[f];
    }
    forall g | g in r.groups
      ensures r.groups[g].owner in r.users && r.groups[g].files <= r.files.Keys
    {
      forall f | f in r.groups[g].files ensures f in r.files {
        assert f in db.files && f !in gone;
      }
    }
  }

  lemma DeleteUserKeepsGrants(db: Db, u: UserId)
    requires GrantsValid(db) && FilesValid(db)
    ensures GrantsValid(DeleteUserCascade(db, u))
  {
    var r := DeleteUserCascade(db, u);
    forall p | p in r.permissions
      ensures r.permissions[p].file in r.files && r.permissions[p].user in r.users
    {
      assert r.permissions[p] == db.permissions[p];
    }
    forall p, q | p in r.permissions && q in r.permissions && p != q
      ensures r.permissions[p].file != r.permissions[q].file || r.permissions[p].user != r.permissions[q].user
    {
      assert r.permissions[p] == db.permissions[p] && r.permissions[q] == db.permissions[q];
    }
  }

  lemma DeleteUserKeepsSharings(db: Db, u: UserId)
    requires SharingsValid(db) && FilesValid(db)
    ensures SharingsValid(DeleteUserCascade(db, u))
  {
    var r := DeleteUserCascade(db, u);
    forall s | s in r.sharings
      ensures r.sharings[s].sharedFile in r.files
      ensures r.sharings[s].sharedWith in r.users && r.sharings[s].sharedBy in r.users
    {
      assert r.sharings[s] == db.sharings[s];
    }
  }

  /** A new account with a free username keeps the schema's guarantees. */
  lemma AddUserKeepsConsistent(db: Db, id: UserId, user: User)
    requires Consistent(db) && id !in db.users
    requires forall u :: u in db.users ==> db.users[u].username != user.username
    ensures Consistent(db.(users := db.users[id := user]))
  {
    var r := db.(users := db.users[id := user]);
    assert UniqueUsernames(r.users);
    assert FilesValid(r) && GroupsValid(r) && GrantsValid(r) && SharingsValid(r);
  }

  /** Writing a file row whose owner exists and whose name fits keeps the schema's guarantees. */
  lemma PutFileKeepsConsistent(db: Db, id: FileId, f: File)
    requires Consistent(db)
    requires f.owner in db.users && |f.name| <= MaxNameLength
    ensures Consistent(db.(files := db.files[id := f]))
  {
    var r := db.(files := db.files[id := f]);
    assert FilesValid(r) && GroupsValid(r) && GrantsValid(r) && SharingsValid(r);
  }

  /** Writing a group row over existing files keeps the schema's guarantees. */
  lemma PutGroupKeepsConsistent(db: Db, id: GroupId, g: Group)
    requires Consistent(db)
    requires g.owner in db.users && g.files <= db.files.Keys && |g.name| <= MaxNameLength
    ensures Consistent(db.(groups := db.groups[id := g]))
  {
    var r := db.(groups := db.groups[id := g]);
    assert GroupsValid(r);
  }

  /** Removing a group (and its join rows) keeps the schema's guarantees. */
  lemma RemoveGroupKeepsConsistent(db: Db, id: GroupId)
    requires Consistent(db)
    ensures Consistent(db.(groups := db.groups - {id}))
  {
    var r := db.(groups := db.groups - {id});
    assert GroupsValid(r);
  }

  /** A token for an existing user keeps the schema's guarantees. */
  lemma AddTokenKeepsConsistent(db: Db, u: UserId, key: TokenKey)
    requires Consistent(db) && u in db.users
    ensures Consistent(db.(tokens := db.tokens[u := key]))
  {
    var r := db.(tokens := db.tokens[u := key]);
    assert FilesValid(r) && GroupsValid(r) && GrantsValid(r) && SharingsValid(r);
  }

  /** Some grant row exists for the (file, user) pair. */
  predicate PairGranted(perms: map<PermissionId, Permission>, file: FileId, user: UserId)
  {
    exists q :: q in perms && perms[q].file == file && perms[q].user == user
  }

  /** A new grant for a pair that holds none keeps the schema's guarantees. */
  lemma AddGrantKeepsConsistent(db: Db, id: PermissionId, p: Permission)
    requires Consistent(db) && id !in db.permissions
    requires p.file in db.files && p.user in db.users
    requires !PairGranted(db.permissions, p.file, p.user)
    ensures Consistent(db.(permissions := db.permissions[id := p]))
  {
    var r := db.(permissions := db.permissions[id := p]);
    assert GrantsValid(r);
  }

  /** Added sharing rows that name existing rows keep the schema's guarantees. */
  lemma AddSharingsKeepsConsistent(db: Db, table: map<SharingId, Sharing>)
    requires Consistent(db)
    requires forall s :: s in table ==>
               table[s].sharedFile in db.files && table[s].sharedWith in db.users && table[s].sharedBy in db.users
    ensures Consistent(db.(sharings := table))
  {
    assert SharingsValid(db.(sharings := table));
  }

  /** Sharing has no unique constraint: a snapshot may hold the same
      (file, recipient, grantor) row twice and still be consistent. */
  lemma DuplicateSharingsAllowed(db: Db, s1: SharingId, s2: SharingId, row: Sharing)
    requires Consistent(db) && s1 != s2
    requires row.sharedFile in db.files && row.sharedWith in db.users && row.sharedBy in db.users
    ensures Consistent(db.(sharings := db.sharings[s1 := row][s2 := row]))
  {
    AddSharingsKeepsConsistent(db, db.sharings[s1 := row][s2 := row]);
  }
}
