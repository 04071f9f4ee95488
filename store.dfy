/** The database behind drive/models.py as one mutable object.  `db` holds
    every table (each a map from primary key to row), `next` the next value of
    each table's id sequence, and the methods are the ORM calls the views make:
    create, save, delete with its cascade, get_or_create and bulk_create.
    `Valid` holds between any two of them. */
module Store {
  import opened Wrappers
  import opened Models

  /** The next value of each table's primary-key sequence. */
  datatype Sequences = Sequences(user: nat, file: nat, group: nat, permission: nat, sharing: nat)

  /** Every primary key in use was drawn from its table's sequence. */
  ghost predicate IdsBelow(db: Db, next: Sequences)
  {
    && (forall u :: u in db.users ==> u < next.user)
    && (forall f :: f in db.files ==> f < next.file)
    && (forall g :: g in db.groups ==> g < next.group)
    && (forall p :: p in db.permissions ==> p < next.permission)
    && (forall s :: s in db.sharings ==> s < next.sharing)
  }

  lemma AddUserKeepsIdsBelow(db: Db, next: Sequences, user: User)
    requires IdsBelow(db, next)
    ensures IdsBelow(db.(users := db.users[next.user := user]), next.(user := next.user + 1))
  {
  }

  lemma PutFileKeepsIdsBelow(db: Db, next: Sequences, id: FileId, f: File)
    requires IdsBelow(db, next) && id <= next.file
    ensures IdsBelow(db.(files := db.files[id := f]), next.(file := if id == next.file then id + 1 else next.file))
  {
  }

  lemma PutGroupKeepsIdsBelow(db: Db, next: Sequences, id: GroupId, g: Group)
    requires IdsBelow(db, next) && id <= next.group
    ensures IdsBelow(db.(groups := db.groups[id := g]), next.(group := if id == next.group then id + 1 else next.group))
  {
  }

  lemma AddGrantKeepsIdsBelow(db: Db, next: Sequences, p: Permission)
    requires IdsBelow(db, next)
    ensures IdsBelow(db.(permissions := db.permissions[next.permission := p]),
                     next.(permission := next.permission + 1))
  {
  }

  lemma AddSharingsKeepsIdsBelow(db: Db, next: Sequences, rows: seq<Sharing>)
    requires IdsBelow(db, next)
    ensures IdsBelow(db.(sharings := Appended(db.sharings, next.sharing, rows)),
                     next.(sharing := next.sharing + |rows|))
  {
  }

  lemma DeleteFileKeepsIdsBelow(db: Db, f: FileId, next: Sequences)
    requires IdsBelow(db, next)
    ensures IdsBelow(DeleteFileCascade(db, f), next)
  {
  }

  lemma DeleteUserKeepsIdsBelow(db: Db, u: UserId, next: Sequences)
    requires IdsBelow(db, next)
    ensures IdsBelow(DeleteUserCascade(db, u), next)
  {
  }

  /** Sharing rows appended by one bulk insert, numbered consecutively from `next`. */
  function Appended(table: map<SharingId, Sharing>, next: nat, rows: seq<Sharing>): (r: map<SharingId, Sharing>)
    requires forall k :: k in table ==> k < next
    ensures forall k :: k in r <==> k in table || next <= k < next + |rows|
    ensures forall k :: k in table ==> r[k] == table[k]
    ensures forall i :: 0 <= i < |rows| ==> r[next + i] == rows[i]
    decreases |rows|
  {
    if rows == [] then table
    else Appended(table, next, rows[..|rows| - 1])[next + |rows| - 1 := rows[|rows| - 1]]
  }

  /** Every appended row is one of the given rows. */
  lemma AppendedAddsOnlyRows(table: map<SharingId, Sharing>, next: nat, rows: seq<Sharing>)
    requires forall k :: k in table ==> k < next
    ensures var r := Appended(table, next, rows);
            forall k :: k in r ==> k in table || exists i :: 0 <= i < |rows| && r[k] == rows[i]
  {
    var r := Appended(table, next, rows);
    forall k | k in r && k !in table
      ensures exists i :: 0 <= i < |rows| && r[k] == rows[i]
    {
      assert r[next + (k - next)] == rows[k - next];
    }
  }

  /** Appending one row more extends the table by that row. */
  lemma AppendedStep(table: map<SharingId, Sharing>, next: nat, rows: seq<Sharing>, i: nat)
    requires forall k :: k in table ==> k < next
    requires i < |rows|
    ensures Appended(table, next, rows[..i + 1]) == Appended(table, next, rows[..i])[next + i := rows[i]]
  {
    assert rows[..i + 1][..i] == rows[..i];
  }

  /** The same rows appended twice: row i lands at two distinct new ids. */
  lemma AppendedTwice(table: map<SharingId, Sharing>, next: nat, rows: seq<Sharing>, i: nat)
    requires forall k :: k in table ==> k < next
    requires i < |rows|
    ensures var once := Appended(table, next, rows);
            var twice := Appended(once, next + |rows|, rows);
            && next + i in twice && twice[next + i] == rows[i]
            && next + |rows| + i in twice && twice[next + |rows| + i] == rows[i]
  {
    var once := Appended(table, next, rows);
    assert once[next + i] == rows[i];
  }

  /** The insert loop of bulk_create: each row gets the next id of the sequence. */
  method InsertRows(table: map<SharingId, Sharing>, next: nat, rows: seq<Sharing>)
    returns (r: map<SharingId, Sharing>)
    requires forall k :: k in table ==> k < next
    ensures r == Appended(table, next, rows)
  {
    r := table;
    var i := 0;
    while i < |rows|
      invariant 0 <= i <= |rows|
      invariant r == Appended(table, next, rows[..i])
    {
      AppendedStep(table, next, rows, i);
      r := r[next + i := rows[i]];
      i := i + 1;
    }
    assert rows[..i] == rows;
  }

  class Drive {
    var db: Db
    var next: Sequences

    ghost predicate Valid()
      reads this
    {
      Consistent(db) && IdsBelow(db, next)
    }

    constructor ()
      ensures Valid() && db == Db(map[], map[], map[], map[], map[], map[])
      ensures next == Sequences(1, 1, 1, 1, 1)
    {
      db := Db(map[], map[], map[], map[], map[], map[]);
      next := Sequences(1, 1, 1, 1, 1);
    }

    /** User.objects.create_user; the username must not be taken (the unique column). */
    method CreateUser(user: User) returns (id: UserId)
      requires Valid()
      requires forall u :: u in db.users ==> db.users[u].username != user.username
      modifies this
      ensures Valid() && id == old(next.user) && id !in old(db.users)
      ensures db == old(db).(users := old(db.users)[id := user])
      ensures next == old(next).(user := old(next.user) + 1)
    {
      id := next.user;
      AddUserKeepsConsistent(db, id, user);
      AddUserKeepsIdsBelow(db, next, user);
      db := db.(users := db.users[id := user]);
      next := next.(user := next.user + 1);
    }

    /** Token.objects.get_or_create(user=u): the existing token, or a new one with
        the freshly generated key.  A user never holds two tokens. */
    method GetOrCreateToken(u: UserId, freshKey: TokenKey) returns (key: TokenKey)
      requires Valid() && u in db.users
      modifies this
      ensures Valid()
      ensures u in old(db.tokens) ==> key == old(db.tokens[u]) && db == old(db)
      ensures u !in old(db.tokens) ==> key == freshKey && db == old(db).(tokens := old(db.tokens)[u := freshKey])
      ensures next == old(next)
    {
      if u in db.tokens {
        key := db.tokens[u];
      } else {
        key := freshKey;
        AddTokenKeepsConsistent(db, u, key);
        db := db.(tokens := db.tokens[u := key]);
      }
    }

    /** serializer.save on a new file. */
    method InsertFile(f: File) returns (id: FileId)
      requires Valid() && f.owner in db.users && |f.name| <= MaxNameLength
      modifies this
      ensures Valid() && id == old(next.file) && id !in old(db.files)
      ensures db == old(db).(files := old(db.files)[id := f])
      ensures next == old(next).(file := old(next.file) + 1)
    {
      id := next.file;
      PutFileKeepsConsistent(db, id, f);
      PutFileKeepsIdsBelow(db, next, id, f);
      db := db.(files := db.files[id := f]);
      next := next.(file := next.file + 1);
    }

    /** serializer.save on an existing file: the row is overwritten in place. */
    method SaveFile(id: FileId, f: File)
      requires Valid() && id in db.files && f.owner in db.users && |f.name| <= MaxNameLength
      modifies this
      ensures Valid()
      ensures db == old(db).(files := old(db.files)[id := f]) && next == old(next)
    {
      PutFileKeepsConsistent(db, id, f);
      PutFileKeepsIdsBelow(db, next, id, f);
      db := db.(files := db.files[id := f]);
    }

    /** file_obj.delete(): the row goes, with every grant, sharing and group join
        row that references it. */
    method DeleteFile(id: FileId)
      requires Valid()
      modifies this
      ensures Valid()
      ensures db == DeleteFileCascade(old(db), id) && next == old(next)
    {
      DeleteFileKeepsConsistent(db, id);
      DeleteFileKeepsIdsBelow(db, id, next);
      db := DeleteFileCascade(db, id);
    }

    /** serializer.save on a new group, with its join rows. */
    method InsertGroup(g: Group) returns (id: GroupId)
      requires Valid() && g.owner in db.users && g.files <= db.files.Keys && |g.name| <= MaxNameLength
      modifies this
      ensures Valid() && id == old(next.group) && id !in old(db.groups)
      ensures db == old(db).(groups := old(db.groups)[id := g])
      ensures next == old(next).(group := old(next.group) + 1)
    {
      id := next.group;
      PutGroupKeepsConsistent(db, id, g);
      PutGroupKeepsIdsBelow(db, next, id, g);
      db := db.(groups := db.groups[id := g]);
      next := next.(group := next.group + 1);
    }

    /** serializer.save on an existing group: name and join rows are replaced. */
    method SaveGroup(id: GroupId, g: Group)
      requires Valid() && id in db.groups && g.owner in db.users && g.files <= db.files.Keys
      requires |g.name| <= MaxNameLength
      modifies this
      ensures Valid()
      ensures db == old(db).(groups := old(db.groups)[id := g]) && next == old(next)
    {
      PutGroupKeepsConsistent(db, id, g);
      PutGroupKeepsIdsBelow(db, next, id, g);
      db := db.(groups := db.groups[id := g]);
    }

    /** group.delete(): the group and its join rows go; the files stay. */
    method DeleteGroup(id: GroupId)
      requires Valid()
      modifies this
      ensures Valid()
      ensures db == old(db).(groups := old(db.groups) - {id}) && next == old(next)
    {
      RemoveGroupKeepsConsistent(db, id);
      db := db.(groups := db.groups - {id});
    }

    /** Inserting a Permission row.  The (file, user) pair is unique, so a second
        row for a granted pair is refused and nothing is written. */
    method InsertPermission(p: Permission) returns (id: Option<PermissionId>)
      requires Valid() && p.file in db.files && p.user in db.users
      modifies this
      ensures Valid()
      ensures id.None? <==> PairGranted(old(db.permissions), p.file, p.user)
      ensures id.None? ==> db == old(db) && next == old(next)
      ensures id.Some? ==> id.value !in old(db.permissions)
                           && db == old(db).(permissions := old(db.permissions)[id.value := p])
                           && next == old(next).(permission := old(next.permission) + 1)
    {
      if PairGranted(db.permissions, p.file, p.user) {
        id := None;
      } else {
        var k := next.permission;
        AddGrantKeepsConsistent(db, k, p);
        AddGrantKeepsIdsBelow(db, next, p);
        db := db.(permissions := db.permissions[k := p]);
        next := next.(permission := next.permission + 1);
        id := Some(k);
      }
    }

    /** Sharing.objects.bulk_create(rows): one new row per element, in order,
        numbered from the sequence's next value. */
    method BulkCreateSharings(rows: seq<Sharing>)
      requires Valid()
      requires forall i :: 0 <= i < |rows| ==>
                 rows[i].sharedFile in db.files && rows[i].sharedWith in db.users && rows[i].sharedBy in db.users
      modifies this
      ensures Valid()
      ensures next == old(next).(sharing := old(next.sharing) + |rows|)
      ensures db == old(db).(sharings := Appended(old(db.sharings), old(next.sharing), rows))
    {
      var table := InsertRows(db.sharings, next.sharing, rows);
      AppendedAddsOnlyRows(db.sharings, next.sharing, rows);
      AddSharingsKeepsConsistent(db, table);
      AddSharingsKeepsIdsBelow(db, next, rows);
      db := db.(sharings := table);
      next := next.(sharing := next.sharing + |rows|);
    }

    /** Deleting a user with everything that cascades from it. */
    method DeleteUser(u: UserId)
      requires Valid()
      modifies this
      ensures Valid()
      ensures db == DeleteUserCascade(old(db), u) && next == old(next)
    {
      DeleteUserKeepsConsistent(db, u);
      DeleteUserKeepsIdsBelow(db, u, next);
      db := DeleteUserCascade(db, u);
    }
  }
}
